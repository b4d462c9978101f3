/** The metadata scan of `_readData`: comment lines `# <column> --> <name>`
    of a data file become a map from zero-based column to name. The file is
    given as its sequence of lines, each with its line terminator. */
module Metadata {
  import opened Outcome
  import opened Text

  /** What one line contributes. */
  datatype Directive =
    | NotDirective                    // not a comment, or no `-->` in it
    | Malformed                       // the token before `-->` is not an integer
    | Entry(key: int, name: string)  // column `key + 1` is called `name`

  /** A line the scan looks at: it starts with `#` and contains `-->`
      somewhere. (A line read from a file is never empty.) */
  predicate IsCandidate(l: string)
  {
    |l| > 0 && l[0] == '#' && Contains(l, "-->")
  }

  /** One line, lines 222-232. `ws.index('-->')` is outside the `try`, so a
      `-->` that is not a token of its own is a `ValueError` that ends the
      read; the name `ws[splitidx+1]` is evaluated before the key, so an
      arrow at the end of the line is an `IndexError`; only `int()` of the
      column token is guarded, and a failure there skips the line. */
  function ReadDirective(l: string): Result<Directive>
  {
    if !IsCandidate(l) then Ok(NotDirective)
    else
      SplitHead(l);
      ReadTokens(Split(l))
  }

  /** The tokens of a candidate line; the first token starts with `#`, so it
      is never the arrow and `splitidx - 1` is never negative. */
  function ReadTokens(ws: seq<string>): Result<Directive>
    requires ws == [] || ws[0] != "-->"
  {
    match IndexOf(ws, "-->")
    case None => Err(ValueError)
    case Some(i) =>
      if i + 1 >= |ws| then Err(IndexError)
      else
        match ParseInt(ws[i - 1])
        case None => Ok(Malformed)
        case Some(n) => Ok(Entry(n - 1, ws[i + 1]))
  }

  /** The same line with the `except ValueError` handler as written: it calls
      `sys.stderr.write`, but `sys` is never imported, so the handler itself
      raises `NameError` and a malformed directive ends the read. */
  function ReadDirectiveAsWritten(l: string): Result<Directive>
  {
    match ReadDirective(l)
    case Ok(Malformed) => Err(NameError)
    case r => r
  }

  /** The map after one more line. */
  function Apply(m: map<int, string>, d: Directive): map<int, string>
  {
    match d
    case Entry(k, v) => m[k := v]
    case _ => m
  }

  /** What each line contributes, in file order. */
  function Directives(lines: seq<string>): (rs: seq<Result<Directive>>)
    ensures |rs| == |lines|
  {
    seq(|lines|, i requires 0 <= i < |lines| => ReadDirective(lines[i]))
  }

  /** The map built from the lines' contributions in order, stopping at the
      first line that raises. */
  function Accumulate(rs: seq<Result<Directive>>): Result<map<int, string>>
  {
    if rs == [] then Ok(map[])
    else
      match Accumulate(rs[..|rs| - 1])
      case Err(e) => Err(e)
      case Ok(m) =>
        match rs[|rs| - 1]
        case Err(e) => Err(e)
        case Ok(d) => Ok(Apply(m, d))
  }

  /** The metadata of a whole file. */
  function MetadataOf(lines: seq<string>): Result<map<int, string>>
  {
    Accumulate(Directives(lines))
  }

  /** The loop of `_readData`, updating `metadata` in place line by line. */
  method ScanMetadata(lines: seq<string>) returns (r: Result<map<int, string>>)
    ensures r == MetadataOf(lines)
  {
    ghost var rs := Directives(lines);
    var metadata: map<int, string> := map[];
    for i := 0 to |lines|
      invariant Accumulate(rs[..i]) == Ok(metadata)
    {
      AccumulateSnoc(rs, i);
      match ReadDirective(lines[i]) {
        case Err(e) =>
          AccumulateStopsAtError(rs, i);
          return Err(e);
        case Ok(Entry(k, v)) =>
          metadata := metadata[k := v];
        case Ok(_) =>
      }
    }
    assert rs[..|lines|] == rs;
    r := Ok(metadata);
  }

  // ---------------------------------------------------------------------
  // Properties

  /** The first token of a line that starts with a non-blank character
      starts with that character. */
  lemma SplitHead(l: string)
    requires |l| > 0 && l[0] == '#'
    ensures |Split(l)| > 0 && Split(l)[0][0] == '#' && Split(l)[0] != "-->"
  {
    DropSpacesNone(l);
  }

  lemma AccumulateSnoc(rs: seq<Result<Directive>>, i: nat)
    requires i < |rs|
    ensures Accumulate(rs[..i + 1]) ==
      match Accumulate(rs[..i])
      case Err(e) => Err(e)
      case Ok(m) =>
        match rs[i]
        case Err(e) => Err(e)
        case Ok(d) => Ok(Apply(m, d))
  {
    assert rs[..i + 1][..i] == rs[..i];
  }

  lemma {:induction false} AccumulateStopsAtError(rs: seq<Result<Directive>>, k: nat)
    requires k < |rs|
    requires Accumulate(rs[..k]).Ok? && rs[k].Err?
    ensures Accumulate(rs) == Err(rs[k].error)
  {
    if k == |rs| - 1 {
      assert rs[..|rs| - 1] == rs[..k];
    } else {
      assert rs[..|rs| - 1][..k] == rs[..k];
      AccumulateStopsAtError(rs[..|rs| - 1], k);
    }
  }

  /** One more line: its contribution is applied to the map so far. */
  lemma MetadataSnoc(lines: seq<string>, l: string)
    ensures MetadataOf(lines + [l]) ==
      match MetadataOf(lines)
      case Err(e) => Err(e)
      case Ok(m) =>
        match ReadDirective(l)
        case Err(e) => Err(e)
        case Ok(d) => Ok(Apply(m, d))
  {
    var rs := Directives(lines + [l]);
    assert rs[..|lines|] == Directives(lines);
    assert rs[..|lines| + 1] == rs;
    AccumulateSnoc(rs, |lines|);
  }

  /** A line that does not start with `#`, or has no `-->`, leaves the map as it was. */
  lemma IgnoredLine(lines: seq<string>, l: string)
    requires !(|l| > 0 && l[0] == '#') || !Contains(l, "-->")
    ensures MetadataOf(lines + [l]) == MetadataOf(lines)
  {
    MetadataSnoc(lines, l);
  }

  /** A malformed directive leaves the map as it was and the scan goes on. */
  lemma MalformedSkipped(lines: seq<string>, l: string)
    requires ReadDirective(l) == Ok(Malformed)
    ensures MetadataOf(lines + [l]) == MetadataOf(lines)
  {
    MetadataSnoc(lines, l);
  }

  /** A directive sets its column's name, replacing any earlier one, and
      leaves every other column as it was. */
  lemma DirectiveOverwrites(lines: seq<string>, l: string, k: int, v: string)
    requires MetadataOf(lines).Ok?
    requires ReadDirective(l) == Ok(Entry(k, v))
    ensures MetadataOf(lines + [l]) == Ok(MetadataOf(lines).value[k := v])
  {
    MetadataSnoc(lines, l);
  }

  /** Contribution `r` is a well-formed directive for column `k`. */
  predicate SetsKey(r: Result<Directive>, k: int)
  {
    r.Ok? && r.value.Entry? && r.value.key == k
  }

  /** The accumulation fails exactly when some contribution is an error. */
  lemma {:induction false} AccumulateFails(rs: seq<Result<Directive>>)
    ensures Accumulate(rs).Err? <==> exists i :: 0 <= i < |rs| && rs[i].Err?
  {
    if rs != [] {
      var init := rs[..|rs| - 1];
      AccumulateFails(init);
      assert forall i :: 0 <= i < |init| ==> rs[i] == init[i];
    }
  }

  /** The scan fails exactly when some line raises. */
  lemma MetadataFails(lines: seq<string>)
    ensures MetadataOf(lines).Err? <==> exists i :: 0 <= i < |lines| && ReadDirective(lines[i]).Err?
  {
    var rs := Directives(lines);
    AccumulateFails(rs);
    assert forall i :: 0 <= i < |lines| ==> rs[i] == ReadDirective(lines[i]);
  }

  lemma {:induction false} AccumulateEntries(rs: seq<Result<Directive>>, k: int)
    requires Accumulate(rs).Ok?
    ensures k in Accumulate(rs).value <==> exists i :: 0 <= i < |rs| && SetsKey(rs[i], k)
    ensures k in Accumulate(rs).value ==>
      exists i :: 0 <= i < |rs| && SetsKey(rs[i], k)
        && Accumulate(rs).value[k] == rs[i].value.name
        && forall j :: i < j < |rs| ==> !SetsKey(rs[j], k)
  {
    if rs != [] {
      var init, last := rs[..|rs| - 1], rs[|rs| - 1];
      AccumulateEntries(init, k);
      assert forall i :: 0 <= i < |init| ==> rs[i] == init[i];
      var m := Accumulate(init).value;
      if !SetsKey(last, k) && k in m {
        var i :| 0 <= i < |init| && SetsKey(init[i], k)
          && m[k] == init[i].value.name
          && forall j :: i < j < |init| ==> !SetsKey(init[j], k);
        assert forall j :: i < j < |rs| ==> !SetsKey(rs[j], k);
      }
    }
  }

  /** The map holds column `k` exactly when some line is a well-formed
      directive for it, and its name is that of the LAST such line. */
  lemma MetadataEntries(lines: seq<string>, k: int)
    requires MetadataOf(lines).Ok?
    ensures k in MetadataOf(lines).value <==> exists i :: 0 <= i < |lines| && SetsKey(ReadDirective(lines[i]), k)
    ensures k in MetadataOf(lines).value ==>
      exists i :: 0 <= i < |lines| && SetsKey(ReadDirective(lines[i]), k)
        && MetadataOf(lines).value[k] == ReadDirective(lines[i]).value.name
        && forall j :: i < j < |lines| ==> !SetsKey(ReadDirective(lines[j]), k)
  {
    var rs := Directives(lines);
    AccumulateEntries(rs, k);
    assert forall i :: 0 <= i < |lines| ==> rs[i] == ReadDirective(lines[i]);
  }

  // ---------------------------------------------------------------------
  // The directive format `# <column> --> <name>` (comment at line 219)

  /** A directive line as a file holds it. */
  function DirectiveLine(column: string, name: string): string
  {
    "# " + column + " --> " + name + "\n"
  }

  lemma DirectiveLineTokens(column: string, name: string)
    requires column != [] && NoSpace(column)
    requires name != [] && NoSpace(name)
    ensures Split(DirectiveLine(column, name)) == ["#", column, "-->", name]
  {
    var ws := ["#", column, "-->", name];
    assert Join(ws[2..]) == "-->" + " " + name;
    assert Join(ws[1..]) == column + " " + ("-->" + " " + name);
    assert Join(ws) + "\n" == DirectiveLine(column, name);
    SplitJoin(ws, "\n");
  }

  lemma DirectiveLineCandidate(column: string, name: string)
    ensures IsCandidate(DirectiveLine(column, name))
  {
    var l := DirectiveLine(column, name);
    assert OccursAt(l, "-->", |column| + 3);
  }

  /** A directive line is read by its column token alone: an integer `n`
      gives the entry `n - 1 |-> name`, anything else is malformed. */
  lemma ReadDirectiveLine(column: string, name: string)
    requires column != [] && NoSpace(column) && column != "-->"
    requires name != [] && NoSpace(name)
    ensures ReadDirective(DirectiveLine(column, name)) ==
      match ParseInt(column)
      case Some(n) => Ok(Entry(n - 1, name))
      case None => Ok(Malformed)
  {
    DirectiveLineTokens(column, name);
    DirectiveLineCandidate(column, name);
    DirectiveTokens(column, name);
  }

  /** The tokens of a directive line: the arrow is the third. */
  lemma DirectiveTokens(column: string, name: string)
    requires column != "-->"
    ensures ReadTokens(["#", column, "-->", name]) ==
      match ParseInt(column)
      case Some(n) => Ok(Entry(n - 1, name))
      case None => Ok(Malformed)
  {
    var ws := ["#", column, "-->", name];
    assert ws[..2] == ["#", column];
    FirstIndex(ws, "-->", 2);
  }

  /** The first occurrence is the one `list.index` finds. */
  lemma FirstIndex(ws: seq<string>, x: string, i: nat)
    requires i < |ws| && ws[i] == x && x !in ws[..i]
    ensures IndexOf(ws, x) == Some(i)
  {
    var j := IndexOf(ws, x).value;
    assert i <= j by {
      assert forall k :: 0 <= k < i ==> ws[..i][k] == ws[k];
    }
    assert j <= i by {
      assert forall k :: 0 <= k < j ==> ws[..j][k] == ws[k];
    }
  }

  /** A column number written by `str()` is never the arrow. */
  lemma ShowIntNotArrow(n: int)
    ensures ShowInt(n) != "-->"
  {
    if n < 0 {
      assert ShowInt(n)[1..] == ShowNat(-n);
      assert IsDigit(ShowInt(n)[1]);
    } else {
      assert IsDigit(ShowInt(n)[0]);
    }
  }

  /** Writing column `k` (one-based) and a name as a directive and reading
      it back gives the entry `k - 1 |-> name`. */
  lemma DirectiveRoundTrip(k: int, name: string)
    requires name != [] && NoSpace(name)
    ensures ReadDirective(DirectiveLine(ShowInt(k), name)) == Ok(Entry(k - 1, name))
  {
    ShowIntNotArrow(k);
    ReadDirectiveLine(ShowInt(k), name);
    ParseShowInt(k);
  }

  /** A directive whose column token is not an integer is skipped by the
      intended handler but aborts the read as the handler is written. */
  lemma MalformedDirective(column: string, name: string)
    requires column != [] && NoSpace(column) && column != "-->"
    requires name != [] && NoSpace(name)
    requires ParseInt(column).None?
    ensures ReadDirective(DirectiveLine(column, name)) == Ok(Malformed)
    ensures ReadDirectiveAsWritten(DirectiveLine(column, name)) == Err(NameError)
    ensures forall lines :: MetadataOf(lines + [DirectiveLine(column, name)]) == MetadataOf(lines)
  {
    ReadDirectiveLine(column, name);
    forall lines | true
      ensures MetadataOf(lines + [DirectiveLine(column, name)]) == MetadataOf(lines)
    {
      MalformedSkipped(lines, DirectiveLine(column, name));
    }
  }

  /** The header line `# x --> Time`: as written it aborts the read with
      NameError; with the intended handler the file has no metadata. */
  lemma ExampleMalformed()
    ensures ReadDirectiveAsWritten("# x --> Time\n") == Err(NameError)
    ensures MetadataOf(["# x --> Time\n"]) == Ok(map[])
  {
    assert ParseInt("x").None? by {
      assert Strip("x") == "x" by {
        assert DropSpaces("x") == "x";
        assert DropTrailingSpaces("x") == "x";
      }
      assert LeadingDigits("x") == [];
    }
    assert DirectiveLine("x", "Time") == "# x --> Time\n";
    MalformedDirective("x", "Time");
    MetadataSnoc([], "# x --> Time\n");
    assert [] + ["# x --> Time\n"] == ["# x --> Time\n"];
    var none: seq<string> := [];
    assert MetadataOf(none) == Ok(map[]);
  }

  /** A `-->` glued to its neighbours is not a token of its own, and
      `ws.index` raises outside the `try`: the read fails. */
  lemma GluedArrow(w: string)
    requires w != [] && NoSpace(w) && w != "-->"
    requires Contains(w, "-->")
    ensures ReadDirective("# " + w + "\n") == Err(ValueError)
  {
    var l := "# " + w + "\n";
    assert Join(["#", w]) + "\n" == l;
    SplitJoin(["#", w], "\n");
    var i :| 0 <= i <= |w| - 3 && OccursAt(w, "-->", i);
    assert l[i + 2..i + 5] == w[i..i + 3];
    assert OccursAt(l, "-->", i + 2);
    assert ["#", w][..1] == ["#"];
  }

  /** An arrow with nothing after it: `ws[splitidx+1]` raises IndexError,
      which the `except ValueError` does not catch, and the read fails. */
  lemma TrailingArrow(column: string)
    requires column != [] && NoSpace(column) && column != "-->"
    ensures ReadDirective("# " + column + " -->\n") == Err(IndexError)
  {
    var l := "# " + column + " -->\n";
    var ws := ["#", column, "-->"];
    assert ws[1..][1..] == ["-->"];
    assert Join(ws[1..]) == column + " " + "-->";
    assert Join(ws) + "\n" == l;
    SplitJoin(ws, "\n");
    assert OccursAt(l, "-->", |column| + 3);
    assert ReadDirective(l) == ReadTokens(ws);
    assert ws[..2] == ["#", column];
    FirstIndex(ws, "-->", 2);
  }

  /** A file whose only directive is `# 2 --> Time` has the metadata {1: "Time"}. */
  lemma ExampleSingleDirective()
    ensures MetadataOf([DirectiveLine("2", "Time")]) == Ok(map[1 := "Time"])
  {
    assert ShowInt(2) == "2";
    DirectiveRoundTrip(2, "Time");
    MetadataSnoc([], DirectiveLine("2", "Time"));
    assert [] + [DirectiveLine("2", "Time")] == [DirectiveLine("2", "Time")];
  }
}
