/** `_parseColumns`: the column specification ("1 2", "1 3-5 2", or the list
    argparse collects after `-c`) expanded to zero-based column indices. */
module Columns {
  import opened Outcome
  import opened Text

  /** The argument as the source receives it: the configured default is one
      string, the command-line value is a list of tokens. */
  datatype ColumnsArg = AsString(text: string) | AsList(items: seq<string>)

  /** One token of the specification, with its one-based numbers. */
  datatype Token = Single(n: int) | Range(lo: nat, hi: nat)

  /** A string is split on whitespace; a list is taken as it is. */
  function TokensOf(arg: ColumnsArg): seq<string>
  {
    match arg
    case AsString(s) => Split(s)
    case AsList(items) => items
  }

  /** `re.match('(\d+)-(\d+)', c)`: digits, a dash and digits at the START of
      the token, whatever follows; the two groups as numbers. */
  function RangeMatch(c: string): Option<(nat, nat)>
  {
    var first := LeadingDigits(c);
    if first == [] || |first| == |c| || c[|first|] != '-' then None
    else
      var second := LeadingDigits(c[|first| + 1..]);
      if second == [] then None else Some((DigitsValue(first), DigitsValue(second)))
  }

  /** A range when the regular expression matches, otherwise `int(c)`. */
  function ClassifyToken(c: string): Result<Token>
  {
    match RangeMatch(c)
    case Some((a, b)) => Ok(Range(a, b))
    case None =>
      match ParseInt(c)
      case Some(n) => Ok(Single(n))
      case None => Err(ValueError)
  }

  /** Python's `range(lo, hi)`. */
  function Interval(lo: int, hi: int): (r: seq<int>)
    ensures |r| == if lo < hi then hi - lo else 0
    ensures forall i :: 0 <= i < |r| ==> r[i] == lo + i
    decreases hi - lo
  {
    if lo < hi then [lo] + Interval(lo + 1, hi) else []
  }

  /** The one-based numbers a token stands for. */
  function Expansion(t: Token): seq<int>
  {
    match t
    case Single(n) => [n]
    case Range(a, b) => Interval(a, b + 1)
  }

  /** How many numbers a token stands for. */
  function Size(t: Token): nat
  {
    match t
    case Single(_) => 1
    case Range(a, b) => if a <= b then b - a + 1 else 0
  }

  function TotalSize(ts: seq<Token>): nat
  {
    if ts == [] then 0 else TotalSize(ts[..|ts| - 1]) + Size(ts[|ts| - 1])
  }

  /** The tokens' numbers, token after token. */
  function Expand(ts: seq<Token>): seq<int>
  {
    if ts == [] then [] else Expand(ts[..|ts| - 1]) + Expansion(ts[|ts| - 1])
  }

  /** The tokens' classifications, in order. */
  function Classified(cs: seq<string>): (rs: seq<Result<Token>>)
    ensures |rs| == |cs|
  {
    seq(|cs|, i requires 0 <= i < |cs| => ClassifyToken(cs[i]))
  }

  /** All classified tokens, or the first error among them: the loop stops
      at the first token that raises. */
  function Collect(rs: seq<Result<Token>>): Result<seq<Token>>
  {
    if rs == [] then Ok([])
    else
      match Collect(rs[..|rs| - 1])
      case Err(e) => Err(e)
      case Ok(ts) =>
        match rs[|rs| - 1]
        case Err(e) => Err(e)
        case Ok(t) => Ok(ts + [t])
  }

  /** `map(lambda x: x - 1, tmp)`. */
  function ToZeroBased(xs: seq<int>): seq<int>
  {
    seq(|xs|, i requires 0 <= i < |xs| => xs[i] - 1)
  }

  /** What `_parseColumns` returns for an argument. */
  function ColumnIndices(arg: ColumnsArg): Result<seq<int>>
  {
    match Collect(Classified(TokensOf(arg)))
    case Err(e) => Err(e)
    case Ok(ts) => Ok(ToZeroBased(Expand(ts)))
  }

  /** `_parseColumns` as the source runs it: `tmp` grows token by token. */
  method ParseColumns(arg: ColumnsArg) returns (r: Result<seq<int>>)
    ensures r == ColumnIndices(arg)
  {
    var columns := TokensOf(arg);
    var expanded := ExpandTokens(columns);
    match expanded {
      case Err(e) => r := Err(e);
      case Ok(tmp) => r := Ok(ToZeroBased(tmp));
    }
  }

  /** The numbers the tokens of `rs` expand to, or the first error among them. */
  function Expanded(rs: seq<Result<Token>>): Result<seq<int>>
  {
    match Collect(rs)
    case Err(e) => Err(e)
    case Ok(ts) => Ok(Expand(ts))
  }

  /** The `for` loop of `_parseColumns`: each token's numbers appended to
      `tmp`, stopping at the first token `int` refuses. */
  method ExpandTokens(columns: seq<string>) returns (r: Result<seq<int>>)
    ensures r == Expanded(Classified(columns))
  {
    var tmp: seq<int> := [];
    for i := 0 to |columns|
      invariant Expanded(Classified(columns)[..i]) == Ok(tmp)
    {
      match RangeMatch(columns[i]) {
        case Some((a, b)) =>
          StepRange(columns, i, tmp, a, b);
          tmp := tmp + Interval(a, b + 1);
        case None =>
          match ParseInt(columns[i]) {
            case Some(n) =>
              StepSingle(columns, i, tmp, n);
              tmp := tmp + [n];
            case None =>
              StepFails(columns, i, tmp);
              return Err(ValueError);
          }
      }
    }
    assert Classified(columns)[..|columns|] == Classified(columns);
    r := Ok(tmp);
  }

  // ---------------------------------------------------------------------
  // Properties

  lemma ClassifiedAt(cs: seq<string>, i: nat)
    requires i < |cs|
    ensures Classified(cs)[i] == ClassifyToken(cs[i])
  {
  }

  lemma ClassifyRange(c: string, a: nat, b: nat)
    requires RangeMatch(c) == Some((a, b))
    ensures ClassifyToken(c) == Ok(Range(a, b))
  {
  }

  /** A range token: its interval is appended. */
  lemma StepRange(cs: seq<string>, i: nat, tmp: seq<int>, a: nat, b: nat)
    requires i < |cs| && RangeMatch(cs[i]) == Some((a, b))
    requires Expanded(Classified(cs)[..i]) == Ok(tmp)
    ensures Expanded(Classified(cs)[..i + 1]) == Ok(tmp + Interval(a, b + 1))
  {
    ClassifiedAt(cs, i);
    ClassifyRange(cs[i], a, b);
    Advance(Classified(cs), i, tmp, Range(a, b), Interval(a, b + 1));
  }

  /** An integer token: its number is appended. */
  lemma StepSingle(cs: seq<string>, i: nat, tmp: seq<int>, n: int)
    requires i < |cs| && RangeMatch(cs[i]).None? && ParseInt(cs[i]) == Some(n)
    requires Expanded(Classified(cs)[..i]) == Ok(tmp)
    ensures Expanded(Classified(cs)[..i + 1]) == Ok(tmp + [n])
  {
    ClassifiedAt(cs, i);
    Advance(Classified(cs), i, tmp, Single(n), [n]);
  }

  /** Any other token: `int` raises and the whole parse fails. */
  lemma StepFails(cs: seq<string>, i: nat, tmp: seq<int>)
    requires i < |cs| && RangeMatch(cs[i]).None? && ParseInt(cs[i]).None?
    requires Expanded(Classified(cs)[..i]) == Ok(tmp)
    ensures Expanded(Classified(cs)) == Err(ValueError)
  {
    ClassifiedAt(cs, i);
    CollectStopsAtError(Classified(cs), i);
  }

  /** One more token classified: it is collected and its expansion appended. */
  lemma Advance(rs: seq<Result<Token>>, i: nat, tmp: seq<int>, t: Token, more: seq<int>)
    requires i < |rs| && rs[i] == Ok(t)
    requires Expanded(rs[..i]) == Ok(tmp)
    requires more == Expansion(t)
    ensures Expanded(rs[..i + 1]) == Ok(tmp + more)
  {
    CollectSnoc(rs, i);
    ExpandSnoc(Collect(rs[..i]).value, t);
  }

  lemma CollectSnoc(rs: seq<Result<Token>>, i: nat)
    requires i < |rs|
    ensures Collect(rs[..i + 1]) ==
      match Collect(rs[..i])
      case Err(e) => Err(e)
      case Ok(ts) =>
        match rs[i]
        case Err(e) => Err(e)
        case Ok(t) => Ok(ts + [t])
  {
    assert rs[..i + 1][..i] == rs[..i];
  }

  lemma CollectOne(r: Result<Token>)
    ensures Collect([r]) == match r case Ok(t) => Ok([t]) case Err(e) => Err(e)
  {
    var rs := [r];
    var none: seq<Token> := [];
    assert rs[..0] == [];
    if r.Ok? {
      assert none + [r.value] == [r.value];
    }
  }

  lemma ExpandOne(t: Token)
    ensures Expand([t]) == Expansion(t)
  {
    var none: seq<Token> := [];
    assert [t][..0] == none;
  }

  lemma ExpandSnoc(ts: seq<Token>, t: Token)
    ensures Expand(ts + [t]) == Expand(ts) + Expansion(t)
  {
    assert (ts + [t])[..|ts|] == ts;
  }

  /** Once a token fails, the whole specification fails with that error. */
  lemma {:induction false} CollectStopsAtError(rs: seq<Result<Token>>, k: nat)
    requires k < |rs|
    requires Collect(rs[..k]).Ok? && rs[k].Err?
    ensures Collect(rs) == Err(rs[k].error)
  {
    if k == |rs| - 1 {
      assert rs[..|rs| - 1] == rs[..k];
    } else {
      assert rs[..|rs| - 1][..k] == rs[..k];
      CollectStopsAtError(rs[..|rs| - 1], k);
    }
  }

  /** The tokens are all classified exactly when none fails, and then in order;
      otherwise the error is that of the first failing token. */
  lemma {:induction false} CollectMeaning(rs: seq<Result<Token>>)
    ensures Collect(rs).Ok? <==> forall i :: 0 <= i < |rs| ==> rs[i].Ok?
    ensures Collect(rs).Ok? ==> |Collect(rs).value| == |rs|
    ensures Collect(rs).Ok? ==> forall i :: 0 <= i < |rs| ==> rs[i] == Ok(Collect(rs).value[i])
    ensures Collect(rs).Err? ==>
      exists k :: 0 <= k < |rs| && rs[k] == Err(Collect(rs).error) && forall j :: 0 <= j < k ==> rs[j].Ok?
  {
    if rs != [] {
      var init := rs[..|rs| - 1];
      CollectMeaning(init);
      assert forall i :: 0 <= i < |init| ==> rs[i] == init[i];
    }
  }

  /** A token fails only as `int()` fails, with a `ValueError`. */
  lemma ClassifyTokenError(c: string)
    ensures ClassifyToken(c).Err? ==> ClassifyToken(c).error == ValueError
  {
  }

  /** `_parseColumns` fails exactly when some token is neither a range nor an
      integer, and then with a `ValueError`. */
  lemma ColumnIndicesFails(arg: ColumnsArg)
    ensures ColumnIndices(arg).Err? <==> exists i :: 0 <= i < |TokensOf(arg)| && ClassifyToken(TokensOf(arg)[i]).Err?
    ensures ColumnIndices(arg).Err? ==> ColumnIndices(arg) == Err(ValueError)
  {
    var cs := TokensOf(arg);
    var rs := Classified(cs);
    CollectMeaning(rs);
    if Collect(rs).Err? {
      var k :| 0 <= k < |rs| && rs[k] == Err(Collect(rs).error) && forall j :: 0 <= j < k ==> rs[j].Ok?;
      ClassifyTokenError(cs[k]);
    } else {
      assert forall i :: 0 <= i < |cs| ==> rs[i] == ClassifyToken(cs[i]);
    }
  }

  lemma ExpansionSize(t: Token)
    ensures |Expansion(t)| == Size(t)
  {
  }

  /** One number per plain integer and `b - a + 1` per range `a-b` with `a <= b`. */
  lemma {:induction false} ExpandLength(ts: seq<Token>)
    ensures |Expand(ts)| == TotalSize(ts)
  {
    if ts != [] {
      ExpandLength(ts[..|ts| - 1]);
      ExpansionSize(ts[|ts| - 1]);
    }
  }

  /** A range token contributes its bounds' numbers in ascending order; a
      reversed range `a-b` with `a > b` contributes nothing. */
  lemma RangeExpansion(a: nat, b: nat)
    ensures |Expansion(Range(a, b))| == if a <= b then b - a + 1 else 0
    ensures forall i :: 0 <= i < |Expansion(Range(a, b))| ==> Expansion(Range(a, b))[i] == a + i
  {
  }

  /** Every output is the corresponding one-based number minus one, and there
      are as many outputs as the tokens stand for: no sorting, no removal of
      duplicates, no check that the number was at least one. */
  lemma ColumnIndicesMeaning(arg: ColumnsArg)
    requires ColumnIndices(arg).Ok?
    ensures var ts := Collect(Classified(TokensOf(arg))).value;
      && |ts| == |TokensOf(arg)|
      && |ColumnIndices(arg).value| == TotalSize(ts)
      && forall i :: 0 <= i < |ColumnIndices(arg).value| ==> ColumnIndices(arg).value[i] == Expand(ts)[i] - 1
  {
    CollectMeaning(Classified(TokensOf(arg)));
    ExpandLength(Collect(Classified(TokensOf(arg))).value);
  }

  lemma LeadingDigitsAll(s: string)
    requires AllDigits(s)
    ensures LeadingDigits(s) == s
  {
    if s != [] {
      LeadingDigitsAll(s[1..]);
    }
  }

  lemma {:induction false} LeadingDigitsOfPrefix(d: string, rest: string)
    requires AllDigits(d)
    requires rest == [] || !IsDigit(rest[0])
    ensures LeadingDigits(d + rest) == d
  {
    if d != [] {
      assert (d + rest)[1..] == d[1..] + rest;
      LeadingDigitsOfPrefix(d[1..], rest);
    }
  }

  /** A number written out by `str()` is never mistaken for a range. */
  lemma ShowIntToken(n: int)
    ensures ClassifyToken(ShowInt(n)) == Ok(Single(n))
  {
    var c := ShowInt(n);
    if n >= 0 {
      LeadingDigitsAll(c);
    } else {
      assert c[0] == '-';
    }
    ParseShowInt(n);
  }

  /** The tokens that name the zero-based columns `cols` one-based. */
  function OneBased(cols: seq<int>): (cs: seq<string>)
    ensures |cs| == |cols|
    ensures forall i :: 0 <= i < |cs| ==> cs[i] != [] && NoSpace(cs[i])
  {
    seq(|cols|, i requires 0 <= i < |cols| => ShowInt(cols[i] + 1))
  }

  /** Plain integer tokens expand to themselves. */
  lemma {:induction false} ExpandSingles(ns: seq<int>)
    ensures Expand(seq(|ns|, i requires 0 <= i < |ns| => Single(ns[i]))) == ns
  {
    if ns != [] {
      var init := ns[..|ns| - 1];
      var ts := seq(|ns|, i requires 0 <= i < |ns| => Single(ns[i]));
      assert ts[..|ns| - 1] == seq(|init|, i requires 0 <= i < |init| => Single(init[i]));
      ExpandSingles(init);
      assert ns == init + [ns[|ns| - 1]];
    }
  }

  lemma ClassifyOneBased(cols: seq<int>)
    ensures Collect(Classified(OneBased(cols))) == Ok(seq(|cols|, i requires 0 <= i < |cols| => Single(cols[i] + 1)))
  {
    var rs := Classified(OneBased(cols));
    forall i | 0 <= i < |cols|
      ensures rs[i] == Ok(Single(cols[i] + 1))
    {
      ShowIntToken(cols[i] + 1);
    }
    CollectMeaning(rs);
    var ts := Collect(rs).value;
    var singles := seq(|cols|, i requires 0 <= i < |cols| => Single(cols[i] + 1));
    assert forall i :: 0 <= i < |cols| ==> ts[i] == singles[i];
    assert ts == singles;
  }

  /** Only the tokens matter, not whether they came as one string or a list. */
  lemma SameTokens(a1: ColumnsArg, a2: ColumnsArg)
    requires TokensOf(a1) == TokensOf(a2)
    ensures ColumnIndices(a1) == ColumnIndices(a2)
  {
  }

  /** Naming zero-based column indices one-based, one token each, and parsing
      the tokens gives the indices back, in order and with duplicates. */
  lemma ColumnsRoundTrip(cols: seq<int>)
    ensures ColumnIndices(AsList(OneBased(cols))) == Ok(cols)
  {
    ClassifyOneBased(cols);
    var ns := seq(|cols|, i requires 0 <= i < |cols| => cols[i] + 1);
    ExpandSingles(ns);
    assert seq(|ns|, i requires 0 <= i < |ns| => Single(ns[i])) == seq(|cols|, i requires 0 <= i < |cols| => Single(cols[i] + 1));
    assert ToZeroBased(ns) == cols;
  }

  /** The same for the indices written out as one space-separated string, the
      form of the configured default. */
  lemma ColumnsStringRoundTrip(cols: seq<int>)
    ensures ColumnIndices(AsString(Join(OneBased(cols)))) == Ok(cols)
  {
    SplitJoin(OneBased(cols), "");
    assert Join(OneBased(cols)) + "" == Join(OneBased(cols));
    SameTokens(AsString(Join(OneBased(cols))), AsList(OneBased(cols)));
    ColumnsRoundTrip(cols);
  }

  lemma DigitLiterals()
    ensures ShowInt(0) == "0" && ShowInt(1) == "1" && ShowInt(2) == "2"
    ensures AllDigits("3") && AllDigits("5") && DigitsValue("3") == 3 && DigitsValue("5") == 5
  {
  }

  lemma RangeLiteral()
    ensures ClassifyToken("3-5") == Ok(Range(3, 5))
  {
    DigitLiterals();
    RangeTokenAnchored("3", "5", "");
    assert "3" + "-" + "5" + "" == "3-5";
  }

  /** `x` is neither a range nor an integer. */
  lemma NotAnInteger()
    ensures ClassifyToken("x") == Err(ValueError)
  {
    assert LeadingDigits("x") == [];
    assert Strip("x") == "x" by {
      assert DropSpaces("x") == "x";
      assert DropTrailingSpaces("x") == "x";
    }
    assert !AllDigits("x");
  }

  lemma {:induction false} CollectOks(ts: seq<Token>)
    ensures Collect(seq(|ts|, i requires 0 <= i < |ts| => Ok(ts[i]))) == Ok(ts)
  {
    if ts != [] {
      var rs := seq(|ts|, i requires 0 <= i < |ts| => Ok(ts[i]));
      var init := ts[..|ts| - 1];
      assert rs[..|ts| - 1] == seq(|init|, i requires 0 <= i < |init| => Ok(init[i]));
      CollectOks(init);
      assert init + [ts[|ts| - 1]] == ts;
    }
  }

  lemma ColumnIndicesOfList(cs: seq<string>, ts: seq<Token>)
    requires Classified(cs) == seq(|ts|, i requires 0 <= i < |ts| => Ok(ts[i]))
    ensures ColumnIndices(AsList(cs)) == Ok(ToZeroBased(Expand(ts)))
  {
    CollectOks(ts);
  }

  lemma MixedClassified()
    ensures Classified(["1", "3-5", "2"]) == [Ok(Single(1)), Ok(Range(3, 5)), Ok(Single(2))]
  {
    RangeLiteral();
    DigitLiterals();
    ShowIntToken(1);
    ShowIntToken(2);
  }

  /** A single, a range and a single, expanded in order. */
  lemma ExpandThree(a: int, b: Token, c: int)
    ensures Expand([Single(a), b, Single(c)]) == [a] + Expansion(b) + [c]
  {
    ExpandOne(Single(a));
    ExpandSnoc([Single(a)], b);
    assert [Single(a)] + [b] == [Single(a), b];
    ExpandSnoc([Single(a), b], Single(c));
    assert [Single(a), b] + [Single(c)] == [Single(a), b, Single(c)];
  }

  lemma MixedExpanded()
    ensures Expand([Single(1), Range(3, 5), Single(2)]) == [1, 3, 4, 5, 2]
  {
    ExpandThree(1, Range(3, 5), 2);
    assert Interval(3, 6) == [3, 4, 5];
  }

  lemma MixedOks()
    ensures Classified(["1", "3-5", "2"]) ==
      seq(3, i requires 0 <= i < 3 => Ok([Single(1), Range(3, 5), Single(2)][i]))
  {
    MixedClassified();
  }

  lemma MixedZeroBased()
    ensures ToZeroBased(Expand([Single(1), Range(3, 5), Single(2)])) == [0, 2, 3, 4, 1]
  {
    MixedExpanded();
  }

  /** `"1 3-5 2"` gives `[0, 2, 3, 4, 1]`: token order, ranges ascending, no sorting. */
  lemma ExampleMixed()
    ensures ColumnIndices(AsList(["1", "3-5", "2"])) == Ok([0, 2, 3, 4, 1])
  {
    MixedOks();
    ColumnIndicesOfList(["1", "3-5", "2"], [Single(1), Range(3, 5), Single(2)]);
    MixedZeroBased();
  }

  /** The configured default form: `"1 3-5 2"` as one string. */
  lemma ExampleString()
    ensures ColumnIndices(AsString("1 3-5 2")) == Ok([0, 2, 3, 4, 1])
  {
    SplitJoin(["1", "3-5", "2"], "");
    assert Join(["1", "3-5", "2"]) + "" == "1 3-5 2";
    SameTokens(AsString("1 3-5 2"), AsList(["1", "3-5", "2"]));
    ExampleMixed();
  }

  /** The match is anchored at the start only: digits, a dash and digits
      make a range token whatever non-digit text follows (`3-5x` is 3..5). */
  lemma RangeTokenAnchored(first: string, second: string, rest: string)
    requires first != [] && AllDigits(first)
    requires second != [] && AllDigits(second)
    requires rest == [] || !IsDigit(rest[0])
    ensures ClassifyToken(first + "-" + second + rest) == Ok(Range(DigitsValue(first), DigitsValue(second)))
  {
    assert first + "-" + second + rest == first + ("-" + (second + rest));
    RangeMatchOf(first, second + rest, second, rest);
  }

  lemma RangeMatchOf(first: string, tail: string, second: string, rest: string)
    requires first != [] && AllDigits(first)
    requires second != [] && AllDigits(second)
    requires rest == [] || !IsDigit(rest[0])
    requires tail == second + rest
    ensures RangeMatch(first + ("-" + tail)) == Some((DigitsValue(first), DigitsValue(second)))
  {
    var after := "-" + tail;
    var c := first + after;
    LeadingDigitsOfPrefix(first, after);
    assert c[|first|] == '-';
    assert c[|first| + 1..] == tail;
    LeadingDigitsOfPrefix(second, rest);
  }

  /** `0` gives -1: nothing checks that a column number is at least one. */
  lemma ExampleZero()
    ensures ColumnIndices(AsList(["0"])) == Ok([-1])
  {
    ColumnsRoundTrip([-1]);
    assert OneBased([-1]) == [ShowInt(0)];
    DigitLiterals();
  }

  /** A token that is neither a range nor an integer (`x`) is a `ValueError`. */
  lemma ExampleNotInteger()
    ensures ColumnIndices(AsList(["x"])) == Err(ValueError)
  {
    NotAnInteger();
    assert Classified(["x"]) == [Err(ValueError)];
    CollectOne(Err(ValueError));
  }
}
