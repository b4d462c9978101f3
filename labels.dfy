/** The axis labels of one graph: the selection in `main`, which looks the
    chosen columns up in the metadata map, and the padding in `_makeGraph`,
    which gives every plotted series a label. */
module Labels {
  import opened Outcome

  /** What `main` hands to `_makeGraph`. */
  datatype AxisLabels = AxisLabels(xlabel: string, ylabel: string, labels: seq<string>)

  /** `metadata[c]`: a missing key raises KeyError. */
  function Lookup(metadata: map<int, string>, c: int): (r: Result<string>)
    ensures r.Ok? <==> c in metadata
    ensures r.Ok? ==> r.value == metadata[c]
    ensures r.Err? ==> r.error == KeyError(c)
  {
    if c in metadata then Ok(metadata[c]) else Err(KeyError(c))
  }

  /** The labels of `cols`, in order, stopping at the first missing one. */
  function LookupAll(metadata: map<int, string>, cols: seq<int>): Result<seq<string>>
  {
    if cols == [] then Ok([])
    else match LookupAll(metadata, cols[..|cols| - 1])
      case Err(e) => Err(e)
      case Ok(names) =>
        match Lookup(metadata, cols[|cols| - 1])
          case Err(e) => Err(e)
          case Ok(name) => Ok(names + [name])
  }

  /** Lines 49-58 of `main`: `xlabel` from the first column; with more than
      two data rows, `ylabel` is `'Generic'` and each further column gets a
      label of its own, otherwise `ylabel` is the second column's label. */
  function Selection(metadata: map<int, string>, cols: seq<int>, dataLen: int): Result<AxisLabels>
  {
    if cols == [] then Err(IndexError)
    else match Lookup(metadata, cols[0])
      case Err(e) => Err(e)
      case Ok(xlabel) =>
        if dataLen > 2 then
          match LookupAll(metadata, cols[1..])
            case Err(e) => Err(e)
            case Ok(names) => Ok(AxisLabels(xlabel, "Generic", names))
        else if |cols| < 2 then Err(IndexError)
        else match Lookup(metadata, cols[1])
          case Err(e) => Err(e)
          case Ok(ylabel) => Ok(AxisLabels(xlabel, ylabel, []))
  }

  /** The selection as `main` performs it, with its `for` loop over `cols[1:]`. */
  method SelectLabels(metadata: map<int, string>, cols: seq<int>, dataLen: int)
    returns (r: Result<AxisLabels>)
    ensures r == Selection(metadata, cols, dataLen)
  {
    if cols == [] {
      return Err(IndexError);
    }
    if cols[0] !in metadata {
      return Err(KeyError(cols[0]));
    }
    var xlabel := metadata[cols[0]];
    var labels: seq<string> := [];
    if dataLen > 2 {
      var rest := cols[1..];
      for i := 0 to |rest|
        invariant LookupAll(metadata, rest[..i]) == Ok(labels)
      {
        assert rest[..i + 1][..i] == rest[..i];
        if rest[i] !in metadata {
          LookupAllStopsAtMissing(metadata, rest, i);
          return Err(KeyError(rest[i]));
        }
        labels := labels + [metadata[rest[i]]];
      }
      assert rest[..|rest|] == rest;
      return Ok(AxisLabels(xlabel, "Generic", labels));
    }
    if |cols| < 2 {
      return Err(IndexError);
    }
    if cols[1] !in metadata {
      return Err(KeyError(cols[1]));
    }
    return Ok(AxisLabels(xlabel, metadata[cols[1]], labels));
  }

  // ---------------------------------------------------------------------
  // Properties of the lookups

  /** Once the i-th column is missing, the lookup of any longer prefix fails
      with that column's key. */
  lemma {:induction false} LookupAllStopsAtMissing(metadata: map<int, string>, cols: seq<int>, i: nat)
    requires i < |cols| && cols[i] !in metadata
    requires LookupAll(metadata, cols[..i]).Ok?
    ensures forall j :: i < j <= |cols| ==> LookupAll(metadata, cols[..j]) == Err(KeyError(cols[i]))
  {
    forall j | i < j <= |cols|
      ensures LookupAll(metadata, cols[..j]) == Err(KeyError(cols[i]))
    {
      StopsAt(metadata, cols, i, j);
    }
  }

  lemma {:induction false} StopsAt(metadata: map<int, string>, cols: seq<int>, i: nat, j: nat)
    requires i < j <= |cols| && cols[i] !in metadata
    requires LookupAll(metadata, cols[..i]).Ok?
    ensures LookupAll(metadata, cols[..j]) == Err(KeyError(cols[i]))
    decreases j
  {
    assert cols[..j][..j - 1] == cols[..j - 1];
    if j > i + 1 {
      StopsAt(metadata, cols, i, j - 1);
    }
  }

  /** The lookup succeeds exactly when every column has a label, and then
      the i-th label is that of the i-th column; otherwise it names the
      first column without one. */
  lemma {:induction false} LookupAllMeaning(metadata: map<int, string>, cols: seq<int>)
    ensures LookupAll(metadata, cols).Ok? <==> forall i :: 0 <= i < |cols| ==> cols[i] in metadata
    ensures LookupAll(metadata, cols).Ok? ==>
      |LookupAll(metadata, cols).value| == |cols| &&
      forall i :: 0 <= i < |cols| ==> LookupAll(metadata, cols).value[i] == metadata[cols[i]]
    ensures LookupAll(metadata, cols).Err? ==>
      exists k :: 0 <= k < |cols| && cols[k] !in metadata &&
        (forall i :: 0 <= i < k ==> cols[i] in metadata) &&
        LookupAll(metadata, cols).error == KeyError(cols[k])
  {
    if cols != [] {
      var init := cols[..|cols| - 1];
      LookupAllMeaning(metadata, init);
      assert forall i :: 0 <= i < |init| ==> init[i] == cols[i];
      if LookupAll(metadata, init).Err? {
        var k :| 0 <= k < |init| && init[k] !in metadata &&
          (forall i :: 0 <= i < k ==> init[i] in metadata) &&
          LookupAll(metadata, init).error == KeyError(init[k]);
        assert cols[k] !in metadata;
      } else if cols[|cols| - 1] !in metadata {
        assert cols[|cols| - 1] !in metadata;
      }
    }
  }

  // ---------------------------------------------------------------------
  // Properties of the selection

  /** When the selection succeeds, with more than two data rows: `xlabel`
      is the first column's label, `ylabel` is `'Generic'`, and `labels` are
      the labels of the other columns, in order. */
  lemma SelectionMany(metadata: map<int, string>, cols: seq<int>, dataLen: int)
    requires dataLen > 2
    ensures Selection(metadata, cols, dataLen).Ok? <==>
      cols != [] && forall i :: 0 <= i < |cols| ==> cols[i] in metadata
    ensures Selection(metadata, cols, dataLen).Ok? ==>
      var s := Selection(metadata, cols, dataLen).value;
      s.xlabel == metadata[cols[0]] && s.ylabel == "Generic" &&
      |s.labels| == |cols| - 1 &&
      forall i :: 1 <= i < |cols| ==> s.labels[i - 1] == metadata[cols[i]]
  {
    if cols != [] {
      LookupAllMeaning(metadata, cols[1..]);
      assert forall i :: 1 <= i < |cols| ==> cols[1..][i - 1] == cols[i];
      if cols[0] in metadata && LookupAll(metadata, cols[1..]).Err? {
        var k :| 0 <= k < |cols[1..]| && cols[1..][k] !in metadata;
        assert cols[k + 1] !in metadata;
      }
    }
  }

  /** With at most two data rows: `xlabel` and `ylabel` are the labels of
      the first two columns and there are no per-series labels; fewer than
      two columns is an IndexError. */
  lemma SelectionFew(metadata: map<int, string>, cols: seq<int>, dataLen: int)
    requires dataLen <= 2
    ensures Selection(metadata, cols, dataLen).Ok? <==>
      |cols| >= 2 && cols[0] in metadata && cols[1] in metadata
    ensures Selection(metadata, cols, dataLen).Ok? ==>
      Selection(metadata, cols, dataLen).value ==
        AxisLabels(metadata[cols[0]], metadata[cols[1]], [])
    ensures |cols| < 2 && (cols == [] || cols[0] in metadata) ==>
      Selection(metadata, cols, dataLen) == Err(IndexError)
  {
  }

  /** A missing label is an error, never a placeholder: the x column first,
      then the others in order. */
  lemma SelectionMissing(metadata: map<int, string>, cols: seq<int>, dataLen: int)
    requires cols != []
    ensures cols[0] !in metadata ==> Selection(metadata, cols, dataLen) == Err(KeyError(cols[0]))
    ensures cols[0] in metadata && dataLen > 2 && Selection(metadata, cols, dataLen).Err? ==>
      exists k :: 1 <= k < |cols| && cols[k] !in metadata &&
        (forall j :: 1 <= j < k ==> cols[j] in metadata) &&
        Selection(metadata, cols, dataLen) == Err(KeyError(cols[k]))
    ensures cols[0] in metadata && dataLen <= 2 && |cols| >= 2 && cols[1] !in metadata ==>
      Selection(metadata, cols, dataLen) == Err(KeyError(cols[1]))
  {
    if cols[0] in metadata && dataLen > 2 && Selection(metadata, cols, dataLen).Err? {
      var rest := cols[1..];
      LookupAllMeaning(metadata, rest);
      var k :| 0 <= k < |rest| && rest[k] !in metadata &&
        (forall i :: 0 <= i < k ==> rest[i] in metadata) &&
        LookupAll(metadata, rest).error == KeyError(rest[k]);
      assert cols[k + 1] !in metadata;
      assert forall j :: 1 <= j < k + 1 ==> cols[j] == rest[j - 1];
    }
  }

  // ---------------------------------------------------------------------
  // Padding

  /** `n` copies of `'NotFound'`. */
  function NotFound(n: nat): (r: seq<string>)
    ensures |r| == n
    ensures forall i :: 0 <= i < n ==> r[i] == "NotFound"
  {
    seq(n, _ => "NotFound")
  }

  /** How many series `_makeGraph` plots with a legend: `len(data[1:])`. */
  function SeriesCount(dataLen: int): nat
  {
    if dataLen <= 1 then 0 else dataLen - 1
  }

  /** The labels after lines 101-106: two data rows plot one series using
      the labels as they are; otherwise 'NotFound' is appended until there
      is a label for every series. */
  function PaddedLabels(labels: seq<string>, dataLen: int): seq<string>
  {
    if dataLen == 2 || |labels| >= SeriesCount(dataLen) then labels
    else labels + NotFound(SeriesCount(dataLen) - |labels|)
  }

  /** The `for` loop of `_makeGraph`: for series i, `labels[i]` is tried and
      'NotFound' appended when it is missing. */
  method PadLabels(labels: seq<string>, dataLen: int) returns (r: seq<string>)
    ensures r == PaddedLabels(labels, dataLen)
  {
    r := labels;
    if dataLen == 2 {
      return;
    }
    var n := SeriesCount(dataLen);
    for i := 0 to n
      invariant |r| >= i
      invariant r == if |labels| >= i then labels else labels + NotFound(i - |labels|)
    {
      if i >= |r| {
        assert labels + NotFound(i + 1 - |labels|) == labels + NotFound(i - |labels|) + ["NotFound"];
        r := r + ["NotFound"];
      }
    }
  }

  /** Padding gives every series a label: at least `len(data) - 1` of them,
      the given ones first and unchanged, every added one 'NotFound'. */
  lemma PaddingMeaning(labels: seq<string>, dataLen: int)
    requires dataLen != 2
    ensures var r := PaddedLabels(labels, dataLen);
      |r| >= dataLen - 1 &&
      |r| == if |labels| >= dataLen - 1 then |labels| else dataLen - 1
    ensures var r := PaddedLabels(labels, dataLen);
      r[..|labels|] == labels &&
      forall i :: |labels| <= i < |r| ==> r[i] == "NotFound"
  {
  }

  /** With two data rows the labels stay as they are. */
  lemma PaddingTwoRows(labels: seq<string>)
    ensures PaddedLabels(labels, 2) == labels
  {
  }

  /** Labels selected for as many data rows as columns need no padding. */
  lemma SelectedNeedNoPadding(metadata: map<int, string>, cols: seq<int>)
    requires Selection(metadata, cols, |cols|).Ok?
    ensures var s := Selection(metadata, cols, |cols|).value;
      PaddedLabels(s.labels, |cols|) == s.labels
  {
    if |cols| > 2 {
      SelectionMany(metadata, cols, |cols|);
    }
  }
}
