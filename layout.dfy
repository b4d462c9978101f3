/** The integer arithmetic of the figure layout: the number of subplot rows
    (`_subplotgenerator`) and the thinning of the y ticks (`yt[::ntic]` in
    `_makeGraph`). The plotting calls themselves are not part of this model. */
module Layout {
  import opened Outcome

  // ---------------------------------------------------------------------
  // Grid rows

  /** Python's `//`: the quotient rounded towards minus infinity. */
  function FloorDiv(a: int, d: int): (q: int)
    requires d != 0
    ensures d > 0 ==> q * d <= a < (q + 1) * d
    ensures d < 0 ==> (q + 1) * d < a <= q * d
  {
    if d > 0 then a / d else (-a) / (-d)
  }

  /** `math.ceil(a / float(d))`, on exact rationals: the quotient rounded
      towards plus infinity. */
  function CeilDiv(a: int, d: int): (q: int)
    requires d != 0
    ensures d > 0 ==> (q - 1) * d < a <= q * d
    ensures d < 0 ==> q * d <= a < (q - 1) * d
  {
    -FloorDiv(-a, d)
  }

  /** `nrows = int(math.ceil(n / float(ncols)))` for `n` data files; a zero
      `ncols` raises ZeroDivisionError. */
  function GridRows(n: nat, ncols: int): (r: Result<int>)
    ensures r.Err? <==> ncols == 0
    ensures r.Err? ==> r.error == ZeroDivisionError
    ensures r.Ok? && ncols > 0 ==> (r.value - 1) * ncols < n <= r.value * ncols
  {
    if ncols == 0 then Err(ZeroDivisionError) else Ok(CeilDiv(n, ncols))
  }

  /** With a positive column count the grid has just enough rows: every
      file gets a panel, and dropping a row would leave one without. */
  lemma GridFits(n: nat, ncols: int)
    requires ncols >= 1
    ensures GridRows(n, ncols).Ok?
    ensures var rows := GridRows(n, ncols).value;
      rows >= 0 && n <= rows * ncols && (rows - 1) * ncols < n
  {
  }

  /** The bounds of `CeilDiv` single out the quotient. */
  lemma CeilDivUnique(a: int, d: int, q: int)
    requires d >= 1
    requires (q - 1) * d < a <= q * d
    ensures CeilDiv(a, d) == q
  {
    var c := CeilDiv(a, d);
    if c < q {
      MulMonotone(c, q - 1, d);
    } else if c > q {
      MulMonotone(q, c - 1, d);
    }
  }

  /** The bounds of `GridFits` single out the row count. */
  lemma GridRowsUnique(n: nat, ncols: int, rows: int)
    requires ncols >= 1
    requires (rows - 1) * ncols < n <= rows * ncols
    ensures GridRows(n, ncols) == Ok(rows)
  {
    CeilDivUnique(n, ncols, rows);
  }

  lemma MulMonotone(a: int, b: int, c: nat)
    requires a <= b
    ensures a * c <= b * c
  {
  }

  /** The number of panels, `len(axs)`, passed to `_makeGraph` as `ngraph`:
      at least the number of files, and fewer than one row more. */
  lemma PanelCount(n: nat, ncols: int)
    requires ncols >= 1
    ensures var panels := GridRows(n, ncols).value * ncols;
      n <= panels < n + ncols
  {
  }

  lemma ExampleGrids()
    ensures GridRows(7, 3) == Ok(3)
    ensures GridRows(6, 3) == Ok(2)
    ensures GridRows(2, 3) == Ok(1)
    ensures GridRows(1, 1) == Ok(1)
  {
    GridRowsUnique(7, 3, 3);
    GridRowsUnique(6, 3, 2);
    GridRowsUnique(2, 3, 1);
    GridRowsUnique(1, 1, 1);
  }

  // ---------------------------------------------------------------------
  // Tick slice

  /** `yt[::s]` for a positive step: the elements at `0, s, 2s, ...`. */
  function Stride<T>(yt: seq<T>, s: nat): (r: seq<T>)
    requires s >= 1
    decreases |yt|
  {
    if yt == [] then []
    else if |yt| <= s then [yt[0]]
    else [yt[0]] + Stride(yt[s..], s)
  }

  function Reverse<T>(yt: seq<T>): (r: seq<T>)
    ensures |r| == |yt|
    ensures forall i :: 0 <= i < |yt| ==> r[i] == yt[|yt| - 1 - i]
  {
    if yt == [] then [] else [yt[|yt| - 1]] + Reverse(yt[..|yt| - 1])
  }

  /** `yt[::step]` for any step: a zero step raises ValueError, a negative
      one walks from the last element backwards. */
  function Slice<T>(yt: seq<T>, step: int): (r: Result<seq<T>>)
    ensures r.Err? <==> step == 0
    ensures r.Err? ==> r.error == ValueError
  {
    if step == 0 then Err(ValueError)
    else if step > 0 then Ok(Stride(yt, step))
    else Ok(Stride(Reverse(yt), -step))
  }

  /** The stride keeps `ceil(|yt| / s)` elements. */
  lemma {:induction false} StrideLength<T>(yt: seq<T>, s: nat)
    requires s >= 1
    ensures |Stride(yt, s)| == CeilDiv(|yt|, s)
    decreases |yt|
  {
    if yt == [] {
      CeilDivUnique(0, s, 0);
    } else if |yt| <= s {
      CeilDivUnique(|yt|, s, 1);
    } else {
      StrideLength(yt[s..], s);
      var q := |Stride(yt[s..], s)|;
      assert (q - 1) * s < |yt| - s <= q * s;
      assert (q + 1) * s == q * s + s && q * s == (q - 1) * s + s;
      CeilDivUnique(|yt|, s, q + 1);
    }
  }

  /** The i-th kept element is `yt[i*s]`. */
  lemma {:induction false} StrideAt<T>(yt: seq<T>, s: nat)
    requires s >= 1
    ensures forall i :: 0 <= i < |Stride(yt, s)| ==> i * s < |yt| && Stride(yt, s)[i] == yt[i * s]
    decreases |yt|
  {
    if |yt| > s {
      var r, rest := Stride(yt, s), Stride(yt[s..], s);
      StrideAt(yt[s..], s);
      forall i | 0 <= i < |r|
        ensures i * s < |yt| && r[i] == yt[i * s]
      {
        if i > 0 {
          assert r[i] == rest[i - 1];
          assert (i - 1) * s == i * s - s;
        }
      }
    }
  }

  /** What `yt[::s]` keeps: `ceil(|yt| / s)` elements, the i-th being `yt[i*s]`. */
  lemma StrideElements<T>(yt: seq<T>, s: nat)
    requires s >= 1
    ensures |Stride(yt, s)| == CeilDiv(|yt|, s)
    ensures forall i :: 0 <= i < |Stride(yt, s)| ==> i * s < |yt| && Stride(yt, s)[i] == yt[i * s]
  {
    StrideLength(yt, s);
    StrideAt(yt, s);
  }

  /** Every element of `yt` at a multiple of `s` is kept, in its place. */
  lemma StrideKeeps<T>(yt: seq<T>, s: nat, m: nat)
    requires s >= 1
    requires m * s < |yt|
    ensures m < |Stride(yt, s)| && Stride(yt, s)[m] == yt[m * s]
  {
    StrideElements(yt, s);
    var n := |Stride(yt, s)|;
    if n <= m {
      MulMonotone(n, m, s);
    }
  }

  /** The first tick always stays. */
  lemma StrideFirst<T>(yt: seq<T>, s: nat)
    requires s >= 1 && yt != []
    ensures Stride(yt, s) != [] && Stride(yt, s)[0] == yt[0]
  {
  }

  /** A step of one returns the ticks unchanged. */
  lemma {:induction false} StrideOne<T>(yt: seq<T>)
    ensures Stride(yt, 1) == yt
    decreases |yt|
  {
    if |yt| > 1 {
      StrideOne(yt[1..]);
      assert [yt[0]] + yt[1..] == yt;
    }
  }

  /** A negative step keeps `ceil(|yt| / -step)` elements, counting back
      from the last: the i-th is `yt[|yt| - 1 - i * -step]`. */
  lemma ReverseSlice<T>(yt: seq<T>, step: int)
    requires step < 0
    ensures Slice(yt, step).Ok?
    ensures var r := Slice(yt, step).value;
      |r| == CeilDiv(|yt|, -step) &&
      forall i :: 0 <= i < |r| ==> i * -step < |yt| && r[i] == yt[|yt| - 1 - i * -step]
  {
    var s: nat := -step;
    var back := Reverse(yt);
    StrideElements(back, s);
    assert Slice(yt, step).value == Stride(back, s);
    ReversedStride(yt, back, Stride(back, s), s);
  }

  lemma ReversedStride<T>(yt: seq<T>, back: seq<T>, r: seq<T>, s: nat)
    requires |back| == |yt|
    requires forall j :: 0 <= j < |back| ==> back[j] == yt[|yt| - 1 - j]
    requires forall i :: 0 <= i < |r| ==> i * s < |back| && r[i] == back[i * s]
    ensures forall i :: 0 <= i < |r| ==> i * s < |yt| && r[i] == yt[|yt| - 1 - i * s]
  {
    forall i | 0 <= i < |r|
      ensures i * s < |yt| && r[i] == yt[|yt| - 1 - i * s]
    {
      var j := i * s;
      assert j < |back| && r[i] == back[j];
    }
  }

  lemma ExampleTicks()
    ensures Slice([10, 20, 30, 40, 50], 2) == Ok([10, 30, 50])
    ensures Slice([10, 20, 30, 40, 50], -2) == Ok([50, 30, 10])
    ensures Slice([10, 20, 30], 0) == Err(ValueError)
  {
    var yt := [10, 20, 30, 40, 50];
    StrideElements(yt, 2);
    var r := Stride(yt, 2);
    assert r == [10, 30, 50];
    ReverseSlice(yt, -2);
    var b := Slice(yt, -2).value;
    assert b == [50, 30, 10];
  }
}
