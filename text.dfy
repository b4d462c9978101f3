/** The Python 2 string primitives the modelled code relies on:
    `str.split()`, `str.strip()`, `int(str)`, `str(int)` and substring search.
    Characters are those of a byte string: whitespace is the space and
    the control characters tab through carriage return. */
module Text {
  import opened Outcome

  predicate IsSpace(c: char) { c == ' ' || '\t' <= c <= '\r' }

  predicate IsDigit(c: char) { '0' <= c <= '9' }

  predicate NoSpace(w: string) { forall j :: 0 <= j < |w| ==> !IsSpace(w[j]) }

  predicate AllSpace(w: string) { forall j :: 0 <= j < |w| ==> IsSpace(w[j]) }

  predicate AllDigits(w: string) { forall j :: 0 <= j < |w| ==> IsDigit(w[j]) }

  /** The string without its leading whitespace. */
  function DropSpaces(s: string): (r: string)
    ensures |r| <= |s|
    ensures r == [] || !IsSpace(r[0])
  {
    if s != [] && IsSpace(s[0]) then DropSpaces(s[1..]) else s
  }

  /** The longest prefix of the string that holds no whitespace. */
  function Word(s: string): (w: string)
    ensures |w| <= |s| && NoSpace(w)
    ensures s != [] && !IsSpace(s[0]) ==> w != []
  {
    if s == [] || IsSpace(s[0]) then [] else [s[0]] + Word(s[1..])
  }

  /** Python's `s.split()`: the maximal runs of non-whitespace, in order. */
  function Split(s: string): (ws: seq<string>)
    ensures forall i :: 0 <= i < |ws| ==> ws[i] != [] && NoSpace(ws[i])
    decreases |s|
  {
    var t := DropSpaces(s);
    if t == [] then [] else
      var w := Word(t);
      [w] + Split(t[|w|..])
  }

  /** The tokens written out with one space between neighbours. */
  function Join(ws: seq<string>): string
  {
    if ws == [] then ""
    else if |ws| == 1 then ws[0]
    else ws[0] + " " + Join(ws[1..])
  }

  /** The string without its trailing whitespace. */
  function DropTrailingSpaces(s: string): (r: string)
    ensures |r| <= |s|
  {
    if s != [] && IsSpace(s[|s| - 1]) then DropTrailingSpaces(s[..|s| - 1]) else s
  }

  /** Python's `s.strip()`. */
  function Strip(s: string): string
  {
    DropTrailingSpaces(DropSpaces(s))
  }

  function DigitValue(c: char): nat
    requires IsDigit(c)
  {
    (c as int) - ('0' as int)
  }

  function DigitChar(d: nat): (c: char)
    requires d < 10
    ensures IsDigit(c) && DigitValue(c) == d
  {
    ('0' as int + d) as char
  }

  /** The number a string of decimal digits denotes. */
  function DigitsValue(s: string): nat
    requires AllDigits(s)
  {
    if s == [] then 0 else DigitsValue(s[..|s| - 1]) * 10 + DigitValue(s[|s| - 1])
  }

  /** The longest prefix of decimal digits (what `\d+` matches greedily). */
  function LeadingDigits(s: string): (d: string)
    ensures |d| <= |s| && AllDigits(d)
  {
    if s == [] || !IsDigit(s[0]) then [] else [s[0]] + LeadingDigits(s[1..])
  }

  /** Python 2's `int(s)` in base 10: optional surrounding whitespace, an
      optional sign and at least one digit; anything else is a `ValueError`,
      modelled as `None`. */
  function ParseInt(s: string): Option<int>
  {
    var t := Strip(s);
    if t == [] then None
    else
      var neg := t[0] == '-';
      var digits := if t[0] == '-' || t[0] == '+' then t[1..] else t;
      if digits == [] || !AllDigits(digits) then None
      else
        var magnitude: int := DigitsValue(digits);
        Some(if neg then -magnitude else magnitude)
  }

  /** Python's `str(n)` for a natural number. */
  function ShowNat(n: nat): (s: string)
    ensures s != [] && AllDigits(s)
  {
    if n < 10 then [DigitChar(n)] else ShowNat(n / 10) + [DigitChar(n % 10)]
  }

  /** Python's `str(n)` for an integer. */
  function ShowInt(n: int): (s: string)
    ensures s != [] && NoSpace(s)
  {
    if n < 0 then "-" + ShowNat(-n) else ShowNat(n)
  }

  /** Python's `sub in s` / `s.find(sub) >= 0`. */
  predicate Contains(s: string, sub: string)
  {
    exists i :: 0 <= i <= |s| - |sub| && OccursAt(s, sub, i)
  }

  predicate OccursAt(s: string, sub: string, i: int)
  {
    0 <= i <= |s| - |sub| && s[i..i + |sub|] == sub
  }

  /** Python's `ws.index(x)`: the first position of `x`, or `None` where the
      source raises `ValueError`. */
  function IndexOf(ws: seq<string>, x: string): (r: Option<nat>)
    ensures r.Some? ==> r.value < |ws| && ws[r.value] == x && x !in ws[..r.value]
    ensures r.None? <==> x !in ws
  {
    if ws == [] then None
    else if ws[0] == x then Some(0)
    else match IndexOf(ws[1..], x)
      case None => None
      case Some(i) => (assert ws[1..][..i] == ws[1..i + 1]; Some(i + 1))
  }

  // ---------------------------------------------------------------------
  // Properties

  lemma {:induction false} DigitsValueSnoc(s: string, c: char)
    requires AllDigits(s) && IsDigit(c)
    ensures AllDigits(s + [c]) && DigitsValue(s + [c]) == DigitsValue(s) * 10 + DigitValue(c)
  {
    assert (s + [c])[..|s|] == s;
  }

  /** Printing a natural number and reading it back gives the number. */
  lemma {:induction false} ShowNatValue(n: nat)
    ensures DigitsValue(ShowNat(n)) == n
  {
    if n >= 10 {
      ShowNatValue(n / 10);
      DigitsValueSnoc(ShowNat(n / 10), DigitChar(n % 10));
    }
  }

  lemma StripNoSpace(s: string)
    requires s != [] && NoSpace(s)
    ensures Strip(s) == s
  {
  }

  /** `int(str(n)) == n`. */
  lemma ParseShowInt(n: int)
    ensures ParseInt(ShowInt(n)) == Some(n)
  {
    var s := ShowInt(n);
    StripNoSpace(s);
    if n < 0 {
      assert s[1..] == ShowNat(-n);
      ShowNatValue(-n);
    } else {
      ShowNatValue(n);
    }
  }

  /** No whitespace means no leading whitespace to drop. */
  lemma DropSpacesNone(s: string)
    requires s == [] || !IsSpace(s[0])
    ensures DropSpaces(s) == s
  {
  }

  lemma {:induction false} WordOfPrefix(w: string, t: string)
    requires NoSpace(w)
    requires t == [] || IsSpace(t[0])
    ensures Word(w + t) == w
  {
    if w != [] {
      assert (w + t)[1..] == w[1..] + t;
      WordOfPrefix(w[1..], t);
    }
  }

  lemma {:induction false} SplitAllSpace(t: string)
    requires AllSpace(t)
    ensures Split(t) == []
  {
    if t != [] {
      assert DropSpaces(t) == DropSpaces(t[1..]);
      SplitAllSpace(t[1..]);
    }
  }

  /** Whitespace in front of a string is not part of any token. */
  lemma SplitLeadingSpace(c: char, s: string)
    requires IsSpace(c)
    ensures Split([c] + s) == Split(s)
  {
    assert ([c] + s)[1..] == s;
  }

  /** A whitespace-free token followed by whitespace (or nothing) is split off whole. */
  lemma SplitWordThen(w: string, rest: string)
    requires w != [] && NoSpace(w)
    requires rest == [] || IsSpace(rest[0])
    ensures Split(w + rest) == [w] + Split(rest)
  {
    DropSpacesNone(w + rest);
    WordOfPrefix(w, rest);
    assert (w + rest)[|w|..] == rest;
  }

  /** A single token followed by whitespace splits to just that token. */
  lemma SplitSingle(w: string, tail: string)
    requires w != [] && NoSpace(w)
    requires AllSpace(tail)
    ensures Split(w + tail) == [w]
  {
    SplitAllSpace(tail);
    SplitWordThen(w, tail);
  }

  /** A token, one space and more text: the token, then the tokens of the rest. */
  lemma SplitSpaced(w: string, more: string)
    requires w != [] && NoSpace(w)
    ensures Split(w + ([' '] + more)) == [w] + Split(more)
  {
    SplitWordThen(w, [' '] + more);
    SplitLeadingSpace(' ', more);
  }

  /** `str.split()` undoes writing non-empty, whitespace-free tokens out with
      single spaces between them, whatever whitespace follows. */
  lemma {:induction false} SplitJoin(ws: seq<string>, tail: string)
    requires forall i :: 0 <= i < |ws| ==> ws[i] != [] && NoSpace(ws[i])
    requires AllSpace(tail)
    ensures Split(Join(ws) + tail) == ws
  {
    if ws == [] {
      assert Join(ws) + tail == tail;
      SplitAllSpace(tail);
    } else if |ws| == 1 {
      SplitSingle(ws[0], tail);
    } else {
      var more := Join(ws[1..]) + tail;
      assert Join(ws) + tail == ws[0] + ([' '] + more);
      SplitSpaced(ws[0], more);
      SplitJoin(ws[1..], tail);
      assert [ws[0]] + ws[1..] == ws;
    }
  }
}
