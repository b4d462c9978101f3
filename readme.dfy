/** The title loop of `_readReadme`: the README's lines (each with its line
    terminator) are concatenated until `nlinesReadme` of them have been taken
    or the file ends, and newlines become spaces. Finding and opening the
    README is not part of this model. */
module Readme {
  import opened Outcome

  /** The lines one after another. */
  function Concat(lines: seq<string>): string
  {
    if lines == [] then "" else Concat(lines[..|lines| - 1]) + lines[|lines| - 1]
  }

  /** `s.replace('\n', ' ')`. */
  function NewlinesToSpaces(s: string): (r: string)
    ensures |r| == |s|
    ensures forall i :: 0 <= i < |s| ==> r[i] == if s[i] == '\n' then ' ' else s[i]
    ensures '\n' !in r
  {
    if s == [] then ""
    else NewlinesToSpaces(s[..|s| - 1]) + [if s[|s| - 1] == '\n' then ' ' else s[|s| - 1]]
  }

  /** How many lines the loop takes: `nlinesReadme`, but no more than the file has. */
  function LinesTaken(lines: seq<string>, nlinesReadme: int): (n: nat)
    ensures n <= |lines|
    ensures nlinesReadme <= 0 ==> n == 0
    ensures nlinesReadme > 0 ==> n == |lines| || n == nlinesReadme
    ensures nlinesReadme > 0 ==> n <= nlinesReadme
  {
    if nlinesReadme <= 0 then 0
    else if nlinesReadme < |lines| then nlinesReadme
    else |lines|
  }

  /** The title, or `None` where the loop never ends: a line that is exactly
      `"#"` (a last line `#` with no line terminator) is neither added nor
      counted, so the loop tries it again forever. */
  function Title(lines: seq<string>, nlinesReadme: int): Option<string>
  {
    var taken := lines[..LinesTaken(lines, nlinesReadme)];
    if "#" in taken then None else Some(NewlinesToSpaces(Concat(taken)))
  }

  /** The `while` loop of lines 186-197. Where the source loops forever
      without changing `k` or `title`, this returns `None`. */
  method ReadTitle(lines: seq<string>, nlinesReadme: int) returns (r: Option<string>)
    ensures r == Title(lines, nlinesReadme)
  {
    var k := 0;
    var title := "";
    while k < nlinesReadme
      invariant 0 <= k <= |lines|
      invariant k <= LinesTaken(lines, nlinesReadme)
      invariant title == Concat(lines[..k])
      invariant "#" !in lines[..k]
      decreases nlinesReadme - k
    {
      if k >= |lines| {
        break;  // `fc[k]` raises IndexError; the bare `except` leaves the loop
      }
      if lines[k] == "#" {
        assert lines[..LinesTaken(lines, nlinesReadme)][k] == "#";
        return None;
      }
      assert lines[..k + 1] == lines[..k] + [lines[k]];
      title := title + lines[k];
      k := k + 1;
    }
    assert k == LinesTaken(lines, nlinesReadme);
    r := Some(NewlinesToSpaces(title));
  }

  // ---------------------------------------------------------------------
  // Properties

  lemma {:induction false} ConcatAppend(a: seq<string>, b: seq<string>)
    ensures Concat(a + b) == Concat(a) + Concat(b)
  {
    if b == [] {
      assert a + b == a;
    } else {
      var init, last := b[..|b| - 1], b[|b| - 1];
      assert (a + b)[..|a + b| - 1] == a + init;
      ConcatAppend(a, init);
    }
  }

  /** A README shorter than `nlinesReadme` is no error: all its lines are
      taken (unless one is exactly `"#"`). */
  lemma ShortReadme(lines: seq<string>, nlinesReadme: int)
    requires |lines| <= nlinesReadme
    ensures "#" !in lines ==> Title(lines, nlinesReadme) == Some(NewlinesToSpaces(Concat(lines)))
    ensures "#" in lines ==> Title(lines, nlinesReadme) == None
  {
    assert lines[..|lines|] == lines;
  }

  /** No newline survives in a title. */
  lemma TitleHasNoNewline(lines: seq<string>, nlinesReadme: int)
    requires Title(lines, nlinesReadme).Some?
    ensures '\n' !in Title(lines, nlinesReadme).value
  {
  }

  /** The loop ends exactly when no line within the first `nlinesReadme` is
      exactly `"#"`; other comment lines, such as `"#\n"`, are part of the title. */
  lemma TitleTerminates(lines: seq<string>, nlinesReadme: int)
    ensures Title(lines, nlinesReadme).None? <==>
      exists i :: 0 <= i < |lines| && i < nlinesReadme && lines[i] == "#"
  {
    var n := LinesTaken(lines, nlinesReadme);
    if exists i :: 0 <= i < |lines| && i < nlinesReadme && lines[i] == "#" {
      var i :| 0 <= i < |lines| && i < nlinesReadme && lines[i] == "#";
      assert lines[..n][i] == "#";
    }
  }

  /** A title is the first lines, joined, each newline turned into a space;
      a line may only add to the end: the title of more lines extends the
      title of fewer. */
  lemma TitleGrows(lines: seq<string>, n: nat)
    requires n < |lines|
    requires Title(lines, n + 1).Some?
    ensures Title(lines, n).Some?
    ensures Title(lines, n + 1).value == Title(lines, n).value + NewlinesToSpaces(lines[n])
  {
    assert lines[..n + 1] == lines[..n] + [lines[n]];
    assert "#" !in lines[..n] by {
      assert forall i :: 0 <= i < n ==> lines[..n][i] == lines[..n + 1][i];
    }
    NewlinesToSpacesAppend(Concat(lines[..n]), lines[n]);
  }

  lemma NewlinesToSpacesAppend(a: string, b: string)
    ensures NewlinesToSpaces(a + b) == NewlinesToSpaces(a) + NewlinesToSpaces(b)
  {
    var l, r := NewlinesToSpaces(a + b), NewlinesToSpaces(a) + NewlinesToSpaces(b);
    assert forall i :: 0 <= i < |l| ==> l[i] == r[i] by {
      forall i | 0 <= i < |l|
        ensures l[i] == r[i]
      {
        if i < |a| { assert (a + b)[i] == a[i]; } else { assert (a + b)[i] == b[i - |a|]; }
      }
    }
  }

  /** Two README lines `a` and `b`, terminated, with `nlinesReadme = 3`:
      both lines are taken, each newline a space. */
  lemma TwoLineTitle(a: string, b: string)
    requires '\n' !in a && '\n' !in b
    ensures Title([a + "\n", b + "\n"], 3) == Some(a + " " + b + " ")
  {
    var lines := [a + "\n", b + "\n"];
    assert (a + "\n")[|a|] == '\n' && (b + "\n")[|b|] == '\n';
    assert "#" !in lines;
    ShortReadme(lines, 3);
    assert lines == [a + "\n"] + [b + "\n"];
    ConcatAppend([a + "\n"], [b + "\n"]);
    ConcatOne(a + "\n");
    ConcatOne(b + "\n");
    NewlinesToSpacesAppend(a + "\n", b + "\n");
    LineToWords(a);
    LineToWords(b);
    assert Concat(lines) == (a + "\n") + (b + "\n");
    assert (a + " ") + (b + " ") == a + " " + b + " ";
  }

  /** A comment line with its terminator is not exactly `"#"`: it is part
      of the title like any other line. */
  lemma CommentLineKept(rest: string)
    requires '\n' !in rest
    ensures Title(["#" + rest + "\n"], 1) == Some("#" + rest + " ")
  {
    var line := "#" + rest + "\n";
    assert line == ("#" + rest) + "\n";
    assert line[|line| - 1] == '\n';
    assert "#" !in [line];
    ShortReadme([line], 1);
    ConcatOne(line);
    LineToWords("#" + rest);
  }

  lemma ConcatOne(l: string)
    ensures Concat([l]) == l
  {
    assert [l][..0] == [];
  }

  /** A line without newlines, then its terminator. */
  lemma LineToWords(w: string)
    requires '\n' !in w
    ensures NewlinesToSpaces(w + "\n") == w + " "
  {
    var a := NewlinesToSpaces(w + "\n");
    assert forall i :: 0 <= i < |a| ==> a[i] == (w + " ")[i] by {
      forall i | 0 <= i < |a|
        ensures a[i] == (w + " ")[i]
      {
        if i < |w| { assert (w + "\n")[i] == w[i]; }
      }
    }
  }
}
