/** Line splitting and joining the way Python's `str.splitlines()` and
    `sep.join(parts)` do them; both the tree and the table printer end with
    a join, and the tree printer splits every key into lines. */
module Text {

  /** The code points `str.splitlines()` treats as line boundaries:
      LF, CR, VT, FF, FS, GS, RS, NEL, LINE SEPARATOR, PARAGRAPH SEPARATOR. */
  predicate IsLineBoundary(c: char) {
    c == '\n' || c == '\r' || c == '\U{0B}' || c == '\U{0C}' || c == '\U{1C}' || c == '\U{1D}'
    || c == '\U{1E}' || c == '\U{85}' || c == '\U{2028}' || c == '\U{2029}'
  }

  predicate NoBoundary(s: string) {
    forall j :: 0 <= j < |s| ==> !IsLineBoundary(s[j])
  }

  /** Index of the first line boundary in `s`, or `|s|` when there is none. */
  function FirstBoundary(s: string): (k: nat)
    ensures k <= |s|
    ensures NoBoundary(s[..k])
    ensures k < |s| ==> IsLineBoundary(s[k])
  {
    if s == [] then 0
    else if IsLineBoundary(s[0]) then 0
    else
      var k := 1 + FirstBoundary(s[1..]);
      assert s[..k] == [s[0]] + s[1..][..k - 1];
      k
  }

  /** Where the next line starts after the boundary at `k`: a CR directly
      followed by LF counts as one terminator. */
  function LineEnd(s: string, k: nat): (next: nat)
    requires k < |s| && IsLineBoundary(s[k])
    ensures k < next <= |s|
    ensures forall j :: k <= j < next ==> IsLineBoundary(s[j])
  {
    if s[k] == '\r' && k + 1 < |s| && s[k + 1] == '\n' then k + 2 else k + 1
  }

  /** `s.splitlines()`: the lines of `s` without their terminators. "\r\n"
      ends a single line, and a final terminator does not open an empty
      line, so the empty string has no lines at all. */
  function SplitLines(s: string): (lines: seq<string>)
    ensures forall i :: 0 <= i < |lines| ==> NoBoundary(lines[i])
    ensures lines == [] <==> s == []
    decreases |s|
  {
    if s == [] then []
    else
      var k := FirstBoundary(s);
      if k == |s| then [s]
      else
        [s[..k]] + SplitLines(s[LineEnd(s, k)..])
  }

  /** All lines run together. */
  function Concat(lines: seq<string>): string {
    if lines == [] then [] else lines[0] + Concat(lines[1..])
  }

  /** `s` with every line-boundary code point removed. */
  function WithoutBoundaries(s: string): string {
    if s == [] then [] else (if IsLineBoundary(s[0]) then [] else [s[0]]) + WithoutBoundaries(s[1..])
  }

  lemma {:induction false} WithoutBoundariesAppend(a: string, b: string)
    ensures WithoutBoundaries(a + b) == WithoutBoundaries(a) + WithoutBoundaries(b)
  {
    if a != [] {
      assert (a + b)[1..] == a[1..] + b;
      WithoutBoundariesAppend(a[1..], b);
    } else {
      assert a + b == b;
    }
  }

  lemma {:induction false} WithoutBoundariesOfClean(s: string)
    requires NoBoundary(s)
    ensures WithoutBoundaries(s) == s
  {
    if s != [] {
      assert NoBoundary(s[1..]) by {
        forall j | 0 <= j < |s[1..]| ensures !IsLineBoundary(s[1..][j]) { assert s[1..][j] == s[j + 1]; }
      }
      WithoutBoundariesOfClean(s[1..]);
    }
  }

  /** Splitting loses only the terminators: the lines, run together, are the
      input with its line boundaries removed, in order. */
  lemma {:induction false} SplitLinesKeepsText(s: string)
    ensures Concat(SplitLines(s)) == WithoutBoundaries(s)
    decreases |s|
  {
    if s != [] {
      var k := FirstBoundary(s);
      if k == |s| {
        WithoutBoundariesOfClean(s);
        assert Concat([s]) == s + Concat([]);
      } else {
        var next := LineEnd(s, k);
        SplitLinesKeepsText(s[next..]);
        ConcatSplitStep(s, k, next);
        SplitThree(s, k, next);
        LineEndIsTerminator(s, k, next);
        WithoutBoundariesStep(s[..k], s[k..next], s[next..]);
      }
    }
  }

  lemma SplitThree(s: string, k: nat, next: nat)
    requires k <= next <= |s|
    ensures s == s[..k] + (s[k..next] + s[next..])
  {
  }

  lemma LineEndIsTerminator(s: string, k: nat, next: nat)
    requires k < |s| && IsLineBoundary(s[k]) && next == LineEnd(s, k)
    ensures forall j :: 0 <= j < |s[k..next]| ==> IsLineBoundary(s[k..next][j])
  {
    forall j | 0 <= j < |s[k..next]| ensures IsLineBoundary(s[k..next][j]) {
      assert s[k..next][j] == s[k + j];
    }
  }

  lemma ConcatSplitStep(s: string, k: nat, next: nat)
    requires s != [] && k == FirstBoundary(s) && k < |s| && next == LineEnd(s, k)
    ensures Concat(SplitLines(s)) == s[..k] + Concat(SplitLines(s[next..]))
  {
    assert SplitLines(s) == [s[..k]] + SplitLines(s[next..]);
    assert SplitLines(s)[1..] == SplitLines(s[next..]);
  }

  lemma WithoutBoundariesStep(a: string, t: string, b: string)
    requires NoBoundary(a)
    requires forall j :: 0 <= j < |t| ==> IsLineBoundary(t[j])
    ensures WithoutBoundaries(a + (t + b)) == a + WithoutBoundaries(b)
  {
    calc {
      WithoutBoundaries(a + (t + b));
      { WithoutBoundariesAppend(a, t + b); }
      WithoutBoundaries(a) + WithoutBoundaries(t + b);
      { WithoutBoundariesOfClean(a); WithoutBoundariesAppend(t, b); }
      a + (WithoutBoundaries(t) + WithoutBoundaries(b));
      { TerminatorVanishes(t); assert [] + WithoutBoundaries(b) == WithoutBoundaries(b); }
      a + WithoutBoundaries(b);
    }
  }

  lemma {:induction false} TerminatorVanishes(t: string)
    requires forall j :: 0 <= j < |t| ==> IsLineBoundary(t[j])
    ensures WithoutBoundaries(t) == []
  {
    if t != [] {
      assert IsLineBoundary(t[0]);
      assert forall j :: 0 <= j < |t[1..]| ==> t[1..][j] == t[j + 1];
      TerminatorVanishes(t[1..]);
    }
  }

  /** A non-empty string without line boundaries is exactly one line. */
  lemma SingleLine(s: string)
    requires s != [] && NoBoundary(s)
    ensures SplitLines(s) == [s]
  {
  }

  /** `sep.join(parts)`, for strings and for styled lines alike. */
  function Join<T>(parts: seq<seq<T>>, sep: seq<T>): seq<T> {
    if parts == [] then []
    else if |parts| == 1 then parts[0]
    else parts[0] + sep + Join(parts[1..], sep)
  }

  /** Joining with "\n" and splitting again gives back the lines, provided
      none of them holds a line boundary and the last one is not empty
      (a trailing empty line would be swallowed by the split). */
  lemma {:induction false} JoinThenSplit(lines: seq<string>)
    requires forall i :: 0 <= i < |lines| ==> NoBoundary(lines[i])
    requires lines != [] ==> lines[|lines| - 1] != []
    ensures SplitLines(Join(lines, "\n")) == lines
  {
    if |lines| == 1 {
      SingleLine(lines[0]);
    } else if |lines| > 1 {
      var s := Join(lines, "\n");
      var rest := Join(lines[1..], "\n");
      assert s == lines[0] + "\n" + rest;
      FirstBoundaryAt(lines[0], rest);
      assert s[..|lines[0]|] == lines[0];
      assert s[|lines[0]| + 1..] == rest;
      JoinThenSplit(lines[1..]);
    }
  }

  lemma {:induction false} FirstBoundaryAt(a: string, rest: string)
    requires NoBoundary(a)
    ensures FirstBoundary(a + "\n" + rest) == |a|
  {
    if a != [] {
      assert (a + "\n" + rest)[1..] == a[1..] + "\n" + rest;
      assert NoBoundary(a[1..]) by {
        forall j | 0 <= j < |a[1..]| ensures !IsLineBoundary(a[1..][j]) { assert a[1..][j] == a[j + 1]; }
      }
      FirstBoundaryAt(a[1..], rest);
    }
  }
}
