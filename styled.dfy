/** Text with colour calls in it. The printer wraps pieces of text in calls
    such as `WHITE()` and `ENDC()`, whose strings depend on the terminal; a
    line is kept as a sequence of style tokens and plain text, so that what
    the terminal shows (the visible text) can be told apart from the codes. */
module Styled {
  import opened Text

  /** The style calls the printer makes: GREEN(), BLUE(), YELLOW(), WHITE(),
      BOLD() and ENDC() (reset). */
  datatype Style = Green | Blue | Yellow | White | Bold | Endc

  datatype Piece = Token(style: Style) | Plain(text: string)

  type Line = seq<Piece>

  /** What a terminal shows of a line: its text, style codes taking no room. */
  function Visible(line: Line): string {
    if line == [] then [] else (if line[0].Plain? then line[0].text else []) + Visible(line[1..])
  }

  /** The string a line is printed as, given the code each style call returns. */
  function Render(line: Line, codes: Style -> string): string {
    if line == [] then []
    else (match line[0] case Token(s) => codes(s) case Plain(t) => t) + Render(line[1..], codes)
  }

  lemma {:induction false} VisibleAppend(a: Line, b: Line)
    ensures Visible(a + b) == Visible(a) + Visible(b)
  {
    if a == [] {
      assert a + b == b;
    } else {
      assert (a + b)[0] == a[0] && (a + b)[1..] == a[1..] + b;
      VisibleAppend(a[1..], b);
    }
  }

  /** With colour switched off (every style call returning ""), the printed
      string is exactly the visible text. */
  lemma {:induction false} RenderWithoutColour(line: Line, codes: Style -> string)
    requires forall s :: codes(s) == []
    ensures Render(line, codes) == Visible(line)
  {
    if line != [] {
      RenderWithoutColour(line[1..], codes);
    }
  }

  /** Python's `line * k`. */
  function Repeat(line: Line, k: nat): Line {
    if k == 0 then [] else line + Repeat(line, k - 1)
  }

  function Sum(ws: seq<nat>): nat {
    if ws == [] then 0 else ws[0] + Sum(ws[1..])
  }

  lemma {:induction false} VisibleRepeat(line: Line, k: nat)
    ensures |Visible(Repeat(line, k))| == k * |Visible(line)|
  {
    if k > 0 {
      VisibleRepeat(line, k - 1);
      VisibleAppend(line, Repeat(line, k - 1));
    }
  }

  /** The visible width of a join: the parts' widths, plus one separator
      between each two neighbours. */
  lemma {:induction false} VisibleJoin(sep: Line, parts: seq<Line>, widths: seq<nat>)
    requires |parts| == |widths|
    requires forall i :: 0 <= i < |parts| ==> |Visible(parts[i])| == widths[i]
    ensures |Visible(Join(parts, sep))|
      == Sum(widths) + (if parts == [] then 0 else (|parts| - 1) * |Visible(sep)|)
  {
    if |parts| == 1 {
      assert widths[1..] == [];
    } else if |parts| > 1 {
      var m := |Visible(sep)|;
      VisibleJoin(sep, parts[1..], widths[1..]);
      VisibleAppend(parts[0] + sep, Join(parts[1..], sep));
      VisibleAppend(parts[0], sep);
      assert Join(parts, sep) == parts[0] + sep + Join(parts[1..], sep);
      assert Sum(widths) == widths[0] + Sum(widths[1..]);
      assert (|parts| - 1) * m == (|parts[1..]| - 1) * m + m;
    }
  }
}
