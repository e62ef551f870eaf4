/** What `format_table` promises about its output: cells fit their columns,
    the column widths are the column maxima, every line of a rectangular
    table has the same visible width, and the line count and the reported
    dimensions follow from the input. */
module TableProps {
  import opened Styled
  import opened TableFormat
  import Escape
  import Text
  import opened Wrappers

  /* -- Truncation -- */

  /** With a positive `maxColWidth`, a truncated text fits: short texts are
      kept whole, long ones keep their first `maxColWidth - 1` code points and
      end in the ellipsis, exactly `maxColWidth` wide. */
  lemma TruncateBounds(s: string, w: int)
    requires w >= 1
    ensures |Truncate(s, w)| <= w
    ensures |s| <= w ==> Truncate(s, w) == s
    ensures |s| > w ==> |Truncate(s, w)| == w && Truncate(s, w)[w - 1] == Ellipsis
                        && Truncate(s, w)[..w - 1] == s[..w - 1]
  {
    if |s| > w {
      var r := Truncate(s, w);
      assert r == s[..w - 1] + [Ellipsis];
      assert r[..w - 1] == s[..w - 1];
    }
  }

  /** With `maxColWidth <= 0` the slice `[:maxColWidth - 1]` counts from the
      end, so a truncated text is not bounded by `maxColWidth` at all: it is
      one code point shorter than the original, plus the ellipsis. */
  lemma TruncateNonPositive(s: string, w: int)
    requires w <= 0 && |s| > w
    ensures |Truncate(s, w)| == (if |s| + w - 1 >= 0 then |s| + w - 1 else 0) + 1
  {
  }

  /** Every prepared header and cell fits within `maxColWidth`. */
  lemma PreparedFit(names: Option<seq<string>>, table: seq<seq<string>>, w: int)
    requires w >= 1
    ensures forall i :: 0 <= i < |PrepareNames(names, w)| ==> |PrepareNames(names, w)[i]| <= w
    ensures |PrepareTable(table, w)| == |table|
    ensures forall r :: 0 <= r < |table| ==> |PrepareTable(table, w)[r]| == |table[r]|
    ensures forall r, i :: 0 <= r < |table| && 0 <= i < |table[r]| ==> |PrepareTable(table, w)[r][i]| <= w
  {
    forall i | 0 <= i < |PrepareNames(names, w)|
      ensures |PrepareNames(names, w)[i]| <= w
    {
      TruncateBounds(names.value[i], w);
    }
    forall r, i | 0 <= r < |table| && 0 <= i < |table[r]|
      ensures |PrepareTable(table, w)[r][i]| <= w
    {
      TruncateBounds(Escape.Escape(table[r][i]), w);
    }
  }

  /** A cell whose text needs no escaping and fits is shown as it is. */
  lemma PlainCellKept(cell: string, w: int)
    requires |cell| <= w
    requires forall k :: 0 <= k < |cell| ==> !Escape.NeedsEscape(cell[k])
    ensures Truncate(Escape.Escape(cell), w) == cell
  {
    Escape.EscapeLength(cell);
    ShortKept(Escape.Escape(cell), w);
  }

  lemma ShortKept(s: string, w: int)
    requires |s| <= w
    ensures Truncate(s, w) == s
  {
  }

  /* -- Column widths -- */

  /** Widening keeps the length, never lowers a column, covers every cell
      of every row, and every column ends at its start value or at the
      length of one of the cells. */
  lemma {:induction false} WidenAllBounds(ws: seq<nat>, rows: seq<seq<string>>)
    ensures |WidenAll(ws, rows)| == |ws|
    ensures forall i :: 0 <= i < |ws| ==> ws[i] <= WidenAll(ws, rows)[i]
    ensures forall r, i :: 0 <= r < |rows| && 0 <= i < |rows[r]| && i < |ws| ==> |rows[r][i]| <= WidenAll(ws, rows)[i]
    ensures forall i :: 0 <= i < |ws| ==>
      WidenAll(ws, rows)[i] == ws[i]
      || exists r :: 0 <= r < |rows| && i < |rows[r]| && WidenAll(ws, rows)[i] == |rows[r][i]|
  {
    if rows != [] {
      var init, last := rows[..|rows| - 1], rows[|rows| - 1];
      WidenAllBounds(ws, init);
      var prev := WidenAll(ws, init);
      var now := WidenAll(ws, rows);
      assert now == Widen(prev, last);
      forall r, i | 0 <= r < |rows| && 0 <= i < |rows[r]| && i < |ws|
        ensures |rows[r][i]| <= now[i]
      {
        if r < |rows| - 1 {
          assert rows[r] == init[r];
        }
      }
      forall i | 0 <= i < |ws|
        ensures now[i] == ws[i] || exists r :: 0 <= r < |rows| && i < |rows[r]| && now[i] == |rows[r][i]|
      {
        if i < |last| && |last[i]| > prev[i] {
          assert now[i] == |rows[|rows| - 1][i]|;
        } else if prev[i] != ws[i] {
          var r :| 0 <= r < |init| && i < |init[r]| && prev[i] == |init[r][i]|;
          assert rows[r] == init[r];
        }
      }
    }
  }

  /** The header widths: each prepared header's length, 0 beyond them. */
  lemma HeaderWidthsAre(n: nat, names: seq<string>)
    ensures |HeaderWidths(n, names)| == n
    ensures forall i :: 0 <= i < n ==> HeaderWidths(n, names)[i] == if i < |names| then |names[i]| else 0
  {
  }

  /** `col_widths` is the column maximum: at least every prepared header
      and cell of its column, and either 0 or the length of one of them. */
  lemma ColumnWidthsAreMaxima(table: seq<seq<string>>, columnNames: Option<seq<string>>,
                              columnSpecs: Option<seq<ColumnSpec>>, w: int)
    requires CanFormat(table, columnNames, columnSpecs)
    ensures var ws := ColumnWidths(table, columnNames, columnSpecs, w);
      var names := PrepareNames(HeaderNames(columnNames, columnSpecs), w);
      var rows := PrepareTable(table, w);
      |ws| == InitialColumnCount(table, columnNames, columnSpecs)
      && (forall i :: 0 <= i < |names| ==> |names[i]| <= ws[i])
      && (forall r, i :: 0 <= r < |rows| && 0 <= i < |rows[r]| ==> |rows[r][i]| <= ws[i])
      && (forall i :: 0 <= i < |ws| ==>
            ws[i] == 0 || (i < |names| && ws[i] == |names[i]|)
            || exists r :: 0 <= r < |rows| && i < |rows[r]| && ws[i] == |rows[r][i]|)
  {
    var n := InitialColumnCount(table, columnNames, columnSpecs);
    var names := PrepareNames(HeaderNames(columnNames, columnSpecs), w);
    var rows := PrepareTable(table, w);
    HeaderWidthsAre(n, names);
    WidenAllBounds(HeaderWidths(n, names), rows);
    HeaderSpecsCover(table, columnNames, columnSpecs, w);
  }

  /** With a positive `maxColWidth` no column is wider than it. */
  lemma ColumnWidthsBounded(table: seq<seq<string>>, columnNames: Option<seq<string>>,
                            columnSpecs: Option<seq<ColumnSpec>>, w: int)
    requires CanFormat(table, columnNames, columnSpecs) && w >= 1
    ensures forall i :: 0 <= i < |ColumnWidths(table, columnNames, columnSpecs, w)| ==>
      ColumnWidths(table, columnNames, columnSpecs, w)[i] <= w
  {
    ColumnWidthsAreMaxima(table, columnNames, columnSpecs, w);
    PreparedFit(HeaderNames(columnNames, columnSpecs), table, w);
  }

  /* -- Visible widths of the lines -- */

  /** The visible width of a framed line over the given column widths: the
      widths, a bar between each two columns and one at each end. */
  function FrameWidth(widths: seq<nat>): (n: nat)
    ensures widths != [] ==> n == ReportedWidth(widths)
    ensures n >= 2
  {
    if widths == [] then 2 else Sum(widths) + |widths| + 1
  }

  lemma PlainVisible(t: string)
    ensures Visible([Plain(t)]) == t
  {
    assert [Plain(t)][1..] == [];
  }

  /** A line made of a one-glyph left end, cells joined by a one-glyph
      separator and a one-glyph right end. */
  lemma FrameShapeWidth(left: Line, sep: Line, right: Line, cells: seq<Line>, ws: seq<nat>)
    requires |Visible(left)| == 1 && |Visible(sep)| == 1 && |Visible(right)| == 1
    requires |cells| == |ws| && forall i :: 0 <= i < |cells| ==> |Visible(cells[i])| == ws[i]
    ensures |Visible(left + Text.Join(cells, sep) + right)| == FrameWidth(ws)
  {
    VisibleJoin(sep, cells, ws);
    VisibleAppend(left + Text.Join(cells, sep), right);
    VisibleAppend(left, Text.Join(cells, sep));
  }

  /** Every rule is as wide as a full frame over all columns. */
  lemma RuleWidth(left: char, junction: char, right: char, widths: seq<nat>)
    ensures |Visible(Rule(left, junction, right, widths))| == FrameWidth(widths)
  {
    var cells := seq(|widths|, i requires 0 <= i < |widths| => Repeat(Border("\U{2500}"), widths[i]));
    forall i | 0 <= i < |cells|
      ensures |Visible(cells[i])| == widths[i]
    {
      VisibleRepeat(Border("\U{2500}"), widths[i]);
    }
    FrameShapeWidth(Border([left]), Border([junction]), Border([right]), cells, widths);
  }

  /** A body row whose cells fit is as wide as the frame over its own
      columns: a full row spans the whole table, a shorter (ragged) row
      stops after its last cell. */
  lemma RowLineWidth(row: seq<string>, widths: seq<nat>)
    requires |row| <= |widths|
    requires forall i :: 0 <= i < |row| ==> |row[i]| <= widths[i]
    ensures forall i :: 0 <= i < |row| ==> |row[i] + Spaces(widths[i] - |row[i]|)| == widths[i]
    ensures |Visible(RowLine(row, widths))| == FrameWidth(widths[..|row|])
  {
    var cells := seq(|row|, i requires 0 <= i < |row| => [Plain(row[i] + Spaces(widths[i] - |row[i]|))]);
    var ws := widths[..|row|];
    forall i | 0 <= i < |cells|
      ensures |Visible(cells[i])| == ws[i]
    {
      PlainVisible(row[i] + Spaces(widths[i] - |row[i]|));
    }
    FrameShapeWidth(Border("\U{2502}"), Border("\U{2502}"), Border("\U{2502}"), cells, ws);
  }

  /** Width of the header row as written, where header `i` shows `shown[i]`
      but is padded for `prepared[i]`: each column takes the shown length
      plus the padding. */
  lemma HeaderLineAsWrittenWidth(shown: seq<string>, prepared: seq<string>, specs: Option<seq<ColumnSpec>>,
                           widths: seq<nat>, cellWidths: seq<nat>)
    requires |shown| == |prepared| <= |widths| && SpecsCover(specs, |prepared|)
    requires |cellWidths| == |prepared|
    requires forall i :: 0 <= i < |prepared| ==>
      cellWidths[i] == |shown[i]| + (if widths[i] >= |prepared[i]| then widths[i] - |prepared[i]| else 0)
    ensures |Visible(HeaderLineAsWritten(shown, prepared, specs, widths))| == FrameWidth(cellWidths)
  {
    var cells := seq(|prepared|, i requires 0 <= i < |prepared| =>
      ColHead(shown[i], specs, i) + [Plain(Spaces(widths[i] - |prepared[i]|))]);
    forall i | 0 <= i < |cells|
      ensures |Visible(cells[i])| == cellWidths[i]
    {
      PlainVisible(Spaces(widths[i] - |prepared[i]|));
      VisibleAppend(ColHead(shown[i], specs, i), [Plain(Spaces(widths[i] - |prepared[i]|))]);
    }
    FrameShapeWidth(Border("\U{2502}"), Border("\U{2502}"), Border("\U{2502}"), cells, cellWidths);
  }

  /** The corrected header row, showing the truncated names, is as wide as
      the frame over its columns. */
  lemma HeaderLineWidth(prepared: seq<string>, specs: Option<seq<ColumnSpec>>, widths: seq<nat>)
    requires |prepared| <= |widths| && SpecsCover(specs, |prepared|)
    requires forall i :: 0 <= i < |prepared| ==> |prepared[i]| <= widths[i]
    ensures |Visible(HeaderLine(prepared, specs, widths))| == FrameWidth(widths[..|prepared|])
  {
    HeaderLineAsWrittenWidth(prepared, prepared, specs, widths, widths[..|prepared|]);
  }

  /* -- The whole table -- */

  /** Every row has as many cells as there are columns, and the header
      names, if any, name every column. */
  predicate Rectangular(table: seq<seq<string>>, columnNames: Option<seq<string>>,
                        columnSpecs: Option<seq<ColumnSpec>>)
  {
    CanFormat(table, columnNames, columnSpecs)
    && var n := InitialColumnCount(table, columnNames, columnSpecs);
    (forall r :: 0 <= r < |table| ==> |table[r]| == n)
    && (HeaderNames(columnNames, columnSpecs).Some? ==>
          |HeaderNames(columnNames, columnSpecs).value| == n || |HeaderNames(columnNames, columnSpecs).value| == 0)
  }

  /** A table drawn from headers and rows that fill every column and fit it
      has lines of one width, provided each header shows a text as long as
      the truncated name its padding is computed for (always so in the
      corrected drawing, where `shown == names`). */
  lemma DrawUniform(shown: seq<string>, names: seq<string>, specs: Option<seq<ColumnSpec>>, rows: seq<seq<string>>,
                    widths: seq<nat>)
    requires |shown| == |names| <= |widths| && SpecsCover(specs, |names|)
    requires forall r :: 0 <= r < |rows| ==> |rows[r]| <= |widths|
    requires |names| == 0 || |names| == |widths|
    requires forall r :: 0 <= r < |rows| ==> |rows[r]| == |widths|
    requires forall i :: 0 <= i < |names| ==> |shown[i]| == |names[i]| <= widths[i]
    requires forall r, i :: 0 <= r < |rows| && 0 <= i < |rows[r]| ==> |rows[r][i]| <= widths[i]
    ensures forall k :: 0 <= k < |Draw(shown, names, specs, rows, widths)| ==>
      |Visible(Draw(shown, names, specs, rows, widths)[k])| == FrameWidth(widths)
  {
    var frame := FrameWidth(widths);
    var head := [TopRule(widths)]
      + (if |names| > 0 then [HeaderLineAsWritten(shown, names, specs, widths), MiddleRule(widths)] else []);
    var body := RowLines(rows, widths);
    var bottom := [BottomRule(widths)];
    RuleWidth('\U{250C}', '\U{252C}', '\U{2510}', widths);
    RuleWidth('\U{251C}', '\U{253C}', '\U{2524}', widths);
    RuleWidth('\U{2514}', '\U{2534}', '\U{2518}', widths);
    if |names| > 0 {
      HeaderLineAsWrittenWidth(shown, names, specs, widths, widths);
    }
    assert AllWide(head, frame);
    RowLinesWidth(rows, widths);
    assert AllWide(body, frame);
    AllWideConcat(head, body, frame);
    AllWideConcat(head + body, bottom, frame);
    assert Draw(shown, names, specs, rows, widths) == head + body + bottom;
  }

  /** Every line is `n` glyphs wide. */
  predicate AllWide(lines: seq<Line>, n: nat) {
    forall k :: 0 <= k < |lines| ==> |Visible(lines[k])| == n
  }

  lemma AllWideConcat(a: seq<Line>, b: seq<Line>, n: nat)
    requires AllWide(a, n) && AllWide(b, n)
    ensures AllWide(a + b, n)
  {
    forall k | 0 <= k < |a + b|
      ensures |Visible((a + b)[k])| == n
    {
      if k >= |a| {
        assert (a + b)[k] == b[k - |a|];
      }
    }
  }

  /** Rows that fill every column and fit it are as wide as the frame. */
  lemma RowLinesWidth(rows: seq<seq<string>>, widths: seq<nat>)
    requires forall r :: 0 <= r < |rows| ==> |rows[r]| == |widths|
    requires forall r, i :: 0 <= r < |rows| && 0 <= i < |rows[r]| ==> |rows[r][i]| <= widths[i]
    ensures forall r :: 0 <= r < |rows| ==> |Visible(RowLine(rows[r], widths))| == FrameWidth(widths)
  {
    assert widths[..|widths|] == widths;
    forall r | 0 <= r < |rows|
      ensures |Visible(RowLine(rows[r], widths))| == FrameWidth(widths)
    {
      RowLineWidth(rows[r], widths);
    }
  }

  /** The lines of a drawing, in order: the top rule, the header row and
      the middle rule when there are headers, one line per row, the bottom
      rule. */
  lemma DrawParts(shown: seq<string>, names: seq<string>, specs: Option<seq<ColumnSpec>>, rows: seq<seq<string>>,
                  widths: seq<nat>)
    requires |shown| == |names| <= |widths| && SpecsCover(specs, |names|)
    requires forall r :: 0 <= r < |rows| ==> |rows[r]| <= |widths|
    ensures var lines := Draw(shown, names, specs, rows, widths);
      var h := if |names| > 0 then 3 else 1;
      |lines| == h + |rows| + 1 && lines[0] == TopRule(widths)
      && (|names| > 0 ==> lines[1] == HeaderLineAsWritten(shown, names, specs, widths) && lines[2] == MiddleRule(widths))
      && (forall r :: 0 <= r < |rows| ==> lines[h + r] == RowLine(rows[r], widths))
      && lines[h + |rows|] == BottomRule(widths)
  {
    var lines := Draw(shown, names, specs, rows, widths);
    var head := [TopRule(widths)]
      + (if |names| > 0 then [HeaderLineAsWritten(shown, names, specs, widths), MiddleRule(widths)] else []);
    var body := RowLines(rows, widths);
    assert lines == head + body + [BottomRule(widths)];
    forall r | 0 <= r < |rows|
      ensures lines[|head| + r] == RowLine(rows[r], widths)
    {
      assert lines[|head| + r] == body[r];
    }
  }

  /** No header name is longer than `maxColWidth`, so none is cut. */
  predicate NamesFit(columnNames: Option<seq<string>>, columnSpecs: Option<seq<ColumnSpec>>, w: int) {
    forall i :: 0 <= i < |ShownNames(columnNames, columnSpecs)| ==> |ShownNames(columnNames, columnSpecs)[i]| <= w
  }

  /** When every header name fits, the names are not cut, so the header
      row as written is the corrected header row. */
  lemma AsWrittenAgreesWhenNamesFit(columnNames: Option<seq<string>>, columnSpecs: Option<seq<ColumnSpec>>, w: int)
    requires NamesFit(columnNames, columnSpecs, w)
    ensures PrepareNames(HeaderNames(columnNames, columnSpecs), w) == ShownNames(columnNames, columnSpecs)
    ensures var names := PrepareNames(HeaderNames(columnNames, columnSpecs), w);
      var specs := HeaderSpecs(columnSpecs);
      forall widths: seq<nat> | |names| <= |widths| && SpecsCover(specs, |names|) ::
        HeaderLineAsWritten(ShownNames(columnNames, columnSpecs), names, specs, widths) == HeaderLine(names, specs, widths)
  {
    var shown := ShownNames(columnNames, columnSpecs);
    var names := PrepareNames(HeaderNames(columnNames, columnSpecs), w);
    forall i | 0 <= i < |shown|
      ensures names[i] == shown[i]
    {
      ShortKept(shown[i], w);
    }
  }

  /** Every line of a rectangular table whose header names fit has the same
      visible width. */
  lemma TableLinesUniform(table: seq<seq<string>>, columnNames: Option<seq<string>>,
                          columnSpecs: Option<seq<ColumnSpec>>, w: int)
    requires Rectangular(table, columnNames, columnSpecs) && NamesFit(columnNames, columnSpecs, w)
    ensures var lines := TableLines(table, columnNames, columnSpecs, w);
      forall k :: 0 <= k < |lines| ==>
        |Visible(lines[k])| == FrameWidth(ColumnWidths(table, columnNames, columnSpecs, w))
  {
    var names := PrepareNames(HeaderNames(columnNames, columnSpecs), w);
    var specs := HeaderSpecs(columnSpecs);
    var rows := PrepareTable(table, w);
    var ws := ColumnWidths(table, columnNames, columnSpecs, w);
    TableLinesDrawn(table, columnNames, columnSpecs, w);
    UniformInputs(table, columnNames, columnSpecs, w);
    DrawUniform(ShownNames(columnNames, columnSpecs), names, specs, rows, ws);
  }

  /** A rectangular table whose header names fit meets what `DrawUniform`
      asks of its drawing. */
  lemma UniformInputs(table: seq<seq<string>>, columnNames: Option<seq<string>>,
                      columnSpecs: Option<seq<ColumnSpec>>, w: int)
    requires Rectangular(table, columnNames, columnSpecs) && NamesFit(columnNames, columnSpecs, w)
    ensures var shown := ShownNames(columnNames, columnSpecs);
      var names := PrepareNames(HeaderNames(columnNames, columnSpecs), w);
      var rows := PrepareTable(table, w);
      var ws := ColumnWidths(table, columnNames, columnSpecs, w);
      |shown| == |names| <= |ws| && SpecsCover(HeaderSpecs(columnSpecs), |names|)
      && (|names| == 0 || |names| == |ws|)
      && (forall r :: 0 <= r < |rows| ==> |rows[r]| == |ws|)
      && (forall i :: 0 <= i < |names| ==> |shown[i]| == |names[i]| <= ws[i])
      && (forall r, i :: 0 <= r < |rows| && 0 <= i < |rows[r]| ==> |rows[r][i]| <= ws[i])
  {
    HeaderSpecsCover(table, columnNames, columnSpecs, w);
    RectangularFits(table, columnNames, columnSpecs, w);
    AsWrittenAgreesWhenNamesFit(columnNames, columnSpecs, w);
  }

  /** `TableLines` is the drawing of the prepared headers, specs and rows
      over the column widths. */
  lemma TableLinesDrawn(table: seq<seq<string>>, columnNames: Option<seq<string>>,
                        columnSpecs: Option<seq<ColumnSpec>>, w: int)
    requires CanFormat(table, columnNames, columnSpecs)
    ensures var names := PrepareNames(HeaderNames(columnNames, columnSpecs), w);
      |ShownNames(columnNames, columnSpecs)| == |names| <= |ColumnWidths(table, columnNames, columnSpecs, w)|
      && SpecsCover(HeaderSpecs(columnSpecs), |names|)
    ensures forall r :: 0 <= r < |table| ==>
      |PrepareTable(table, w)[r]| <= |ColumnWidths(table, columnNames, columnSpecs, w)|
    ensures TableLines(table, columnNames, columnSpecs, w)
      == Draw(ShownNames(columnNames, columnSpecs), PrepareNames(HeaderNames(columnNames, columnSpecs), w),
              HeaderSpecs(columnSpecs), PrepareTable(table, w), ColumnWidths(table, columnNames, columnSpecs, w))
  {
    HeaderSpecsCover(table, columnNames, columnSpecs, w);
  }

  /** A rectangular table fills every column with headers and cells that
      fit it. */
  lemma RectangularFits(table: seq<seq<string>>, columnNames: Option<seq<string>>,
                        columnSpecs: Option<seq<ColumnSpec>>, w: int)
    requires Rectangular(table, columnNames, columnSpecs)
    ensures var names := PrepareNames(HeaderNames(columnNames, columnSpecs), w);
      var rows := PrepareTable(table, w);
      var ws := ColumnWidths(table, columnNames, columnSpecs, w);
      (|names| == 0 || |names| == |ws|)
      && (forall r :: 0 <= r < |rows| ==> |rows[r]| == |ws|)
      && (forall i :: 0 <= i < |names| ==> |names[i]| <= ws[i])
      && (forall r, i :: 0 <= r < |rows| && 0 <= i < |rows[r]| ==> |rows[r][i]| <= ws[i])
  {
    ColumnWidthsAreMaxima(table, columnNames, columnSpecs, w);
  }

  /** With `maxColWidth >= 1`, a header name that does not fit makes the
      header row as written wider than the table's frame. */
  lemma HeaderWiderUnlessNamesFit(table: seq<seq<string>>, columnNames: Option<seq<string>>,
                                  columnSpecs: Option<seq<ColumnSpec>>, w: int)
    requires Rectangular(table, columnNames, columnSpecs) && w >= 1
    requires !NamesFit(columnNames, columnSpecs, w)
    ensures var lines := TableLines(table, columnNames, columnSpecs, w);
      |lines| > 1 && |Visible(lines[1])| > FrameWidth(ColumnWidths(table, columnNames, columnSpecs, w))
  {
    var shown := ShownNames(columnNames, columnSpecs);
    var names := PrepareNames(HeaderNames(columnNames, columnSpecs), w);
    var specs := HeaderSpecs(columnSpecs);
    var rows := PrepareTable(table, w);
    var ws := ColumnWidths(table, columnNames, columnSpecs, w);
    var i := LongName(columnNames, columnSpecs, w);
    TableLinesDrawn(table, columnNames, columnSpecs, w);
    HeaderColumns(table, columnNames, columnSpecs, w);
    WiderDrawing(shown, names, specs, rows, ws, w, i);
  }

  /** A header name that does not fit, when the names do not all fit. */
  lemma LongName(columnNames: Option<seq<string>>, columnSpecs: Option<seq<ColumnSpec>>, w: int) returns (i: nat)
    requires !NamesFit(columnNames, columnSpecs, w)
    ensures i < |ShownNames(columnNames, columnSpecs)| && |ShownNames(columnNames, columnSpecs)[i]| > w
  {
    i :| 0 <= i < |ShownNames(columnNames, columnSpecs)| && |ShownNames(columnNames, columnSpecs)[i]| > w;
  }

  lemma WiderDrawing(shown: seq<string>, names: seq<string>, specs: Option<seq<ColumnSpec>>, rows: seq<seq<string>>,
                     ws: seq<nat>, w: int, i: nat)
    requires |shown| == |names| == |ws| && SpecsCover(specs, |names|) && w >= 1
    requires forall r :: 0 <= r < |rows| ==> |rows[r]| <= |ws|
    requires forall j :: 0 <= j < |names| ==> names[j] == Truncate(shown[j], w) && |names[j]| <= ws[j]
    requires i < |shown| && |shown[i]| > w
    ensures var lines := Draw(shown, names, specs, rows, ws);
      |lines| > 1 && |Visible(lines[1])| > FrameWidth(ws)
  {
    assert Draw(shown, names, specs, rows, ws)[1] == HeaderLineAsWritten(shown, names, specs, ws);
    WiderHeaderRow(shown, names, specs, ws, w, i);
  }

  /** In a rectangular table with headers, there is one header per column,
      each the truncation of its name and no wider than its column. */
  lemma HeaderColumns(table: seq<seq<string>>, columnNames: Option<seq<string>>,
                      columnSpecs: Option<seq<ColumnSpec>>, w: int)
    requires Rectangular(table, columnNames, columnSpecs) && ShownNames(columnNames, columnSpecs) != []
    ensures var shown := ShownNames(columnNames, columnSpecs);
      var names := PrepareNames(HeaderNames(columnNames, columnSpecs), w);
      var ws := ColumnWidths(table, columnNames, columnSpecs, w);
      |shown| == |names| == |ws|
      && forall j :: 0 <= j < |names| ==> names[j] == Truncate(shown[j], w) && |names[j]| <= ws[j]
  {
    ColumnWidthsAreMaxima(table, columnNames, columnSpecs, w);
  }

  /** The header row as written over columns its truncated names fit, with
      name `i` cut, is wider than the frame. */
  lemma WiderHeaderRow(shown: seq<string>, names: seq<string>, specs: Option<seq<ColumnSpec>>, ws: seq<nat>,
                       w: int, i: nat)
    requires |shown| == |names| == |ws| && SpecsCover(specs, |names|) && w >= 1
    requires forall j :: 0 <= j < |names| ==> names[j] == Truncate(shown[j], w) && |names[j]| <= ws[j]
    requires i < |shown| && |shown[i]| > w
    ensures |Visible(HeaderLineAsWritten(shown, names, specs, ws))| > FrameWidth(ws)
  {
    var cellWidths := seq(|names|, j requires 0 <= j < |names| =>
      |shown[j]| + (if ws[j] >= |names[j]| then ws[j] - |names[j]| else 0));
    HeaderLineAsWrittenWidth(shown, names, specs, ws, cellWidths);
    forall j | 0 <= j < |names|
      ensures ws[j] <= cellWidths[j]
    {
      TruncateBounds(shown[j], w);
    }
    TruncateBounds(shown[i], w);
    SumGrows(ws, cellWidths, i);
  }

  /** Every line of a rectangular table has one width exactly when every
      header name fits `maxColWidth` (for `maxColWidth >= 1`). */
  lemma TableLinesUniformIff(table: seq<seq<string>>, columnNames: Option<seq<string>>,
                             columnSpecs: Option<seq<ColumnSpec>>, w: int)
    requires Rectangular(table, columnNames, columnSpecs) && w >= 1
    ensures var lines := TableLines(table, columnNames, columnSpecs, w);
      (forall k :: 0 <= k < |lines| ==>
         |Visible(lines[k])| == FrameWidth(ColumnWidths(table, columnNames, columnSpecs, w)))
      <==> NamesFit(columnNames, columnSpecs, w)
  {
    if NamesFit(columnNames, columnSpecs, w) {
      TableLinesUniform(table, columnNames, columnSpecs, w);
    } else {
      HeaderWiderUnlessNamesFit(table, columnNames, columnSpecs, w);
    }
  }

  lemma {:induction false} SumMonotone(a: seq<nat>, b: seq<nat>)
    requires |a| == |b| && forall j :: 0 <= j < |a| ==> a[j] <= b[j]
    ensures Sum(a) <= Sum(b)
  {
    if a != [] {
      SumMonotone(a[1..], b[1..]);
    }
  }

  lemma {:induction false} SumGrows(a: seq<nat>, b: seq<nat>, i: nat)
    requires |a| == |b| && i < |a| && forall j :: 0 <= j < |a| ==> a[j] <= b[j]
    requires a[i] < b[i]
    ensures Sum(a) < Sum(b)
  {
    if i == 0 {
      SumMonotone(a[1..], b[1..]);
    } else {
      SumGrows(a[1..], b[1..], i - 1);
    }
  }

  /** Lines: the top and bottom rules, the header row and middle rule when
      there is at least one header, and one line per row. */
  lemma LineCount(table: seq<seq<string>>, columnNames: Option<seq<string>>,
                  columnSpecs: Option<seq<ColumnSpec>>, w: int)
    requires CanFormat(table, columnNames, columnSpecs)
    ensures var headers := HeaderNames(columnNames, columnSpecs);
      |TableLines(table, columnNames, columnSpecs, w)|
      == 2 + |table| + (if headers.Some? && |headers.value| > 0 then 2 else 0)
  {
    HeaderSpecsCover(table, columnNames, columnSpecs, w);
  }

  /** The dimensions reported: the number of lines, and a width that is the
      visible width of every line of a rectangular table with at least one
      column whose header names fit; with no column the lines are two glyphs
      wide and the report says one. */
  lemma ReportedDimensions(table: seq<seq<string>>, columnNames: Option<seq<string>>,
                           columnSpecs: Option<seq<ColumnSpec>>, w: int)
    requires Rectangular(table, columnNames, columnSpecs) && NamesFit(columnNames, columnSpecs, w)
    ensures var f := FormattedTable(table, columnNames, columnSpecs, w, true);
      var ws := ColumnWidths(table, columnNames, columnSpecs, w);
      f.dimensions.Some? && f.dimensions.value.lineCount == |f.lines|
      && (forall k :: 0 <= k < |f.lines| ==>
            (|Visible(f.lines[k])| == f.dimensions.value.width <==> |ws| > 0))
  {
    var lines := TableLines(table, columnNames, columnSpecs, w);
    var ws := ColumnWidths(table, columnNames, columnSpecs, w);
    TableLinesUniform(table, columnNames, columnSpecs, w);
    assert FormattedTable(table, columnNames, columnSpecs, w, true) == Report(lines, ws, true);
    if ws == [] {
      assert ReportedWidth(ws) == 1;
    }
  }

  /** Without `report_dimensions` only the lines are returned. */
  lemma NoDimensionsUnlessAsked(table: seq<seq<string>>, columnNames: Option<seq<string>>,
                                columnSpecs: Option<seq<ColumnSpec>>, w: int)
    requires CanFormat(table, columnNames, columnSpecs)
    ensures FormattedTable(table, columnNames, columnSpecs, w, false).dimensions.None?
    ensures FormattedTable(table, columnNames, columnSpecs, w, false).lines
         == FormattedTable(table, columnNames, columnSpecs, w, true).lines
  {
  }

  /** With colour off the printed text is the visible text of the lines,
      one per line. */
  lemma TableTextWithoutColour(f: Formatted, codes: Style -> string)
    requires forall s :: codes(s) == []
    ensures TableText(f, codes) == Text.Join(seq(|f.lines|, i requires 0 <= i < |f.lines| => Visible(f.lines[i])), "\n")
  {
    var rendered := seq(|f.lines|, i requires 0 <= i < |f.lines| => Render(f.lines[i], codes));
    var visible := seq(|f.lines|, i requires 0 <= i < |f.lines| => Visible(f.lines[i]));
    forall i | 0 <= i < |f.lines|
      ensures rendered[i] == visible[i]
    {
      RenderWithoutColour(f.lines[i], codes);
    }
    assert rendered == visible;
  }

  /* -- Column specs -- */

  /** With specs, the header starts with a "Row" column typed "float" and
      shown in white, and continues with the specs' names and colours. */
  lemma SpecsHeader(columnNames: Option<seq<string>>, specs: seq<ColumnSpec>, w: int)
    requires w >= 3
    requires forall k :: 0 <= k < |specs| ==> specs[k].typ in TypeColormap
    ensures var names := PrepareNames(HeaderNames(columnNames, Some(specs)), w);
      var hs := HeaderSpecs(Some(specs));
      |names| == |specs| + 1 && names[0] == "Row"
      && ColHead(names[0], hs, 0)[1] == Token(White)
      && forall k :: 0 <= k < |specs| ==>
           names[k + 1] == Truncate(specs[k].name, w)
           && ColHead(names[k + 1], hs, k + 1)[1] == Token(TypeColormap[specs[k].typ])
  {
    var names := PrepareNames(HeaderNames(columnNames, Some(specs)), w);
    var hs := HeaderSpecs(Some(specs));
    assert hs.value[0].typ == "float";
    forall k | 0 <= k < |specs|
      ensures names[k + 1] == Truncate(specs[k].name, w)
      ensures ColHead(names[k + 1], hs, k + 1)[1] == Token(TypeColormap[specs[k].typ])
    {
      assert hs.value[k + 1] == specs[k];
    }
  }

  /** Given specs, `column_names` is ignored: the output is the same
      whatever names are passed. */
  lemma SpecsReplaceNames(table: seq<seq<string>>, names1: Option<seq<string>>, names2: Option<seq<string>>,
                          specs: seq<ColumnSpec>, w: int, reportDimensions: bool)
    requires CanFormat(table, names1, Some(specs))
    ensures CanFormat(table, names2, Some(specs))
    ensures FormattedTable(table, names1, Some(specs), w, reportDimensions)
         == FormattedTable(table, names2, Some(specs), w, reportDimensions)
  {
  }

  /** The colour per type tag: the four base types, the integer aliases
      sharing `integer`'s colour and `double` sharing `float`'s. */
  lemma TypeColours()
    ensures TypeColormap.Keys
      == {"boolean", "integer", "float", "string", "uint8", "int16", "uint16", "int32", "uint32", "int64", "double"}
    ensures TypeColormap["boolean"] == Blue && TypeColormap["integer"] == Yellow
         && TypeColormap["float"] == White && TypeColormap["string"] == Green
    ensures forall t :: t in TypeColormap && t != "boolean" && t != "float" && t != "string" && t != "double" ==>
      TypeColormap[t] == TypeColormap["integer"]
    ensures TypeColormap["double"] == TypeColormap["float"]
  {
  }

  /** The inputs `format_table` raises on: with no rows, no names and no
      specs `col_widths` is never assigned; a row longer than the first, or
      more names than the first row has cells, index past `col_widths`; a
      spec whose type has no colour is a missing key in `col_head`. */
  lemma RaisingInputs(table: seq<seq<string>>, columnNames: Option<seq<string>>, columnSpecs: Option<seq<ColumnSpec>>)
    ensures |table| == 0 && columnNames.None? && columnSpecs.None? ==> !CanFormat(table, columnNames, columnSpecs)
    ensures (exists r :: 0 <= r < |table| && |table[r]| > |table[0]|) ==> !CanFormat(table, columnNames, columnSpecs)
    ensures |table| > 0 && columnSpecs.None? && columnNames.Some? && |columnNames.value| > |table[0]|
      ==> !CanFormat(table, columnNames, columnSpecs)
    ensures columnSpecs.Some? && (exists k :: 0 <= k < |columnSpecs.value| && columnSpecs.value[k].typ !in TypeColormap)
      ==> !CanFormat(table, columnNames, columnSpecs)
  {
  }

  /** With specs and at least one row, the rows must carry the "Row" column
      themselves: the first row sizes `col_widths`, and a header list one
      longer than it (for instance one spec and the row `[7]`) indexes past it. */
  lemma SpecsNeedRowColumn(table: seq<seq<string>>, columnNames: Option<seq<string>>, specs: seq<ColumnSpec>)
    requires |table| > 0
    ensures CanFormat(table, columnNames, Some(specs)) ==> |table[0]| >= |specs| + 1
    ensures !CanFormat([["7"]], columnNames, Some([ColumnSpec("x", "integer")]))
  {
    var one := [ColumnSpec("x", "integer")];
    assert |HeaderNames(columnNames, Some(one)).value| == 2;
  }

  /* -- The example from the source's documentation -- */

  /** `format_table([[1, "2"], [3, "456"]], column_names=['A', 'B'])`:
      columns 1 and 3 wide, six lines, seven glyphs wide. */
  lemma DocumentationExample()
    ensures var table := [["1", "2"], ["3", "456"]];
      var f := FormattedTable(table, Some(["A", "B"]), None, DefaultMaxColWidth, true);
      ColumnWidths(table, Some(["A", "B"]), None, DefaultMaxColWidth) == [1, 3]
      && f.dimensions == Some(Dimensions(6, 7))
      && forall k :: 0 <= k < |f.lines| ==> |Visible(f.lines[k])| == 7
  {
    var table := [["1", "2"], ["3", "456"]];
    var names := Some(["A", "B"]);
    ExampleWidths();
    assert Rectangular(table, names, None);
    assert NamesFit(names, None, DefaultMaxColWidth);
    LineCount(table, names, None, DefaultMaxColWidth);
    TableLinesUniform(table, names, None, DefaultMaxColWidth);
    assert FrameWidth([1, 3]) == 7;
  }

  lemma ExampleWidths()
    ensures ColumnWidths([["1", "2"], ["3", "456"]], Some(["A", "B"]), None, DefaultMaxColWidth) == [1, 3]
  {
    var table := [["1", "2"], ["3", "456"]];
    ExamplePrepared();
    var start := HeaderWidths(2, ["A", "B"]);
    assert start == [1, 1];
    assert table[..1] == [table[0]] && [table[0]][..0] == [];
    assert WidenAll(start, [table[0]]) == Widen(start, table[0]);
    assert WidenAll(start, table) == Widen(WidenAll(start, [table[0]]), table[1]);
    assert Widen(start, ["1", "2"]) == [1, 1];
    assert Widen([1, 1], ["3", "456"]) == [1, 3];
  }

  lemma ExamplePrepared()
    ensures PrepareNames(Some(["A", "B"]), DefaultMaxColWidth) == ["A", "B"]
    ensures PrepareTable([["1", "2"], ["3", "456"]], DefaultMaxColWidth) == [["1", "2"], ["3", "456"]]
  {
    var table := [["1", "2"], ["3", "456"]];
    ExampleCellsKept();
    assert PrepareRow(table[0], DefaultMaxColWidth) == table[0];
    assert PrepareRow(table[1], DefaultMaxColWidth) == table[1];
  }

  lemma ExampleCellsKept()
    ensures Escape.Escape("1") == "1" && Escape.Escape("2") == "2"
    ensures Escape.Escape("3") == "3" && Escape.Escape("456") == "456"
  {
    Escape.EscapeLength("1");
    Escape.EscapeLength("2");
    Escape.EscapeLength("3");
    Escape.EscapeLength("456");
  }

  /* -- A header name longer than `max_col_width` -- */

  /** A name longer than `max_col_width` pushes the header row past the
      borders: one row `["x"]`, one name "abc", `max_col_width` 2 gives a
      column 2 wide and rules 4 wide, but a header row 5 wide. The corrected
      header row is 4 wide. */
  lemma HeaderOverflowsBorder()
    ensures var lines := TableLines([["x"]], Some(["abc"]), None, 2);
      var ws := ColumnWidths([["x"]], Some(["abc"]), None, 2);
      ws == [2] && |lines| == 5
      && |Visible(lines[0])| == 4 && |Visible(lines[1])| == 5
      && |Visible(HeaderLine(PrepareNames(Some(["abc"]), 2), None, ws))| == 4
  {
    var prepared := ["a" + [Ellipsis]];
    OverflowWidths();
    OverflowLines();
    OverflowRows();
    DrawParts(["abc"], prepared, None, [["x"]], [2]);
  }

  lemma OverflowRows()
    ensures |Visible(TopRule([2]))| == 4
    ensures |Visible(HeaderLineAsWritten(["abc"], ["a" + [Ellipsis]], None, [2]))| == 5
    ensures |Visible(HeaderLine(["a" + [Ellipsis]], None, [2]))| == 4
  {
    RuleWidth('\U{250C}', '\U{252C}', '\U{2510}', [2]);
    HeaderLineAsWrittenWidth(["abc"], ["a" + [Ellipsis]], None, [2], [3]);
    HeaderLineWidth(["a" + [Ellipsis]], None, [2]);
    assert [2][..1] == [2];
  }

  lemma OverflowLines()
    ensures TableLines([["x"]], Some(["abc"]), None, 2) == Draw(["abc"], ["a" + [Ellipsis]], None, [["x"]], [2])
  {
    OverflowWidths();
    HeaderSpecsCover([["x"]], Some(["abc"]), None, 2);
  }

  lemma OverflowWidths()
    ensures PrepareNames(Some(["abc"]), 2) == ["a" + [Ellipsis]]
    ensures PrepareTable([["x"]], 2) == [["x"]]
    ensures ColumnWidths([["x"]], Some(["abc"]), None, 2) == [2]
  {
    var table, names := [["x"]], Some(["abc"]);
    var prepared := PrepareNames(names, 2);
    assert Truncate("abc", 2) == "a" + [Ellipsis] by { assert "abc"[..1] == "a"; }
    assert prepared == ["a" + [Ellipsis]];
    Escape.EscapeLength("x");
    assert Escape.Escape("x") == "x";
    assert PrepareRow(["x"], 2) == ["x"];
    assert PrepareTable(table, 2) == [["x"]];
    assert HeaderWidths(1, prepared) == [2];
    assert [["x"]][..0] == [];
    assert ColumnWidths(table, names, None, 2) == Widen([2], ["x"]);
  }
}
