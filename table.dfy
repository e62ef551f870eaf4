/** The table printer `format_table`: prepares headers and cells (escaping
    and truncating them), keeps a running maximum width per column, and
    draws a bordered block with every cell right-padded to its column. */
module TableFormat {
  import opened Styled
  import Escape
  import Text
  import opened Wrappers

  /** A column's name and its type tag (`column_specs` entries). */
  datatype ColumnSpec = ColumnSpec(name: string, typ: string)

  /** The line count and character width `report_dimensions` asks for. */
  datatype Dimensions = Dimensions(lineCount: nat, width: nat)

  /** The lines `format_table` joins with "\n", and the dimensions when they
      were asked for. */
  datatype Formatted = Formatted(lines: seq<Line>, dimensions: Option<Dimensions>)

  /** "…", one code point standing for the cut-off rest of a long cell. */
  const Ellipsis: char := '\U{2026}'

  /** The default of `max_col_width`. */
  const DefaultMaxColWidth: int := 32

  /** Colour per type tag: the four base types and the integer and float aliases. */
  const TypeColormap: map<string, Style> := map[
    "boolean" := Blue, "integer" := Yellow, "float" := White, "string" := Green,
    "uint8" := Yellow, "int16" := Yellow, "uint16" := Yellow,
    "int32" := Yellow, "uint32" := Yellow, "int64" := Yellow,
    "double" := White]

  function Max(a: nat, b: nat): nat { if a >= b then a else b }

  /** Python's `s[:k]`: a prefix of `s`, `k` code points long when
      `0 <= k <= |s|`; a negative `k` counts from the end. */
  function SliceTo(s: string, k: int): (r: string)
    ensures r <= s
    ensures 0 <= k <= |s| ==> |r| == k
    ensures k < 0 ==> |r| == if |s| + k >= 0 then |s| + k else 0
  {
    if k >= 0 then (if k <= |s| then s[..k] else s)
    else if |s| + k >= 0 then s[..|s| + k] else []
  }

  /** A header or cell longer than `maxColWidth` is cut to its first
      `maxColWidth - 1` code points followed by the ellipsis. */
  function Truncate(s: string, maxColWidth: int): (r: string)
    ensures |s| <= maxColWidth ==> r == s
    ensures |s| > maxColWidth ==> r != [] && r[..|r| - 1] <= s && r[|r| - 1] == Ellipsis
  {
    if |s| > maxColWidth then SliceTo(s, maxColWidth - 1) + [Ellipsis] else s
  }

  /** Python's `' ' * k`: no spaces for `k <= 0`. */
  function Spaces(k: int): (r: string)
    ensures |r| == if k <= 0 then 0 else k
  {
    if k <= 0 then [] else seq(k, _ => ' ')
  }

  /* -- Column count, headers and the conditions under which nothing raises -- */

  /** The length `col_widths` is created with: the first row's length, else
      one more than the number of specs (for the added "Row" column), else
      the number of names. */
  function InitialColumnCount(table: seq<seq<string>>, columnNames: Option<seq<string>>,
                              columnSpecs: Option<seq<ColumnSpec>>): nat
    requires |table| > 0 || columnSpecs.Some? || columnNames.Some?
  {
    if |table| > 0 then |table[0]|
    else if columnSpecs.Some? then |columnSpecs.value| + 1
    else |columnNames.value|
  }

  function SpecNames(specs: seq<ColumnSpec>): seq<string> {
    seq(|specs|, k requires 0 <= k < |specs| => specs[k].name)
  }

  /** The names the header shows: with specs, "Row" and then the specs'
      names (any `column_names` given is replaced); otherwise `column_names`. */
  function HeaderNames(columnNames: Option<seq<string>>, columnSpecs: Option<seq<ColumnSpec>>): Option<seq<string>> {
    if columnSpecs.Some? then Some(["Row"] + SpecNames(columnSpecs.value)) else columnNames
  }

  /** The specs after a "Row" column of type "float" is put in front. */
  function HeaderSpecs(columnSpecs: Option<seq<ColumnSpec>>): Option<seq<ColumnSpec>> {
    if columnSpecs.Some? then Some([ColumnSpec("Row", "float")] + columnSpecs.value) else None
  }

  /** The inputs on which `format_table` does not raise: `col_widths` gets a
      length, no header list and no row is longer than it, and every spec's
      type has a colour. */
  predicate CanFormat(table: seq<seq<string>>, columnNames: Option<seq<string>>,
                      columnSpecs: Option<seq<ColumnSpec>>)
  {
    (|table| > 0 || columnSpecs.Some? || columnNames.Some?)
    && (var n := InitialColumnCount(table, columnNames, columnSpecs);
        (forall r :: 0 <= r < |table| ==> |table[r]| <= n)
        && (HeaderNames(columnNames, columnSpecs).Some? ==> |HeaderNames(columnNames, columnSpecs).value| <= n))
    && (columnSpecs.Some? ==> forall k :: 0 <= k < |columnSpecs.value| ==> columnSpecs.value[k].typ in TypeColormap)
  }

  /* -- Prepared headers and cells, and the column widths -- */

  /** `my_column_names`: every header truncated. */
  function PrepareNames(names: Option<seq<string>>, maxColWidth: int): seq<string> {
    if names.None? then []
    else seq(|names.value|, i requires 0 <= i < |names.value| => Truncate(names.value[i], maxColWidth))
  }

  /** `my_row`: every cell escaped, then truncated. */
  function PrepareRow(row: seq<string>, maxColWidth: int): seq<string> {
    seq(|row|, i requires 0 <= i < |row| => Truncate(Escape.Escape(row[i]), maxColWidth))
  }

  /** `my_table`. */
  function PrepareTable(table: seq<seq<string>>, maxColWidth: int): seq<seq<string>> {
    seq(|table|, r requires 0 <= r < |table| => PrepareRow(table[r], maxColWidth))
  }

  /** `col_widths` after the header loop: each prepared header's length. */
  function HeaderWidths(n: nat, names: seq<string>): seq<nat> {
    seq(n, i requires 0 <= i < n => if i < |names| then |names[i]| else 0)
  }

  /** `col_widths` after one more prepared row. */
  function Widen(widths: seq<nat>, row: seq<string>): seq<nat> {
    seq(|widths|, i requires 0 <= i < |widths| => if i < |row| then Max(widths[i], |row[i]|) else widths[i])
  }

  /** `col_widths` after the given prepared rows, in order. */
  function WidenAll(widths: seq<nat>, rows: seq<seq<string>>): seq<nat> {
    if rows == [] then widths else Widen(WidenAll(widths, rows[..|rows| - 1]), rows[|rows| - 1])
  }

  /** `col_widths` once every header and cell has been prepared. */
  function ColumnWidths(table: seq<seq<string>>, columnNames: Option<seq<string>>,
                        columnSpecs: Option<seq<ColumnSpec>>, maxColWidth: int): seq<nat>
    requires CanFormat(table, columnNames, columnSpecs)
  {
    WidenAll(HeaderWidths(InitialColumnCount(table, columnNames, columnSpecs),
                          PrepareNames(HeaderNames(columnNames, columnSpecs), maxColWidth)),
             PrepareTable(table, maxColWidth))
  }

  /* -- Drawing -- */

  /** `border(s)`: border glyphs are drawn in white; only `s` is visible. */
  function Border(s: string): (r: Line)
    ensures |r| == 3 && r[0] == Token(White) && Visible(r) == s
  {
    var tail := [Token(Endc)];
    assert tail[1..] == [] && Visible(tail) == [];
    assert ([Plain(s)] + tail)[1..] == tail && Visible([Plain(s)] + tail) == s;
    var r := [Token(White)] + ([Plain(s)] + tail);
    assert r[1..] == [Plain(s)] + tail;
    r
  }

  /** A horizontal rule: a run of "─" per column, the given corner and
      junction glyphs around and between them. */
  function Rule(left: char, junction: char, right: char, widths: seq<nat>): Line {
    Border([left])
    + Text.Join(seq(|widths|, i requires 0 <= i < |widths| => Repeat(Border("\U{2500}"), widths[i])), Border([junction]))
    + Border([right])
  }

  function TopRule(widths: seq<nat>): Line { Rule('\U{250C}', '\U{252C}', '\U{2510}', widths) }     // ┌ ┬ ┐
  function MiddleRule(widths: seq<nat>): Line { Rule('\U{251C}', '\U{253C}', '\U{2524}', widths) }  // ├ ┼ ┤
  function BottomRule(widths: seq<nat>): Line { Rule('\U{2514}', '\U{2534}', '\U{2518}', widths) }  // └ ┴ ┘

  /** Cells between vertical bars. */
  function Framed(cells: seq<Line>): Line {
    Border("\U{2502}") + Text.Join(cells, Border("\U{2502}")) + Border("\U{2502}")
  }

  /** `col_head(i)`: a header in bold, coloured by its column's type when
      there are specs and white otherwise; the codes take no room. */
  function ColHead(text: string, specs: Option<seq<ColumnSpec>>, i: nat): (r: Line)
    requires specs.Some? ==> i < |specs.value| && specs.value[i].typ in TypeColormap
    ensures Visible(r) == text
    ensures |r| == 4 && r[0] == Token(Bold)
    ensures r[1] == Token(if specs.Some? then TypeColormap[specs.value[i].typ] else White)
  {
    var colour := if specs.Some? then TypeColormap[specs.value[i].typ] else White;
    var tail := [Token(Endc)];
    assert tail[1..] == [] && Visible(tail) == [];
    assert ([Plain(text)] + tail)[1..] == tail && Visible([Plain(text)] + tail) == text;
    var styled := [Token(colour)] + ([Plain(text)] + tail);
    assert styled[1..] == [Plain(text)] + tail && Visible(styled) == text;
    var r := [Token(Bold)] + styled;
    assert r[1..] == styled;
    r
  }

  predicate SpecsCover(specs: Option<seq<ColumnSpec>>, count: nat) {
    specs.Some? ==> count <= |specs.value| && forall k :: 0 <= k < |specs.value| ==> specs.value[k].typ in TypeColormap
  }

  /** The header row as the source draws it: `col_head(i)` shows the name
      as given, `shown[i]`, and the padding after it is the amount the
      truncated name `prepared[i]` falls short of the column. */
  function HeaderLineAsWritten(shown: seq<string>, prepared: seq<string>, specs: Option<seq<ColumnSpec>>,
                               widths: seq<nat>): Line
    requires |shown| == |prepared| <= |widths| && SpecsCover(specs, |prepared|)
  {
    Framed(seq(|prepared|, i requires 0 <= i < |prepared| =>
      ColHead(shown[i], specs, i) + [Plain(Spaces(widths[i] - |prepared[i]|))]))
  }

  /** The corrected header row: each column shows the truncated name its
      padding is computed for. */
  function HeaderLine(prepared: seq<string>, specs: Option<seq<ColumnSpec>>, widths: seq<nat>): Line
    requires |prepared| <= |widths| && SpecsCover(specs, |prepared|)
  {
    HeaderLineAsWritten(prepared, prepared, specs, widths)
  }

  /** One body row, each prepared cell right-padded with spaces. */
  function RowLine(row: seq<string>, widths: seq<nat>): Line
    requires |row| <= |widths|
  {
    Framed(seq(|row|, i requires 0 <= i < |row| => [Plain(row[i] + Spaces(widths[i] - |row[i]|))]))
  }

  /** One line per prepared row. */
  function RowLines(rows: seq<seq<string>>, widths: seq<nat>): seq<Line>
    requires forall r :: 0 <= r < |rows| ==> |rows[r]| <= |widths|
  {
    seq(|rows|, r requires 0 <= r < |rows| => RowLine(rows[r], widths))
  }

  lemma RowLinesExtend(rows: seq<seq<string>>, widths: seq<nat>, r: nat)
    requires r < |rows| && forall k :: 0 <= k < |rows| ==> |rows[k]| <= |widths|
    ensures RowLines(rows[..r + 1], widths) == RowLines(rows[..r], widths) + [RowLine(rows[r], widths)]
  {
  }

  /** The lines of the table: top rule, header row and middle rule when
      there are headers, one line per row, bottom rule. */
  function TableLines(table: seq<seq<string>>, columnNames: Option<seq<string>>,
                      columnSpecs: Option<seq<ColumnSpec>>, maxColWidth: int): seq<Line>
    requires CanFormat(table, columnNames, columnSpecs)
  {
    HeaderSpecsCover(table, columnNames, columnSpecs, maxColWidth);
    Draw(ShownNames(columnNames, columnSpecs), PrepareNames(HeaderNames(columnNames, columnSpecs), maxColWidth),
         HeaderSpecs(columnSpecs), PrepareTable(table, maxColWidth),
         ColumnWidths(table, columnNames, columnSpecs, maxColWidth))
  }

  /** The names `col_head` prints: the header names before truncation, none
      when there are no headers. */
  function ShownNames(columnNames: Option<seq<string>>, columnSpecs: Option<seq<ColumnSpec>>): seq<string> {
    var names := HeaderNames(columnNames, columnSpecs);
    if names.Some? then names.value else []
  }

  /** The drawing from the header names as given (`shown`) and truncated
      (`names`), the prepared rows and the column widths. */
  function Draw(shown: seq<string>, names: seq<string>, specs: Option<seq<ColumnSpec>>, rows: seq<seq<string>>,
                widths: seq<nat>): seq<Line>
    requires |shown| == |names| <= |widths| && SpecsCover(specs, |names|)
    requires forall r :: 0 <= r < |rows| ==> |rows[r]| <= |widths|
  {
    [TopRule(widths)]
    + (if |names| > 0 then [HeaderLineAsWritten(shown, names, specs, widths), MiddleRule(widths)] else [])
    + RowLines(rows, widths)
    + [BottomRule(widths)]
  }

  lemma HeaderSpecsCover(table: seq<seq<string>>, columnNames: Option<seq<string>>,
                         columnSpecs: Option<seq<ColumnSpec>>, maxColWidth: int)
    requires CanFormat(table, columnNames, columnSpecs)
    ensures var names := PrepareNames(HeaderNames(columnNames, columnSpecs), maxColWidth);
      |ShownNames(columnNames, columnSpecs)| == |names|
      && |names| <= |ColumnWidths(table, columnNames, columnSpecs, maxColWidth)|
      && SpecsCover(HeaderSpecs(columnSpecs), |names|)
    ensures forall r :: 0 <= r < |table| ==>
      |PrepareTable(table, maxColWidth)[r]| <= |ColumnWidths(table, columnNames, columnSpecs, maxColWidth)|
  {
    WidenAllLength(HeaderWidths(InitialColumnCount(table, columnNames, columnSpecs),
                                PrepareNames(HeaderNames(columnNames, columnSpecs), maxColWidth)),
                   PrepareTable(table, maxColWidth));
  }

  lemma {:induction false} WidenAllLength(widths: seq<nat>, rows: seq<seq<string>>)
    ensures |WidenAll(widths, rows)| == |widths|
  {
    if rows != [] {
      WidenAllLength(widths, rows[..|rows| - 1]);
    }
  }

  /** The reported width: the column widths plus one border glyph per
      column and one more. */
  function ReportedWidth(widths: seq<nat>): nat {
    Sum(widths) + |widths| + 1
  }

  /** The whole result of `format_table`. */
  function FormattedTable(table: seq<seq<string>>, columnNames: Option<seq<string>>,
                          columnSpecs: Option<seq<ColumnSpec>>, maxColWidth: int, reportDimensions: bool): Formatted
    requires CanFormat(table, columnNames, columnSpecs)
  {
    Report(TableLines(table, columnNames, columnSpecs, maxColWidth),
           ColumnWidths(table, columnNames, columnSpecs, maxColWidth), reportDimensions)
  }

  /** The lines, with their count and the reported width when asked for. */
  function Report(lines: seq<Line>, widths: seq<nat>, reportDimensions: bool): Formatted {
    Formatted(lines, if reportDimensions then Some(Dimensions(|lines|, ReportedWidth(widths))) else None)
  }

  /** The string printed: the lines rendered with the terminal's style
      codes and joined with "\n". */
  function TableText(f: Formatted, codes: Style -> string): string {
    Text.Join(seq(|f.lines|, i requires 0 <= i < |f.lines| => Render(f.lines[i], codes)), "\n")
  }

  /* -- The procedure as the source writes it -- */

  /** `format_table(table, column_names, column_specs, max_col_width,
      report_dimensions)`: `col_widths` is an array updated in place while
      the header and body lists are built by appending. */
  method FormatTable(table: seq<seq<string>>, columnNames: Option<seq<string>>,
                     columnSpecs: Option<seq<ColumnSpec>>, maxColWidth: int, reportDimensions: bool)
    returns (result: Formatted)
    requires CanFormat(table, columnNames, columnSpecs)
    ensures result == FormattedTable(table, columnNames, columnSpecs, maxColWidth, reportDimensions)
  {
    var headerNames, myColumnNames, specs, myTable, widths := Prepare(table, columnNames, columnSpecs, maxColWidth);
    var formattedTable := DrawTable(headerNames, myColumnNames, specs, myTable, widths);
    assert formattedTable == TableLines(table, columnNames, columnSpecs, maxColWidth);
    if reportDimensions {
      result := Formatted(formattedTable, Some(Dimensions(|formattedTable|, Sum(widths) + |widths| + 1)));
    } else {
      result := Formatted(formattedTable, None);
    }
    assert result == Report(formattedTable, widths, reportDimensions);
  }

  /** Everything `format_table` does before drawing: sizes `col_widths`,
      puts the "Row" column in front when there are specs, and prepares the
      headers and the cells while widening the columns. */
  method Prepare(table: seq<seq<string>>, columnNames: Option<seq<string>>,
                 columnSpecs: Option<seq<ColumnSpec>>, maxColWidth: int)
    returns (headerNames: seq<string>, myColumnNames: seq<string>, specs: Option<seq<ColumnSpec>>,
             myTable: seq<seq<string>>, widths: seq<nat>)
    requires CanFormat(table, columnNames, columnSpecs)
    ensures headerNames == ShownNames(columnNames, columnSpecs)
    ensures myColumnNames == PrepareNames(HeaderNames(columnNames, columnSpecs), maxColWidth)
    ensures specs == HeaderSpecs(columnSpecs)
    ensures myTable == PrepareTable(table, maxColWidth)
    ensures widths == ColumnWidths(table, columnNames, columnSpecs, maxColWidth)
    ensures |headerNames| == |myColumnNames| <= |widths| && SpecsCover(specs, |myColumnNames|)
    ensures forall r :: 0 <= r < |myTable| ==> |myTable[r]| <= |widths|
  {
    var colWidths := NewColWidths(table, columnNames, columnSpecs);
    var names := columnNames;
    specs := columnSpecs;
    if columnSpecs.Some? {
      names := Some(["Row"] + SpecNames(columnSpecs.value));
      specs := Some([ColumnSpec("Row", "float")] + columnSpecs.value);
    }
    headerNames := if names.Some? then names.value else [];
    myColumnNames := PrepareHeader(names, maxColWidth, colWidths);
    myTable := PrepareBody(table, maxColWidth, colWidths);
    widths := colWidths[..];
    HeaderSpecsCover(table, columnNames, columnSpecs, maxColWidth);
  }

  /** `col_widths` as first created: zeros, one per column of the first
      row, else per spec plus one, else per name. */
  method NewColWidths(table: seq<seq<string>>, columnNames: Option<seq<string>>,
                      columnSpecs: Option<seq<ColumnSpec>>)
    returns (colWidths: array<nat>)
    requires |table| > 0 || columnSpecs.Some? || columnNames.Some?
    ensures fresh(colWidths)
    ensures colWidths.Length == InitialColumnCount(table, columnNames, columnSpecs)
    ensures forall i :: 0 <= i < colWidths.Length ==> colWidths[i] == 0
  {
    if |table| > 0 {
      colWidths := new nat[|table[0]|](_ => 0);
    } else if columnSpecs.Some? {
      colWidths := new nat[|columnSpecs.value| + 1](_ => 0);
    } else {
      colWidths := new nat[|columnNames.value|](_ => 0);
    }
  }

  /** The drawing part of `format_table`: rules, header row and body rows
      appended to `formatted_table` in order. */
  method DrawTable(columnNames: seq<string>, myColumnNames: seq<string>, specs: Option<seq<ColumnSpec>>,
                   myTable: seq<seq<string>>, widths: seq<nat>)
    returns (formattedTable: seq<Line>)
    requires |columnNames| == |myColumnNames| <= |widths| && SpecsCover(specs, |myColumnNames|)
    requires forall r :: 0 <= r < |myTable| ==> |myTable[r]| <= |widths|
    ensures formattedTable == Draw(columnNames, myColumnNames, specs, myTable, widths)
  {
    formattedTable := [TopRule(widths)];
    if |myColumnNames| > 0 {
      formattedTable := formattedTable + [HeaderLineAsWritten(columnNames, myColumnNames, specs, widths),
                                          MiddleRule(widths)];
    }
    formattedTable := AppendRows(formattedTable, myTable, widths);
    formattedTable := formattedTable + [BottomRule(widths)];
  }

  /** The loop over `my_table`: one framed line per prepared row. */
  method AppendRows(head: seq<Line>, myTable: seq<seq<string>>, widths: seq<nat>)
    returns (formattedTable: seq<Line>)
    requires forall r :: 0 <= r < |myTable| ==> |myTable[r]| <= |widths|
    ensures formattedTable == head + RowLines(myTable, widths)
  {
    formattedTable := head;
    var r := 0;
    while r < |myTable|
      invariant 0 <= r <= |myTable|
      invariant formattedTable == head + RowLines(myTable[..r], widths)
    {
      RowLinesExtend(myTable, widths, r);
      formattedTable := formattedTable + [RowLine(myTable[r], widths)];
      r := r + 1;
    }
    assert myTable[..r] == myTable;
  }

  /** The header loop: truncates each name into `my_column_names` and
      records its length in `col_widths`. */
  method PrepareHeader(names: Option<seq<string>>, maxColWidth: int, colWidths: array<nat>)
    returns (myColumnNames: seq<string>)
    requires names.Some? ==> |names.value| <= colWidths.Length
    requires forall i :: 0 <= i < colWidths.Length ==> colWidths[i] == 0
    modifies colWidths
    ensures myColumnNames == PrepareNames(names, maxColWidth)
    ensures colWidths[..] == HeaderWidths(colWidths.Length, myColumnNames)
  {
    myColumnNames := [];
    if names.Some? {
      var columnNames := names.value;
      var i := 0;
      while i < |columnNames|
        invariant 0 <= i <= |columnNames|
        invariant myColumnNames == PrepareNames(Some(columnNames[..i]), maxColWidth)
        invariant colWidths[..] == HeaderWidths(colWidths.Length, myColumnNames)
      {
        var myCol := columnNames[i];
        if |myCol| > maxColWidth {
          myCol := SliceTo(myCol, maxColWidth - 1) + [Ellipsis];
        }
        assert myCol == Truncate(columnNames[i], maxColWidth);
        PrepareNamesExtend(columnNames, maxColWidth, i);
        HeaderWidthsExtend(colWidths.Length, myColumnNames, myCol);
        myColumnNames := myColumnNames + [myCol];
        colWidths[i] := Max(colWidths[i], |myCol|);
        i := i + 1;
      }
      assert columnNames[..i] == columnNames;
    }
  }

  lemma PrepareNamesExtend(names: seq<string>, maxColWidth: int, i: nat)
    requires i < |names|
    ensures PrepareNames(Some(names[..i + 1]), maxColWidth)
      == PrepareNames(Some(names[..i]), maxColWidth) + [Truncate(names[i], maxColWidth)]
  {
    var longer, shorter := PrepareNames(Some(names[..i + 1]), maxColWidth), PrepareNames(Some(names[..i]), maxColWidth);
    forall k | 0 <= k < i
      ensures longer[k] == shorter[k]
    {
      assert names[..i + 1][k] == names[..i][k];
    }
    assert longer[i] == Truncate(names[i], maxColWidth);
  }

  /** Recording one more header sets only that header's column, from 0. */
  lemma HeaderWidthsExtend(n: nat, names: seq<string>, name: string)
    requires |names| < n
    ensures var before := HeaderWidths(n, names);
      before[|names|] == 0 && HeaderWidths(n, names + [name]) == before[|names| := Max(0, |name|)]
  {
  }

  /** The body loop over `table`: prepares each row into `my_table`. */
  method PrepareBody(table: seq<seq<string>>, maxColWidth: int, colWidths: array<nat>)
    returns (myTable: seq<seq<string>>)
    requires forall r :: 0 <= r < |table| ==> |table[r]| <= colWidths.Length
    modifies colWidths
    ensures myTable == PrepareTable(table, maxColWidth)
    ensures colWidths[..] == WidenAll(old(colWidths[..]), myTable)
  {
    myTable := [];
    var r := 0;
    while r < |table|
      invariant 0 <= r <= |table|
      invariant myTable == PrepareTable(table[..r], maxColWidth)
      invariant colWidths[..] == WidenAll(old(colWidths[..]), myTable)
    {
      var myRow := PrepareRowInto(table[r], maxColWidth, colWidths);
      PrepareTableExtend(table, maxColWidth, r);
      WidenAllExtend(old(colWidths[..]), myTable, myRow);
      myTable := myTable + [myRow];
      r := r + 1;
    }
    assert table[..r] == table;
  }

  /** The loop over one row: escapes and truncates every cell into `my_row`
      and raises each column's running width to the cell's length. */
  method PrepareRowInto(row: seq<string>, maxColWidth: int, colWidths: array<nat>)
    returns (myRow: seq<string>)
    requires |row| <= colWidths.Length
    modifies colWidths
    ensures myRow == PrepareRow(row, maxColWidth)
    ensures colWidths[..] == Widen(old(colWidths[..]), myRow)
  {
    myRow := [];
    var i := 0;
    while i < |row|
      invariant 0 <= i <= |row|
      invariant myRow == PrepareRow(row[..i], maxColWidth)
      invariant colWidths[..] == Widen(old(colWidths[..]), myRow)
    {
      var myItem := Escape.Escape(row[i]);
      if |myItem| > maxColWidth {
        myItem := SliceTo(myItem, maxColWidth - 1) + [Ellipsis];
      }
      assert myItem == Truncate(Escape.Escape(row[i]), maxColWidth);
      PrepareRowExtend(row, maxColWidth, i);
      WidenExtend(old(colWidths[..]), myRow, myItem);
      myRow := myRow + [myItem];
      colWidths[i] := Max(colWidths[i], |myItem|);
      i := i + 1;
    }
    assert row[..i] == row;
  }

  lemma PrepareRowExtend(row: seq<string>, maxColWidth: int, i: nat)
    requires i < |row|
    ensures PrepareRow(row[..i + 1], maxColWidth)
      == PrepareRow(row[..i], maxColWidth) + [Truncate(Escape.Escape(row[i]), maxColWidth)]
  {
    var longer, shorter := PrepareRow(row[..i + 1], maxColWidth), PrepareRow(row[..i], maxColWidth);
    var extended := shorter + [Truncate(Escape.Escape(row[i]), maxColWidth)];
    forall k | 0 <= k <= i
      ensures longer[k] == extended[k]
    {
      assert row[..i + 1][k] == row[k];
      if k < i {
        assert row[..i][k] == row[k];
      }
    }
    assert longer == extended;
  }

  /** Widening by one more cell raises only that cell's column. */
  lemma WidenExtend(widths: seq<nat>, cells: seq<string>, cell: string)
    requires |cells| < |widths|
    ensures var before := Widen(widths, cells);
      Widen(widths, cells + [cell]) == before[|cells| := Max(before[|cells|], |cell|)]
  {
  }

  lemma PrepareTableExtend(table: seq<seq<string>>, maxColWidth: int, r: nat)
    requires r < |table|
    ensures PrepareTable(table[..r + 1], maxColWidth) == PrepareTable(table[..r], maxColWidth) + [PrepareRow(table[r], maxColWidth)]
  {
  }

  lemma WidenAllExtend(widths: seq<nat>, rows: seq<seq<string>>, row: seq<string>)
    ensures WidenAll(widths, rows + [row]) == Widen(WidenAll(widths, rows), row)
  {
    assert (rows + [row])[..|rows|] == rows;
  }
}
