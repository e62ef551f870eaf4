# Pretty-printer model (`dxpy.utils.pretty_print`)

A Dafny model of the terminal pretty-printer of the DNAnexus Python
bindings. The printer has three parts:

- `escape_unicode_string` replaces C0 control code points, backslash and
  DEL with printable escapes.
- `format_tree` draws an ordered key hierarchy with box-drawing connectors.
- `format_table` prepares, truncates and measures headers and cells, then
  draws a bordered table and can report the table's dimensions.

The files are:

- `wrappers.dfy` (module `Wrappers`): the `Option` type the other modules
  share.
- `text.dfy` (module `Text`): Python's `str.splitlines` and `sep.join`.
  The join is generic, so it serves for strings and for styled lines.
  Every line boundary Python knows is modelled: LF, CR, CRLF, VT, FF,
  0x1C–0x1E, 0x85, U+2028 and U+2029.
- `escape.dfy` (module `Escape`): `REPLACEMENT_TABLE`,
  `escape_unicode_string` and an inverse used to prove the escaping lossless.
- `styled.dfy` (module `Styled`): text with colour calls in it. `GREEN()`,
  `WHITE()`, `ENDC()` and the other colour calls are kept as style tokens.
  Visible width ignores them. The printed string is obtained from the
  codes the terminal supplies.
- `tree.dfy` (module `TreeFormat`): `format_tree`.
  - `FormatTree`, `FormatInto` and `AppendLabelLines` are the procedure as
    written: a recursive helper that appends to one list inside a loop over
    the keys.
  - `FormatFrom` and `EntryLines` are the functions that specify it.
  - `PreOrder` and `PositionLines` are an independent description of the
    output, built from each key's place in the tree.
- `table.dfy` (module `TableFormat`): `format_table`.
  - Methods that update the `col_widths` array in place and build
    `my_column_names`, `my_row`, `my_table` and `formatted_table` by
    appending.
  - Functions that specify each of those. The header row is drawn as the
    code draws it (`HeaderLineAsWritten`): each header shows the name as
    given and is padded by the length of its truncated form.
    `HeaderLine` is the corrected row, which shows the truncated name.
- `table_props.dfy` (module `TableProps`): what the table printer
  guarantees:
  - truncation bounds
  - column widths as column maxima
  - the visible width of the lines: one width for every line exactly when
    every header name fits `max_col_width`
  - line count and reported dimensions
  - the "Row" column added when column specs are given
  - the inputs that raise
  - the documentation example
  - the header-row defect under "Findings"

Crash paths become preconditions (`TableFormat.CanFormat`):

- When the table is empty and neither names nor specs are given, none of
  the branches at pretty_print.py:121-126 assigns `col_widths`. Its use at
  line 167 then raises.
- An `IndexError` is raised at line 138 or 147 when the header list or a
  row is longer than `col_widths`. For example, one spec and the single
  row `[7]`: `col_widths` gets the first row's single column (line 122),
  and the second header ("Row", then the spec's name) indexes past it at
  line 138. So with specs the rows must carry the "Row" cell themselves
  (`TableProps.SpecsNeedRowColumn`).
- A `KeyError` is raised at line 163 for a spec type that has no colour.

`TableProps.RaisingInputs` states each of these.

A `max_col_width` below 1 is not excluded. `Truncate` follows Python's
slicing with negative bounds, and `TableProps.TruncateNonPositive` states
what that gives.

## Model

| member | source | states |
|---|---|---|
| `Text.SplitLines` | src/python/dxpy/utils/pretty_print.py:99 | `node.splitlines()`: no line contains a line boundary; no lines exactly for the empty key |
| `Text.SplitLinesKeepsText` | src/python/dxpy/utils/pretty_print.py:99 | the lines, concatenated, are the key with its line boundaries removed: splitting drops only the boundaries |
| `Text.SingleLine` | src/python/dxpy/utils/pretty_print.py:99 | a non-empty key with no line boundary is a single line, itself |
| `Text.JoinThenSplit` | src/python/dxpy/utils/pretty_print.py:109 | splitting `"\n".join(lines)` gives the lines back when none holds a boundary and the last is not empty |
| `Escape.ReplacementTableIsCanonical` | src/python/dxpy/utils/pretty_print.py:25-58 | the table has 32 entries. Entry `c` is `\t`, `\n` or `\r` for TAB, LF and CR, and `\x` plus the two lower-case hex digits of `c` otherwise |
| `Escape.EscapeChar` | src/python/dxpy/utils/pretty_print.py:66-71 | a matched code point becomes its canonical escape: the table entry, `\\` for backslash, `\x7f` for DEL. Any other code point is copied |
| `Escape.Escape` | src/python/dxpy/utils/pretty_print.py:60-72 | `escape_unicode_string(u)`: one left-to-right pass replacing each code point by its escape. The result is never shorter than `u` |
| `Escape.UnescapeEscape` | src/python/dxpy/utils/pretty_print.py:60-72 | decoding the escaped string gives back the original, so escaping loses nothing and no two strings escape alike |
| `Escape.EscapeHasNoControl` | src/python/dxpy/utils/pretty_print.py:60-72 | the escaped string holds no code point in 0x00–0x1F and no 0x7F |
| `Escape.EscapeLength` | src/python/dxpy/utils/pretty_print.py:66-72 | escaping never shortens. The length stays the same exactly when no code point needed escaping, and then the string is unchanged |
| `Escape.EscapeAppend` | src/python/dxpy/utils/pretty_print.py:72 | escaping works code point by code point, left to right: the escape of `a + b` is the escape of `a` followed by the escape of `b` |
| `Styled.RenderWithoutColour` | src/python/dxpy/utils/pretty_print.py:150-151 | when every colour call returns the empty string, the printed line is exactly its visible text |
| `Styled.VisibleRepeat` | src/python/dxpy/utils/pretty_print.py:167 | `border('─') * i` is `i` glyphs wide |
| `Styled.VisibleJoin` | src/python/dxpy/utils/pretty_print.py:167 | a `join` is as wide as its parts plus one separator between each two neighbours |
| `TreeFormat.LabelLines` | src/python/dxpy/utils/pretty_print.py:96-101 | one output line per line of the key, in order. The first follows `my_prefix`, every later one follows `my_multiline_prefix` |
| `TreeFormat.AppendLabelLines` | src/python/dxpy/utils/pretty_print.py:96-101 | the loop with counter `n` appends exactly the label lines behind their prefixes, after what was there |
| `TreeFormat.FormatFrom` | src/python/dxpy/utils/pretty_print.py:85-107 | `_format(tree, prefix)` from key `i` on: each key's lines (`EntryLines`) and then the later keys'. No contract of its own; `TreeFormat.FormatInto` is proved equal to it and `TreeFormat.WalkIsPreOrder` relates it to the pre-order |
| `TreeFormat.EntryLines` | src/python/dxpy/utils/pretty_print.py:89-107 | one pass of the key loop: the connector for the last key or not, the label lines, then the sub-tree with a prefix one block longer, `│   ` under a key with later siblings. No contract of its own; `TreeFormat.WalkIsPreOrder` states what it draws |
| `TreeFormat.FormatInto` | src/python/dxpy/utils/pretty_print.py:85-107 | `_format(tree, prefix)` appends to the list exactly the walk's lines (`FormatFrom`), keeping what was there before |
| `TreeFormat.FormatTree` | src/python/dxpy/utils/pretty_print.py:84-109 | the result is the root line (if given) followed by the walk's lines, joined with `"\n"` |
| `TreeFormat.WalkIsPreOrder` | src/python/dxpy/utils/pretty_print.py:85-107 | the walk, started with the ancestors' fill blocks plus one blank block as its prefix, prints the keys in pre-order: a key, then its descendants, then its later siblings. Each key's lines are determined by its position alone |
| `TreeFormat.TreeLinesArePreOrder` | src/python/dxpy/utils/pretty_print.py:84-109 | the root line, when given, comes first and verbatim; then come the pre-order keys' lines |
| `TreeFormat.TreeLineCount` | src/python/dxpy/utils/pretty_print.py:84-101 | line count = 1 if a root is given, else 0, plus the number of lines each key's label splits into |
| `TreeFormat.TreeTextSplits` | src/python/dxpy/utils/pretty_print.py:84-109 | when the root line is absent, or non-empty without line boundaries, the returned text splits back into exactly the joined lines: every line of the walk is non-empty and holds no line boundary |
| `TreeFormat.LinesOfCount` | src/python/dxpy/utils/pretty_print.py:96-101 | a sequence of keys prints as many lines as their labels split into |
| `TreeFormat.IndentShape` | src/python/dxpy/utils/pretty_print.py:89-106 | a key at depth `d` has a prefix `4·(d−1)` long. Block `k` of the prefix is `│   ` when ancestor `k` has later siblings and four blanks when it was the last |
| `TreeFormat.OneLineKey` | src/python/dxpy/utils/pretty_print.py:89-98 | a one-line key prints as its prefix, then `└── ` if it is the last sibling or `├── ` otherwise, then the key |
| `TreeFormat.PreOrderKeepsAncestors` | src/python/dxpy/utils/pretty_print.py:102-107 | every descendant's ancestor path extends the path it was reached through |
| `TreeFormat.DocumentationExample` | src/python/dxpy/utils/pretty_print.py:74-82 | `{'foo': 0, 'bar': {'xyz': 0}}` prints `├── foo`, `└── bar`, `    └── xyz` |
| `TableFormat.Spaces` | src/python/dxpy/utils/pretty_print.py:169 | `' ' * k` has `k` spaces, and none when `k <= 0` |
| `TableFormat.SliceTo` | src/python/dxpy/utils/pretty_print.py:136 | `s[:k]` is a prefix of `s`: `k` code points long for `0 <= k <= len(s)`, and `len(s) + k` (at least 0) long for a negative `k` |
| `TableFormat.Truncate` | src/python/dxpy/utils/pretty_print.py:135-136 | a text no longer than `max_col_width` is kept. A longer one becomes a prefix of it followed by `…` |
| `TableFormat.CanFormat` | src/python/dxpy/utils/pretty_print.py:121-163 | the inputs on which `format_table` does not raise. No contract of its own; `TableProps.RaisingInputs` lists the inputs it excludes |
| `TableFormat.Border` | src/python/dxpy/utils/pretty_print.py:150-151 | `border(s)` is `s` in white; only `s` is visible |
| `TableFormat.Rule` | src/python/dxpy/utils/pretty_print.py:167 | a rule: a run of `─` per column, between corners and junctions. No contract of its own; `TableProps.RuleWidth` gives its width |
| `TableFormat.ColHead` | src/python/dxpy/utils/pretty_print.py:161-165 | a header shows its text in bold. The colour is its spec type's colour when there are specs and white otherwise, and the colour codes take no room |
| `TableFormat.HeaderLineAsWritten` | src/python/dxpy/utils/pretty_print.py:168-170 | the header row as written: `col_head(i)` shows the name as given, padded by `col_widths[i]` minus the truncated length. No contract of its own; `TableProps.HeaderLineAsWrittenWidth` gives its width |
| `TableFormat.HeaderLine` | src/python/dxpy/utils/pretty_print.py:168-170 | the corrected header row, showing the truncated names. No contract of its own; `TableProps.HeaderLineWidth` gives its width |
| `TableFormat.RowLine` | src/python/dxpy/utils/pretty_print.py:173-175 | one body row, each cell padded to its column. No contract of its own; `TableProps.RowLineWidth` gives its width |
| `TableFormat.HeaderSpecsCover` | src/python/dxpy/utils/pretty_print.py:128-138 | on inputs that do not raise, the headers fit in `col_widths`, every row fits in it, and every header has a spec with a colour |
| `TableFormat.FormatTable` | src/python/dxpy/utils/pretty_print.py:111-181 | the procedure returns the lines of the table, with the line count and `sum(col_widths) + len(col_widths) + 1` when dimensions are asked for |
| `TableFormat.Prepare` | src/python/dxpy/utils/pretty_print.py:121-148 | sizes `col_widths` and puts the "Row" column in front when there are specs. Returns the header names `col_head` prints, the prepared headers and cells, and leaves `col_widths` at the widened header widths |
| `TableFormat.NewColWidths` | src/python/dxpy/utils/pretty_print.py:121-126 | a fresh zeroed array sized by the first row, else the specs plus one, else the names |
| `TableFormat.PrepareHeader` | src/python/dxpy/utils/pretty_print.py:132-138 | the header loop truncates every name in order and sets each header's column to its length |
| `TableFormat.PrepareBody` | src/python/dxpy/utils/pretty_print.py:139-148 | the row loop prepares every row in order and widens `col_widths` by each |
| `TableFormat.PrepareRowInto` | src/python/dxpy/utils/pretty_print.py:141-148 | the cell loop escapes and truncates every cell in order. It raises each cell's column to at least the cell's length and leaves the others alone |
| `TableFormat.DrawTable` | src/python/dxpy/utils/pretty_print.py:167-176 | appends the top rule, then the header row as written and the middle rule when there are headers, then one line per row, then the bottom rule |
| `TableFormat.AppendRows` | src/python/dxpy/utils/pretty_print.py:173-175 | the loop over `my_table` appends one framed, padded line per row, in order |
| `TableProps.TruncateBounds` | src/python/dxpy/utils/pretty_print.py:135-136 | for `max_col_width >= 1` the result is at most `max_col_width` long. A short text is kept. A long one is exactly `max_col_width` long: its first `max_col_width − 1` code points and then `…` |
| `TableProps.TruncateNonPositive` | src/python/dxpy/utils/pretty_print.py:144-145 | for `max_col_width <= 0` the slice counts from the end, so the result is not bounded by `max_col_width` |
| `TableProps.PreparedFit` | src/python/dxpy/utils/pretty_print.py:133-147 | every prepared header and cell is at most `max_col_width` long, and every prepared row has as many cells as the row |
| `TableProps.PlainCellKept` | src/python/dxpy/utils/pretty_print.py:143-145 | a cell that needs no escape and fits is shown as it is |
| `TableProps.WidenAllBounds` | src/python/dxpy/utils/pretty_print.py:142-147 | the running max keeps the column count and never lowers a column. It covers every cell, and ends at the start value or at one cell's length |
| `TableProps.ColumnWidthsAreMaxima` | src/python/dxpy/utils/pretty_print.py:121-147 | `col_widths[i]` is at least every prepared header and cell of column `i`. It is 0 or the length of one of them, so it is their maximum |
| `TableProps.ColumnWidthsBounded` | src/python/dxpy/utils/pretty_print.py:121-147 | for `max_col_width >= 1` no column is wider than `max_col_width` |
| `TableProps.RuleWidth` | src/python/dxpy/utils/pretty_print.py:167 | each rule (top, middle, bottom) spans the column widths, plus one junction between each two columns and one corner at each end |
| `TableProps.RowLineWidth` | src/python/dxpy/utils/pretty_print.py:173-175 | each padded cell that fits takes exactly its column's width. A full row spans the frame; a shorter row stops after its last cell |
| `TableProps.HeaderLineAsWrittenWidth` | src/python/dxpy/utils/pretty_print.py:168-170 | in the header row as written, each header cell is as wide as the name shown plus the padding computed from the truncated name |
| `TableProps.HeaderLineWidth` | src/python/dxpy/utils/pretty_print.py:168-170 | the corrected header row spans exactly the frame over its columns |
| `TableProps.DrawUniform` | src/python/dxpy/utils/pretty_print.py:167-176 | when headers and rows fill every column and fit, and each header shows a text as long as its truncated name, every drawn line has the same visible width. This covers the corrected drawing, which shows the truncated names |
| `TableProps.TableLinesUniform` | src/python/dxpy/utils/pretty_print.py:111-176 | for rectangular input whose header names all fit `max_col_width`, every line of the table has the same visible width |
| `TableProps.AsWrittenAgreesWhenNamesFit` | src/python/dxpy/utils/pretty_print.py:161-170 | when every header name fits `max_col_width`, no name is cut, so the header row as written equals the corrected header row |
| `TableProps.HeaderWiderUnlessNamesFit` | src/python/dxpy/utils/pretty_print.py:161-170 | for rectangular input and `max_col_width >= 1`, a header name longer than `max_col_width` makes the header row wider than the frame |
| `TableProps.TableLinesUniformIff` | src/python/dxpy/utils/pretty_print.py:111-176 | for rectangular input and `max_col_width >= 1`, every line has the same visible width exactly when every header name fits `max_col_width` |
| `TableProps.LineCount` | src/python/dxpy/utils/pretty_print.py:167-176 | line count = 2 + number of rows, plus 2 when there is at least one header |
| `TableProps.ReportedDimensions` | src/python/dxpy/utils/pretty_print.py:178-179 | the reported count is the number of lines. For rectangular input whose header names fit, the reported width equals every line's width exactly when there is at least one column |
| `TableProps.NoDimensionsUnlessAsked` | src/python/dxpy/utils/pretty_print.py:178-181 | without `report_dimensions` the same lines are returned with no dimensions |
| `TableProps.TableTextWithoutColour` | src/python/dxpy/utils/pretty_print.py:179-181 | with colour off, the printed text is the lines' visible texts joined with `"\n"` |
| `TableProps.TypeColours` | src/python/dxpy/utils/pretty_print.py:153-159 | the colour map covers the four base types, the six integer aliases and `double`. The aliases share `integer`'s and `float`'s colours |
| `TableProps.RaisingInputs` | src/python/dxpy/utils/pretty_print.py:121-163 | these inputs raise: no rows, names or specs; a row longer than the first; more names than the first row has cells; a spec type with no colour |
| `TableProps.SpecsHeader` | src/python/dxpy/utils/pretty_print.py:128-131 | with specs the headers are "Row" (typed float, shown white) and then the specs' names, each in its type's colour |
| `TableProps.SpecsReplaceNames` | src/python/dxpy/utils/pretty_print.py:128-131 | given specs, any `column_names` passed is ignored |
| `TableProps.SpecsNeedRowColumn` | src/python/dxpy/utils/pretty_print.py:121-138 | with specs and rows, the first row must have at least one cell more than there are specs. One spec with the row `[7]` raises |
| `TableProps.DocumentationExample` | src/python/dxpy/utils/pretty_print.py:111-119 | `[[1, "2"], [3, "456"]]` with names A, B has columns 1 and 3 wide, six lines, every line 7 wide |
| `TableProps.HeaderOverflowsBorder` | src/python/dxpy/utils/pretty_print.py:161-170 | as written, one row `["x"]`, the name "abc" and width 2 give a table whose top rule is 4 wide but whose header row is 5 wide. The corrected header row is 4 wide |

## Left out

- The colour calls `GREEN()`, `BLUE()`, `YELLOW()`, `WHITE()`, `BOLD()` and `ENDC()` come from the `printing` module, which is not part of this model. They are style tokens whose strings the caller supplies to `TableFormat.TableText`.
- `str()` of arbitrary values is not modelled. Keys, headers and cells are strings already.
- The `collections.Mapping` test is replaced by the `Tree` datatype. A value that is not a mapping is a tree with no entries, which prints the same.
- Unique keys in a tree level are not enforced. The model allows repeated keys, which a Python mapping cannot have; every result holds for them too.
- `re.sub` is modelled as the per-code-point replacement it performs with this pattern.
- Python 2 byte strings are not modelled. Strings are sequences of code points.
- The exception classes of the bindings are not part of this model. The inputs on which `format_table` raises are excluded by `TableFormat.CanFormat`.
- TableLinesUniform: stated for tables whose header names fit `max_col_width`. With a longer name the header row is wider than the other lines (`TableProps.HeaderWiderUnlessNamesFit`, see Findings).
- ReportedDimensions: its width half is stated for tables whose header names fit `max_col_width`, for the same reason.

## Findings

| source | as written | input that shows it | evidently intended | confidence | as-written member | corrected member |
|---|---|---|---|---|---|---|
| src/python/dxpy/utils/pretty_print.py:161-169 | `col_head(i)` shows `column_names[i]`, the name before truncation. The padding subtracts `len(my_column_names[i])`, the truncated length | `format_table([["x"]], column_names=["abc"], max_col_width=2)`: rules `┌──┐` are 4 wide, header row `│abc│` is 5 wide | the header shows `my_column_names[i]`, so the header row is as wide as the rules | not executed | `TableProps.HeaderOverflowsBorder` | `TableProps.HeaderLineWidth` |

The table functions and procedures (`TableFormat.TableLines`, `TableFormat.DrawTable`, `TableFormat.FormatTable`) draw the header row as written. The corrected row is `TableFormat.HeaderLine`. `TableProps.DrawUniform` proves that a drawing using it has lines of one width for every input that fills its columns. `TableProps.TableLinesUniformIff` proves that the program as written has this property exactly when no header name is cut.
