# multiPlot `test2graph.py`: a verified model of its data-handling logic

`test2graph.py` plots columns of whitespace-separated data files with
matplotlib, one panel per file. Around the plotting calls it does a small
amount of text and index work, and that work is what this project models and
proves things about:

- **`_parseColumns`** turns a column specification (`"1 2"`, `"1 3-5 2"`, or
  the token list argparse collects) into zero-based column indices.
  - Integer tokens and `a-b` ranges are expanded in order, and every value is
    decremented.
  - Nothing is sorted, deduplicated or range-checked.
  - Modules `Columns`, with `Text` for Python 2's `str.split`, `int()` and
    `str()`.
- **The metadata scan of `_readData`** reads header lines of the form
  `# <column> --> <name>` into a map from zero-based column to name. Later
  lines overwrite earlier ones. Module `Metadata`.
- **The title loop of `_readReadme`** concatenates the first `nlinesReadme`
  lines of the README and turns every newline into a space. Module `Readme`.
- **The grid row count of `_subplotgenerator`** is `ceil(n / ncols)`.
  **The tick thinning `yt[::ntic]` of `_makeGraph`** keeps every ntic-th
  tick. Module `Layout`.
- **The label selection in `main`** picks the x label, and either the y label
  or one label per series, from the metadata map. **The `'NotFound'`
  padding in `_makeGraph`** gives every plotted series a label. Module
  `Labels`.
- Module `Scenario` follows one two-column file through all of the above.

Python's exceptions are values of `Outcome.PyError`. A function that can
raise returns `Outcome.Result`. The global `config` entries (`ncols`, `cols`,
`nlinesReadme`) are parameters. Files are given as their lines, each with its
line terminator, as `readlines()` and file iteration deliver them.

Where an operation is a loop in the source, it is a method with that loop:
`ParseColumns`/`ExpandTokens`, `ScanMetadata`, `ReadTitle`, `SelectLabels`
and `PadLabels`. Each method is proved equal to a specification function:
`ColumnIndices`, `MetadataOf`, `Title`, `Selection` and `PaddedLabels`. What
the source promises is then proved about those functions as lemmas.

Points where the code does something other than its comments and
documentation suggest. The model follows the code:

- A range `a-b` with `a > b` is not an error. It contributes nothing, since
  `range(a, b+1)` is empty.
- Nothing requires column numbers to be at least 1. The token `0` becomes
  index -1.
- A README line is compared with `'#'` while it still carries its
  newline, so comment lines such as `#\n` are part of the title. Only a
  last line consisting of `#` alone, without a terminator, is "skipped", and
  on that line the loop never advances (`Readme.Title` is `None`).
- A label missing from the metadata is a `KeyError` in `main`, not a
  placeholder. Only `_makeGraph` pads the per-series list with `'NotFound'`.
- In `_readData` the `try` catches only `ValueError`, which only `int()` of the
  column token raises inside it, and `ws.index` is outside it. A
  `-->` glued to other text makes `ws.index` raise `ValueError`, and an
  arrow at the end of the line makes `ws[splitidx+1]` raise `IndexError`.
  Both end the read.

## Model

| member | source | states |
|---|---|---|
| Columns.ParseColumns | test2graph.py:261-272 | The loop returns exactly `ColumnIndices(arg)`. A string argument is split on whitespace first. |
| Columns.ExpandTokens | test2graph.py:266-270 | `tmp` grows token by token: a range's interval or the integer's value is appended, and the loop stops with the first token `int()` refuses. |
| Columns.StepRange | test2graph.py:267-268 | A token the regular expression matches appends `range(a, b+1)` to `tmp`. |
| Columns.StepSingle | test2graph.py:269-270 | A token that is not a range but an integer appends that integer. |
| Columns.StepFails | test2graph.py:269-270 | A token that is neither fails the whole parse with `ValueError`, whatever follows. |
| Columns.ColumnIndicesMeaning | test2graph.py:266-272 | On success there is one token per input token. The output length is the sum of the token sizes (1 per integer, `b-a+1` per range). The i-th output is the i-th expanded number minus 1, in token order with no sorting or deduplication. |
| Columns.ColumnIndicesFails | test2graph.py:266-270 | The parse fails if and only if some token is neither a range nor an integer, and the failure is then `ValueError`. |
| Columns.CollectMeaning | test2graph.py:266-270 | Tokens are collected exactly when none fails, in order. Otherwise the error is that of the first failing token. |
| Columns.CollectStopsAtError | test2graph.py:266-270 | Once one token fails, no later token changes the outcome. |
| Columns.RangeExpansion | test2graph.py:268 | `a-b` stands for the `b-a+1` numbers `a, a+1, ...` when `a <= b`, and for nothing otherwise. |
| Columns.ExpansionSize | test2graph.py:268-270 | Each token stands for as many numbers as its size. |
| Columns.ExpandLength | test2graph.py:266-270 | The expansion of a token list is as long as the sum of the token sizes. |
| Columns.RangeTokenAnchored | test2graph.py:265-268 | The match is anchored at the start only. Digits, a dash and digits followed by anything not a digit make a range, so `3-5x` is 3..5. |
| Columns.ClassifyTokenError | test2graph.py:267-270 | A token can only fail with `ValueError`. |
| Columns.ShowIntToken | test2graph.py:270 | The decimal form of any integer is read back as that integer. |
| Columns.SameTokens | test2graph.py:264 | A string and a list with the same whitespace-separated tokens give the same indices. |
| Columns.ColumnsRoundTrip | test2graph.py:264-272 | Writing zero-based columns one-based in decimal and parsing the list gives the columns back. |
| Columns.ColumnsStringRoundTrip | test2graph.py:264-272 | The same round trip holds through the single-string form joined by spaces. |
| Columns.ExampleMixed | test2graph.py:266-272 | `["1", "3-5", "2"]` gives `[0, 2, 3, 4, 1]`. |
| Columns.ExampleString | test2graph.py:264-272 | `"1 3-5 2"` gives `[0, 2, 3, 4, 1]`. |
| Columns.ExampleZero | test2graph.py:272 | The token `0` gives index -1. |
| Columns.ExampleNotInteger | test2graph.py:270 | The token `x` is a `ValueError`. |
| Columns.RangeLiteral | test2graph.py:267-268 | `3-5` is the range 3..5. |
| Text.Split | test2graph.py:264 | `str.split()` yields non-empty tokens without whitespace. |
| Text.SplitJoin | test2graph.py:264 | Splitting tokens joined by single spaces, followed by any whitespace, gives the tokens back. |
| Text.ParseShowInt | test2graph.py:270 | `int(str(n)) == n` for every integer. |
| Text.IndexOf | test2graph.py:225 | `list.index` gives the first position of the token, and fails exactly when the token is absent. |
| Metadata.ScanMetadata | test2graph.py:216-233 | The loop over the lines returns exactly `MetadataOf(lines)`. |
| Metadata.MetadataEntries | test2graph.py:221-229 | Column k is in the map if and only if some line sets k. Its name is that of the last such line. |
| Metadata.MetadataFails | test2graph.py:221-229 | The read fails if and only if some line raises outside the handler. |
| Metadata.IgnoredLine | test2graph.py:222-223 | A line not starting with `#`, or without `-->`, leaves the map unchanged. |
| Metadata.MalformedSkipped | test2graph.py:226-232 | A directive whose column token is not an integer leaves the map unchanged, as the handler intends. |
| Metadata.DirectiveOverwrites | test2graph.py:229 | A directive sets its key to its name, overwriting any earlier name. |
| Metadata.SplitHead | test2graph.py:222-225 | The first token of a `#` line starts with `#` and is never the arrow, so `splitidx - 1` is never negative. |
| Metadata.ReadDirectiveLine | test2graph.py:224-229 | `# <column> --> <name>` gives the entry `n-1 -> name` when the column token is the integer n, and is malformed otherwise. |
| Metadata.DirectiveRoundTrip | test2graph.py:229 | Writing a one-based column k and a name as a directive reads back as key `k-1` with that name. |
| Metadata.MalformedDirective | test2graph.py:230-232 | A non-integer column token is skipped by the intended handler, but raises `NameError` with the handler as written. |
| Metadata.ExampleMalformed | test2graph.py:226-232 | `# x --> Time` aborts the read with `NameError` as written. With the intended handler it yields an empty map. |
| Metadata.GluedArrow | test2graph.py:225 | A `-->` that is not a token of its own is a `ValueError` that ends the read. |
| Metadata.TrailingArrow | test2graph.py:229 | An arrow with no name after it is an `IndexError` that ends the read. |
| Metadata.ExampleSingleDirective | test2graph.py:221-229 | The single line `# 2 --> Time` gives the metadata `{1: "Time"}`. |
| Readme.ReadTitle | test2graph.py:186-197 | The `while` loop returns exactly `Title(lines, nlinesReadme)`. Where the source would loop forever, it returns `None`. |
| Readme.LinesTaken | test2graph.py:189-195 | The loop takes `min(nlinesReadme, len(lines))` lines: `nlinesReadme` when the file is longer, all of them when it is shorter, and none for a non-positive count. |
| Readme.ShortReadme | test2graph.py:189-195 | A README shorter than `nlinesReadme` is no error: all its lines make the title. |
| Readme.TitleTerminates | test2graph.py:189-193 | The loop fails to end if and only if a line within the first `nlinesReadme` is exactly `#`. |
| Readme.TitleGrows | test2graph.py:191-193 | Taking one more line appends that line, newlines replaced, to the title. |
| Readme.TitleHasNoNewline | test2graph.py:197 | No newline is left in a title. |
| Readme.NewlinesToSpaces | test2graph.py:197 | `replace('\n', ' ')` keeps the length and changes exactly the newlines into spaces. |
| Readme.CommentLineKept | test2graph.py:191 | A comment line with its terminator is part of the title. |
| Readme.TwoLineTitle | test2graph.py:186-197 | Two lines with `nlinesReadme = 3` give `a + " " + b + " "`. |
| Layout.CeilDiv | test2graph.py:254 | `ceil(a / d)` on exact rationals: the unique q with `(q-1)*d < a <= q*d` for positive d, and the mirrored bounds for negative d. |
| Layout.GridRows | test2graph.py:254 | A zero `ncols` is `ZeroDivisionError`. Otherwise the rows satisfy `(rows-1)*ncols < n <= rows*ncols` for positive `ncols`. |
| Layout.GridFits | test2graph.py:254 | With positive `ncols` every file gets a panel, and one row fewer would leave a file without one. |
| Layout.GridRowsUnique | test2graph.py:254 | Those bounds determine the row count. |
| Layout.PanelCount | test2graph.py:254-257 | The number of panels `len(axs)` is at least the number of files and less than that plus `ncols`. |
| Layout.ExampleGrids | test2graph.py:254 | (7, 3) gives 3 rows, (6, 3) and (2, 3) give 2 and 1, and (1, 1) gives 1. |
| Layout.Slice | test2graph.py:114 | `yt[::step]` fails with `ValueError` exactly for step 0. |
| Layout.StrideElements | test2graph.py:114 | A positive step s keeps `ceil(len(yt)/s)` ticks, and the i-th is `yt[i*s]`. |
| Layout.StrideLength | test2graph.py:114 | A positive step s keeps `ceil(len(yt)/s)` ticks. |
| Layout.StrideAt | test2graph.py:114 | The i-th kept tick is `yt[i*s]`. |
| Layout.StrideKeeps | test2graph.py:114 | Every tick at a multiple of s is kept, in its place. |
| Layout.StrideFirst | test2graph.py:114 | The first tick is kept. |
| Layout.StrideOne | test2graph.py:114 | A step of 1 leaves the ticks unchanged. |
| Layout.ReverseSlice | test2graph.py:114 | A negative step keeps `ceil(len(yt)/-step)` ticks, counting back from the last. |
| Layout.ExampleTicks | test2graph.py:114 | `[10,20,30,40,50]` with step 2 gives `[10,30,50]`, with step -2 gives `[50,30,10]`, and step 0 is `ValueError`. |
| Labels.SelectLabels | test2graph.py:49-58 | The selection, with its loop over `cols[1:]`, returns exactly `Selection(metadata, cols, len(data))`. |
| Labels.LookupAllMeaning | test2graph.py:54-55 | The per-series labels succeed exactly when every column has a name, and are then those names in order. Otherwise the error names the first column without one. |
| Labels.SelectionMany | test2graph.py:49-56 | With more than two data rows, selection succeeds if and only if every chosen column is named. The x label is the first column's name, the y label is `Generic`, and the labels are the other columns' names in order. |
| Labels.SelectionFew | test2graph.py:49-58 | With at most two data rows, the x and y labels are those of the first two columns, with no per-series labels. Fewer than two columns is an `IndexError`. |
| Labels.SelectionMissing | test2graph.py:49-58 | A missing name is a `KeyError`: for the x column if it is missing; otherwise, with more than two rows, for the first missing column of `cols[1:]`, and with at most two rows for `cols[1]`. |
| Labels.PadLabels | test2graph.py:101-106 | The padding loop returns exactly `PaddedLabels(labels, len(data))`. |
| Labels.PaddingMeaning | test2graph.py:101-106 | Outside the two-row case, afterwards there are `max(len(labels), len(data)-1)` labels. The given ones come first, unchanged, and every added one is `NotFound`. |
| Labels.PaddingTwoRows | test2graph.py:94-99 | With two data rows the labels are left as they are. |
| Labels.SelectedNeedNoPadding | test2graph.py:53-56 | When as many rows as chosen columns are loaded, the labels `main` selects already cover every series, so nothing is padded. |
| Scenario.TwoColumnPlot | test2graph.py:36-67 | Choosing two named columns of one file: the columns parse back, the header gives both names, the x and y labels are those names, nothing is padded, and one file fills one row. |

## Left out

- `_logicFunctionTicks` (lines 119-160) computes the tick stride with `math.log`, `math.exp` and `round` on floats. The stride is a parameter of `Layout.Slice`.
- `_parseRange` (lines 275-283) parses floats and reads matplotlib's current limits.
- `np.loadtxt(..., usecols=...)` and `.T` (lines 235-236) are an external numeric loader. The number of data rows `len(data)` is a parameter of the label functions.
- All matplotlib calls (`plt.subplots`, `ravel`, `ax.plot`, `set_*`, `legend`, `get_yticks`, `set_yticks`, `xlim`/`ylim`, `show`): they draw, and only the integers passed to them are modelled. `plt.subplots(1, 1)` returns a single axes object without `ravel`, which is outside this model.
- Finding and opening files (lines 179-188 and 220): the model works on line sequences. In the missing-README branch (line 182), `sys` is never imported, so that branch raises `NameError` instead of warning. That is file lookup, not part of this model.
- `_parser`/argparse (lines 285-331), the `print` diagnostics and the `stderr` warnings: this is output only.
- The mutation of the global `config` (lines 27-28): its values are parameters.
- Labels.PadLabels: the source appends to the caller's list in place. The model returns the new list, so the aliasing with `main`'s `labels` is not modelled. `main` makes a fresh list for every file, so nothing depends on it.
- Layout.GridRows: the rows are computed on exact rationals. For very large counts `n / float(ncols)` would round, which is not modelled. For a negative `ncols` the value is Python's ceiling, although matplotlib would refuse such a grid.
- Readme.ReadTitle: a loop that never ends is modelled as the result `None`. The model does not say that the program hangs.
- Text.ParseInt: Python 2's `int()` also accepts whitespace between the sign and the digits (`int('+ 2')` is 2); the model refuses such a token with `ValueError`. A string specification is split first, so this never arises there, but a quoted command-line token such as `-c "+ 2"` reaches `int()` unsplit: the source reads it as column index 1 where `Columns.ColumnIndices` fails.
- Metadata.IgnoredLine: an empty line counts as no directive, where `l[0]` would raise `IndexError`. Iterating over a file never yields an empty line (each line keeps its terminator), so no input of the source reaches that case.
- Text: whitespace is the ASCII set Python 2 uses for byte strings (space and `\t` to `\r`). Unicode whitespace and `\d` on non-ASCII digits are not modelled.
- `Layout.Slice` models the slice on any sequence. The ticks are numpy floats, and their values are not modelled.

## Findings

| source | as written | input that shows it | evidently intended | confidence | as-written member | corrected member |
|---|---|---|---|---|---|---|
| test2graph.py:230-232 | The `except ValueError` handler calls `sys.stderr.write`. `sys` is never imported (lines 4-7), so the handler raises `NameError` and the read of the data file aborts. | a header line `# x --> Time` (column token not an integer) | skip the malformed directive after a warning and keep scanning. `Metadata.ReadDirectiveAsWritten` models the handler as written, and `Metadata.ReadDirective`, used by the rest of the model, the intended skip. | not executed | Metadata.ExampleMalformed | Metadata.MalformedSkipped |
