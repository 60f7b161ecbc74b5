# scireputils core, modelled in Dafny

This project models the three small pieces of real logic in `scireputils`, a toolkit for writing scientific reports:

- **Booktabs column helpers** (`scireputils/_dataframe_to_booktabs_table.py`), in module `Booktabs`:
  - parsing a column specification (a token list or one whitespace-separated string) into `(key, name, unit, format)`, with the defaults filled in;
  - padding one column to a common width, with the header name and unit left-justified and the data cells right-justified;
  - building the Python format template for an siunitx S-column number spec: fixed-point `f`, or exponential `e` with the exponent digits dropped.
- **`Spline._monotonize`** (`scireputils/curve_fitting.py`), in module `CurveFitting`: one pass over `zip(xdata, ydata)` that keeps only the "record" points, whose x exceeds every x kept before. The result's x values strictly increase.
- **LaTeX float snippets** (`scireputils/latex_templates.py`), in module `LatexTemplates`: `make_figure_float` and `make_table_float` build a `figure` or `table` environment from a path, a caption, a label, a position and integer spacings.

Supporting modules:
- `Wrappers` holds `Option` and a `Result` whose one error is Python's `IndexError`.
- `Strings` models Python's `s.split(c)` and `c.join(parts)` for a one-character separator, and proves that each undoes the other.

Modelling choices:
- Strings are `seq<char>`.
- The two pure source files are modelled as functions and lemmas.
- `_monotonize` appends to lists in a loop, so it is a method with a `for` loop. Its loop invariants tie the lists to the specification function `Records`, and the properties are proved as lemmas about `Records`.
- An empty spec or empty `xdata` raises `IndexError` in Python. The model returns `Err(IndexError)` in those cases instead of forbidding them.
- The defaults of the two float builders (`position="h"`, `tabcolsep=15`, `caption_vspace=0`) are Dafny default parameter values.
- Each float snippet is the multi-line literal of the source, written as its lines (`FigureLines`, `TableLines`) joined by newlines. The empty first and last lines stand for the newline right after the opening quotes and the one before the closing quotes.

Behaviour of the code that is easy to miss:
- A column spec of a single element is accepted. Elements after the fourth are ignored.
- For a number spec with an `e`, only the text before the first `e` is kept, followed by `e`.

## Model

| member | source | states |
|---|---|---|
| `Strings.BeforeFirst` | scireputils/_dataframe_to_booktabs_table.py:43 | `s.split(c)[0]`: the longest prefix of `s` without `c`; it is followed by `c` unless it is all of `s` |
| `Strings.SplitOn` | scireputils/_dataframe_to_booktabs_table.py:43 | `s.split(c)` is never empty, its first piece is the text before the first `c`, and no piece contains `c` |
| `Strings.JoinWith` | scireputils/_dataframe_to_booktabs_table.py:43 | `c.join(parts)`: its properties are the round trips `SplitJoin` and `JoinSplit` below, and `JoinFramed` |
| `Strings.SplitJoin` | scireputils/_dataframe_to_booktabs_table.py:43 | splitting text joined by `c` gives back the pieces, when no piece contains `c` |
| `Strings.JoinSplit` | scireputils/_dataframe_to_booktabs_table.py:43 | joining the pieces of `s.split(c)` with `c` gives back `s`, so splitting loses no text |
| `Strings.JoinFramed` | scireputils/latex_templates.py:69-77 | pieces whose first and last are empty join into text that starts and ends with the separator |
| `Booktabs.Word` | scireputils/_dataframe_to_booktabs_table.py:3 | the longest whitespace-free prefix, followed by whitespace unless it is the whole text |
| `Booktabs.IsSpace` | scireputils/_dataframe_to_booktabs_table.py:3 | the whitespace `str.split()` splits on: the 29 code points for which `str.isspace` holds |
| `Booktabs.SplitWhitespace` | scireputils/_dataframe_to_booktabs_table.py:2-3 | `cp.split()` yields only non-empty, whitespace-free tokens. `SplitSpaced` and `SplitDecomposes` fix which tokens |
| `Booktabs.SplitBlankIff` | scireputils/_dataframe_to_booktabs_table.py:2-3 | `cp.split()` is empty if and only if the string is all whitespace (both directions) |
| `Booktabs.SplitJoinSpaces` | scireputils/_dataframe_to_booktabs_table.py:2-3 | splitting tokens joined by single spaces returns the same tokens, so a string spec parses like its token list |
| `Booktabs.SplitSpaced` | scireputils/_dataframe_to_booktabs_table.py:2-3 | `str.split()` splits on runs of whitespace: tokens separated by any non-empty whitespace runs, with any whitespace before and after, split back into exactly those tokens |
| `Booktabs.SplitDecomposes` | scireputils/_dataframe_to_booktabs_table.py:2-3 | every string is its own `split()` tokens laid out between whitespace runs, non-empty between tokens. With `SplitSpaced` this fixes the tokens of every string |
| `Booktabs.SpecTokens` | scireputils/_dataframe_to_booktabs_table.py:2-3 | a token-list spec is indexed as it is. A string spec is replaced by its `split()` tokens, each non-empty and whitespace-free |
| `Booktabs.ParseColumnProperty` | scireputils/_dataframe_to_booktabs_table.py:1-19 | a string spec is split first. Success iff there is at least one token. Key is token 0. Name is token 1, or the key if there are fewer than 2 tokens. Unit is token 2, or `""` if fewer than 3. Format is token 3, or `None` if fewer than 4 |
| `Booktabs.ParseIgnoresExtraTokens` | scireputils/_dataframe_to_booktabs_table.py:14-19 | tokens after the fourth do not change the parse |
| `Booktabs.ParseTextFailsIffBlank` | scireputils/_dataframe_to_booktabs_table.py:2-5 | a string spec raises `IndexError` exactly when it is empty or all whitespace |
| `Booktabs.ParseCanonicalTokens` | scireputils/_dataframe_to_booktabs_table.py:5-19 | every `(key, name, unit, format)` is recovered from its shortest token list, with trailing defaults dropped |
| `Booktabs.ParseCanonicalText` | scireputils/_dataframe_to_booktabs_table.py:1-19 | a property with whitespace-free fields is recovered from its space-joined spec string |
| `Booktabs.LeftJustify` | scireputils/_dataframe_to_booktabs_table.py:32-34 | `"{:<w}".format(s)` is `s` followed only by spaces, with length `max(len(s), w)`. It never truncates |
| `Booktabs.RightJustify` | scireputils/_dataframe_to_booktabs_table.py:30-31 | `"{:>w}".format(s)` is `s` preceded only by spaces, with length `max(len(s), w)`. It never truncates |
| `Booktabs.LongestLength` | scireputils/_dataframe_to_booktabs_table.py:28 | `len(max(ss, key=len))` of a non-empty list (Python raises `ValueError` on an empty one, which the source never passes): at least every length, and equal to the length of one of the strings |
| `Booktabs.ColumnWidth` | scireputils/_dataframe_to_booktabs_table.py:28 | the padding width is at least the name, the unit and every cell, and equals one of them |
| `Booktabs.EqualizeColumn` | scireputils/_dataframe_to_booktabs_table.py:22-36 | returns `len(str_data) + 2` strings of one common length: name, then unit, then the cells in order. Name and unit are left-justified and the cells right-justified. The common length is that of the name, the unit or some cell, so it is their maximum |
| `Booktabs.EqualizeUniform` | scireputils/_dataframe_to_booktabs_table.py:28-36 | a column whose strings already share one length comes back unchanged |
| `Booktabs.EqualizeIdempotent` | scireputils/_dataframe_to_booktabs_table.py:28-36 | equalising `(out[0], out[1], out[2:])` of an equalised column returns `out` |
| `Booktabs.MakeFormatTemplate` | scireputils/_dataframe_to_booktabs_table.py:39-47 | the template is `"{:" + spec + "}"`. Without an `e`, spec is the input plus `f`. With an `e`, spec is the input up to and including its first `e`: exactly one `e`, and it is last |
| `Booktabs.ExponentialTemplate` | scireputils/_dataframe_to_booktabs_table.py:42-43 | for `p + "e" + q` with no `e` in `p`, the template is `"{:" + p + "e}"`, whatever exponent digits `q` hold |
| `Booktabs.FixedTemplate` | scireputils/_dataframe_to_booktabs_table.py:44-47 | a spec without `e` gives the template `"{:" + p + "f}"` |
| `Booktabs.FixedTemplateExample` | scireputils/_dataframe_to_booktabs_table.py:39-47 | `"1.2"` gives `"{:1.2f}"` |
| `Booktabs.ExponentialTemplateExample` | scireputils/_dataframe_to_booktabs_table.py:39-47 | `"4.3e1"` gives `"{:4.3e}"` |
| `CurveFitting.Zip` | scireputils/curve_fitting.py:173 | `zip(xdata, ydata)` has the shorter length and pairs each x with the y at the same index |
| `CurveFitting.Records` | scireputils/curve_fitting.py:169-177 | the kept points are never more than the visited points |
| `CurveFitting.Monotonized` | scireputils/curve_fitting.py:150-179 | the result of `_monotonize`: `IndexError` exactly when `xdata` is empty (the read of `xdata[0]`), otherwise two lists of equal length, at most `min(len(xdata), len(ydata))` |
| `CurveFitting.Monotonize` | scireputils/curve_fitting.py:150-179 | the loop computes `Monotonized`. It fails with `IndexError` iff `xdata` is empty. `new_x` and `new_y` have equal length, at most `min(len(xdata), len(ydata))`, and `new_x` strictly increases |
| `CurveFitting.RecordsIncrease` | scireputils/curve_fitting.py:169-177 | the kept x values strictly increase and all exceed the initial `highest` |
| `CurveFitting.MaxX` | scireputils/curve_fitting.py:174-177 | the running maximum is at least the start value and at least every x seen |
| `CurveFitting.HighestIsRunningMax` | scireputils/curve_fitting.py:174-177 | `highest` equals the maximum of its start value and every x visited |
| `CurveFitting.AboveMaxX` | scireputils/curve_fitting.py:174 | exceeding the running maximum means exceeding the start value and every earlier x, and conversely |
| `CurveFitting.RecordsStep` | scireputils/curve_fitting.py:174-177 | one iteration appends the point exactly when its x exceeds `highest` and every earlier x |
| `CurveFitting.IsRecordOfPrefix` | scireputils/curve_fitting.py:174 | whether a point is kept depends only on the points up to it |
| `CurveFitting.RecordIndicesSound` | scireputils/curve_fitting.py:173-177 | the kept positions are in range, strictly increasing, and are exactly the record positions |
| `CurveFitting.RecordsAreRecordPoints` | scireputils/curve_fitting.py:173-177 | the output is a subsequence of `zip(xdata, ydata)` in order, each x with its own y. A pair is kept iff its x exceeds every x kept before (both directions) |
| `CurveFitting.FirstPairKept` | scireputils/curve_fitting.py:169-174 | with non-empty x and y data, the first pair is always kept, because `highest` starts at `xdata[0] - 1` |
| `CurveFitting.RecordsOfIncreasing` | scireputils/curve_fitting.py:173-177 | points whose x already strictly increases above the start value are all kept |
| `CurveFitting.MonotonizeIncreasing` | scireputils/curve_fitting.py:150-179 | strictly increasing `xdata` passes through unchanged, truncated to `min(len(xdata), len(ydata))` |
| `CurveFitting.MonotonizeIdempotent` | scireputils/curve_fitting.py:150-179 | monotonizing the result again returns it unchanged. The exception is an empty result (empty `ydata`), where the second call raises `IndexError` |
| `LatexTemplates.NatToDecimal` | scireputils/latex_templates.py:73 | a non-empty string of decimal digits with no leading zero |
| `LatexTemplates.IntToDecimal` | scireputils/latex_templates.py:73 | `str(n)` is non-empty and contains no newline |
| `LatexTemplates.DecimalValueOfNat` | scireputils/latex_templates.py:73 | the digits of `n` read back as `n` |
| `LatexTemplates.ParseIntOfDecimal` | scireputils/latex_templates.py:109-111 | a printed spacing, negative ones included, reads back as the same integer |
| `LatexTemplates.FigureLines` | scireputils/latex_templates.py:69-77 | the figure literal has nine lines, the first and last empty (the newlines after the opening and before the closing quotes) |
| `LatexTemplates.TableLines` | scireputils/latex_templates.py:106-115 | the table literal has ten lines, the first and last empty |
| `LatexTemplates.MakeFigureFloat` | scireputils/latex_templates.py:46-77 | `make_figure_float` returns text that starts and ends with a newline; `FigureFloatLines` gives its lines |
| `LatexTemplates.MakeTableFloat` | scireputils/latex_templates.py:80-115 | `make_table_float` returns text that starts and ends with a newline; `TableFloatLines` gives its lines |
| `LatexTemplates.FigureFloatLines` | scireputils/latex_templates.py:46-77 | split on newlines, the figure snippet is exactly: an empty line, `\begin{figure}[position]`, then 4-space-indented `\centering`, `\includegraphics{path}`, `\vspace{Npt}`, `\caption{caption}`, `\label{fig:label}`, then `\end{figure}` and a final empty string |
| `LatexTemplates.TableFloatLines` | scireputils/latex_templates.py:80-115 | split on newlines, the table snippet is exactly: an empty line, `\begin{table}[position]`, then 4-space-indented `\centering`, `\setlength{\tabcolsep}{Tpt}`, `\input{path}`, `\vspace{Npt}`, `\caption{caption}`, `\label{tab:label}`, then `\end{table}` and a final empty string |
| `LatexTemplates.FigureFloatDefaults` | scireputils/latex_templates.py:46 | for every path, caption and label, calling without position and spacing gives the snippet for `[h]` and `\vspace{0pt}` |
| `LatexTemplates.TableFloatDefaults` | scireputils/latex_templates.py:80 | for every path, caption and label, calling without the optional arguments gives the snippet for `[h]`, `\tabcolsep` 15pt and `\vspace{0pt}` |

## Left out

- The number rendering done by the callable that `_make_formater_from_s_col_format_string` returns (for example, what `"{:1.2f}"` prints for 3.14159) is floating-point formatting. `MakeFormatTemplate` models only the construction of the template string.
- The table assembler that joins cells with `" & "`, adds the rules and the S-column declarations, and handles the `index` column is not part of this model. Only its three helpers are modelled.
- `FitCurve`, `Spline.__init__` and `Spline.curve` wrap scipy's `curve_fit` and `UnivariateSpline` and use float arithmetic. They are foreign numerics.
- `render_template` is jinja2 rendering plus file I/O. The `Table` class has no behaviour.
- `project_management.py`, `dataframes.py`, `data_processing.py`, `plotting.py`, `setup.py` and `report_template/` are filesystem, pandas, numpy and matplotlib glue, or packaging metadata.
- Monotonize: x and y values are integers. Float effects are not modelled. Examples: `xdata[0] - 1 == xdata[0]` for very large floats, which would drop the first point; NaN comparisons; and the final conversion to numpy arrays.
- ParseColumnProperty: token lists hold strings. Python would also accept tuples and non-string elements, and a non-sequence spec fails with a `TypeError` that is not modelled.
- MakeFigureFloat: `caption_vspace` is an integer. Python would print any value through `str()`, floats included.
- MakeTableFloat: `tabcolsep` and `caption_vspace` are integers, for the same reason.
- FigureFloatLines and TableFloatLines assume arguments without newlines. An argument containing a newline adds lines, which the model does not describe.
- Python strings may contain lone surrogate code points, which Dafny's `char` cannot represent. Lengths are otherwise counted in code points on both sides.
