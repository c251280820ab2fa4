# generate_summary, modelled in Dafny

This project models the core of `scripts/generate_summary.py`, the script that
compares the research reports written about one stock. It reads a directory of
report files named like `v003_2024-05-01.md`, parses each report into sections,
pulls out the pricing prediction, the key points and the risk level, orders the
reports by version and renders a Markdown summary:

- a header;
- a price table whose last column is the change of the target price against the
  row before;
- a timeline of key points;
- a risk table;
- a trend section comparing the first and the last report.

The model is written as pure functions over strings (`seq<char>`), options and
sequences:

| file | module | what it models |
|---|---|---|
| `wrappers.dfy` | `Wrappers` | `Option`, standing for Python's `None` |
| `seqs.dfy` | `Seqs` | sequence facts used by the proofs |
| `text.dfy` | `Text` | `str.strip`, `split('\n')` and `'\n'.join`, digit strings, `str(n)`, the `0>3` format |
| `patterns.dfy` | `Patterns` | each regular expression of the script written out as a matcher; `re.search` as the leftmost matching position; the capture groups |
| `sections.dfy` | `Sections` | `_parse_sections` as a left fold over the lines, plus a description of its result by line positions |
| `reports.dfy` | `Reports` | `ResearchReport`: version and date from the file name, `get_pricing_prediction`, `get_key_points`, `get_risk_assessment` |
| `collection.dfy` | `Collection` | `find_research_reports` after the directory listing: filter, then a stable insertion sort by integer version |
| `price_change.dfy` | `PriceChange` | `calculate_price_change`, with `float(...)` over exact reals and `:.2f` written out |
| `summary.dfy` | `Summary` | `generate_summary`: the document as a list of lines, then joined |

The directory listing enters the model as a sequence of (file name, file text)
pairs, in the order `sorted(glob('v*.md'))` gives them. The generation time and
the stock name enter as string parameters.

### Behaviour worth knowing

- **Change column.** The cursor `prev_price` is overwritten on every row,
  because an absent target is `None` and `None != '-'`. So each row is compared
  with the row right before it, and a row after one without a target shows `-`.
  (`Summary.ChangeAgainstPreviousRow`, `Summary.PriceTableRows`.)
- **Absent fields.** Absent pricing fields are stored as `None` under existing
  keys, so `.get(key, '-')` returns `None` and the table cell prints `None`.
  (`Summary.Show`.)
- **Direction.** The direction pattern is the character class `[看漲看跌中性]+`,
  so any run of those characters is accepted, such as `漲漲` or `看`.
- **Whitespace.** The label patterns allow whitespace only after the colon,
  not between the label and the colon.
- **Unit.** The `\s*` before a unit may cross a line break, so a price at the
  end of a line takes the first word of the next line as its unit.

## Model

| member | source | states |
|---|---|---|
| Reports.ExtractVersion | scripts/generate_summary.py:27-30 | no version exactly when no `v` followed by a digit occurs in the name; otherwise a non-empty string of digits |
| Reports.VersionIsLeftmostDigitRun | scripts/generate_summary.py:27-30 | the version is the whole digit run after the leftmost `v` that is followed by a digit |
| Reports.VersionOfName | scripts/generate_summary.py:27-30 | a name made of a `v`-free prefix, `v`, digits and a non-digit rest yields exactly those digits |
| Reports.ExtractDate | scripts/generate_summary.py:32-35 | no date exactly when no `DDDD-DD-DD` substring occurs; otherwise a string of that shape |
| Reports.DateIsLeftmost | scripts/generate_summary.py:32-35 | the date is the leftmost `DDDD-DD-DD` substring |
| Reports.ParseReport | scripts/generate_summary.py:20-25 | a parsed report's version is a non-empty digit string and its date has the date shape, whenever present |
| Sections.ParseSections | scripts/generate_summary.py:46-66 | every stored section name is non-empty and stripped, and so is every stored body |
| Sections.StoredTextIsStripped | scripts/generate_summary.py:56-64 | every stored name and body equals its own `strip()` |
| Sections.PreambleDropped | scripts/generate_summary.py:52-60 | heading-free lines before the rest of a text change nothing: they belong to no section |
| Sections.LastOccurrenceWins | scripts/generate_summary.py:52-66 | a name is stored with the stripped lines between its last heading and the next heading; earlier sections of that name are overwritten |
| Sections.StoredNames | scripts/generate_summary.py:54-66 | a name is stored exactly when it is non-empty and some `## ` line carries it |
| Sections.SubHeadingStaysInBody | scripts/generate_summary.py:54-60 | a `### ` line never opens a section and stays inside the body of the section around it |
| Patterns.FindLeftmost | scripts/generate_summary.py:29 | a search lands on the leftmost position where the pattern matches |
| Patterns.PriceCapture | scripts/generate_summary.py:82-84 | the captured number is the longest `[\d,]+\.?\d*` text where the value starts (after the colon and the whitespace), and the unit is the whole first word after it, across any whitespace |
| Patterns.RunCapture | scripts/generate_summary.py:92-94 | the captured run is non-empty, drawn from the bracket class, starts where the value starts and stops only at the end of the text or at a character outside the class |
| Patterns.RestCapture | scripts/generate_summary.py:97-99 | the captured time range is the stripped rest of the line where the value starts (empty when nothing but whitespace follows the colon up to the end of the text); it holds no line break and is its own strip |
| Patterns.PriceAfterLabel | scripts/generate_summary.py:82-84 | when a text is label, colon, whitespace, number, whitespace, unit and a rest that continues neither, and no match starts earlier, the search lands on the label and captures exactly that number and unit |
| Patterns.RunAfterLabel | scripts/generate_summary.py:92-94 | when a text is label, colon, whitespace, a run of class characters and a rest not starting with one, the search lands on the label and captures exactly that run |
| Patterns.RestAfterLabel | scripts/generate_summary.py:97-99 | when a text is label, colon, whitespace, a line text and then a line break or the end, the search lands on the label and captures that line text, stripped |
| Reports.FindPrice | scripts/generate_summary.py:82-89 | a price is found exactly when its labelled pattern occurs; it is then the number and unit read at the leftmost match |
| Reports.FindRun | scripts/generate_summary.py:92-94 | a run is found exactly when its labelled pattern occurs; it is then the whole run of class characters read at the leftmost match |
| Reports.GetPricing | scripts/generate_summary.py:68-101 | a missing or empty pricing section gives four absent fields; otherwise each field is present exactly when its pattern occurs; a present target, current price or direction is the value read at the leftmost match of its pattern |
| Reports.TargetPriceIsLeftmostMatch | scripts/generate_summary.py:82-84 | a present target price is the capture at the leftmost match of its pattern |
| Reports.TargetPriceOfSection | scripts/generate_summary.py:77-84 | a pricing section with `目標價格`, a colon, whitespace, a number and a unit, and no earlier match, yields exactly that number and unit as the target price |
| Reports.CurrentPriceOfSection | scripts/generate_summary.py:77-89 | the same for `當前價格` and the current price |
| Reports.DirectionOfSection | scripts/generate_summary.py:77-94 | a pricing section with `預測方向`, a colon, whitespace and a run of 看漲跌中性, and no earlier match, yields exactly that run as the direction |
| Reports.TimeRangeOfSection | scripts/generate_summary.py:77-99 | a pricing section with `時間範圍`, a colon, whitespace and a line text, and no earlier match, yields that line text, stripped, as the time range |
| Reports.BulletsAppend | scripts/generate_summary.py:111-113 | key points keep document order: the points of two joined runs of lines are the points of the first followed by those of the second |
| Reports.KeyPoints | scripts/generate_summary.py:103-115 | an empty summary section gives no points; otherwise the first `min(5, n)` bullet texts of the section, each stripped and free of line breaks |
| Reports.GetRisk | scripts/generate_summary.py:117-128 | the risk is drawn only from 低中高; it is empty exactly when the section is empty or the labelled pattern does not occur; otherwise it is the whole run read at the leftmost match |
| Reports.RiskOfSection | scripts/generate_summary.py:119-126 | a risk section with `整體風險等級`, a colon, whitespace and a run of 低中高, and no earlier match, yields exactly that run as the risk level |
| Collection.KeepDated | scripts/generate_summary.py:139-142 | the kept reports are retained ones, each occurring as often as in the input |
| Collection.KeepDatedAppend | scripts/generate_summary.py:139-142 | the filter keeps listing order: filtering two joined listings gives the kept reports of the first followed by those of the second |
| Collection.SortBy | scripts/generate_summary.py:147 | the sort result is ordered by key, a permutation of the input, and keeps the input order among equal keys |
| Collection.SortByVersion | scripts/generate_summary.py:147 | ordered by integer version, a permutation, and stable among equal versions |
| Collection.CollectReports | scripts/generate_summary.py:137-148 | every collected report has a version and a date; the list is ordered by integer version, is a permutation of the retained parsed reports, and keeps listing order among equal versions |
| Collection.RetainedIffDated | scripts/generate_summary.py:139-142 | a listed file is collected exactly when its name yields both a version and a date |
| PriceChange.NumberValue | scripts/generate_summary.py:164-165 | a number token without any digit does not parse; any other parses to a non-negative value |
| PriceChange.NumberValueOfNatToString | scripts/generate_summary.py:164-165 | the decimal numeral of a natural number parses back to that number |
| PriceChange.PriceValueOfPrice | scripts/generate_summary.py:157-165 | searching the text of a price for a number finds the price's own number |
| PriceChange.FormatFixed2 | scripts/generate_summary.py:172 | the `.2f` text starts with `-` exactly for negative values and otherwise with a digit |
| PriceChange.FormatFixed2OfNat | scripts/generate_summary.py:172 | a whole number prints as its digits followed by `.00` |
| PriceChange.ChangeText | scripts/generate_summary.py:170-172 | the printed change ends in `%`, starts with `+` exactly when the price rose and with `-` exactly when it fell, and is `0.00%` for equal prices |
| PriceChange.CalculatePriceChange | scripts/generate_summary.py:151-174 | a result exists exactly when both prices are non-empty, both hold a parsable number and the first value is not zero; its sign follows the direction of the change |
| PriceChange.ChangeOfWholePrices | scripts/generate_summary.py:157-172 | between two prices written as whole numbers, the change is computed from exactly those numbers, whatever the units |
| PriceChange.RiseOfTwentyPercent | scripts/generate_summary.py:170-172 | from 100 to 120 the change prints as `+20.00%` |
| Text.ZeroPad3 | scripts/generate_summary.py:219 | the `0>3` format yields width 3, or the value's own width if longer, ending in the value and filled with zeros |
| Text.ZeroPad3KeepsValue | scripts/generate_summary.py:219 | padding a version keeps its integer value |
| Text.JoinLinesOfLines | scripts/generate_summary.py:52 | joining the pieces of a `split('\n')` with line breaks gives the text back |
| Text.LinesOfJoinLines | scripts/generate_summary.py:294 | splitting a join of line-break-free lines gives the lines back |
| Summary.TargetIsNotDash | scripts/generate_summary.py:216-222 | a target price is never the string `-`, so the cursor's `!= '-'` test always holds |
| Summary.ChangeAgainstPreviousRow | scripts/generate_summary.py:206-222 | with the cursor replaced on every row, row `i` of the change column is the change from row `i - 1`, and row 0 has none |
| Summary.PriceTableRows | scripts/generate_summary.py:206-222 | price-table row `i` shows report `i` with the change from report `i - 1`; the first row, and a row after one without a target, show `-` |
| Summary.Entry | scripts/generate_summary.py:232-241 | a timeline entry is the heading, a blank line, one bullet per key point (or the placeholder bullet when there are none), and a blank line |
| Summary.RiskRows | scripts/generate_summary.py:252-254 | one risk row per report, in collection order |
| Summary.DirectionLines | scripts/generate_summary.py:268-276 | the direction sentence appears exactly when both directions are present; it is the "維持" form exactly when they are equal |
| Summary.TargetLines | scripts/generate_summary.py:278-285 | the target sentence appears exactly when both targets are present and their change can be computed |
| Summary.TrendLines | scripts/generate_summary.py:264-288 | fewer than two reports give the placeholder sentence; otherwise the direction and target sentences for the first and last report |
| Summary.RenderSummary | scripts/generate_summary.py:181-182 | no reports give the fixed notice |
| Summary.DocumentNewlineFree | scripts/generate_summary.py:191-292 | with line-break-free parameters, no line of the document holds a line break |
| Summary.RenderedLines | scripts/generate_summary.py:191-294 | splitting the rendered document at line breaks gives back exactly the lines it was built from |
| Summary.PriceRowIsLine | scripts/generate_summary.py:200-222 | line `11 + i` of the rendered document is the price row of report `i`, compared with report `i - 1` |
| Summary.GenerateSummary | scripts/generate_summary.py:177-294 | a listing without usable reports gives the fixed notice; otherwise the lines of the document are the header, price table, timeline, risk table and trend section of the collected reports |

## Left out

- Reading files (`_read_content`, lines 37-44), the existence check of the research directory and the `glob` (lines 133-138), and the error messages printed there: the listing and the file texts are inputs.
- A file that cannot be read becomes a report with empty text in the source; the model takes each file's text as given, so that path is not distinguished.
- The exception handler around `ResearchReport(...)` (lines 139-144): nothing in the modelled parsing raises.
- `main` and the command line (lines 297-322): argument parsing, the output file and exit codes are I/O.
- The timestamp `datetime.now()` (line 194): a string parameter, because it reads the clock.
- The stock-name pattern `#\s*[\w]+\s+([^\s]+)` (lines 185-189): a string parameter, because it depends on Unicode `\w`.
- Unicode digits and whitespace: `\d` is modelled as the ASCII digits. `\s` and `str.strip` use one fixed whitespace set.
- Reports.ExtractVersion: does not model `\d` matching non-ASCII decimal digits, because only ASCII file names are expected.
- PriceChange.NumberValue: values are exact reals, so binary floating-point rounding is not modelled.
- PriceChange.NumberValue: the overflow of `float` to infinity on very long numerals is not modelled either.
- PriceChange.FormatFixed2: rounds the exact real value half to even. Python rounds the nearest binary double, which can differ in the last digit.
- The `except` in `calculate_price_change` (line 173): the only exception the modelled inputs can raise is the `float` of a token without digits, which is modelled as `None`.
- Summary.GenerateSummary: the line structure is stated only for a stock code, stock name and timestamp without line breaks; with a line break inside a parameter, the text is still produced but its split differs.
- Python's dictionary order is not observable in the output, so sections are a `map`.
