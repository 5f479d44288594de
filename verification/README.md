# check_table overdue detection, modelled in Dafny

The bot reads one worksheet, "Согласование документации", of an Excel workbook. It flags
task rows that are overdue and not marked done, and sends the list as chat messages.
This project models the deterministic core of `check_excel` in `main.py`:

- **Done classifier** (`CellStatus`). `is_done` decides from a cell's style snapshot
  whether the task counts as completed. The font colour is one of four black codes, or
  the fill has a type and a colour that passes the "green" prefix/substring tests.
  Case is ignored. A missing cell, or a style read that raises, is never done.
- **Row scan** (`Rows`). A header-to-column index is built from row 1. Only non-empty
  headers become keys, and a later duplicate wins. The six named columns are looked up
  in each data row. A row too short for a mapped column is skipped entirely. Two
  independent rules give 0, 1 or 2 findings per row, the deadline finding first:
  - the deadline date is on or before today;
  - the forwarded date is at least the day threshold ago.

  Either rule applies only when the cell is not done.
- **Report** (`Report`, `Markup`, `Escape`). Each finding is rendered as an HTML block
  with its fields passed through `html.escape`. A header is prepended, and blocks are
  joined by a blank line. The message is cut at fixed offsets into pieces of at most
  4000 characters. An empty result gives the weekly all-clear, the daily all-clear, or
  nothing. The plain-text fallback removes the `<b>` tags. `escape_md` is modelled too,
  although `check_excel` never calls it.

Dates are integer day numbers. `today`, the day threshold and the date parser are
parameters (`Rows.Env`), not the clock, the `user_data` global and pandas. Python's
`str(date)` is the parameter `showDate`. Python's `str(int)` is modelled concretely
(`Strings.NatToString`, `Strings.IntToString`). Dafny strings are sequences of Unicode
code points, as Python strings are, so the 4000-character cut matches Python's `len`.

Behaviour of the code worth knowing; the model follows it:

- An unset font colour does NOT count as black. The truthiness guard at main.py:63
  skips a `None` or empty rgb, so the `None` entry of the colour list at main.py:65 can
  never match (`CellStatus.AbsentFontNotBlack`).
- The daily header prints `len(overdue_items) - 1`, not the item count (main.py:199).
  The model keeps this off-by-one (`Report.DailyHeaderCountsOneLess`).
- The green test is over-inclusive: a solid `FF000000` (black) fill counts as done
  (`CellStatus.BlackFillCountsAsGreen`).
- The message is cut at raw character offsets, so a piece boundary may fall inside a
  block or inside a `<b>` tag (`Report.ChunkAt`).
- A deadline cell whose text pandas turns into NaT, such as `""`, makes the deadline
  comparison raise. The row is then abandoned, and its forwarded finding is lost with it
  (`Rows.DeadlineRaises`, `Scenarios.NaTDeadlineScenario`).

## Model

| member | source | states |
|---|---|---|
| `CellStatus.FontBlack` | main.py:59-65 | The font rule: a present, non-empty font colour whose upper-cased text is FF000000, 00000000, 000000 or FF00000000. |
| `CellStatus.GreenFill` | main.py:68-81 | The fill rule: a fill type is set, the fill colour is present and non-empty, and its upper-cased text starts with FF00, 00FF, 0092 or FF92 or contains 92D050 or 00FF00. |
| `CellStatus.IsDone` | main.py:55-87 | A cell is done when it is present, its style reads without fault, and the font rule or the fill rule holds. |
| `CellStatus.MissingCellNotDone` | main.py:55-57 | A missing cell is never done. |
| `CellStatus.StyleFaultNotDone` | main.py:85-87 | A style read that raises makes the cell not done. |
| `CellStatus.DoneIffRule` | main.py:83 | A readable cell is done exactly when the black-font rule or the green-fill rule fires. |
| `CellStatus.AbsentFontNotBlack` | main.py:61-65 | An absent or empty font colour never counts as black. |
| `CellStatus.FontBlackSpelled` | main.py:61-65 | The font rule holds exactly for stored colours 000000, 00000000, FF000000 and FF00000000, with either case for each F, character by character. |
| `CellStatus.BlackCodeSpelled` | main.py:64-65 | An upper-cased colour in the black list is spelled with zeros and F/f in those positions. |
| `CellStatus.SpelledBlackCode` | main.py:64-65 | Conversely, such a spelling upper-cases to a member of the black list. |
| `CellStatus.NoFillNotGreen` | main.py:69-72 | Without a fill type, or without a non-empty fill colour, the fill rule never fires. |
| `CellStatus.GreenMarkAnywhere` | main.py:73-81 | A fill colour containing 92D050 or 00FF00 at any offset, in any case, is green. |
| `CellStatus.BlackFillCountsAsGreen` | main.py:74-75 | A solid FF000000 fill passes the FF00 prefix test, so the cell is done. |
| `CellStatus.GreenFillWithRedFont` | main.py:69-83 | A green FF92D050 fill makes a red-text cell done, and the red font alone is not black. |
| `CellStatus.BlackFontDone` | main.py:59-65 | Lower-case ff000000 text is black, so the cell is done whatever its fill. |
| `Strings.UpperNormalises` | main.py:64 | Upper-casing keeps the length, leaves no lower-case letter, moves each lower-case letter to its capital, leaves every other character alone, and is idempotent. |
| `Strings.ContainsIff` | main.py:79-80 | Python's substring test holds exactly when the fragment occurs at some offset. |
| `Strings.JoinLength` | main.py:200 | Joining has the items' total length plus one separator between each pair of neighbours. |
| `Strings.JoinSnoc` | main.py:200 | Joining one more item appends a separator and that item. |
| `Strings.NatToStringValue` | main.py:191 | The decimal text of a number reads back as that number. It starts with a zero exactly for 0, so text longer than one digit never starts with a zero. |
| `Strings.IntToString` | main.py:191 | The text starts with a minus sign exactly when the day count is negative. The digits after the sign, or the whole text for a non-negative count, read back as the count's magnitude and have no leading zero unless the count is 0. |
| `Escape.HtmlEscape` | main.py:178-191 | `html.escape` with quotes: five successive replaces, of `&`, `<`, `>`, `"` and `'` in that order. |
| `Escape.HtmlEscapeIsPerChar` | main.py:178-191 | The five successive replaces of `html.escape` equal replacing each character by its entity on its own. |
| `Escape.HtmlEscapeNoMarkup` | main.py:178-191 | Escaped fields contain no `<`, `>`, `"` or `'`. |
| `Escape.HtmlEscapeRoundTrip` | main.py:178-191 | Unescaping an escaped field gives back the original text. |
| `Escape.EscapeMd` | main.py:39-43 | Empty text gives the empty string. Otherwise each of the 19 special characters gets a backslash in front, and other characters are kept. |
| `Escape.EscapeMdRoundTrip` | main.py:39-43 | Removing the backslashes undoes `escape_md`, which adds exactly one character per special character. |
| `Rows.ColMap` | main.py:153-154 | The column index built from the header row, scanning left to right and storing each non-empty string header's position. |
| `Rows.ColMapHasKey` | main.py:153-154 | A name is a key of the column index exactly when some header cell holds it as a non-empty string. |
| `Rows.ColMapLastColumn` | main.py:154 | A key maps to a column carrying that header, and no later column carries it: later duplicates overwrite. |
| `Rows.LookupColumn` | main.py:160-165 | `row[col_map.get(n)] if n in col_map else None`: absent for a name not in the index, the `IndexError` as out of range for an index past the row's end, otherwise the cell at that index. |
| `Rows.Show` | main.py:167-170 | Python's `str()` of a cell value. An empty cell prints "None". |
| `Rows.FieldText` | main.py:167-170 | A field's text: empty when the column is missing, otherwise the cell value's `str()`. |
| `Rows.Extract` | main.py:160-170 | A row is dropped exactly when some named column maps past its end. Otherwise a missing column gives an empty field and an absent cell, and a present one gives the cell's `str()` and the cell itself. |
| `Rows.ParseDate` | main.py:46-52 | `parse_date(cell.value if cell else None)`: no date for a missing cell or a `None` value, otherwise the `Env.parse` parameter's answer: no date, a day, or NaT. |
| `Rows.DeadlineDue` | main.py:176 | The deadline rule: the deadline cell parses to a day no later than today, and the cell is not done. |
| `Rows.ForwardedStale` | main.py:185 | The forwarded rule: the forwarded cell parses to a day at least the threshold of days before today, and the cell is not done. |
| `Rows.DeadlineRaises` | main.py:176-196 | The deadline cell parses to NaT, so the comparison with today raises and the row is abandoned. |
| `Rows.RowFindings` | main.py:176-196 | A row whose deadline test raises yields nothing. Otherwise it yields one finding per rule that holds, with the deadline finding first, and a forwarded date of NaT only loses the forwarded finding. Each finding carries the parsed date. The deadline date is at most today. The forwarded day count is today minus that date and at least the threshold. |
| `Rows.Overdue` | main.py:158-196 | The scan: the findings of each data row in row order, with none from a row whose lookups fail. |
| `Rows.CollectOverdue` | main.py:158-196 | The row loop yields exactly the rows' findings in row order, at most two per row. |
| `Rows.OverdueAppend` | main.py:158-196 | The findings of two consecutive blocks of rows concatenate. |
| `Rows.ShortRowSkipped` | main.py:194-196 | A row too short for a mapped column adds no finding, and the scan continues. |
| `Rows.OverdueFromRows` | main.py:158-192 | Every finding comes from a data row that extracts, and it is one of that row's findings. |
| `Rows.UnparsedDatesNoFindings` | main.py:172-196 | When no extracting row's deadline or forwarded cell parses to a day (it gives no date, or NaT), the scan yields no finding, whatever the parser does with other values. |
| `Strings.ReplaceAll` | main.py:209 | Python's `str.replace` for a non-empty pattern: occurrences are replaced from the left, without overlap. `html.escape` and the fallback are built from it. |
| `Markup.StripBold` | main.py:209 | The fallback text of a piece: every `<b>` removed, then every `</b>`. |
| `Markup.StripBoldEmphasis` | main.py:209 | Removing the tags from a `<b>`-wrapped, `<`-free name inside `<`-free text leaves the text with the name unwrapped. |
| `Markup.StripBoldBlock` | main.py:209 | An emphasised `<`-free name after `<`-free text loses its tags, and the fallback goes on over whatever follows. |
| `Report.Trailer` | main.py:182-191 | The last line of a block: the deadline date, or the forwarded date and the day count in parentheses, each escaped. |
| `Report.RenderFinding` | main.py:177-192 | A finding's block: the object name escaped and in bold, then the structure, the responsible person, the subject and the trailer, each escaped, one per line. |
| `Report.StripBoldFinding` | main.py:209 | The fallback turns a rendered block into the same block without emphasis. |
| `Report.RenderKeepsObjectName` | main.py:178 | The bold part of a block unescapes to the row's object name. |
| `Report.StripBoldBlocks` | main.py:200-209 | The fallback over the blocks joined by a blank line gives the plain blocks joined the same way. |
| `Report.StripBoldMessage` | main.py:198-209 | The fallback over a whole message keeps the header and removes each block's emphasis, provided the date text has no `<`. A message within 4000 characters goes out as one piece, so this is what its fallback send shows. |
| `Report.Header` | main.py:199 | The header: daily mode gives the warning line with one less than the item count and today's date, otherwise the weekly label. |
| `Report.Compose` | main.py:199-200 | The message: the header followed by the rendered blocks joined by a blank line. |
| `Report.Chunks` | main.py:202 | The message cut into consecutive pieces of 4000 characters, the last one shorter. |
| `Report.ChunkCount` | main.py:202 | There are ceil(len(msg) / 4000) pieces. |
| `Report.ChunkAt` | main.py:202 | Piece i is the slice of the message from offset 4000·i to min(4000·i + 4000, len(msg)). |
| `Report.ChunkSlices` | main.py:202 | There are ceil(len(msg) / 4000) pieces, and each one is the slice of the message at its fixed 4000-character offset. |
| `Report.ChunkSizes` | main.py:202 | Every piece has 1 to 4000 characters, and every piece but the last has exactly 4000. |
| `Report.ChunksConcat` | main.py:202-203 | The pieces, sent in order, concatenate back to the message. |
| `Report.ChunkBoundaries` | main.py:202 | 8000 characters give two pieces of 4000. 4001 characters give pieces of 4000 and 1. |
| `Report.Deliver` | main.py:198-218 | With findings, the pieces are the message cut at fixed 4000-character offsets: ceil(len / 4000) of them, piece i being the slice from 4000·i. They concatenate to the header plus the blocks joined by a blank line, and each has 1 to 4000 characters. Without findings, week mode sends the weekly all-clear, otherwise daily mode sends the daily one, otherwise nothing is sent. |
| `Report.DailyHeaderCountsOneLess` | main.py:199 | For a non-empty list, the daily header's number is the decimal text of one less than the item count. |
| `Report.CheckWorkbook` | main.py:144-218 | The sheet check: stop with the sheet-missing message when the worksheet is absent, otherwise deliver the scan of its data rows under the index of its header row. |
| `Report.MissingSheetAborts` | main.py:144-147 | Without the worksheet, the check stops with the message that names "Согласование документации" as not found. |
| `Report.UndatedSheetAllClear` | main.py:144-218 | A present sheet whose extracting rows carry no dated cell gives the weekly all-clear in week mode, otherwise the daily all-clear in daily mode, otherwise nothing. |
| `Report.PresentSheetReports` | main.py:149-203 | With the sheet present and some finding, the pieces sent concatenate to the composed report of the scan. |
| `Scenarios.RedCellNotDone` | main.py:59-83 | Red text without a fill is not done. |
| `Scenarios.DeadlinePassedScenario` | main.py:176-183 | A 2024-01-01 deadline checked on 2024-06-01, on an unmarked cell, gives one deadline finding. |
| `Scenarios.ForwardedScenario` | main.py:185-192 | A task forwarded 35 days ago, with a 30-day threshold, gives one finding counting 35 days. |
| `Scenarios.ForwardedDoneScenario` | main.py:185 | The same row in black text gives no finding. |
| `Scenarios.NaTDeadlineScenario` | main.py:172-196 | A deadline cell holding "" parses to NaT, and the row is abandoned, so its stale forwarded date goes unreported. |

## Left out

- Downloading the workbook, file writes and file existence checks (main.py:90-128): network and filesystem I/O.
- Loading the workbook (main.py:139-142): a foreign library. The loaded worksheets are the map given to `Report.CheckWorkbook`.
- pandas date parsing inside `parse_date` (main.py:49-52): a foreign call, modelled as the parameter `Env.parse`. It answers with no date (the caught exception), a day, or NaT. Only the "`None` gives no date" branch is concrete. The model takes two facts from pandas 2 semantics. First, NaT is truthy and comparing it with a `datetime.date` raises `TypeError`. Second, the forwarded test on NaT either raises or is false, and both lose only the forwarded finding, because that test comes last in the row.
- Python's `str(date)`: the parameter `showDate`.
- The message sends, and the choice between the HTML send and the plain fallback (main.py:203-212): this depends on the transport's answer. Only the tag stripping is modelled.
- Bot command and message handlers (main.py:221-286), the scheduler and its jobs (main.py:289-311), the health web server and the restart loop (main.py:313-375): transport, scheduling, concurrency and process plumbing.
- The `user_data` global: replaced by `Env.daysLimit` and by the mode flags passed to `Report.Deliver`.
- Logging by `print`.
- Strings.Upper: only the ASCII letters are upper-cased. Python's `str.upper` also maps other letters, some of them to several characters. openpyxl stores colours as hex text, where the two agree.
- Rows.ColMap: keys come only from string headers. Python's dict also keeps non-string headers such as numbers, but the six looked-up names are strings and never equal those keys.
- Escape.EscapeMd: takes a string. Python's `escape_md` also maps other falsy values, such as `None` or `0`, to the empty string, and calls `str()` on other values.
- Short rows: openpyxl's `iter_rows` yields every row as wide as the header row, so in normal use the `IndexError` path at main.py:194-196 cannot be reached. The model still covers it, for rows of any length. The reachable way into that handler, a deadline cell that parses to NaT, is modelled by `Rows.DeadlineRaises`.
