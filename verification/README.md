# Trading-card storefront core in Dafny

The storefront is a single-page React application. It downloads a published spreadsheet as
CSV, turns every data row into a card record, and filters the cards by a search box, a price
token and a status token. It shows the result in a virtual grid that renders only the rows near
the scroll position. All of its logic sits inline in `src/App.jsx`. This project models that
logic as pure Dafny functions over sequences, maps and naturals, and proves properties about
them.

Each module models one piece of `src/App.jsx`:

- `Text` (`text.dfy`): the JavaScript string operations the code relies on.
  - `trim`, with the exact ECMAScript white-space set.
  - `toLowerCase`, ASCII letters only.
  - `includes`.
- `Csv` (`csv.dfy`): `parseCSV` as a fold, `Run`, over the characters of the text.
  - The state is a `Scanner` holding the four loop variables `current`, `row`, `rows` and `inQuotes`.
  - `Step` is one loop iteration. It consumes two characters for a doubled quote inside quotes and for a CR LF pair outside quotes.
- `CsvLoop` (`csv.dfy`): the same loop written with the source's index and variables. It is proved to return exactly `Csv.Parse`.
- `CsvLaws` (`csv_laws.dfy`): properties of the parser.
  - A table written with commas and line feeds parses back to itself, both unescaped and with quoting.
  - CR LF parses like LF.
  - An empty line is skipped.
  - A white-space line is a row of one empty field.
  - An unterminated quote swallows the rest of the text.
- `Records` (`records.dfy`): the load step.
  - `const [header, ...rows] = data` and the `rows.map` that builds one `map<string, string>` per data row.
  - Each cell goes under its trimmed header name.
  - A short row reads as `""`.
- `SeqLaws` (`seq_laws.dfy`): concatenation laws over any element type, used by the filter proofs.
- `CardFilter` (`filter.dfy`): the filter effect.
  - The lower-cased query must be a substring of `name`, `set` or `rarity`.
  - `price_bnd` and `status` must equal the selected tokens.
  - An empty criterion always matches.
- `Grid` (`grid.dfy`): `VirtualGrid`.
  - The `update` computation of the visible item range and the content height from `scrollTop`, `clientHeight` and `clientWidth`.
  - The placement of every rendered item at a row, a column, a top and a left.

## Model

| member | source | states |
|---|---|---|
| Text.SkipSpace | src/App.jsx:26 | the scan stops at the first non-white-space character at or after `i` (or the end), having passed only white space |
| Text.SkipSpaceBack | src/App.jsx:26 | the scan stops after the last non-white-space character before `e` (or at `k`), having passed only white space |
| Text.Trim | src/App.jsx:26 | `trim` never lengthens a string and its result neither starts nor ends with white space |
| Text.TrimTrimmed | src/App.jsx:26 | `trim` leaves a string that is already trimmed unchanged, so trimming is idempotent |
| Text.TrimIsInfix | src/App.jsx:26 | `trim` removes only white space, and only at the two ends: the result is the piece of the string between them |
| Text.TrimEmpty | src/App.jsx:29-30 | a field trims to `""` exactly when it is all white space |
| Text.LowerChar | src/App.jsx:140 | lower-casing a character leaves no ASCII capital, changes only capitals, and turns each capital into the small letter at the same place in the alphabet |
| Text.Lower | src/App.jsx:140 | lower-casing keeps the length and maps every character on its own, `A`–`Z` to `a`–`z` |
| Text.LowerIdempotent | src/App.jsx:140 | lower-casing an already lower-cased query changes nothing |
| Text.IncludesAt | src/App.jsx:144 | `includes` holds exactly when the query occurs at some position of the string |
| Csv.Step | src/App.jsx:14-38 | one loop iteration consumes one or two characters, never more than remain |
| Csv.RunShaped | src/App.jsx:26-33 | the scan keeps every collected field trimmed and every finished row non-empty |
| Csv.CloseRowShaped | src/App.jsx:29-33 | closing a row at a line break keeps every field trimmed and every row non-empty |
| Csv.Parse | src/App.jsx:8-47 | the parser is total, every row it returns has at least one field, and every field is trimmed |
| CsvLoop.ParseCsv | src/App.jsx:8-47 | the index-based loop with the final flush returns exactly the rows of the fold `Csv.Parse` |
| CsvLoop.Advance | src/App.jsx:14-38 | the loop body advances the index past one character, or two for `""` in quotes and for CR LF, and updates the variables as one `Step` |
| CsvLaws.RunChar | src/App.jsx:36-37 | an ordinary character, and a comma or line break inside quotes, is appended to the field and does not split |
| CsvLaws.RunComma | src/App.jsx:25-27 | a comma outside quotes adds the trimmed field to the row and starts an empty field |
| CsvLaws.RunLineFeed | src/App.jsx:28-34 | a line feed outside quotes closes the row |
| CsvLaws.RunOpenQuote | src/App.jsx:22-24 | a quote outside quotes opens a quoted section |
| CsvLaws.RunCloseQuote | src/App.jsx:22-24 | a quote inside quotes that is not doubled closes the section |
| CsvLaws.RunDoubledQuote | src/App.jsx:19-21 | a doubled quote inside quotes adds one literal quote and stays inside quotes |
| CsvLaws.PlainRun | src/App.jsx:36-38 | a cell with no comma, quote or line break is read into the field as it is |
| CsvLaws.EscapedHead | src/App.jsx:18-21 | inside quotes, the first character of an escaped cell (`""` for `"`) is appended to the field and the scan stays inside quotes |
| CsvLaws.EscapedPrefixRun | src/App.jsx:18-21 | inside quotes, an escaped cell, whatever separators it holds, is appended to the field as the original cell and the scan stays inside quotes |
| CsvLaws.EscapedRun | src/App.jsx:18-25 | a quoted cell with doubled quotes, its closing quote included, is read back as the original cell and leaves the quoted section |
| CsvLaws.CellRun | src/App.jsx:18-38 | a formatted cell, quoted or not, leaves the original cell as the field |
| CsvLaws.FirstCellRun | src/App.jsx:25-27 | a cell followed by a comma adds that cell to the row |
| CsvLaws.RowRun | src/App.jsx:25-27 | a formatted row leaves all its cells but the last in the row and the last as the field |
| CsvLaws.RowEnd | src/App.jsx:29-33 | closing a row whose cells but the last are collected and whose last cell is the field emits the whole row, since a formattable row is never one empty cell |
| CsvLaws.FirstRowRun | src/App.jsx:28-34 | the first row of a formatted table, with its line feed, becomes one finished row and leaves an empty field and row |
| CsvLaws.LastRowRun | src/App.jsx:41-44 | the last row of a formatted table, with no line feed after it, is emitted by the final flush |
| CsvLaws.TableRun | src/App.jsx:8-47 | scanning a formatted table appends exactly its rows |
| CsvLaws.RoundTrip | src/App.jsx:8-47 | writing trimmed rows (not `[""]`) with commas and line feeds and parsing gives them back: unescaped when no cell holds a comma, quote or line break, escaped for any cells |
| CsvLaws.EscapeQuoteFree | src/App.jsx:19-21 | doubling the quotes of a cell without quotes leaves it unchanged |
| CsvLaws.CommaInQuotesExample | src/App.jsx:25 | `a,"b,c"` parses to the single row `a` and `b,c` |
| CsvLaws.DoubledQuoteExample | src/App.jsx:19-21 | `"x""y"` parses to one field holding `x"y` |
| CsvLaws.ReplaceCrlf | src/App.jsx:35 | the reference rewrite that turns each CR LF into LF is empty exactly when its input is, and begins with LF for a leading CR LF |
| CsvLaws.CloseRowTwice | src/App.jsx:29 | closing a row twice is closing it once: the second break finds nothing to emit |
| CsvLaws.CrlfRun | src/App.jsx:28-35 | without quotes, the scan of the CR LF–rewritten text ends in the same state as the scan of the original |
| CsvLaws.CrlfAsLf | src/App.jsx:28-35 | without quotes, CR LF line ends give the same rows as LF line ends |
| CsvLaws.RunSplit | src/App.jsx:14-39 | without quotes before the cut, the scan of `a + b` is the scan of `b` continued from the scan of `a`, unless a CR LF is split |
| CsvLaws.StepPrefix | src/App.jsx:15-16 | an iteration only looks at the next character for a quote or a CR, so appending text does not change other steps |
| CsvLaws.EndsClean | src/App.jsx:29-33 | after quote-free text ending in a line break, scanned outside quotes, the field and the row are empty |
| CsvLaws.RunLineEnd | src/App.jsx:28-35 | outside quotes, LF, CR, and CR LF (read as one terminator) close the row and nothing else |
| CsvLaws.BreakAtClean | src/App.jsx:28-35 | a line terminator met with an empty field and an empty row changes nothing, whatever the rows finished so far |
| CsvLaws.BlankFirstLine | src/App.jsx:28-35 | an empty first line emits no row |
| CsvLaws.CloseRowRows | src/App.jsx:29-31 | closing a row appends to the finished rows without reading them |
| CsvLaws.RunRows | src/App.jsx:14-39 | the scan never reads the rows it has finished: rows present at the start stay in front of the rows it emits |
| CsvLaws.ParseAfter | src/App.jsx:14-44 | scanning from a fresh field and row after the rows `done`, with the final flush, gives `done` followed by the parse of the rest |
| CsvLaws.ParseLines | src/App.jsx:28-44 | after quote-free text that is empty or ends a line, the rest parses on its own: the rows are the two parses concatenated, unless a CR LF is split |
| CsvLaws.BlankLineSkipped | src/App.jsx:28-35 | an empty line ended by LF, CR or CR LF, after the start of the text or another line end, emits no row: the rows are those of the lines before it followed by those after it |
| CsvLaws.SpacePlain | src/App.jsx:36-37 | white space other than CR and LF holds no comma, quote or line break |
| CsvLaws.SpaceLineIsRow | src/App.jsx:29-31 | a line of white space (not CR or LF), ended by a line terminator or by the end of the text, is a row of one `""` field between the rows of the lines before it and those after it |
| CsvLaws.SpaceRowEnd | src/App.jsx:29-31 | between rows, a non-empty field of white space closes as exactly one more row, `[""]` |
| CsvLaws.SpaceLineRun | src/App.jsx:29-36 | between rows, a white-space line and its terminator leave the scanner that has emitted one more row `[""]` and scans the rest |
| CsvLaws.SpaceLineFirst | src/App.jsx:29-44 | a text that starts with a white-space line parses to the row `[""]` followed by the rows of the text after the line |
| CsvLaws.InQuotesRun | src/App.jsx:36-37 | inside quotes, quote-free text, line breaks and commas included, goes into the field as it is |
| CsvLaws.QuoteFreeOutside | src/App.jsx:18-24 | text without quotes never enters a quoted section |
| CsvLaws.CleanPrefix | src/App.jsx:28-34 | a quote-free text that is empty or ends in a line break leaves an empty field and row, with its parse as the rows |
| CsvLaws.OpenQuoteRun | src/App.jsx:18-37 | a quote that is never closed puts everything after it, doubled quotes read as one, into the field, and the scan ends inside quotes |
| CsvLaws.UnterminatedQuote | src/App.jsx:14-44 | a quote that is never closed, after any quote-free text, does not fail the parse: the finished rows stay, and the row under way gets one last field, the trimmed field text before the quote followed by the whole rest with doubled quotes read as one, even when that rest is empty |
| CsvLaws.UnterminatedQuoteLine | src/App.jsx:41-44 | after quote-free lines, an unterminated quote at the start of a line with text after it makes the trimmed rest of the text the one field of the last row |
| CsvLaws.LoneQuoteLine | src/App.jsx:22-24 | after quote-free lines, a last line holding only a quote adds no row |
| CsvLaws.UnterminatedQuoteExample | src/App.jsx:41-44 | `a,"b` with the quote never closed parses to the single row `a` and `b` |
| CsvLaws.FirstCellScan | src/App.jsx:25-27 | scanning `a,` puts the cell `a` in the row and leaves the field empty |
| Records.Keys | src/App.jsx:129 | the key of column `i` is its header name trimmed, one per column |
| Records.AssignKeys | src/App.jsx:129 | a card's keys are exactly the column keys, without `__proto__` |
| Records.AssignValues | src/App.jsx:129 | under each key a card holds the cell of the last column with that key |
| Records.AssignCells | src/App.jsx:129 | two rows that agree on the cells under the header (missing counted as `""`) give the same card |
| Records.ExtraCellsIgnored | src/App.jsx:129 | cells beyond the header's length do not affect the card |
| Records.MissingCellsEmpty | src/App.jsx:129 | padding a short row with empty cells does not change the card |
| Records.MapRows | src/App.jsx:127-131 | one card per data row, in order, card `k` built from row `k` |
| Records.ToRecords | src/App.jsx:126-131 | the number of cards is the number of rows after the header (zero for an empty parse), and card `k` is built from the header and row `k + 1` |
| Records.CardFields | src/App.jsx:126-131 | card `k` holds, for every header name, the cell of row `k + 1` under the last column with that name (`""` when missing), and nothing else |
| Records.LaterDuplicateWins | src/App.jsx:129 | of two columns with the same trimmed name, the later one's cell is the card's value |
| Records.ParsedKeys | src/App.jsx:129 | trimming the header of a parsed sheet, whose fields are trimmed already, leaves it as it is |
| Records.LoadKeys | src/App.jsx:125-131 | after parsing, a card's keys are exactly the header cells, `__proto__` aside |
| Records.LoadFormatted | src/App.jsx:125-131 | a sheet written from a formattable table (at least one cell per row, trimmed cells, no row of one empty cell, separators only in quoted cells) loads as the cards of that table's data rows |
| CardFilter.Apply | src/App.jsx:141-150 | no card is added, and a card is in the result exactly when it is in the input and matches the query, the price token and the status token |
| CardFilter.ApplySubsequence | src/App.jsx:141 | the result is a subsequence of the cards: original order is kept |
| CardFilter.TestableConcat | src/App.jsx:144-146 | the fields the query test reads exist for each of two lists, hence for their concatenation |
| CardFilter.ApplyConcat | src/App.jsx:141-150 | filtering a concatenation filters each part and concatenates the results |
| CardFilter.NoCriteriaKeepsAll | src/App.jsx:143-148 | with empty query, price and status every card is kept, in order |
| CardFilter.ApplyIdempotent | src/App.jsx:141-150 | filtering the filtered cards again removes nothing |
| CardFilter.QueryCaseInsensitive | src/App.jsx:140 | a query and its lower-cased form select the same cards |
| CardFilter.FieldCaseInsensitive | src/App.jsx:142-148 | the fields are lower-cased before the search: two cards whose `name`, `set` and `rarity` differ only in case, and whose `price_bnd` and `status` agree, can both be tested and are kept or dropped together |
| CardFilter.StatusExample | src/App.jsx:148 | status `AVAILABLE` keeps Pikachu (`AVAILABLE`) and drops Charizard (`SOLD`) |
| Grid.CeilDiv | src/App.jsx:61-62 | `Math.ceil(a / b)` is the least count of `b`s that reaches `a` |
| Grid.Columns | src/App.jsx:60 | there is at least one column, even for a zero width |
| Grid.WindowBounds | src/App.jsx:60-70 | the content height is the rows times the pitch, the end row is at most the total rows, the end index is below item count plus columns, and at most the rows in view plus two are rendered |
| Grid.EmptyWindow | src/App.jsx:60-70 | no items and no scroll give start, end and height zero |
| Grid.WindowCovers | src/App.jsx:62-64 | every existing row that overlaps the visible band lies between the start row and the end row |
| Grid.RowInView | src/App.jsx:62-64 | a row overlapping the band from `top` of height `height` lies between the row at `top` and `seen` rows after it, when `seen` rows cover the height |
| Grid.RenderColumns | src/App.jsx:84 | placement uses at least one column, falling back to an 800-pixel width while the width is zero |
| Grid.Slice | src/App.jsx:83 | `items.slice(start, end)` clamps both ends to the length, is empty when they cross, and holds the items from `start` on |
| Grid.Tiles | src/App.jsx:83-90 | one tile per sliced item, tile `i` for index `start + i`, which is an existing item and carries it |
| Grid.TilesExactly | src/App.jsx:83-90 | an index is rendered exactly when it lies in `[start, end)` and below the item count |
| Grid.TileCells | src/App.jsx:89-99 | each tile's row and column are its index divided by and modulo the columns, the column is below the columns, and top and left are row and column times the pitch and stride |
| Grid.TilesDistinct | src/App.jsx:91-92 | two different tiles never share a cell |
| Grid.MeasuredColumns | src/App.jsx:84 | once the width is measured, the placement columns equal the window's columns |
| Grid.RowInContent | src/App.jsx:61 | an item before the count lies in one of the content's rows |
| Grid.RowEndsInside | src/App.jsx:69 | a row before the last ends inside the content height |
| Grid.ColumnEndsInside | src/App.jsx:60 | a column of a container at least one column wide ends inside the container |
| Grid.TileWithinHeight | src/App.jsx:60-101 | every tile ends inside the content height, also at width 0, where placement uses more columns than the window |
| Grid.TileWithinWidth | src/App.jsx:84-100 | in a container at least one column wide, every tile ends inside the container's width |
| Grid.DefaultViewportExample | src/App.jsx:50-70 | an 800 by 600 container with default geometry and 100 items renders items 0 to 14 on 9248 pixels of content |

## Left out

- The network and React plumbing (src/App.jsx:50-56, 72-81, 121-124, 132-136, 139, 151-152, 154-229) is left out. This covers `fetch` and its promise chain, `useState`/`useEffect`, the scroll listener, the `ResizeObserver`, and all markup. The model receives the text, the viewport numbers and the filter tokens as inputs.
- `src/components/CardItem.jsx` and `src/components/ZoomableImage.jsx` are not part of this model. They hold markup, display defaults, a call to `encodeURIComponent` and modal state.
- Characters are Unicode scalar values. JavaScript strings index UTF-16 code units. The two differ only for characters outside the Basic Multilingual Plane, which none of the parser's separators are.
- Text.Lower: only `A`–`Z` are lower-cased. `toLowerCase` also maps non-ASCII capitals, so a query with accented capitals may match differently in the browser.
- Grid geometry is in whole pixels:
  - A fractional `scrollTop` or `clientWidth` and floating-point division are not modelled.
  - `Grid.Valid` requires `rowHeight + gap > 0` and `columnWidth + gap > 0`. Below that, the source divides by zero and gets `Infinity`/`NaN`.
- CardFilter.Apply: the preconditions exclude the exceptions the filter throws when the query is non-empty and it calls `toLowerCase` on a missing `name`, `set` or `rarity`. The precondition lists exactly the fields that short-circuit evaluation reaches. The thrown error itself is not modelled. It escapes the effect uncaught, and with no error boundary in `src/App.jsx` React then unmounts the application.
- A missing `price_bnd` or `status` is `undefined` in the source. It equals no selected token, and the model says the same.
- Records: an empty parse does not fail. `const [header, ...rows] = []` leaves `rows` empty, so `header.forEach` is never reached and the result is no cards. `src/App.jsx` neither throws nor reports a missing header here.
- Records: assigning a string to `o["__proto__"]` has no effect on a plain object, so a `__proto__` column never becomes a key. Other names such as `constructor` become ordinary own keys.
- CsvLaws.CrlfAsLf is stated for quote-free text. Inside quotes, CR and LF are field content, and replacing them would change the field.
- CsvLaws.BlankLineSkipped: the text before the empty line is quote-free. A quote opened there and never closed would swallow the line as field content. CsvLaws.BreakAtClean states the same skip for a scanner in any state between rows.
- CsvLaws.SpaceLineIsRow: the text before the line is quote-free, for the same reason. CsvLaws.SpaceLineRun states the same row for a scanner in any state between rows.
- CsvLaws.UnterminatedQuote: the text before the quote is quote-free. An earlier quoted section would change where the scan stands when the last quote opens.
- CsvLaws.UnterminatedQuoteLine and CsvLaws.LoneQuoteLine: the lines before the quote are quote-free, as for CsvLaws.UnterminatedQuote. A line such as `"x` after a closed quoted field is not covered.
- CsvLaws.EndsClean: the text is quote-free. A quoted field that contains a line break ends in that break without closing the row, so the premise cannot simply be dropped. CsvLaws.RunLineEnd states the close for any scanner outside quotes.
- `src/App.jsx` has none of the following, so the model has none either:
  - lower-casing of header names;
  - upper-casing or a closed vocabulary of statuses;
  - numeric price bands (the code compares the `price_bnd` string for equality);
  - category and quantity filters, and sorting;
  - a `MissingHeaderError`;
  - an `image_direct` fallback.
- The query test checks `name`, `set` and `rarity` one at a time. It does not search their concatenation, so a query spanning two fields does not match.
