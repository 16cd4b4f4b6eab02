# Mercado Público tender bot: reconciliation model

This Dafny project models the core of `bot.py`. The bot searches the
Mercado Público advanced-search page for the tenders of one buyer (a fixed
RUT) and keeps a history of them in a Google Sheet. Each run does four things:

* It reads the first three rows of the result table. A row with at least five
  cells becomes one tender record: number, name, buyer, closing date and state,
  each the stripped text of cells 0 to 4 (`Tenders`, `Text`).
* It reads the "número" column of the records already in the sheet. gspread
  takes the first sheet row as the header and every later row as a record.
  An empty or header-only sheet has no records. A header without "número"
  raises `KeyError` (`History`).
* It appends one six-column row for every extracted record whose number was
  not in that snapshot, and counts the appends in `nuevos`. The row holds the
  capture time, then number, name, buyer, date and state. The snapshot is read
  once and never updated (`Saving`).
* It skips the save when the search returned nothing. An exception raised
  inside the `try` block of the search (bot.py:73-159) also makes it return
  nothing (`Bot`).

The sheet is a `Worksheet` object whose `rows` field only grows through
`AppendRow`. `Saving.Save` and `Tenders.CollectRecords` are the loops of the
source. Each is proved equal to a specification function: `SaveSpec` and
`Extracted`. The lemmas state the properties of those functions.

The clock and the remote store are parameters:
* `stamp(k)` is the time text used for the k-th new row.
* `failsAt == Some(k)` means the k-th `append_row` call raises. The save then
  stops, and the rows already appended stay in the sheet.
* The browser session is `Option<seq<Cells>>`. `None` stands for an exception
  raised inside the `try` block of the search.

## Behaviour worth knowing

* Records with the same new number in one batch are not collapsed. Each one is
  appended (`SnapshotNotUpdated`, `RepeatedNewNumberStoredTwice`).
* The gate is on the extracted list, not on the list of new records. A run
  whose records are all known still reads the sheet and appends nothing.
* The stored numbers are looked up by the header name "número", not by
  column position. Re-running is safe when that header stands at column 1,
  where the rows put the number (`RerunStoresNothing`).
* A header without that column makes the read fail. The code does not fall
  back to an empty snapshot.
* A sheet that starts empty turns its first saved row into the header. When
  two or more rows were saved, the next read fails (`EmptySheetLosesHeader`).
  When only one row was saved, the sheet has no records, so the next read finds
  no codes and that tender is appended again (`EmptySheetSingleRowStoredAgain`).

## Model

| member | source | states |
|---|---|---|
| `Tenders.Window` | bot.py:142 | `filas[:3]` keeps at most three rows, is a prefix of the table, and is the whole table when it has three rows or fewer |
| `Tenders.Extracted` | bot.py:142-152 | the row filter yields at most three records |
| `Tenders.ExtractedRows` | bot.py:142-152 | record k comes from the k-th of the first three rows that has at least five cells, in table order; its fields are the stripped cells 0 to 4; every such row yields a record |
| `Tenders.CollectRecords` | bot.py:142-152 | the loop appending to `resultados` produces exactly `Extracted(filas)` |
| `Tenders.ToRecord` | bot.py:146-152 | the record's five fields are the stripped cells 0 to 4 of the row (stated by `Tenders.ExtractedRows`) |
| `Tenders.Found` | bot.py:159-163 | the search returns at most three records, and none when the session raised |
| `Tenders.Search` | bot.py:71-163 | `ejecutar_busqueda` returns the extracted records, or `[]` when any exception was raised |
| `Text.TrimStartIsSuffix` | bot.py:147-151 | removing leading whitespace leaves a suffix that starts with a non-space character (or is empty); only `isspace` characters were removed |
| `Text.TrimEndIsPrefix` | bot.py:147-151 | removing trailing whitespace leaves a prefix that ends with a non-space character (or is empty); only `isspace` characters were removed |
| `Text.Strip` | bot.py:147-151 | `str.strip()`: cuts the leading and the trailing `isspace` characters (stated by `Text.StripCutsOnlyWhitespace`) |
| `Text.StripCutsOnlyWhitespace` | bot.py:147-151 | `strip()` returns a contiguous slice of the cell text that neither starts nor ends with whitespace; everything cut off on either side is whitespace |
| `History.ColumnOf` | bot.py:37 | the column found for a key is the first header cell equal to it; none is found exactly when the header lacks the key |
| `History.ExistingCodes` | bot.py:34-39 | an empty or header-only sheet yields no codes; otherwise the read fails exactly when the header has no "número" cell, and code k is the "número" cell of record row k (padded with "") |
| `History.CodesAfterAppend` | bot.py:35-37 | rows appended under a header with "número" add their cells of that column to the end of the codes read back |
| `History.Worksheet.AppendRow` | bot.py:61 | `append_row` adds the row at the end and changes nothing else |
| `Saving.RowFor` | bot.py:52-59 | the row `fila`: time, number, name, buyer, date, state (stated by `Saving.SavedRowsFollowResults`) |
| `Saving.SaveSpec` | bot.py:42-62 | a failed read appends nothing; otherwise the rows appended are a prefix of the planned rows, all of them exactly when the save succeeds, with `nuevos` equal to their number, and a failed append is reported at the position where it stopped |
| `Saving.PlannedRowsSnoc` | bot.py:49-62 | one more result adds its row exactly when its number is new, stamped with the count so far |
| `Saving.NovelStep` | bot.py:49-62 | after a loop step, the new records are those of the previous steps plus the current one when its number is new, and that record is the next of all the new ones |
| `Saving.SaveCountsNewNumbers` | bot.py:45-62 | after a successful save, `nuevos` equals the number of rows appended and the number of results whose number was absent from the snapshot |
| `Saving.SavedRowsFollowResults` | bot.py:49-61 | appended row k is built from the k-th result with a new number, in result order; a result whose number was stored gets no row; every row has six columns: time, number, name, buyer, date, state |
| `Saving.SnapshotNotUpdated` | bot.py:45-50 | the records a batch appends are those its two halves would append separately, since the snapshot is not updated inside the loop |
| `Saving.RepeatedNewNumberStoredTwice` | bot.py:45-62 | two results with the same number absent from the sheet both get a row |
| `Saving.RerunStoresNothing` | bot.py:34-62 | when the header names column 1 "número", saving the same results again right after a successful save appends nothing and reports 0 |
| `Saving.EmptySheetLosesHeader` | bot.py:35-61 | on a sheet with no rows, saving two or more tenders makes the first one the header, and the next read of the codes fails |
| `Saving.EmptySheetSingleRowStoredAgain` | bot.py:35-61 | on a sheet with no rows, saving one tender makes it the header; the next read finds no codes and the next save appends that tender again |
| `Saving.Save` | bot.py:42-64 | the save loop's outcome and the sheet's new rows are those of `SaveSpec`: the old rows are kept and the new ones follow them |
| `Bot.RunOnce` | bot.py:169-176 | when the search yields nothing (including any browser exception) the sheet is untouched and nothing is saved; otherwise the sheet and the report are those of `SaveSpec` on the search results |

## Left out

- Browser automation in `ejecutar_busqueda` (bot.py:68-140, 166) is not modelled: Selenium navigation, waits, clicks, sleeps and `driver.quit()`. Its outcome is a parameter: the result-table cells, or a failure.
- Tenders.Search: `None` covers only exceptions raised inside the `try` block (bot.py:73-159). An exception while creating the driver (bot.py:68-69) or in `driver.quit()` (bot.py:166) is not caught; the script stops with a traceback, and the sheet is untouched. The model does not have this uncaught outcome.
- `conectar_sheets` (bot.py:18-31) is not modelled: credentials and gspread authorisation. The sheet is an in-memory `Worksheet`. A connection failure, or a network failure inside `get_all_records`, raises before any append. That case is not modelled separately; it behaves like the modelled read failure.
- `datetime.now().strftime("%d-%m-%Y %H:%M:%S")` (bot.py:53) is not modelled. The time text is the parameter `stamp`.
- All `print` output is left out (bot.py:64, 74-162, 176). The count `nuevos` that line 64 prints is returned as the save's outcome instead.
- History.ExistingCodes: gspread's `get_all_records` turns numeric-looking cells into numbers, and then the string comparison at bot.py:50 would not match them. The model treats every cell as a string.
- History.ExistingCodes: duplicate header names are not modelled. The model uses the first "número" column. gspread versions differ here: some reject duplicate headers, others keep the last column.
- History.Worksheet.AppendRow: the Sheets API appends after the table it detects from A1. The model appends after the last row, so it does not model gaps of blank rows.
- Saving.SaveSpec: an `append_row` call that times out after the store already applied it is not modelled. A failed append adds nothing.
- Concurrency between overlapping runs is not modelled. The source has no locking.
