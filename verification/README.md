# Spreadsheet-to-database revenue reconciliation, in Dafny

The script `handledataupdate.py` copies the rows of a spreadsheet into three
MySQL tables: `customer` (keyed by name), `sale` (keyed by type, linked to a
customer) and `revenue` (keyed by sale id, year, month and currency). It first
loads the three tables into lookup maps keyed by those natural keys. Then it
walks every row after the header:

- it reads the name, country, segment, sale type and consultant;
- it updates the customer if its name was loaded, and inserts it otherwise;
- it updates the sale if its type was loaded, and inserts it otherwise, linked
  to the row's customer;
- for each of 36 fixed column labels it reads a value. It derives the month
  (`i // 3 + 1`, zero-padded to two digits) and the currency
  (`['CHF', 'EUR', 'GBP'][i % 3]`) from the label's position `i`. It updates
  the revenue record under that key if the key was loaded, and inserts it
  otherwise.

Everything is committed once, at the end.

This project models that loop, with the SQL calls stripped out. The planner is
a pure function. Its inputs are the loaded maps (`Existing`), the sheet rows,
the ids the database hands out for inserted customers and sales (`FreshIds`),
and the sheet's search for a label's column (`Find`, seen by the planner
as `Locate`, the column of each of the 36 labels). Its result is either the
sequence of statements the loop issues (`Op`: `InsCustomer`, `UpdCustomer`,
`InsSale`, `UpdSale`, `InsRevenue`, `UpdRevenue`) or the reason the run stops
before committing (`Abort`).

The model covers two ways the loop aborts:

- a row too short for one of its field reads (`MissingCell`);
- a revenue label the sheet search does not find, or whose column lies past
  the end of the row (`LabelNotFound`, `MissingCell`).

Each of these raises in Python and ends the script before it reaches
`commit`. The model returns them as errors rather than forbidding them by a
precondition. Errors raised by the database or by the sheet service are not
modelled (see "Left out").

Files:

- `wrappers.dfy`: `Option` and `Result`.
- `columns.dfy` (`RevenueColumns`): the 36 revenue cells. It defines their
  month and currency, Python's `str` and `zfill` on month numbers, and the
  facts that each (month, currency) pair occurs in exactly one cell.
- `records.dfy` (`Records`): the loaded records, the statements, the tables
  they write, and the revenue key of a cell.
- `planner.dfy` (`Planner`): the planner. It covers one row (`PlanRow`), the
  sweep over rows (`PlanFrom`) and the run (`Run`).
- `row_properties.dfy` (`RowProperties`): what one iteration writes.
- `run_properties.dfy` (`RunProperties`): what the whole run writes. Its
  sweep lemmas are stated for any loop body with a given row-level property,
  then instantiated with the planner's loop body.
- `reconcile.dfy` (`Reconcile`): the loop written the way the script runs it,
  with nested loops, per-label reads, and keys computed with `//`, `%` and
  `zfill`. It is proved equal to the planner.

Three consequences of the code are worth stating on their own:

- The code never adds a newly inserted customer or sale to its lookup maps.
  So a name or sale type that was not loaded and appears on several rows is
  inserted once per row (`NewNameInsertedOnEachRow`,
  `EveryRowDecidesAgainstLoadedMaps`).
- Revenue keys are distinct within a row (`RowRevenueKeysDistinct`), not
  across rows. Two rows of the same loaded sale type write the same 36 keys
  again (`SharedSaleTypeRewritesKeys`).
- Every row the loop completes issues exactly 36 revenue statements, one per
  label (`RowWritesEachTable`, `RunCounts`).

## Model

| member | source | states |
|---|---|---|
| RevenueColumns.LabelsOfMonthsOneToFour | handledataupdate.py:69 | The labels of cells 0..11 are "p" .. "ap", as listed in the loop, each the column name of `16 + 8 * (i // 3) + i % 3`. |
| RevenueColumns.LabelsOfMonthsFiveToEight | handledataupdate.py:69 | The labels of cells 12..23 are "av" .. "bv", as listed in the loop. |
| RevenueColumns.LabelsOfMonthsNineToTwelve | handledataupdate.py:69 | The labels of cells 24..35 are "cb" .. "db", as listed in the loop. |
| RevenueColumns.MonthOf | handledataupdate.py:72 | The month of every revenue cell lies in 1..12, and cell `i` lies in the block of three cells of its month. |
| RevenueColumns.MonthOfIsQuotient | handledataupdate.py:72 | The month of cell `i` is `i // 3 + 1`. |
| RevenueColumns.CurrencyOf | handledataupdate.py:73 | The currency of every revenue cell is one of "CHF", "EUR", "GBP". |
| RevenueColumns.CurrencyOfIsRemainder | handledataupdate.py:73 | The currency of cell `i` is `['CHF', 'EUR', 'GBP'][i % 3]`, so it is always one of the three. |
| RevenueColumns.CellOf | handledataupdate.py:72-73 | For every month in 1..12 and each of the three currencies there is a cell with that month and currency. |
| RevenueColumns.CellOfMonthAndCurrency | handledataupdate.py:72-73 | A cell is recovered from its (month, currency) pair. |
| RevenueColumns.MonthCurrencyExactlyOnce | handledataupdate.py:69-73 | Each month occurs with each currency in exactly one of the 36 cells, in both directions. |
| RevenueColumns.Decimal | handledataupdate.py:72 | Python's `str` of a natural number is a non-empty digit string, one character long exactly below 10, starting with '0' only for 0 (no leading zero). |
| RevenueColumns.ParseDecimalOfDecimal | handledataupdate.py:72 | Reading back the decimal text of `n` gives `n`. |
| RevenueColumns.ZFill | handledataupdate.py:72 | `zfill(width)` returns the text unchanged when it is at least `width` long, and otherwise pads it to exactly `width`. An unsigned text ends the result, preceded only by '0's. |
| RevenueColumns.ZFillKeepsValue | handledataupdate.py:72 | Zero-padding the decimal text of `n` keeps it a digit string that still reads as `n`. |
| RevenueColumns.MonthText | handledataupdate.py:72 | The month text of a cell is two digits, tens then units, that read as the cell's month. |
| RevenueColumns.MonthTextIsPadded | handledataupdate.py:72 | The month text of every cell equals `str(month).zfill(2)`, has length 2, consists of digits and reads back as the month, so it lies in "01".."12". |
| RevenueColumns.MonthTextInjective | handledataupdate.py:72 | Two cells share a month text exactly when they share a month. |
| RevenueColumns.CellCoordinatesDistinct | handledataupdate.py:72-73 | Two different cells differ in month text or in currency. |
| Records.CellKey | handledataupdate.py:71-75 | The revenue key of cell `i` of a sale has that sale's id, year "2024", a two-digit month text that reads as `i // 3 + 1`, and currency `['CHF', 'EUR', 'GBP'][i % 3]`. |
| Records.CellKeyInjective | handledataupdate.py:71-75 | Two revenue keys built for cells of sales are equal exactly when both the sale and the cell are equal. |
| Planner.FirstMissingField | handledataupdate.py:42-46 | A short row fails on the first of the cells 0, 1, 2, 8, 11 that lies past its end, and every earlier field read succeeded. |
| Planner.CellOp | handledataupdate.py:75-81 | A revenue statement writes the cell's key and value, and is an update exactly when the key was loaded. |
| Planner.RevenueOps | handledataupdate.py:69-81 | The revenue statements of a sale are 36, one per cell in cell order. Statement `i` is an insert or an update of cell `i`'s key with the value read for cell `i`, and an update exactly when that key was loaded. |
| Planner.ReadCells | handledataupdate.py:69-70 | The revenue reads of a row succeed exactly when every label is found at a column inside the row. They then yield 36 values, and a failure names the row. |
| Planner.ReadCellsValues | handledataupdate.py:70 | Value `i` is `row[col - 1]`, where `col` is the column the sheet reports for label `i`. |
| Planner.ReadCellsFailure | handledataupdate.py:69-70 | A failed read reports the first label, in label order, that is missing or points past the row. |
| Planner.UpsertCustomer | handledataupdate.py:49-56 | The customer statement is an update exactly when the name was loaded. Its id is the loaded id, or else the id the database assigns. It writes the row's country and segment, and an insert also writes the name. |
| Planner.UpsertSale | handledataupdate.py:59-66 | The sale statement is an update exactly when the type was loaded. Its id is the loaded id, or else the id the database assigns. It writes the row's consultant, and an insert also writes the type and links to the given customer id. |
| Planner.PlanRow | handledataupdate.py:42-81 | A row is planned exactly when all its reads succeed. A short row aborts on its first missing field. A planned row has 1 + 1 + 36 statements. An abort names the row. |
| Planner.Run | handledataupdate.py:41 | A sheet with at most a header row issues no statement. |
| RunProperties.PlanFromSucceedsIff | handledataupdate.py:41-81 | The sweep over rows `k` onwards, for any loop body that aborts exactly on the rows a read fails on, succeeds exactly when every such row is well formed. Otherwise it returns the abort of the first row that is not. |
| RowProperties.CustomerDecision | handledataupdate.py:49-56 | The customer statement is an update exactly when the name was loaded. An update keeps the loaded id and writes only country and segment. An insert writes name, country and segment under the id the database assigns. |
| RowProperties.SaleDecision | handledataupdate.py:59-66 | The sale statement is an update exactly when the type was loaded. An update keeps the loaded id and writes only the consultant, never the customer link. An insert uses the id the database assigns and links to the customer id resolved on the same row. |
| RowProperties.RevenueDecisions | handledataupdate.py:69-81 | Revenue statement `i` of a row writes cell `i` of the row's resolved sale, with the value read for that cell. |
| RowProperties.RevenueKinds | handledataupdate.py:75-81 | Every revenue statement is keyed by the row's sale and is an update exactly when its key was loaded. |
| RowProperties.RowRevenueKeysDistinct | handledataupdate.py:69-75 | The 36 revenue statements of a row carry 36 pairwise distinct keys, all of the row's sale and of year "2024". |
| RowProperties.RowNoInsertsIff | handledataupdate.py:49-81 | A row issues no insert exactly when its name, its sale type and all 36 keys of its sale were loaded. |
| RowProperties.RevenueOpsNoInserts | handledataupdate.py:75-81 | The revenue statements of a sale insert nothing exactly when all 36 of its keys were loaded. |
| RowProperties.NoInsertsInParts | handledataupdate.py:49-81 | A row's statements contain no insert exactly when neither its customer statement, nor its sale statement, nor any revenue statement is one. |
| RowProperties.NewRowAllInserts | handledataupdate.py:49-81 | A row with a new customer name and a new sale type issues 38 inserts, provided the new sale's id keys no loaded revenue. |
| RowProperties.RowWritesEachTable | handledataupdate.py:49-81 | A row writes its customer, then its sale, then 36 revenue statements. |
| RowProperties.RowFailure | handledataupdate.py:69-70 | A row whose field reads succeed but whose revenue reads fail aborts at the first failing label. |
| RunProperties.RunSucceedsIff | handledataupdate.py:41-81 | The run reaches the commit exactly when every row after the header survives its reads. Otherwise it stops with that first failing row's own abort, which names the field or label that failed. |
| RunProperties.HeaderIgnored | handledataupdate.py:41 | Two sheets that differ only in their first row give the same run. |
| RunProperties.RunCounts | handledataupdate.py:41-81 | A run that reaches the commit has 38 statements per processed row: one customer statement, one sale statement and 36 revenue statements, with `max(|rows| - 1, 0)` rows processed. |
| RunProperties.RunNoInsertsIff | handledataupdate.py:32-81 | A run that reaches the commit inserts nothing exactly when every processed row touches only loaded names, types and keys. |
| RunProperties.RowsPlannedAgainstLoadedMaps | handledataupdate.py:30-81 | The maps are read-only in the loop: statements 38(k-1) .. 38k of the run are exactly row `k` planned alone against the maps loaded before the loop. |
| RunProperties.EveryRowDecidesAgainstLoadedMaps | handledataupdate.py:49-66 | Row `k`'s customer and sale statements are updates exactly when the name and type were loaded before the loop, and inserts otherwise, whatever earlier rows inserted. |
| RunProperties.NewNameInsertedOnEachRow | handledataupdate.py:49-56 | A name that was not loaded and appears on two rows is inserted on both rows. |
| RunProperties.SharedSaleTypeRewritesKeys | handledataupdate.py:59-81 | Two rows of the same loaded sale type write the same 36 revenue keys, each an update on both or an insert on both. |
| Reconcile.ScriptKey | handledataupdate.py:71-75 | The key built as `(sale_id, '2024', str(i // 3 + 1).zfill(2), ['CHF', 'EUR', 'GBP'][i % 3])` is the revenue key of cell `i`. |
| Reconcile.ReadCell | handledataupdate.py:70 | Searching the sheet for the label's text and reading the row succeeds exactly when the label is found at a column inside the row, and yields `row[col - 1]`. Otherwise it fails with that label's abort. |
| Reconcile.ScriptStatement | handledataupdate.py:75-81 | The statement issued for one label is the planner's statement for that cell. |
| Reconcile.ReconcileRevenues | handledataupdate.py:69-81 | The inner loop over the 36 labels aborts exactly as the planner's reads do, and otherwise issues the planner's 36 revenue statements. |
| Reconcile.ReconcileRow | handledataupdate.py:42-81 | One iteration of the loop, read field by field, computes exactly the planner's row plan or abort. |
| Reconcile.Reconcile | handledataupdate.py:41-81 | The loop over the rows after the header computes exactly the planner's run. |

## Left out

- Authentication and opening the sheet (handledataupdate.py:7-15): the rows
  are an input.
- The MySQL connection and its error handling (handledataupdate.py:18-28).
  This is I/O. A caught connection error leaves `cursor` undefined, and the
  script then fails at line 31; that path is not modelled.
- Loading the maps (handledataupdate.py:30-38): the three maps are an input.
  When a table holds two rows with the same natural key, the dictionary keeps
  the last one; the model takes the resulting maps as given.
- SQL execution, `commit` and `close` (handledataupdate.py:51-88). Statements
  are values; the tables' contents after the run are not modelled. The
  statement that a second run only updates is proved only at the level of
  the maps (`RunNoInsertsIff`: no inserts exactly when every key is in the
  loaded maps). It is not proved that the maps loaded on a second run contain
  those keys.
- `cursor.lastrowid` is modelled as `FreshIds`, a function of the row number
  and the table. Nothing constrains these ids to be new or distinct.
  `NewRowAllInserts` assumes the one fact it needs. Revenue inserts read no
  id, so none is recorded for them.
- `sheet.find(label)` is modelled as `Find`, a function from the label text
  to the 1-based column of the cell holding it, or `None`. The planner works
  on `Locate`, the column of each of the 36 labels, which is
  `LabelColumns(find)`. The script repeats the search for every row, but the
  sheet does not change, so one `Find` serves the whole run. Which cell the
  search picks when a label occurs several times is not modelled.
- Errors raised by the database or by the sheet service abort the script
  before `commit` as well. Examples are a failed `cursor.execute`
  (handledataupdate.py:51-81), such as a duplicate-key error when a new name
  is inserted a second time, and a failed `sheet.find` (handledataupdate.py:70).
  The model has no such outcomes. `RunSucceedsIff` and the other run lemmas
  speak of reaching the commit with those failures abstracted away.
- Which statements reached the server before an abort: none of them is
  committed, so an aborted run is modelled by its abort alone.
- `ZFill` models Python's sign handling, but the month text is never signed,
  so that branch is not exercised by the loop.
- The cell values are copied as text; any conversion the database applies on
  write is not modelled.
