/** The reconciliation loop as a pure planner: from the lookup maps loaded
    before the loop, the sheet rows, a supply of database-assigned ids and
    the sheet's label-to-column lookup, it computes the statements the loop
    issues, or the reason the run aborts before it commits. */
module Planner {
  import opened Wrappers
  import opened RevenueColumns
  import opened Records

  /** A sheet row: its cells as text, leftmost first. */
  type Row = seq<string>

  /** A 1-based sheet column, as the sheet's cell lookup reports it. */
  type ColumnNo = c: int | 1 <= c witness 1

  /** The sheet's search for a label: the column of the sheet cell holding
      it, or None when no cell holds it. */
  type Find = string -> Option<ColumnNo>

  /** The column of the label of each revenue cell: for cell `i`, where the
      sheet finds `Labels[i]`. */
  type Locate = CellIndex -> Option<ColumnNo>

  /** The label columns a sheet search reports. */
  function LabelColumns(find: Find): Locate {
    (i: CellIndex) => find(Labels[i])
  }

  /** The id the database reports for the row it inserts into a table while
      the loop processes sheet row `k`: the customer table or the sale
      table, each at most once per sheet row. */
  type FreshIds = (nat, Table) -> Id

  const NameCell: nat := 0
  const CountryCell: nat := 1
  const SegmentCell: nat := 2
  const SaleTypeCell: nat := 8
  const ConsultantCell: nat := 11

  /** The cells a row's fields are read from, in the order they are read. */
  const FieldCells: seq<nat> := [NameCell, CountryCell, SegmentCell, SaleTypeCell, ConsultantCell]

  /** The shortest row whose field reads all succeed. */
  const MinRowLength: nat := 12

  /** One customer, one sale and one statement per revenue cell. */
  const OpsPerRow: nat := 38

  /** Why a run stops before committing, on row number `row`: a read of
      column index `column` past the end of the row, or the label of revenue
      cell `revenueCell` missing from the sheet. */
  datatype Abort = MissingCell(row: nat, column: int) | LabelNotFound(row: nat, revenueCell: int)

  /** The first field read that fails on a row of `len` cells. */
  function FirstMissingField(len: nat): (c: nat)
    requires len < MinRowLength
    ensures len <= c && c in FieldCells
    ensures forall j :: 0 <= j < |FieldCells| && FieldCells[j] < c ==> FieldCells[j] < len
  {
    if len == 0 then NameCell
    else if len == 1 then CountryCell
    else if len == 2 then SegmentCell
    else if len <= SaleTypeCell then SaleTypeCell
    else ConsultantCell
  }

  /** The value cell of revenue cell `i` lies inside `row`. */
  predicate Resolvable(locate: Locate, row: Row, i: CellIndex) {
    locate(i).Some? && locate(i).value <= |row|
  }

  /** A row every read of the loop body succeeds on. */
  predicate WellFormedRow(locate: Locate, row: Row) {
    && |row| >= MinRowLength
    && forall i: CellIndex :: Resolvable(locate, row, i)
  }

  function CellValue(locate: Locate, row: Row, i: CellIndex): string
    requires Resolvable(locate, row, i)
  {
    row[locate(i).value - 1]
  }

  /** The failure of reading revenue cell `i` of row number `k`. */
  function CellAbort(locate: Locate, row: Row, k: nat, i: CellIndex): Abort
    requires !Resolvable(locate, row, i)
  {
    match locate(i)
    case None => LabelNotFound(k, i)
    case Some(c) => MissingCell(k, c - 1)
  }

  /** Cell `j` is the first cell from `i` on whose read fails. */
  predicate FirstUnresolvable(locate: Locate, row: Row, i: int, j: CellIndex) {
    && i <= j
    && !Resolvable(locate, row, j)
    && forall j': CellIndex :: i <= j' < j ==> Resolvable(locate, row, j')
  }

  /** The statement for revenue cell `i` of the sale with id `saleId`. */
  function CellOp(revenues: map<RevenueKey, RevenueRec>, saleId: Id, i: CellIndex, value: string): (op: Op)
    ensures op.InsRevenue? || op.UpdRevenue?
    ensures op.key == CellKey(saleId, i) && op.value == value
    ensures op.UpdRevenue? <==> op.key in revenues
  {
    var key := CellKey(saleId, i);
    if key in revenues then UpdRevenue(key, value) else InsRevenue(key, value)
  }

  /** The values of revenue cells `i` .. 35 of a row, read in order, or the
      failure of the first read that fails. */
  function ReadCells(locate: Locate, k: nat, row: Row, i: int): (r: Result<seq<string>, Abort>)
    requires 0 <= i <= CellCount
    ensures r.Success? <==> forall j: CellIndex :: i <= j ==> Resolvable(locate, row, j)
    ensures r.Success? ==> |r.value| == CellCount - i
    ensures r.Failure? ==> r.error.row == k
    decreases CellCount - i
  {
    if i == CellCount then Success([])
    else if !Resolvable(locate, row, i) then Failure(CellAbort(locate, row, k, i))
    else
      var rest := ReadCells(locate, k, row, i + 1);
      if rest.Failure? then rest
      else Success([CellValue(locate, row, i)] + rest.value)
  }

  /** The statements for the 36 revenue cells of the sale with id `saleId`,
      given the values read for them, in cell order. */
  function RevenueOps(revenues: map<RevenueKey, RevenueRec>, saleId: Id, values: seq<string>): (ops: seq<Op>)
    requires |values| == CellCount
    ensures |ops| == CellCount
    ensures forall i :: 0 <= i < CellCount ==>
              && (ops[i].InsRevenue? || ops[i].UpdRevenue?)
              && ops[i].key == CellKey(saleId, i) && ops[i].value == values[i]
              && (ops[i].UpdRevenue? <==> CellKey(saleId, i) in revenues)
  {
    seq(CellCount, i requires 0 <= i < CellCount => CellOp(revenues, saleId, i, values[i]))
  }

  /** Every revenue statement writes to the revenue table. */
  lemma RevenueOpsTables(revenues: map<RevenueKey, RevenueRec>, saleId: Id, values: seq<string>)
    requires |values| == CellCount
    ensures forall i :: 0 <= i < CellCount ==> TableOf(RevenueOps(revenues, saleId, values)[i]) == RevenueTable
  {
  }

  /** Each value ReadCells returns is read from the column the sheet reports
      for its revenue cell. */
  lemma {:induction false} ReadCellsValues(locate: Locate, k: nat, row: Row, i: int)
    requires 0 <= i <= CellCount
    requires ReadCells(locate, k, row, i).Success?
    ensures forall d :: 0 <= d < CellCount - i ==>
              ReadCells(locate, k, row, i).value[d] == CellValue(locate, row, i + d)
    decreases CellCount - i
  {
    if i < CellCount {
      ReadCellsValues(locate, k, row, i + 1);
    }
  }

  /** A failed ReadCells reports the first revenue cell whose read fails. */
  lemma {:induction false} ReadCellsFailure(locate: Locate, k: nat, row: Row, i: int)
    requires 0 <= i <= CellCount
    requires ReadCells(locate, k, row, i).Failure?
    ensures exists j: CellIndex ::
              FirstUnresolvable(locate, row, i, j) && ReadCells(locate, k, row, i).error == CellAbort(locate, row, k, j)
    decreases CellCount - i
  {
    if Resolvable(locate, row, i) {
      ReadCellsFailure(locate, k, row, i + 1);
      var j: CellIndex :| FirstUnresolvable(locate, row, i + 1, j)
                          && ReadCells(locate, k, row, i + 1).error == CellAbort(locate, row, k, j);
      assert FirstUnresolvable(locate, row, i, j);
    } else {
      assert FirstUnresolvable(locate, row, i, i);
    }
  }

  /** The customer statement of row number `k`: update the customer named
      in the row if it was loaded, else insert it. */
  function UpsertCustomer(customers: map<string, CustomerRec>, supply: FreshIds, k: nat, row: Row): (op: Op)
    requires |row| >= MinRowLength
    ensures op.UpdCustomer? || op.InsCustomer?
    ensures op.UpdCustomer? <==> row[NameCell] in customers
    ensures op.id == if row[NameCell] in customers then customers[row[NameCell]].id else supply(k, CustomerTable)
    ensures op.country == row[CountryCell] && op.segment == row[SegmentCell]
    ensures op.InsCustomer? ==> op.name == row[NameCell]
  {
    var name := row[NameCell];
    if name in customers then UpdCustomer(customers[name].id, row[CountryCell], row[SegmentCell])
    else InsCustomer(supply(k, CustomerTable), name, row[CountryCell], row[SegmentCell])
  }

  /** The sale statement of row number `k`: update the sale of the row's
      type if it was loaded, else insert it under the customer with id
      `customerId`. */
  function UpsertSale(sales: map<string, SaleRec>, supply: FreshIds, k: nat, row: Row, customerId: Id): (op: Op)
    requires |row| >= MinRowLength
    ensures op.UpdSale? || op.InsSale?
    ensures op.UpdSale? <==> row[SaleTypeCell] in sales
    ensures op.id == if row[SaleTypeCell] in sales then sales[row[SaleTypeCell]].id else supply(k, SaleTable)
    ensures op.consultant == row[ConsultantCell]
    ensures op.InsSale? ==> op.customerId == customerId && op.saleType == row[SaleTypeCell]
  {
    var saleType := row[SaleTypeCell];
    if saleType in sales then UpdSale(sales[saleType].id, row[ConsultantCell])
    else InsSale(supply(k, SaleTable), customerId, saleType, row[ConsultantCell])
  }

  /** The statements of one loop iteration: the customer statement, the
      sale statement and one statement per revenue cell, in the order they
      are issued. */
  datatype RowPlan = RowPlan(customer: Op, sale: Op, revenues: seq<Op>) {
    function Ops(): seq<Op> {
      [customer, sale] + revenues
    }
  }

  /** The statements of one loop iteration, on row number `k`. */
  function PlanRow(ex: Existing, supply: FreshIds, locate: Locate, k: nat, row: Row): (r: Result<RowPlan, Abort>)
    ensures r.Success? <==> WellFormedRow(locate, row)
    ensures |row| < MinRowLength ==> r == Failure(MissingCell(k, FirstMissingField(|row|)))
    ensures r.Success? ==> |r.value.revenues| == CellCount && |r.value.Ops()| == OpsPerRow
    ensures r.Failure? ==> r.error.row == k
  {
    if |row| < MinRowLength then Failure(MissingCell(k, FirstMissingField(|row|)))
    else
      var customer := UpsertCustomer(ex.customers, supply, k, row);
      var sale := UpsertSale(ex.sales, supply, k, row, customer.id);
      var values := ReadCells(locate, k, row, 0);
      if values.Failure? then Failure(values.error)
      else Success(RowPlan(customer, sale, RevenueOps(ex.revenues, sale.id, values.value)))
  }

  /** One iteration of the loop: from the row number and the row, the row's
      statements or the reason the run aborts. */
  type RowStep = (nat, Row) -> Result<RowPlan, Abort>

  /** The loop body of a run against the maps `ex`. */
  function LoopBody(ex: Existing, supply: FreshIds, locate: Locate): RowStep {
    (k: nat, row: Row) => PlanRow(ex, supply, locate, k, row)
  }

  /** The statements `body` issues for rows `k` .. |rows| - 1, in order; the
      first abort ends the run. */
  function PlanFrom(body: RowStep, rows: seq<Row>, k: nat): Result<seq<Op>, Abort>
    requires 1 <= k <= |rows|
    decreases |rows| - k
  {
    if k == |rows| then Success([])
    else
      var row := body(k, rows[k]);
      if row.Failure? then Failure(row.error)
      else
        var rest := PlanFrom(body, rows, k + 1);
        if rest.Failure? then rest
        else Success(row.value.Ops() + rest.value)
  }

  /** The number of rows the loop visits: every row but the header. */
  function Processed(rows: seq<Row>): nat {
    if |rows| == 0 then 0 else |rows| - 1
  }

  /** The whole run: every row after the header, in order, against the maps
      loaded before the loop. */
  function Run(ex: Existing, supply: FreshIds, locate: Locate, rows: seq<Row>): (r: Result<seq<Op>, Abort>)
    ensures |rows| <= 1 ==> r == Success([])
  {
    if |rows| == 0 then Success([]) else PlanFrom(LoopBody(ex, supply, locate), rows, 1)
  }
}
