/** The reconciliation loop written the way the script runs it: one pass
    over the rows after the header, each reading its five fields, upserting
    the customer and the sale, then walking the 36 revenue labels and
    computing each revenue key from the label's position. Each method is
    proved to compute exactly what the planner computes. */
module Reconcile {
  import opened Wrappers
  import opened RevenueColumns
  import opened Records
  import opened Planner

  /** The statements `ops` already issued, followed by the outcome of the
      rest of the run. */
  function Then(ops: seq<Op>, rest: Result<seq<Op>, Abort>): Result<seq<Op>, Abort> {
    if rest.Failure? then rest else Success(ops + rest.value)
  }

  /** One step of the outer loop: the outcome of rows `k` onwards, after
      `ops`, is the abort of row `k` or the outcome of rows `k + 1` onwards
      after `ops` and row `k`'s statements. */
  lemma PlanFromThen(body: RowStep, rows: seq<Row>, k: nat, ops: seq<Op>)
    requires 1 <= k < |rows|
    ensures body(k, rows[k]).Failure? ==> Then(ops, PlanFrom(body, rows, k)) == Failure(body(k, rows[k]).error)
    ensures body(k, rows[k]).Success? ==>
              Then(ops, PlanFrom(body, rows, k)) == Then(ops + body(k, rows[k]).value.Ops(), PlanFrom(body, rows, k + 1))
  {
    var planned := body(k, rows[k]);
    var rest := PlanFrom(body, rows, k + 1);
    if planned.Success? && rest.Success? {
      assert (ops + planned.value.Ops()) + rest.value == ops + (planned.value.Ops() + rest.value);
    }
  }

  /** Reading cells `i0` onwards stops at the first cell whose read fails. */
  lemma {:induction false} ReadCellsStopsAt(locate: Locate, k: nat, row: Row, i0: int, i: CellIndex)
    requires 0 <= i0 <= i
    requires forall j: CellIndex :: i0 <= j < i ==> Resolvable(locate, row, j)
    requires !Resolvable(locate, row, i)
    ensures ReadCells(locate, k, row, i0) == Failure(CellAbort(locate, row, k, i))
    decreases i - i0
  {
    if i0 < i {
      ReadCellsStopsAt(locate, k, row, i0 + 1, i);
    }
  }

  /** The key the script builds for the revenue label at position `i`:
      year "2024", month `str(i // 3 + 1).zfill(2)`, currency
      `['CHF', 'EUR', 'GBP'][i % 3]`. On a non-negative position Python's
      floor division and remainder agree with Dafny's. */
  function ScriptKey(saleId: Id, i: CellIndex): (key: RevenueKey)
    ensures key == CellKey(saleId, i)
  {
    MonthOfIsQuotient(i);
    MonthTextIsPadded(i);
    CurrencyOfIsRemainder(i);
    RevenueKey(saleId, Year, ZFill(Decimal(i / 3 + 1), 2), Currencies[i % 3])
  }

  /** The script's read of the revenue label at position `i` on row number
      `k`: search the sheet for the label's text, then index the row one to
      the left of the column found (columns count from 1); either step can
      fail. */
  function ReadCell(find: Find, k: nat, row: Row, i: CellIndex): (r: Result<string, Abort>)
    ensures r.Success? <==> Resolvable(LabelColumns(find), row, i)
    ensures r.Success? ==> r.value == CellValue(LabelColumns(find), row, i)
    ensures r.Failure? ==> r.error == CellAbort(LabelColumns(find), row, k, i)
  {
    var column := find(Labels[i]);
    if column.None? then Failure(LabelNotFound(k, i))
    else if column.value - 1 >= |row| then Failure(MissingCell(k, column.value - 1))
    else Success(row[column.value - 1])
  }

  /** The statement the script issues for the revenue label at position
      `i`: an update when the key it builds was loaded, else an insert. */
  function ScriptStatement(revenues: map<RevenueKey, RevenueRec>, saleId: Id, i: CellIndex, value: string): (op: Op)
    ensures op == CellOp(revenues, saleId, i, value)
  {
    var key := ScriptKey(saleId, i);
    if key in revenues then UpdRevenue(key, value) else InsRevenue(key, value)
  }

  /** `values` are the first |values| revenue cells of the row, every one
      of them read successfully, and `ops` their statements. */
  predicate Built(revenues: map<RevenueKey, RevenueRec>, saleId: Id, locate: Locate, row: Row, values: seq<string>, ops: seq<Op>) {
    && |values| <= CellCount
    && |ops| == |values|
    && forall j :: 0 <= j < |values| ==>
         && Resolvable(locate, row, j)
         && values[j] == CellValue(locate, row, j)
         && ops[j] == CellOp(revenues, saleId, j, values[j])
  }

  lemma BuiltExtend(revenues: map<RevenueKey, RevenueRec>, saleId: Id, locate: Locate, row: Row,
                    values: seq<string>, ops: seq<Op>, value: string, op: Op)
    requires Built(revenues, saleId, locate, row, values, ops) && |values| < CellCount
    requires Resolvable(locate, row, |values|) && value == CellValue(locate, row, |values|)
    requires op == CellOp(revenues, saleId, |values|, value)
    ensures Built(revenues, saleId, locate, row, values + [value], ops + [op])
  {
  }

  /** The inner loop: one statement per revenue label, in label order,
      aborting on the first label that is missing or points past the row. */
  method ReconcileRevenues(revenues: map<RevenueKey, RevenueRec>, saleId: Id, find: Find, k: nat, row: Row)
    returns (r: Result<seq<Op>, Abort>)
    ensures ReadCells(LabelColumns(find), k, row, 0).Failure? ==>
              r == Failure(ReadCells(LabelColumns(find), k, row, 0).error)
    ensures ReadCells(LabelColumns(find), k, row, 0).Success? ==>
              r == Success(RevenueOps(revenues, saleId, ReadCells(LabelColumns(find), k, row, 0).value))
  {
    ghost var locate := LabelColumns(find);
    var ops: seq<Op> := [];
    ghost var values: seq<string> := [];
    var i := 0;
    while i < CellCount
      invariant 0 <= i <= CellCount && |values| == i
      invariant Built(revenues, saleId, locate, row, values, ops)
    {
      var value := ReadCell(find, k, row, i);
      if value.Failure? {
        ReadCellsStopsAt(locate, k, row, 0, i);
        return Failure(value.error);
      }
      var op := ScriptStatement(revenues, saleId, i, value.value);
      BuiltExtend(revenues, saleId, locate, row, values, ops, value.value, op);
      ops := ops + [op];
      values := values + [value.value];
      i := i + 1;
    }
    AllCellsRead(locate, k, row, values);
    RevenueOpsFrom(revenues, saleId, values, ops);
    r := Success(ops);
  }

  /** When every revenue read succeeds, ReadCells returns the values read
      cell by cell. */
  lemma AllCellsRead(locate: Locate, k: nat, row: Row, values: seq<string>)
    requires forall j: CellIndex :: Resolvable(locate, row, j)
    requires |values| == CellCount
    requires forall j :: 0 <= j < CellCount ==> values[j] == CellValue(locate, row, j)
    ensures ReadCells(locate, k, row, 0) == Success(values)
  {
    ReadCellsValues(locate, k, row, 0);
    assert forall j: CellIndex :: ReadCells(locate, k, row, 0).value[j] == CellValue(locate, row, 0 + j);
    assert ReadCells(locate, k, row, 0).value == values;
  }

  /** Statements that agree with the planner's cell by cell are the
      planner's revenue statements. */
  lemma RevenueOpsFrom(revenues: map<RevenueKey, RevenueRec>, saleId: Id, values: seq<string>, ops: seq<Op>)
    requires |values| == CellCount && |ops| == CellCount
    requires forall j :: 0 <= j < CellCount ==> ops[j] == CellOp(revenues, saleId, j, values[j])
    ensures RevenueOps(revenues, saleId, values) == ops
  {
  }

  /** One iteration of the outer loop, on row number `k`. */
  method ReconcileRow(ex: Existing, supply: FreshIds, find: Find, k: nat, row: Row)
    returns (r: Result<RowPlan, Abort>)
    ensures r == PlanRow(ex, supply, LabelColumns(find), k, row)
  {
    if |row| <= NameCell { return Failure(MissingCell(k, NameCell)); }
    var name := row[NameCell];
    if |row| <= CountryCell { return Failure(MissingCell(k, CountryCell)); }
    var country := row[CountryCell];
    if |row| <= SegmentCell { return Failure(MissingCell(k, SegmentCell)); }
    var segment := row[SegmentCell];
    if |row| <= SaleTypeCell { return Failure(MissingCell(k, SaleTypeCell)); }
    var saleType := row[SaleTypeCell];
    if |row| <= ConsultantCell { return Failure(MissingCell(k, ConsultantCell)); }
    var consultant := row[ConsultantCell];

    var customerId: Id;
    var customer: Op;
    if name in ex.customers {
      customerId := ex.customers[name].id;
      customer := UpdCustomer(customerId, country, segment);
    } else {
      customerId := supply(k, CustomerTable);
      customer := InsCustomer(customerId, name, country, segment);
    }

    var saleId: Id;
    var sale: Op;
    if saleType in ex.sales {
      saleId := ex.sales[saleType].id;
      sale := UpdSale(saleId, consultant);
    } else {
      saleId := supply(k, SaleTable);
      sale := InsSale(saleId, customerId, saleType, consultant);
    }

    var revenues := ReconcileRevenues(ex.revenues, saleId, find, k, row);
    if revenues.Failure? {
      return Failure(revenues.error);
    }
    r := Success(RowPlan(customer, sale, revenues.value));
  }

  /** The whole run: every row after the header, in order; the first abort
      ends it with nothing committed. */
  method Reconcile(ex: Existing, supply: FreshIds, find: Find, rows: seq<Row>)
    returns (r: Result<seq<Op>, Abort>)
    ensures r == Run(ex, supply, LabelColumns(find), rows)
  {
    if |rows| == 0 {
      return Success([]);
    }
    ghost var body := LoopBody(ex, supply, LabelColumns(find));
    var ops: seq<Op> := [];
    var k := 1;
    if PlanFrom(body, rows, 1).Success? {
      assert ops + PlanFrom(body, rows, 1).value == PlanFrom(body, rows, 1).value;
    }
    while k < |rows|
      invariant 1 <= k <= |rows|
      invariant PlanFrom(body, rows, 1) == Then(ops, PlanFrom(body, rows, k))
      decreases |rows| - k
    {
      var planned := ReconcileRow(ex, supply, find, k, rows[k]);
      assert planned == body(k, rows[k]);
      PlanFromThen(body, rows, k, ops);
      if planned.Failure? {
        return Failure(planned.error);
      }
      ops := ops + planned.value.Ops();
      k := k + 1;
    }
    assert ops + [] == ops;
    r := Success(ops);
  }
}
