/** What one iteration of the loop writes for one sheet row. */
module RowProperties {
  import opened Wrappers
  import opened RevenueColumns
  import opened Records
  import opened Planner

  /** Every key the row touches is already loaded: the name, the sale type
      and the 36 revenue keys of the loaded sale. */
  predicate RowKnown(ex: Existing, row: Row)
    requires |row| >= MinRowLength
  {
    && row[NameCell] in ex.customers
    && row[SaleTypeCell] in ex.sales
    && forall i: CellIndex :: CellKey(ex.sales[row[SaleTypeCell]].id, i) in ex.revenues
  }

  predicate NoInserts(ops: seq<Op>) {
    forall j :: 0 <= j < |ops| ==> !IsInsert(ops[j])
  }

  /** The customer statement updates the loaded customer's country and
      segment under its existing id when the name was loaded, and otherwise
      inserts the customer under the id the database assigns to it. */
  lemma CustomerDecision(ex: Existing, supply: FreshIds, locate: Locate, k: nat, row: Row)
    requires PlanRow(ex, supply, locate, k, row).Success?
    ensures |row| >= MinRowLength
    ensures var op, name := PlanRow(ex, supply, locate, k, row).value.customer, row[NameCell];
            && (op.UpdCustomer? <==> name in ex.customers)
            && (name in ex.customers ==>
                  op == UpdCustomer(ex.customers[name].id, row[CountryCell], row[SegmentCell]))
            && (name !in ex.customers ==>
                  op == InsCustomer(supply(k, CustomerTable), name, row[CountryCell], row[SegmentCell]))
  {
  }

  /** The sale statement updates the loaded sale's consultant under its
      existing id, leaving its customer link alone, when the type was loaded;
      otherwise it inserts the sale under the id the database assigns, linked
      to the customer id the customer statement resolved. */
  lemma SaleDecision(ex: Existing, supply: FreshIds, locate: Locate, k: nat, row: Row)
    requires PlanRow(ex, supply, locate, k, row).Success?
    ensures |row| >= MinRowLength
    ensures var rp, saleType := PlanRow(ex, supply, locate, k, row).value, row[SaleTypeCell];
            && (rp.sale.UpdSale? <==> saleType in ex.sales)
            && (saleType in ex.sales ==>
                  rp.sale == UpdSale(ex.sales[saleType].id, row[ConsultantCell]))
            && (saleType !in ex.sales ==>
                  rp.sale == InsSale(supply(k, SaleTable), rp.customer.id, saleType, row[ConsultantCell]))
  {
  }

  /** Revenue statement `i` writes cell `i` of the sale the sale statement
      resolved, with the value read from the row. */
  lemma RevenueDecisions(ex: Existing, supply: FreshIds, locate: Locate, k: nat, row: Row)
    requires PlanRow(ex, supply, locate, k, row).Success?
    ensures WellFormedRow(locate, row)
    ensures var rp := PlanRow(ex, supply, locate, k, row).value;
            forall i: CellIndex :: rp.revenues[i] == CellOp(ex.revenues, rp.sale.id, i, CellValue(locate, row, i))
  {
    var rp := PlanRow(ex, supply, locate, k, row).value;
    var values := ReadCells(locate, k, row, 0).value;
    ReadCellsValues(locate, k, row, 0);
    forall i: CellIndex
      ensures rp.revenues[i] == CellOp(ex.revenues, rp.sale.id, i, CellValue(locate, row, i))
    {
      assert values[i] == CellValue(locate, row, 0 + i);
    }
  }

  /** Each revenue statement is keyed by the row's sale and is an update
      exactly when its key was loaded. */
  lemma RevenueKinds(ex: Existing, supply: FreshIds, locate: Locate, k: nat, row: Row)
    requires PlanRow(ex, supply, locate, k, row).Success?
    ensures var rp := PlanRow(ex, supply, locate, k, row).value;
            forall i: CellIndex ::
              && (rp.revenues[i].InsRevenue? || rp.revenues[i].UpdRevenue?)
              && rp.revenues[i].key.saleId == rp.sale.id
              && (rp.revenues[i].UpdRevenue? <==> rp.revenues[i].key in ex.revenues)
  {
  }

  /** The 36 revenue statements of a row write 36 different keys, all of
      the row's sale and of year "2024". */
  lemma RowRevenueKeysDistinct(ex: Existing, supply: FreshIds, locate: Locate, k: nat, row: Row)
    requires PlanRow(ex, supply, locate, k, row).Success?
    ensures var rp := PlanRow(ex, supply, locate, k, row).value;
            forall i: CellIndex :: rp.revenues[i].InsRevenue? || rp.revenues[i].UpdRevenue?
    ensures var rp := PlanRow(ex, supply, locate, k, row).value;
            && (forall i: CellIndex :: rp.revenues[i].key.saleId == rp.sale.id && rp.revenues[i].key.year == Year)
            && forall a: CellIndex, b: CellIndex :: a != b ==> rp.revenues[a].key != rp.revenues[b].key
  {
    RevenueDecisions(ex, supply, locate, k, row);
    var rp := PlanRow(ex, supply, locate, k, row).value;
    forall a: CellIndex, b: CellIndex | a != b
      ensures rp.revenues[a].key != rp.revenues[b].key
    {
      CellKeyInjective(rp.sale.id, a, rp.sale.id, b);
    }
  }

  /** A row's statements hold no insert exactly when none of its parts is one. */
  lemma NoInsertsInParts(rp: RowPlan)
    ensures NoInserts(rp.Ops()) <==> !IsInsert(rp.customer) && !IsInsert(rp.sale) && NoInserts(rp.revenues)
  {
    var ops := rp.Ops();
    if !IsInsert(rp.customer) && !IsInsert(rp.sale) && NoInserts(rp.revenues) {
      forall j | 0 <= j < |ops|
        ensures !IsInsert(ops[j])
      {
        if j >= 2 {
          assert ops[j] == rp.revenues[j - 2];
        }
      }
    }
    if NoInserts(ops) {
      assert ops[0] == rp.customer && ops[1] == rp.sale;
      forall i | 0 <= i < |rp.revenues|
        ensures !IsInsert(rp.revenues[i])
      {
        assert ops[i + 2] == rp.revenues[i];
      }
    }
  }

  /** A row writes no insert exactly when every key it touches was loaded. */
  lemma RowNoInsertsIff(ex: Existing, supply: FreshIds, locate: Locate, k: nat, row: Row)
    requires PlanRow(ex, supply, locate, k, row).Success?
    ensures |row| >= MinRowLength
    ensures NoInserts(PlanRow(ex, supply, locate, k, row).value.Ops()) <==> RowKnown(ex, row)
  {
    var rp := PlanRow(ex, supply, locate, k, row).value;
    NoInsertsInParts(rp);
    RevenueOpsNoInserts(ex.revenues, rp.sale.id, ReadCells(locate, k, row, 0).value);
  }

  /** A row whose customer and sale type are both new writes 38 inserts,
      provided the id its new sale receives keys no loaded revenue. */
  lemma NewRowAllInserts(ex: Existing, supply: FreshIds, locate: Locate, k: nat, row: Row)
    requires PlanRow(ex, supply, locate, k, row).Success?
    requires |row| >= MinRowLength
    requires row[NameCell] !in ex.customers && row[SaleTypeCell] !in ex.sales
    requires forall key :: key in ex.revenues ==> key.saleId != supply(k, SaleTable)
    ensures forall j :: 0 <= j < OpsPerRow ==> IsInsert(PlanRow(ex, supply, locate, k, row).value.Ops()[j])
  {
    var rp := PlanRow(ex, supply, locate, k, row).value;
    RevenueKinds(ex, supply, locate, k, row);
    assert rp.sale.id == supply(k, SaleTable);
    forall i: CellIndex
      ensures rp.revenues[i].InsRevenue?
    {
      assert rp.revenues[i].key.saleId == supply(k, SaleTable);
    }
    var ops := rp.Ops();
    forall j | 0 <= j < OpsPerRow
      ensures IsInsert(ops[j])
    {
      if j >= 2 {
        assert ops[j] == rp.revenues[j - 2];
      }
    }
  }

  /** One customer statement, one sale statement and one revenue statement
      per revenue cell. */
  predicate RowShape(rp: RowPlan) {
    && TableOf(rp.customer) == CustomerTable
    && TableOf(rp.sale) == SaleTable
    && |rp.revenues| == CellCount
    && forall i :: 0 <= i < |rp.revenues| ==> TableOf(rp.revenues[i]) == RevenueTable
  }

  /** A row writes its customer, then its sale, then its 36 revenue cells. */
  lemma RowWritesEachTable(ex: Existing, supply: FreshIds, locate: Locate, k: nat, row: Row)
    requires PlanRow(ex, supply, locate, k, row).Success?
    ensures RowShape(PlanRow(ex, supply, locate, k, row).value)
  {
    var rp := PlanRow(ex, supply, locate, k, row).value;
    RevenueOpsTables(ex.revenues, rp.sale.id, ReadCells(locate, k, row, 0).value);
  }

  /** The revenue statements insert nothing exactly when every key they
      write was loaded. */
  lemma RevenueOpsNoInserts(revenues: map<RevenueKey, RevenueRec>, saleId: Id, values: seq<string>)
    requires |values| == CellCount
    ensures NoInserts(RevenueOps(revenues, saleId, values)) <==>
              forall j: CellIndex :: CellKey(saleId, j) in revenues
  {
    var ops := RevenueOps(revenues, saleId, values);
    if NoInserts(ops) {
      forall j: CellIndex
        ensures CellKey(saleId, j) in revenues
      {
        assert !IsInsert(ops[j]);
      }
    }
  }

  /** A row whose field reads succeed but one of whose revenue reads fails
      aborts with the first revenue cell whose read fails. */
  lemma RowFailure(ex: Existing, supply: FreshIds, locate: Locate, k: nat, row: Row)
    requires PlanRow(ex, supply, locate, k, row).Failure?
    requires |row| >= MinRowLength
    ensures exists j: CellIndex :: FirstUnresolvable(locate, row, 0, j) &&
              PlanRow(ex, supply, locate, k, row).error == CellAbort(locate, row, k, j)
  {
    ReadCellsFailure(locate, k, row, 0);
  }
}
