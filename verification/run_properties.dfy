/** Properties of the whole run: which rows it reads, what it writes for
    each of them, and how many statements of each kind it issues.

    The sweep lemmas hold for any loop body with the stated row-level
    property; the run lemmas instantiate them with the loop body of the
    reconciliation, whose row-level properties come from RowProperties. */
module RunProperties {
  import opened Wrappers
  import opened RevenueColumns
  import opened Records
  import opened Planner
  import opened RowProperties

  // ----- row-level properties of a loop body -----

  /** The body aborts exactly on the rows some read fails on, and reports
      the row number it aborts on. */
  ghost predicate AbortsOnBadRows(body: RowStep, locate: Locate) {
    forall k: nat, row: Row ::
      && (body(k, row).Success? <==> WellFormedRow(locate, row))
      && (body(k, row).Failure? ==> body(k, row).error.row == k)
  }

  /** The body writes one customer statement, one sale statement and one
      revenue statement per revenue cell. */
  ghost predicate WritesEachTable(body: RowStep) {
    forall k: nat, row: Row :: body(k, row).Success? ==> RowShape(body(k, row).value)
  }

  /** Every row the body plans takes the same number of statements. */
  ghost predicate FixedWidth(body: RowStep) {
    forall k: nat, row: Row :: body(k, row).Success? ==> |body(k, row).value.Ops()| == OpsPerRow
  }

  /** The body inserts nothing exactly on the rows whose keys were all
      loaded. */
  ghost predicate InsertsOnlyNew(body: RowStep, ex: Existing) {
    forall k: nat, row: Row :: body(k, row).Success? ==>
      |row| >= MinRowLength && (NoInserts(body(k, row).value.Ops()) <==> RowKnown(ex, row))
  }

  /** The body updates a customer or a sale exactly when its name or type
      is in the loaded maps, and inserts it otherwise. */
  ghost predicate DecidesAgainst(body: RowStep, ex: Existing) {
    forall k: nat, row: Row :: body(k, row).Success? ==>
      && |row| >= MinRowLength
      && (body(k, row).value.customer.UpdCustomer? <==> row[NameCell] in ex.customers)
      && (body(k, row).value.customer.InsCustomer? <==> row[NameCell] !in ex.customers)
      && (body(k, row).value.sale.UpdSale? <==> row[SaleTypeCell] in ex.sales)
      && (body(k, row).value.sale.InsSale? <==> row[SaleTypeCell] !in ex.sales)
  }

  lemma LoopBodyAbortsOnBadRows(ex: Existing, supply: FreshIds, locate: Locate)
    ensures AbortsOnBadRows(LoopBody(ex, supply, locate), locate)
  {
  }

  lemma LoopBodyWritesEachTable(ex: Existing, supply: FreshIds, locate: Locate)
    ensures WritesEachTable(LoopBody(ex, supply, locate))
  {
    forall k: nat, row: Row | PlanRow(ex, supply, locate, k, row).Success?
      ensures RowShape(PlanRow(ex, supply, locate, k, row).value)
    {
      RowWritesEachTable(ex, supply, locate, k, row);
    }
  }

  lemma LoopBodyInsertsOnlyNew(ex: Existing, supply: FreshIds, locate: Locate)
    ensures InsertsOnlyNew(LoopBody(ex, supply, locate), ex)
  {
    forall k: nat, row: Row | PlanRow(ex, supply, locate, k, row).Success?
      ensures |row| >= MinRowLength
      ensures NoInserts(PlanRow(ex, supply, locate, k, row).value.Ops()) <==> RowKnown(ex, row)
    {
      RowNoInsertsIff(ex, supply, locate, k, row);
    }
  }

  lemma LoopBodyDecidesAgainst(ex: Existing, supply: FreshIds, locate: Locate)
    ensures DecidesAgainst(LoopBody(ex, supply, locate), ex)
  {
    forall k: nat, row: Row | PlanRow(ex, supply, locate, k, row).Success?
      ensures |row| >= MinRowLength
      ensures PlanRow(ex, supply, locate, k, row).value.customer.UpdCustomer? <==> row[NameCell] in ex.customers
      ensures PlanRow(ex, supply, locate, k, row).value.customer.InsCustomer? <==> row[NameCell] !in ex.customers
      ensures PlanRow(ex, supply, locate, k, row).value.sale.UpdSale? <==> row[SaleTypeCell] in ex.sales
      ensures PlanRow(ex, supply, locate, k, row).value.sale.InsSale? <==> row[SaleTypeCell] !in ex.sales
    {
      CustomerDecision(ex, supply, locate, k, row);
      SaleDecision(ex, supply, locate, k, row);
    }
  }

  // ----- the sweep over the rows, for any loop body -----

  /** Every row from `k` on survives all the reads of the loop body. */
  predicate RowsWellFormed(locate: Locate, rows: seq<Row>, k: nat) {
    forall j :: k <= j < |rows| ==> WellFormedRow(locate, rows[j])
  }

  /** Row `j` is the first row from `k` on whose reads fail. */
  predicate FirstBadRow(locate: Locate, rows: seq<Row>, k: nat, j: nat) {
    && k <= j < |rows|
    && !WellFormedRow(locate, rows[j])
    && forall j' :: k <= j' < j ==> WellFormedRow(locate, rows[j'])
  }

  /** Every row from `k` on touches only loaded keys. */
  predicate RowsKnown(ex: Existing, rows: seq<Row>, k: nat) {
    forall j :: k <= j < |rows| ==> |rows[j]| >= MinRowLength && RowKnown(ex, rows[j])
  }

  lemma {:induction false} PlanFromSucceedsIff(body: RowStep, locate: Locate, rows: seq<Row>, k: nat)
    requires 1 <= k <= |rows|
    requires AbortsOnBadRows(body, locate)
    ensures PlanFrom(body, rows, k).Success? <==> RowsWellFormed(locate, rows, k)
    ensures PlanFrom(body, rows, k).Failure? ==>
              exists j: nat :: && FirstBadRow(locate, rows, k, j)
                          && PlanFrom(body, rows, k).error == body(j, rows[j]).error
                          && PlanFrom(body, rows, k).error.row == j
    decreases |rows| - k
  {
    if k < |rows| {
      var row := body(k, rows[k]);
      if row.Success? {
        PlanFromSucceedsIff(body, locate, rows, k + 1);
        if PlanFrom(body, rows, k + 1).Failure? {
          var j: nat :| && FirstBadRow(locate, rows, k + 1, j)
                   && PlanFrom(body, rows, k + 1).error == body(j, rows[j]).error
                   && PlanFrom(body, rows, k + 1).error.row == j;
          assert FirstBadRow(locate, rows, k, j);
        }
      } else {
        assert FirstBadRow(locate, rows, k, k);
      }
    }
  }

  lemma {:induction false} PlanFromReadsOnlyFrom(body: RowStep, rows: seq<Row>, rows': seq<Row>, k: nat)
    requires 1 <= k <= |rows| == |rows'|
    requires forall j :: k <= j < |rows| ==> rows[j] == rows'[j]
    ensures PlanFrom(body, rows, k) == PlanFrom(body, rows', k)
    decreases |rows| - k
  {
    if k < |rows| {
      assert rows[k] == rows'[k];
      var row := body(k, rows[k]);
      if row.Success? {
        PlanFromReadsOnlyFrom(body, rows, rows', k + 1);
      }
    }
  }

  /** The statements of one row, counted per table. */
  lemma RowCounts(rp: RowPlan, t: Table)
    requires RowShape(rp)
    ensures |rp.Ops()| == OpsPerRow
    ensures CountIn(rp.Ops(), t) == if t == RevenueTable then CellCount else 1
  {
    CountInAppend([rp.customer, rp.sale], rp.revenues, t);
    CountInAppend([rp.customer], [rp.sale], t);
    CountInUniform([rp.customer], CustomerTable, t);
    CountInUniform([rp.sale], SaleTable, t);
    CountInUniform(rp.revenues, RevenueTable, t);
  }

  lemma {:induction false} PlanFromCounts(body: RowStep, rows: seq<Row>, k: nat, t: Table)
    requires 1 <= k <= |rows|
    requires WritesEachTable(body)
    requires PlanFrom(body, rows, k).Success?
    ensures |PlanFrom(body, rows, k).value| == OpsPerRow * (|rows| - k)
    ensures CountIn(PlanFrom(body, rows, k).value, t)
            == (if t == RevenueTable then CellCount else 1) * (|rows| - k)
    decreases |rows| - k
  {
    if k < |rows| {
      var rp := body(k, rows[k]).value;
      PlanFromCounts(body, rows, k + 1, t);
      RowCounts(rp, t);
      CountInAppend(rp.Ops(), PlanFrom(body, rows, k + 1).value, t);
    }
  }

  lemma NoInsertsAppend(a: seq<Op>, b: seq<Op>)
    ensures NoInserts(a + b) <==> NoInserts(a) && NoInserts(b)
  {
    if NoInserts(a + b) {
      forall j | 0 <= j < |a|
        ensures !IsInsert(a[j])
      {
        assert (a + b)[j] == a[j];
      }
      forall j | 0 <= j < |b|
        ensures !IsInsert(b[j])
      {
        assert (a + b)[|a| + j] == b[j];
      }
    }
    if NoInserts(a) && NoInserts(b) {
      forall j | 0 <= j < |a + b|
        ensures !IsInsert((a + b)[j])
      {
        if j < |a| {
          assert (a + b)[j] == a[j];
        } else {
          assert (a + b)[j] == b[j - |a|];
        }
      }
    }
  }

  lemma {:induction false} PlanFromNoInsertsIff(body: RowStep, ex: Existing, rows: seq<Row>, k: nat)
    requires 1 <= k <= |rows|
    requires InsertsOnlyNew(body, ex)
    requires PlanFrom(body, rows, k).Success?
    ensures NoInserts(PlanFrom(body, rows, k).value) <==> RowsKnown(ex, rows, k)
    decreases |rows| - k
  {
    if k < |rows| {
      var rp := body(k, rows[k]).value;
      PlanFromNoInsertsIff(body, ex, rows, k + 1);
      NoInsertsAppend(rp.Ops(), PlanFrom(body, rows, k + 1).value);
      assert RowsKnown(ex, rows, k) <==> RowKnown(ex, rows[k]) && RowsKnown(ex, rows, k + 1);
    } else {
      assert PlanFrom(body, rows, k).value == [];
    }
  }

  lemma {:induction false} PlanFromChunk(body: RowStep, rows: seq<Row>, k0: nat, k: nat)
    requires 1 <= k0 <= k < |rows|
    requires FixedWidth(body)
    requires PlanFrom(body, rows, k0).Success?
    ensures body(k, rows[k]).Success?
    ensures |PlanFrom(body, rows, k0).value| >= OpsPerRow * (k - k0 + 1)
    ensures PlanFrom(body, rows, k0).value[OpsPerRow * (k - k0) .. OpsPerRow * (k - k0 + 1)]
            == body(k, rows[k]).value.Ops()
    decreases k - k0
  {
    var rp := body(k0, rows[k0]).value;
    var rest := PlanFrom(body, rows, k0 + 1);
    var all := PlanFrom(body, rows, k0).value;
    assert all == rp.Ops() + rest.value;
    if k > k0 {
      PlanFromChunk(body, rows, k0 + 1, k);
      assert all[OpsPerRow * (k - k0) .. OpsPerRow * (k - k0 + 1)]
          == rest.value[OpsPerRow * (k - k0 - 1) .. OpsPerRow * (k - k0)];
    }
  }

  lemma PlanFromDecidesAgainst(body: RowStep, ex: Existing, rows: seq<Row>, k: nat)
    requires 1 <= k < |rows|
    requires FixedWidth(body) && DecidesAgainst(body, ex)
    requires PlanFrom(body, rows, 1).Success?
    ensures |rows[k]| >= MinRowLength && |PlanFrom(body, rows, 1).value| >= OpsPerRow * k
    ensures var ops := PlanFrom(body, rows, 1).value;
            && (ops[OpsPerRow * (k - 1)].UpdCustomer? <==> rows[k][NameCell] in ex.customers)
            && (ops[OpsPerRow * (k - 1)].InsCustomer? <==> rows[k][NameCell] !in ex.customers)
            && (ops[OpsPerRow * (k - 1) + 1].UpdSale? <==> rows[k][SaleTypeCell] in ex.sales)
            && (ops[OpsPerRow * (k - 1) + 1].InsSale? <==> rows[k][SaleTypeCell] !in ex.sales)
  {
    PlanFromChunk(body, rows, 1, k);
    var ops := PlanFrom(body, rows, 1).value;
    var rp := body(k, rows[k]).value;
    assert ops[OpsPerRow * (k - 1)] == rp.Ops()[0] == rp.customer;
    assert ops[OpsPerRow * (k - 1) + 1] == rp.Ops()[1] == rp.sale;
  }

  // ----- the run of the reconciliation -----

  /** The run reaches the commit exactly when every row after the header
      survives the reads of the loop body; otherwise it aborts with the
      abort of the first row that does not. */
  lemma RunSucceedsIff(ex: Existing, supply: FreshIds, locate: Locate, rows: seq<Row>)
    ensures Run(ex, supply, locate, rows).Success? <==> RowsWellFormed(locate, rows, 1)
    ensures Run(ex, supply, locate, rows).Failure? ==>
              exists j: nat :: && FirstBadRow(locate, rows, 1, j)
                          && Run(ex, supply, locate, rows).error == PlanRow(ex, supply, locate, j, rows[j]).error
                          && Run(ex, supply, locate, rows).error.row == j
  {
    if |rows| > 0 {
      LoopBodyAbortsOnBadRows(ex, supply, locate);
      PlanFromSucceedsIff(LoopBody(ex, supply, locate), locate, rows, 1);
    }
  }

  /** The header row is never read: two sheets that differ only in their
      first row give the same run. */
  lemma HeaderIgnored(ex: Existing, supply: FreshIds, locate: Locate, rows: seq<Row>, rows': seq<Row>)
    requires |rows| >= 1 && |rows'| >= 1
    requires rows[1..] == rows'[1..]
    ensures Run(ex, supply, locate, rows) == Run(ex, supply, locate, rows')
  {
    assert forall j :: 1 <= j < |rows| ==> rows[j] == rows[1..][j - 1];
    PlanFromReadsOnlyFrom(LoopBody(ex, supply, locate), rows, rows', 1);
  }

  /** A run that reaches the commit writes one customer statement and one sale statement
      per processed row and one revenue statement per revenue cell of each
      processed row. */
  lemma RunCounts(ex: Existing, supply: FreshIds, locate: Locate, rows: seq<Row>)
    requires Run(ex, supply, locate, rows).Success?
    ensures |Run(ex, supply, locate, rows).value| == OpsPerRow * Processed(rows)
    ensures CountIn(Run(ex, supply, locate, rows).value, CustomerTable) == Processed(rows)
    ensures CountIn(Run(ex, supply, locate, rows).value, SaleTable) == Processed(rows)
    ensures CountIn(Run(ex, supply, locate, rows).value, RevenueTable) == CellCount * Processed(rows)
  {
    if |rows| > 0 {
      var body := LoopBody(ex, supply, locate);
      LoopBodyWritesEachTable(ex, supply, locate);
      PlanFromCounts(body, rows, 1, CustomerTable);
      PlanFromCounts(body, rows, 1, SaleTable);
      PlanFromCounts(body, rows, 1, RevenueTable);
    }
  }

  /** A run that reaches the commit inserts nothing exactly when every processed row
      touches only loaded keys: running the reconciliation again on a sheet
      whose keys were all loaded only updates. */
  lemma RunNoInsertsIff(ex: Existing, supply: FreshIds, locate: Locate, rows: seq<Row>)
    requires Run(ex, supply, locate, rows).Success?
    ensures NoInserts(Run(ex, supply, locate, rows).value) <==> RowsKnown(ex, rows, 1)
  {
    if |rows| > 0 {
      LoopBodyInsertsOnlyNew(ex, supply, locate);
      PlanFromNoInsertsIff(LoopBody(ex, supply, locate), ex, rows, 1);
    }
  }

  /** The lookup maps are read-only: the statements the run issues for row
      `k` are exactly those of row `k` planned on its own against the maps
      loaded before the loop. */
  lemma RowsPlannedAgainstLoadedMaps(ex: Existing, supply: FreshIds, locate: Locate, rows: seq<Row>, k: nat)
    requires Run(ex, supply, locate, rows).Success?
    requires 1 <= k < |rows|
    ensures PlanRow(ex, supply, locate, k, rows[k]).Success?
    ensures |Run(ex, supply, locate, rows).value| >= OpsPerRow * k
    ensures Run(ex, supply, locate, rows).value[OpsPerRow * (k - 1) .. OpsPerRow * k]
            == PlanRow(ex, supply, locate, k, rows[k]).value.Ops()
  {
    PlanFromChunk(LoopBody(ex, supply, locate), rows, 1, k);
  }

  /** Whether row `k` updates or inserts its customer and its sale depends
      only on the maps loaded before the loop: a name or a sale type that was
      not loaded is inserted on every row it appears on, not just the
      first. */
  lemma EveryRowDecidesAgainstLoadedMaps(ex: Existing, supply: FreshIds, locate: Locate, rows: seq<Row>, k: nat)
    requires Run(ex, supply, locate, rows).Success?
    requires 1 <= k < |rows|
    ensures |rows[k]| >= MinRowLength && |Run(ex, supply, locate, rows).value| >= OpsPerRow * k
    ensures var ops := Run(ex, supply, locate, rows).value;
            && (ops[OpsPerRow * (k - 1)].UpdCustomer? <==> rows[k][NameCell] in ex.customers)
            && (ops[OpsPerRow * (k - 1)].InsCustomer? <==> rows[k][NameCell] !in ex.customers)
            && (ops[OpsPerRow * (k - 1) + 1].UpdSale? <==> rows[k][SaleTypeCell] in ex.sales)
            && (ops[OpsPerRow * (k - 1) + 1].InsSale? <==> rows[k][SaleTypeCell] !in ex.sales)
  {
    LoopBodyDecidesAgainst(ex, supply, locate);
    PlanFromDecidesAgainst(LoopBody(ex, supply, locate), ex, rows, k);
  }

  /** Because the customer map is not refreshed inside the loop, a name
      that was not loaded and appears on two rows is inserted twice, once
      per row, each time under the id the database assigns on that row. */
  lemma NewNameInsertedOnEachRow(ex: Existing, supply: FreshIds, locate: Locate, rows: seq<Row>, j: nat, k: nat)
    requires Run(ex, supply, locate, rows).Success?
    requires 1 <= j < k < |rows|
    requires |rows[j]| >= MinRowLength && |rows[k]| >= MinRowLength
    requires rows[j][NameCell] == rows[k][NameCell] && rows[j][NameCell] !in ex.customers
    ensures |Run(ex, supply, locate, rows).value| >= OpsPerRow * k
    ensures var ops, name := Run(ex, supply, locate, rows).value, rows[j][NameCell];
            && ops[OpsPerRow * (j - 1)] == InsCustomer(supply(j, CustomerTable), name, rows[j][CountryCell], rows[j][SegmentCell])
            && ops[OpsPerRow * (k - 1)] == InsCustomer(supply(k, CustomerTable), name, rows[k][CountryCell], rows[k][SegmentCell])
  {
    var ops := Run(ex, supply, locate, rows).value;
    RowsPlannedAgainstLoadedMaps(ex, supply, locate, rows, j);
    RowsPlannedAgainstLoadedMaps(ex, supply, locate, rows, k);
    CustomerDecision(ex, supply, locate, j, rows[j]);
    CustomerDecision(ex, supply, locate, k, rows[k]);
    assert ops[OpsPerRow * (j - 1)] == ops[OpsPerRow * (j - 1) .. OpsPerRow * j][0];
    assert ops[OpsPerRow * (k - 1)] == ops[OpsPerRow * (k - 1) .. OpsPerRow * k][0];
  }

  /** Two rows of the same loaded sale type write the same 36 revenue keys,
      each an update on both rows or an insert on both: revenue keys are
      distinct within a row, not across the run. */
  lemma SharedSaleTypeRewritesKeys(ex: Existing, supply: FreshIds, locate: Locate, rows: seq<Row>, j: nat, k: nat)
    requires Run(ex, supply, locate, rows).Success?
    requires 1 <= j < k < |rows|
    requires |rows[j]| >= MinRowLength && |rows[k]| >= MinRowLength
    requires rows[j][SaleTypeCell] == rows[k][SaleTypeCell] && rows[j][SaleTypeCell] in ex.sales
    ensures PlanRow(ex, supply, locate, j, rows[j]).Success? && PlanRow(ex, supply, locate, k, rows[k]).Success?
    ensures var a, b := PlanRow(ex, supply, locate, j, rows[j]).value, PlanRow(ex, supply, locate, k, rows[k]).value;
            forall i: CellIndex ::
              && (a.revenues[i].InsRevenue? || a.revenues[i].UpdRevenue?)
              && (b.revenues[i].InsRevenue? || b.revenues[i].UpdRevenue?)
              && a.revenues[i].key == b.revenues[i].key
              && (a.revenues[i].UpdRevenue? <==> b.revenues[i].UpdRevenue?)
  {
    RowsPlannedAgainstLoadedMaps(ex, supply, locate, rows, j);
    RowsPlannedAgainstLoadedMaps(ex, supply, locate, rows, k);
    SaleDecision(ex, supply, locate, j, rows[j]);
    SaleDecision(ex, supply, locate, k, rows[k]);
    RowRevenueKeysDistinct(ex, supply, locate, j, rows[j]);
    RowRevenueKeysDistinct(ex, supply, locate, k, rows[k]);
    RevenueDecisions(ex, supply, locate, j, rows[j]);
    RevenueDecisions(ex, supply, locate, k, rows[k]);
  }
}
