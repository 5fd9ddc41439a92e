/** The database side of the reconciliation: the records loaded before the
    loop, keyed by their natural keys, and the write operations the loop
    issues against the customer, sale and revenue tables. */
module Records {
  import opened RevenueColumns

  /** A primary key assigned by the database. */
  type Id = int

  /** A customer row as loaded, keyed by its name. */
  datatype CustomerRec = CustomerRec(id: Id, country: string, segment: string)

  /** A sale row as loaded, keyed by its type. */
  datatype SaleRec = SaleRec(id: Id, customerId: Id, consultant: string)

  /** The composite natural key of a revenue row. */
  datatype RevenueKey = RevenueKey(saleId: Id, year: string, month: string, currency: string)

  datatype RevenueRec = RevenueRec(value: string)

  /** The three lookup maps loaded once before the loop. */
  datatype Existing = Existing(
    customers: map<string, CustomerRec>,
    sales: map<string, SaleRec>,
    revenues: map<RevenueKey, RevenueRec>)

  /** One statement of the run. An operation carries exactly the columns its
      statement writes; an insert also carries the id the database assigned
      to the new row (for revenue rows that id is never read, so it is not
      recorded). */
  datatype Op =
    | InsCustomer(id: Id, name: string, country: string, segment: string)
    | UpdCustomer(id: Id, country: string, segment: string)
    | InsSale(id: Id, customerId: Id, saleType: string, consultant: string)
    | UpdSale(id: Id, consultant: string)
    | InsRevenue(key: RevenueKey, value: string)
    | UpdRevenue(key: RevenueKey, value: string)

  /** The table an operation writes to. */
  datatype Table = CustomerTable | SaleTable | RevenueTable

  function TableOf(op: Op): Table {
    if op.InsCustomer? || op.UpdCustomer? then CustomerTable
    else if op.InsSale? || op.UpdSale? then SaleTable
    else RevenueTable
  }

  predicate IsInsert(op: Op) {
    op.InsCustomer? || op.InsSale? || op.InsRevenue?
  }

  /** How many operations of `ops` write to table `t`. */
  function CountIn(ops: seq<Op>, t: Table): (n: nat)
    ensures n <= |ops|
  {
    if ops == [] then 0
    else (if TableOf(ops[0]) == t then 1 else 0) + CountIn(ops[1..], t)
  }

  lemma {:induction false} CountInAppend(a: seq<Op>, b: seq<Op>, t: Table)
    ensures CountIn(a + b, t) == CountIn(a, t) + CountIn(b, t)
    decreases |a|
  {
    if a == [] {
      assert a + b == b;
    } else {
      assert (a + b)[1..] == a[1..] + b;
      CountInAppend(a[1..], b, t);
    }
  }

  /** A sequence whose operations all write to one table counts all of them
      for that table and none for any other. */
  lemma {:induction false} CountInUniform(ops: seq<Op>, u: Table, t: Table)
    requires forall j :: 0 <= j < |ops| ==> TableOf(ops[j]) == u
    ensures CountIn(ops, t) == if t == u then |ops| else 0
    decreases |ops|
  {
    if ops != [] {
      CountInUniform(ops[1..], u, t);
    }
  }

  /** The revenue key of cell `i` of a row whose sale has id `saleId`. */
  function CellKey(saleId: Id, i: CellIndex): (key: RevenueKey)
    ensures key.saleId == saleId && key.year == Year
    ensures |key.month| == 2 && IsDigits(key.month) && ParseDecimal(key.month) == i / 3 + 1
    ensures key.currency == Currencies[i % 3]
  {
    MonthOfIsQuotient(i);
    MonthTextIsPadded(i);
    CurrencyOfIsRemainder(i);
    RevenueKey(saleId, Year, MonthText(i), CurrencyOf(i))
  }

  /** The 36 revenue keys of one sale are pairwise distinct, and a key
      determines the sale and the cell it came from. */
  lemma CellKeyInjective(s: Id, i: CellIndex, t: Id, j: CellIndex)
    ensures CellKey(s, i) == CellKey(t, j) <==> s == t && i == j
  {
    if i != j {
      CellCoordinatesDistinct(i, j);
    }
  }
}
