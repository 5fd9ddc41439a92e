/** The 36 revenue cells of a sheet row and the (year, month, currency)
    coordinates the reconciliation derives from a cell's position. */
module RevenueColumns {

  /** The `k`-th lower-case letter, "a" for 1 .. "z" for 26. */
  function Letter(k: int): char
    requires 1 <= k <= 26
  {
    ('a' as int + k - 1) as char
  }

  /** The spreadsheet name of the 1-based column `n`, for the one- and
      two-letter columns "a" .. "zz". */
  function ColumnName(n: int): string
    requires 1 <= n <= 26 * 27
  {
    if n <= 26 then [Letter(n)] else [Letter((n - 1) / 26), Letter((n - 1) % 26 + 1)]
  }

  /** Sheet labels of the revenue cells, in the order the loop visits them:
      three consecutive columns per month, one per currency, starting at
      column "p" and eight columns apart from one month to the next. The
      LabelsOfMonths lemmas spell them out. */
  const Labels: seq<string> := seq(36, i requires 0 <= i < 36 => ColumnName(16 + 8 * (i / 3) + i % 3))

  const CellCount: nat := 36

  /** Every revenue record written by the run belongs to this year. */
  const Year: string := "2024"

  /** The currency rotation within one month. */
  const Currencies: seq<string> := ["CHF", "EUR", "GBP"]

  /** Position of a revenue cell in `Labels`. */
  type CellIndex = i: int | 0 <= i < 36

  lemma LabelsOfMonthsOneToFour()
    ensures Labels[..12] == ["p", "q", "r", "x", "y", "z", "af", "ag", "ah", "an", "ao", "ap"]
  {
  }

  lemma LabelsOfMonthsFiveToEight()
    ensures Labels[12..24] == ["av", "aw", "ax", "bd", "be", "bf", "bl", "bm", "bn", "bt", "bu", "bv"]
  {
  }

  lemma LabelsOfMonthsNineToTwelve()
    ensures Labels[24..] == ["cb", "cc", "cd", "cj", "ck", "cl", "cr", "cs", "ct", "cz", "da", "db"]
  {
  }

  /** The month number of cell `i`: cells come in blocks of three, one block
      per month. */
  function MonthOf(i: CellIndex): (m: int)
    ensures 1 <= m <= 12
    ensures 3 * (m - 1) <= i < 3 * m
    decreases i
  {
    if i < 3 then 1 else MonthOf(i - 3) + 1
  }

  /** The currency of cell `i`: the rotation restarts with every month. */
  function CurrencyOf(i: CellIndex): (c: string)
    ensures c in Currencies
    decreases i
  {
    if i < 3 then Currencies[i] else CurrencyOf(i - 3)
  }

  /** The month of a cell is the quotient of its position by three, plus one. */
  lemma MonthOfIsQuotient(i: CellIndex)
    ensures MonthOf(i) == i / 3 + 1
  {
  }

  /** The currency of a cell is picked by the remainder of its position by
      three. */
  lemma {:induction false} CurrencyOfIsRemainder(i: CellIndex)
    ensures CurrencyOf(i) == Currencies[i % 3]
    ensures CurrencyOf(i) in Currencies
    decreases i
  {
    if i >= 3 {
      CurrencyOfIsRemainder(i - 3);
      assert (i - 3) % 3 == i % 3;
    }
  }

  /** Where a currency sits in the rotation. */
  function CurrencyPosition(c: string): (p: int)
    requires c in Currencies
    ensures 0 <= p < 3 && Currencies[p] == c
  {
    if c == "CHF" then 0 else if c == "EUR" then 1 else 2
  }

  /** The one cell that holds month `m` in currency `c`: the inverse of the
      pair (MonthOf, CurrencyOf). */
  function CellOf(m: int, c: string): (i: CellIndex)
    requires 1 <= m <= 12 && c in Currencies
    ensures MonthOf(i) == m && CurrencyOf(i) == c
  {
    var i := 3 * (m - 1) + CurrencyPosition(c);
    MonthOfIsQuotient(i);
    CurrencyOfIsRemainder(i);
    i
  }

  /** Going from a cell to its (month, currency) pair and back gives the cell. */
  lemma CellOfMonthAndCurrency(i: CellIndex)
    ensures CurrencyOf(i) in Currencies
    ensures CellOf(MonthOf(i), CurrencyOf(i)) == i
  {
    MonthOfIsQuotient(i);
    CurrencyOfIsRemainder(i);
    var p := i % 3;
    assert CurrencyPosition(Currencies[p]) == p;
  }

  /** Each month occurs with each currency in exactly one cell. */
  lemma MonthCurrencyExactlyOnce(i: CellIndex, m: int, c: string)
    requires 1 <= m <= 12 && c in Currencies
    ensures MonthOf(i) == m && CurrencyOf(i) == c <==> i == CellOf(m, c)
  {
    if MonthOf(i) == m && CurrencyOf(i) == c {
      CellOfMonthAndCurrency(i);
    }
  }

  // ----- decimal rendering of the month: str(n).zfill(2) -----

  predicate IsDigit(c: char) {
    '0' <= c <= '9'
  }

  predicate IsDigits(s: string) {
    forall j :: 0 <= j < |s| ==> IsDigit(s[j])
  }

  function DigitChar(d: int): (c: char)
    requires 0 <= d < 10
    ensures IsDigit(c)
  {
    ('0' as int + d) as char
  }

  function DigitValue(c: char): int {
    c as int - '0' as int
  }

  /** The decimal text of a natural number, without leading zeros (Python's
      `str` on a non-negative int). */
  function Decimal(n: nat): (s: string)
    ensures 1 <= |s| && IsDigits(s)
    ensures |s| == 1 <==> n < 10
    ensures s[0] == '0' <==> n == 0
    decreases n
  {
    if n < 10 then [DigitChar(n)] else Decimal(n / 10) + [DigitChar(n % 10)]
  }

  /** The value of a digit string, read most significant digit first. */
  function ParseDecimal(s: string): nat
    requires IsDigits(s)
  {
    if s == [] then 0
    else ParseDecimal(s[..|s| - 1]) * 10 + DigitValue(s[|s| - 1])
  }

  function Zeros(n: nat): (z: string)
    ensures |z| == n && forall j :: 0 <= j < n ==> z[j] == '0'
  {
    seq(n, _ => '0')
  }

  /** Python's `str.zfill(width)`: pad on the left with '0' up to `width`,
      keeping a leading sign in front of the padding. */
  function ZFill(s: string, width: nat): (r: string)
    ensures |r| == if |s| >= width then |s| else width
    ensures |s| >= width ==> r == s
    ensures |s| > 0 && s[0] != '+' && s[0] != '-' ==>
              r[|r| - |s|..] == s && forall j :: 0 <= j < |r| - |s| ==> r[j] == '0'
  {
    if |s| >= width then s
    else if |s| > 0 && (s[0] == '+' || s[0] == '-') then [s[0]] + Zeros(width - |s|) + s[1..]
    else Zeros(width - |s|) + s
  }

  /** The month text of cell `i`: the tens digit and the units digit of its
      month number, "01" .. "12". The loop renders it as the month number
      zero-padded to two digits, and MonthTextIsPadded shows the two agree. */
  function MonthText(i: CellIndex): (t: string)
    ensures |t| == 2 && IsDigits(t)
    ensures DigitValue(t[0]) * 10 + DigitValue(t[1]) == MonthOf(i)
  {
    [DigitChar(MonthOf(i) / 10), DigitChar(MonthOf(i) % 10)]
  }

  lemma {:induction false} ParseDecimalOfDecimal(n: nat)
    ensures ParseDecimal(Decimal(n)) == n
    decreases n
  {
    if n >= 10 {
      var s := Decimal(n);
      assert s[..|s| - 1] == Decimal(n / 10);
      ParseDecimalOfDecimal(n / 10);
    }
  }

  lemma {:induction false} ParseDecimalLeadingZeros(z: nat, s: string)
    requires IsDigits(s)
    ensures IsDigits(Zeros(z) + s)
    ensures ParseDecimal(Zeros(z) + s) == ParseDecimal(s)
    decreases |s|
  {
    var t := Zeros(z) + s;
    if s == [] {
      assert t == Zeros(z);
      ZerosParseToZero(z);
    } else {
      assert t[..|t| - 1] == Zeros(z) + s[..|s| - 1];
      ParseDecimalLeadingZeros(z, s[..|s| - 1]);
    }
  }

  lemma {:induction false} ZerosParseToZero(z: nat)
    ensures IsDigits(Zeros(z)) && ParseDecimal(Zeros(z)) == 0
    decreases z
  {
    if z > 0 {
      assert Zeros(z)[..z - 1] == Zeros(z - 1);
      ZerosParseToZero(z - 1);
    }
  }

  /** Zero-padding never changes the number a decimal text stands for. */
  lemma ZFillKeepsValue(n: nat, width: nat)
    ensures IsDigits(ZFill(Decimal(n), width))
    ensures ParseDecimal(ZFill(Decimal(n), width)) == n
  {
    var s := Decimal(n);
    ParseDecimalOfDecimal(n);
    if |s| < width {
      ZFillDigits(s, width);
      ParseDecimalLeadingZeros(width - |s|, s);
    } else {
      assert ZFill(s, width) == s;
    }
  }

  /** A digit string shorter than `width` is padded by zeros in front. */
  lemma ZFillDigits(s: string, width: nat)
    requires 1 <= |s| < width && IsDigits(s)
    ensures ZFill(s, width) == Zeros(width - |s|) + s
  {
    assert IsDigit(s[0]);
  }

  /** The month text of a cell is its month number zero-padded to two
      digits, and it reads back as that month. */
  lemma MonthTextIsPadded(i: CellIndex)
    ensures MonthText(i) == ZFill(Decimal(MonthOf(i)), 2)
    ensures |MonthText(i)| == 2 && IsDigits(MonthText(i))
    ensures ParseDecimal(MonthText(i)) == MonthOf(i)
  {
    var m := MonthOf(i);
    PaddedMonthShape(m);
    ZFillKeepsValue(m, 2);
  }

  /** The two characters str(m).zfill(2) produces for a month number: its
      tens digit and its units digit. */
  lemma PaddedMonthShape(m: int)
    requires 1 <= m <= 12
    ensures ZFill(Decimal(m), 2) == [DigitChar(m / 10), DigitChar(m % 10)]
  {
    if m < 10 {
      PaddedOneDigit(m);
    } else {
      PaddedTwoDigits(m);
    }
  }

  lemma PaddedOneDigit(m: int)
    requires 1 <= m < 10
    ensures ZFill(Decimal(m), 2) == [DigitChar(0), DigitChar(m)]
  {
    var s := Decimal(m);
    assert s == [DigitChar(m)];
    assert ZFill(s, 2) == Zeros(1) + s;
  }

  lemma PaddedTwoDigits(m: int)
    requires 10 <= m <= 12
    ensures ZFill(Decimal(m), 2) == [DigitChar(1), DigitChar(m - 10)]
  {
    assert Decimal(m / 10) == [DigitChar(1)];
  }

  /** Two cells share a month text exactly when they share a month. */
  lemma MonthTextInjective(i: CellIndex, j: CellIndex)
    ensures MonthText(i) == MonthText(j) <==> MonthOf(i) == MonthOf(j)
  {
    MonthTextIsPadded(i);
    MonthTextIsPadded(j);
  }

  /** No two cells of a row share a (month text, currency) pair. */
  lemma CellCoordinatesDistinct(i: CellIndex, j: CellIndex)
    requires i != j
    ensures MonthText(i) != MonthText(j) || CurrencyOf(i) != CurrencyOf(j)
  {
    MonthTextInjective(i, j);
    if MonthOf(i) == MonthOf(j) && CurrencyOf(i) == CurrencyOf(j) {
      CellOfMonthAndCurrency(i);
      CellOfMonthAndCurrency(j);
    }
  }
}
