/** The comparison of a row count with nine tenths of another, as double-precision floating-point numbers make it. */
module NineTenths {
  /** A clone is read from a file of at most 32 MiB, so its rows stay far below this bound. */
  type RowCount = n: nat | n < 0x2_0000_0000_0000

  /** One more than the largest number that the significant bits of a floating-point number can hold. */
  const PRECISION := 0x20_0000_0000_0000

  /** The floating-point number nearest to 0.9, in units of one part in `PRECISION`. */
  const NINE_TENTHS := 0x1c_cccc_cccc_cccd

  function Pow2(e: nat): (p: nat)
    ensures p > 0
  {
    if e == 0 then 1 else 2 * Pow2(e - 1)
  }

  /** The exponent of the last significant bit of `n`, which is `e` or more. */
  function LastBit(n: nat, e: nat): (last: nat)
    ensures n < PRECISION * Pow2(last) && (last == e || PRECISION * Pow2(last) <= 2 * n)
    decreases n - PRECISION * Pow2(e)
  {
    if n < PRECISION * Pow2(e) then e else LastBit(n, e + 1)
  }

  /** The multiple of `unit` nearest to `n`; of two equally near ones the even multiple. */
  function Nearest(n: nat, unit: nat): nat
    requires unit > 0
  {
    if 2 * (n % unit) < unit || (2 * (n % unit) == unit && (n / unit) % 2 == 0) then n / unit * unit
    else (n / unit + 1) * unit
  }

  /** The product of `mark` and 0.9, in units of one part in `PRECISION`. */
  function Product(mark: RowCount): nat {
    Nearest(mark * NINE_TENTHS, Pow2(LastBit(mark * NINE_TENTHS, 0)))
  }

  lemma {:induction false} Pow2Product(a: nat, b: nat)
    ensures Pow2(a + b) == Pow2(a) * Pow2(b)
  {
    if a != 0 {
      Pow2Product(a - 1, b);
      assert 2 * (Pow2(a - 1) * Pow2(b)) == 2 * Pow2(a - 1) * Pow2(b);
    }
  }

  lemma PrecisionIsPow2()
    ensures Pow2(53) == PRECISION
  {
    assert Pow2(3) == 8;
    assert Pow2(10) == 1024;
    Pow2Product(10, 10);
    Pow2Product(20, 10);
    Pow2Product(30, 10);
    Pow2Product(40, 10);
    Pow2Product(50, 3);
  }

  lemma {:induction false} Pow2Grows(a: nat, b: nat)
    requires a <= b
    ensures Pow2(a) <= Pow2(b)
  {
    if a < b { Pow2Grows(a, b - 1); }
  }

  lemma Regrouped(a: nat, b: nat, c: nat)
    ensures a * (b * c) == (a * b) * c
  {
  }

  /** Every whole number, in these units, is a multiple of each power of two below one. */
  lemma WholeIsMultiple(rows: nat, e: nat) returns (j: nat)
    requires e <= 53
    ensures rows * PRECISION == j * Pow2(e)
  {
    PrecisionIsPow2();
    Pow2Product(53 - e, e);
    j := rows * Pow2(53 - e);
    Regrouped(rows, Pow2(53 - e), Pow2(e));
  }

  lemma NearestIsNear(n: nat, unit: nat) returns (k: nat)
    requires unit > 0
    ensures Nearest(n, unit) == k * unit
    ensures n - unit <= 2 * Nearest(n, unit) - n <= n + unit
  {
    k := if Nearest(n, unit) == n / unit * unit then n / unit else n / unit + 1;
    assert n == n / unit * unit + n % unit;
    assert (n / unit + 1) * unit == n / unit * unit + unit;
  }

  lemma MultiplesApart(j: nat, k: nat, unit: nat)
    requires j < k
    ensures j * unit + unit <= k * unit
  {
    assert k * unit == j * unit + unit + (k - j - 1) * unit;
  }

  lemma NotBelow(j: nat, k: nat, unit: nat)
    requires j * unit < k * unit
    ensures j < k
  {
    if k < j { MultiplesApart(k, j, unit); }
  }

  lemma NearEnough(rows: RowCount, mark: RowCount, unit: nat, product: nat)
    requires var n := mark * NINE_TENTHS;
             && n < PRECISION * unit && (unit == 1 || PRECISION * unit <= 2 * n)
             && n - unit <= 2 * product - n <= n + unit
    requires rows * PRECISION < product ==> rows * PRECISION + unit <= product
    ensures rows * PRECISION < product <==> 10 * rows < 9 * mark
  {
  }

  /** The rounded product is above a row count exactly when nine tenths of the mark are. */
  lemma ProductComparesExactly(rows: RowCount, mark: RowCount)
    ensures rows * PRECISION < Product(mark) <==> 10 * rows < 9 * mark
  {
    var n := mark * NINE_TENTHS;
    var e := LastBit(n, 0);
    var k := NearestIsNear(n, Pow2(e));
    if e > 53 {
      PrecisionIsPow2();
      Pow2Grows(53, e);
    }
    var j := WholeIsMultiple(rows, e);
    if j * Pow2(e) < k * Pow2(e) {
      NotBelow(j, k, Pow2(e));
      MultiplesApart(j, k, Pow2(e));
    }
    NearEnough(rows, mark, Pow2(e), Product(mark));
  }

  /** The comparison the code makes. */
  method BelowNineTenths(rows: RowCount, mark: RowCount) returns (below: bool)
    ensures below <==> 10 * rows < 9 * mark
  {
    ProductComparesExactly(rows, mark);
    return rows * PRECISION < Product(mark);
  }
}
