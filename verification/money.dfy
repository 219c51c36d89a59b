/** Exact fixed-point money and banker's rounding.

    Every amount is an integer number of micro-units: the ledger's internal
    precision is six fractional digits (PRECISION = 0.000001), and amounts
    here are restricted to multiples of it. The service's Decimal inputs may
    be finer and are rounded only when stored, which this model does not
    cover. Rounding is round-half-to-even, both for `bankers_round`
    and for `quantize(PRECISION)` under the default Decimal context. */
module Money {
  import opened Wrappers

  /** An amount in millionths of the currency unit. */
  type Micro = int

  /** Fractional digits of internal precision (`PRECISION`). */
  const PrecisionDigits: nat := 6

  /** Micro-units in one currency unit. */
  const Unit: int := 1_000_000

  /** q is n / d rounded to the nearest integer, an exact tie going to the
      even neighbour. */
  predicate IsHalfEvenQuotient(n: int, d: int, q: int)
    requires d > 0
  {
    && 2 * Abs(n - q * d) <= d
    && (2 * Abs(n - q * d) == d ==> q % 2 == 0)
  }

  /** r is a multiple of u nearest to x, an exact tie going to the even
      multiple: what `quantize(..., ROUND_HALF_EVEN)` produces. */
  predicate IsNearestEvenMultiple(x: int, u: int, r: int)
    requires u > 0
  {
    && r % u == 0
    && 2 * Abs(x - r) <= u
    && (2 * Abs(x - r) == u ==> (r / u) % 2 == 0)
  }

  lemma MulBounds(k: int, d: int)
    requires d > 0
    ensures k >= 1 ==> k * d >= d
    ensures k >= 2 ==> k * d >= 2 * d
    ensures k <= -1 ==> k * d <= -d
  {
  }

  lemma MulDivCancel(q: int, d: int)
    requires d > 0
    ensures (q * d) / d == q
    ensures (q * d) % d == 0
  {
    var n := q * d;
    var k := q - n / d;
    assert n == (n / d) * d + n % d;
    assert k * d == n % d;
    if k >= 1 {
      assert false;
    } else if k <= -1 {
      assert false;
    }
  }

  /** n / d rounded half-to-even (Decimal's ROUND_HALF_EVEN on an exact quotient). */
  function DivHalfEven(n: int, d: int): (q: int)
    requires d > 0
    ensures IsHalfEvenQuotient(n, d, q)
  {
    var f := n / d;
    var r := n % d;
    assert n - f * d == r;
    assert n - (f + 1) * d == r - d by {
      assert (f + 1) * d == f * d + d;
    }
    if 2 * r < d then f
    else if 2 * r > d then f + 1
    else if f % 2 == 0 then f
    else f + 1
  }

  /** The ordering argument over the products as plain integers: roundings
      one apart sit exactly d apart, roundings further apart at least 2d. */
  lemma HalfEvenOrder(n1: int, n2: int, d: int, q1: int, q2: int, x1: int, x2: int)
    requires d > 0 && n1 <= n2
    requires 2 * Abs(n1 - x1) <= d && (2 * Abs(n1 - x1) == d ==> q1 % 2 == 0)
    requires 2 * Abs(n2 - x2) <= d && (2 * Abs(n2 - x2) == d ==> q2 % 2 == 0)
    requires q1 == q2 + 1 ==> x1 == x2 + d
    requires q1 >= q2 + 2 ==> x1 >= x2 + 2 * d
    ensures q1 <= q2
  {
    if q1 == q2 + 1 {
      // n1 and n2 would be the same tie, rounded to two neighbours that
      // cannot both be even
      assert false;
    }
  }

  /** Half-even roundings keep the order of the quotients they round. */
  lemma HalfEvenQuotientOrder(n1: int, n2: int, d: int, q1: int, q2: int)
    requires d > 0 && n1 <= n2
    requires IsHalfEvenQuotient(n1, d, q1)
    requires IsHalfEvenQuotient(n2, d, q2)
    ensures q1 <= q2
  {
    var k := q1 - q2;
    assert q1 * d == q2 * d + k * d;
    if k == 1 {
      assert k * d == d;
    }
    if k >= 2 {
      MulBounds(k, d);
    }
    HalfEvenOrder(n1, n2, d, q1, q2, q1 * d, q2 * d);
  }

  /** The half-to-even quotient is unique: `DivHalfEven` is the only function
      meeting its own contract. */
  lemma HalfEvenQuotientUnique(n: int, d: int, q1: int, q2: int)
    requires d > 0
    requires IsHalfEvenQuotient(n, d, q1)
    requires IsHalfEvenQuotient(n, d, q2)
    ensures q1 == q2
  {
    HalfEvenQuotientOrder(n, n, d, q1, q2);
    HalfEvenQuotientOrder(n, n, d, q2, q1);
  }

  lemma DivHalfEvenExact(q: int, d: int)
    requires d > 0
    ensures DivHalfEven(q * d, d) == q
  {
    assert IsHalfEvenQuotient(q * d, d, q);
    HalfEvenQuotientUnique(q * d, d, q, DivHalfEven(q * d, d));
  }

  /** Round-half-to-even is symmetric about zero: -2.5 goes to -2 as 2.5 goes to 2. */
  lemma DivHalfEvenNegate(n: int, d: int)
    requires d > 0
    ensures DivHalfEven(-n, d) == -DivHalfEven(n, d)
  {
    var q := DivHalfEven(n, d);
    assert -n - (-q) * d == -(n - q * d);
    assert IsHalfEvenQuotient(-n, d, -q);
    HalfEvenQuotientUnique(-n, d, -q, DivHalfEven(-n, d));
  }

  /** A larger quotient never rounds to a smaller integer. */
  lemma DivHalfEvenMonotone(n1: int, n2: int, d: int)
    requires d > 0
    requires n1 <= n2
    ensures DivHalfEven(n1, d) <= DivHalfEven(n2, d)
  {
    HalfEvenQuotientOrder(n1, n2, d, DivHalfEven(n1, d), DivHalfEven(n2, d));
  }

  /** The quantum `Decimal(10) ** -places`, in micro-units. For places <= 0
      the power is an integral Decimal whose exponent is 0, so `quantize`
      rounds to whole units; beyond six places a micro-unit amount is
      already on the grid. */
  function Quantum(places: int): (u: int)
    ensures u >= 1
    ensures u == Unit || Unit % u == 0
  {
    if places <= 0 then Unit
    else if places >= PrecisionDigits as int then 1
    else if places == 1 then 100_000
    else if places == 2 then 10_000
    else if places == 3 then 1_000
    else if places == 4 then 100
    else 10
  }

  /** `bankers_round(x, places)`: x quantized to `places` digits, half to even. */
  function BankersRound(x: Micro, places: int): (r: Micro)
    ensures IsNearestEvenMultiple(x, Quantum(places), r)
  {
    var u := Quantum(places);
    var q := DivHalfEven(x, u);
    MulDivCancel(q, u);
    assert x - q * u == x - u * q;
    q * u
  }

  /** Any nearest-even multiple of the quantum IS the banker's rounding. */
  lemma BankersRoundUnique(x: Micro, places: int, r: Micro)
    requires IsNearestEvenMultiple(x, Quantum(places), r)
    ensures BankersRound(x, places) == r
  {
    var u := Quantum(places);
    var q := r / u;
    assert r == q * u by {
      assert r == (r / u) * u + r % u;
    }
    assert IsHalfEvenQuotient(x, u, q);
    var b := BankersRound(x, places);
    var qb := b / u;
    assert b == qb * u by {
      assert b == (b / u) * u + b % u;
    }
    assert IsHalfEvenQuotient(x, u, qb);
    HalfEvenQuotientUnique(x, u, q, qb);
  }

  lemma BankersRoundNegate(x: Micro, places: int)
    ensures BankersRound(-x, places) == -BankersRound(x, places)
  {
    var u := Quantum(places);
    DivHalfEvenNegate(x, u);
  }

  /** Rounding an already rounded amount changes nothing. */
  lemma BankersRoundIdempotent(x: Micro, places: int)
    ensures BankersRound(BankersRound(x, places), places) == BankersRound(x, places)
  {
    var u := Quantum(places);
    var r := BankersRound(x, places);
    assert IsNearestEvenMultiple(r, u, r) by {
      assert r == (r / u) * u + r % u;
    }
    BankersRoundUnique(r, places, r);
  }

  /** The rounding cases the service's tests pin down, in micro-units. */
  lemma BankersRoundExamples()
    ensures BankersRound(500_000, 0) == 0                // 0.5   -> 0
    ensures BankersRound(1_500_000, 0) == 2_000_000      // 1.5   -> 2
    ensures BankersRound(2_500_000, 0) == 2_000_000      // 2.5   -> 2
    ensures BankersRound(3_500_000, 0) == 4_000_000      // 3.5   -> 4
    ensures BankersRound(1_400_000, 0) == 1_000_000      // 1.4   -> 1
    ensures BankersRound(1_600_000, 0) == 2_000_000      // 1.6   -> 2
    ensures BankersRound(-1_500_000, 0) == -2_000_000    // -1.5  -> -2
    ensures BankersRound(-2_500_000, 0) == -2_000_000    // -2.5  -> -2
    ensures BankersRound(1_234_000, 2) == 1_230_000      // 1.234 -> 1.23
    ensures BankersRound(1_235_000, 2) == 1_240_000      // 1.235 -> 1.24
    ensures BankersRound(1_225_000, 2) == 1_220_000      // 1.225 -> 1.22
    ensures BankersRound(1_245_000, 2) == 1_240_000      // 1.245 -> 1.24
    ensures BankersRound(123_456_789, 4) == 123_456_800  // 123.456789 -> 123.4568
    ensures BankersRound(123_456_789, 2) == 123_460_000  // 123.456789 -> 123.46
  {
  }
}
