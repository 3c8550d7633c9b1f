/**
 * The host decimal type the display code computes with, as an exact scaled integer:
 * `Decimal(m, s)` stands for m / 10^s. Only the operations the modelled code uses are
 * given (floor, absolute value, comparison, multiplication, exact division by ten and
 * rounding half to even), together with the integer facts their proofs need.
 */
module Decimals {

  function Pow10(n: nat): (r: nat)
    ensures r >= 1
    ensures n > 0 ==> r >= 10
  {
    if n == 0 then 1 else 10 * Pow10(n - 1)
  }

  lemma {:induction false} Pow10Add(a: nat, b: nat)
    ensures Pow10(a + b) == Pow10(a) * Pow10(b)
  {
    if b > 0 {
      Pow10Add(a, b - 1);
      calc {
        Pow10(a + b);
        10 * Pow10(a + b - 1);
        10 * (Pow10(a) * Pow10(b - 1));
        Pow10(a) * (10 * Pow10(b - 1));
      }
    }
  }

  lemma {:induction false} Pow10Monotonic(a: nat, b: nat)
    requires a <= b
    ensures Pow10(a) <= Pow10(b)
  {
    if a < b {
      Pow10Monotonic(a, b - 1);
    }
  }

  lemma MulAtLeast(k: int, d: int)
    requires k >= 1 && d > 0
    ensures k * d >= d
  {
    assert k * d == (k - 1) * d + d;
    assert (k - 1) * d >= 0;
  }

  /** A positive factor keeps the sign of the other. */
  lemma PositiveProduct(k: int, d: int)
    requires d > 0
    ensures k > 0 ==> k * d > 0
  {
    if k > 0 {
      MulAtLeast(k, d);
    }
  }

  /** Euclidean division is characterised by its quotient and remainder. */
  lemma DivModUnique(n: int, d: int, q: int, r: int)
    requires d > 0 && n == q * d + r && 0 <= r < d
    ensures n / d == q && n % d == r
  {
    var q0, r0 := n / d, n % d;
    assert n == q0 * d + r0;
    assert q * d - q0 * d == (q - q0) * d;
    assert (q - q0) * d == r0 - r;
    if q > q0 {
      MulAtLeast(q - q0, d);
    } else if q < q0 {
      MulAtLeast(q0 - q, d);
    }
  }

  lemma DivBounds(n: int, p: int)
    requires p > 0
    ensures (n / p) * p <= n < (n / p + 1) * p
    ensures n >= 0 ==> n / p >= 0
  {
    var q := n / p;
    assert n == q * p + n % p;
    assert (q + 1) * p == q * p + p;
    if q < 0 {
      MulAtLeast(-q, p);
    }
  }

  /** (10 x) mod (10 p) is ten times x mod p. */
  lemma TenTimesMod(x: int, p: int)
    requires p > 0
    ensures (10 * x) % (10 * p) == 10 * (x % p)
    ensures (10 * x) / (10 * p) == x / p
  {
    DivModUnique(10 * x, 10 * p, x / p, 10 * (x % p));
  }

  /** Dividing by p and then by d is dividing by p * d; the remainders nest accordingly. */
  lemma DivDiv(n: int, p: int, d: int)
    requires p > 0 && d > 0
    ensures n / p / d == n / (p * d)
    ensures n % (p * d) == n % p + p * ((n / p) % d)
  {
    var a, r1 := n / p, n % p;
    var q, r2 := a / d, a % d;
    assert n == p * a + r1;
    assert a == d * q + r2;
    assert p * a + r1 == (p * d) * q + (r1 + p * r2) by {
      assert p * (d * q + r2) == p * (d * q) + p * r2;
      assert p * (d * q) == (p * d) * q;
    }
    assert 0 <= p * r2 <= p * d - p by {
      PositiveProduct(d - 1 - r2, p);
      PositiveProduct(r2, p);
      assert p * (d - 1 - r2) == p * d - p - p * r2;
    }
    PositiveProduct(d, p);
    DivModUnique(n, p * d, q, r1 + p * r2);
  }

  /** A multiple of d leaves no remainder and divides exactly. */
  lemma MulDiv(x: int, d: int)
    requires d > 0
    ensures (x * d) / d == x && (x * d) % d == 0
  {
    DivModUnique(x * d, d, x, 0);
  }

  datatype Decimal = Decimal(mantissa: int, scale: nat)

  function Abs(d: Decimal): (r: Decimal)
    ensures r.mantissa >= 0 && r.scale == d.scale
    ensures r.mantissa == d.mantissa || r.mantissa == -d.mantissa
  {
    Decimal(if d.mantissa < 0 then -d.mantissa else d.mantissa, d.scale)
  }

  /** `Math.Floor`: the greatest integer not above the value. */
  function Floor(d: Decimal): (r: int)
    ensures d.mantissa >= 0 ==> r >= 0
  {
    DivBounds(d.mantissa, Pow10(d.scale));
    d.mantissa / Pow10(d.scale)
  }

  lemma FloorBounds(d: Decimal)
    ensures Floor(d) * Pow10(d.scale) <= d.mantissa < (Floor(d) + 1) * Pow10(d.scale)
  {
    DivBounds(d.mantissa, Pow10(d.scale));
  }

  predicate IsNegative(d: Decimal) {
    d.mantissa < 0
  }

  /** The comparison `a < b` of the values. */
  predicate Less(a: Decimal, b: Decimal) {
    a.mantissa * Pow10(b.scale) < b.mantissa * Pow10(a.scale)
  }

  function Negate(d: Decimal): Decimal {
    Decimal(-d.mantissa, d.scale)
  }

  /** `d - k` for an integer k, kept at d's scale. */
  function SubtractInt(d: Decimal, k: int): Decimal {
    Decimal(d.mantissa - k * Pow10(d.scale), d.scale)
  }

  /** Decimal multiplication keeps every digit: the scales add. */
  function Mul(a: Decimal, b: Decimal): (r: Decimal)
    ensures r.scale == a.scale + b.scale
  {
    Decimal(a.mantissa * b.mantissa, a.scale + b.scale)
  }

  /** Exact division by ten: the same digits, one more place after the point. */
  function DivideBy10(d: Decimal): Decimal {
    Decimal(d.mantissa, d.scale + 1)
  }

  /**
   * The multiple of p nearest to a, in units of p; a tie goes to the even unit.
   */
  function RoundHalfEven(a: int, p: int): (q: int)
    requires a >= 0 && p >= 1
    ensures q >= 0
    ensures -p <= 2 * (q * p - a) <= p
    ensures 2 * (q * p - a) == p || 2 * (q * p - a) == -p ==> q % 2 == 0
  {
    var down := a / p;
    var up := 2 * (a % p) > p || (2 * (a % p) == p && down % 2 == 1);
    RoundHalfEvenError(a, p, down, up);
    if up then down + 1 else down
  }

  lemma RoundHalfEvenError(a: int, p: int, down: int, up: bool)
    requires a >= 0 && p >= 1 && down == a / p
    requires up == (2 * (a % p) > p || (2 * (a % p) == p && down % 2 == 1))
    ensures var q := if up then down + 1 else down;
      -p <= 2 * (q * p - a) <= p && (2 * (q * p - a) == p || 2 * (q * p - a) == -p ==> q % 2 == 0)
  {
    var rem := a % p;
    assert a == down * p + rem;
    if up {
      assert (down + 1) * p - a == p - rem;
    } else {
      assert down * p - a == -rem;
    }
  }

  /**
   * `Decimal.Round(d, decimals)` with its default midpoint rule, round half to even.
   * A value that already has at most `decimals` places is returned unchanged.
   */
  function Round(d: Decimal, decimals: nat): (r: Decimal)
    ensures d.scale <= decimals ==> r == d
    ensures d.scale > decimals ==> r.scale == decimals && RoundedFrom(r.mantissa, d.mantissa, Pow10(d.scale - decimals))
    ensures (r.mantissa < 0 ==> d.mantissa < 0) && (d.mantissa >= 0 ==> r.mantissa >= 0)
  {
    if d.scale <= decimals then d
    else
      var p := Pow10(d.scale - decimals);
      var q := RoundHalfEven(Abs(d).mantissa, p);
      var m := if d.mantissa < 0 then -q else q;
      assert d.mantissa < 0 ==> m * p - d.mantissa == -(q * p - Abs(d).mantissa);
      Decimal(m, decimals)
  }

  /**
   * m units of p are within half a unit of the exact mantissa, and a tie went to an even m.
   */
  predicate RoundedFrom(m: int, exact: int, p: int) {
    var err := m * p - exact;
    -p <= 2 * err <= p && (2 * err == p || 2 * err == -p ==> m % 2 == 0)
  }
}
