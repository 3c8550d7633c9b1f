/**
 * The static helpers of BaseStation/Extensions.cs: integer powers of a decimal, the digit
 * counts and single digits of a decimal, and the most-significant-bit-first byte writer.
 */
module Extensions {
  import opened Wrappers
  import opened Decimals
  import opened LedDrivers

  // ---------------------------------------------------------------------------------------
  // Pow

  /** x raised to the n-th power. */
  function Power(x: int, n: nat): int {
    if n == 0 then 1 else x * Power(x, n - 1)
  }

  lemma {:induction false} PowerOfTen(n: nat)
    ensures Power(10, n) == Pow10(n)
  {
    if n > 0 {
      PowerOfTen(n - 1);
    }
  }

  /**
   * `value.Pow(exponent)`: repeated multiplication, rejecting a negative exponent.
   * The result stands for (m / 10^s)^n: its mantissa is m^n and its denominator (10^s)^n.
   */
  method Pow(value: Decimal, exponent: int) returns (r: Result<Decimal>)
    ensures r.Err? <==> exponent < 0
    ensures r.Err? ==> r.error == ArgumentOutOfRange
    ensures r.Ok? ==> r.value.mantissa == Power(value.mantissa, exponent)
    ensures r.Ok? ==> Pow10(r.value.scale) == Power(Pow10(value.scale), exponent)
  {
    if exponent < 0 {
      return Err(ArgumentOutOfRange);
    }
    var returnValue := Decimal(1, 0);
    var remaining := exponent;
    while remaining > 0
      invariant 0 <= remaining <= exponent
      invariant returnValue.mantissa == Power(value.mantissa, exponent - remaining)
      invariant Pow10(returnValue.scale) == Power(Pow10(value.scale), exponent - remaining)
    {
      Pow10Add(returnValue.scale, value.scale);
      returnValue := Mul(returnValue, value);
      remaining := remaining - 1;
    }
    return Ok(returnValue);
  }

  // ---------------------------------------------------------------------------------------
  // NumIntegerDigits

  /** The number of decimal digits of n; zero has one digit. */
  function DigitCount(n: nat): (r: nat)
    ensures r >= 1
  {
    if n < 10 then 1 else 1 + DigitCount(n / 10)
  }

  /** The digit count of k is pinned down by 10^(k-1) <= n < 10^k (for k > 1). */
  lemma {:induction false} DigitCountBounds(n: nat)
    ensures n < Pow10(DigitCount(n))
    ensures DigitCount(n) > 1 ==> Pow10(DigitCount(n) - 1) <= n
  {
    if n >= 10 {
      DigitCountBounds(n / 10);
    }
  }

  lemma {:induction false} DigitCountUnique(n: nat, k: nat)
    requires k >= 1 && n < Pow10(k)
    requires k > 1 ==> Pow10(k - 1) <= n
    ensures DigitCount(n) == k
  {
    if k > 1 {
      assert Pow10(k - 1) == 10 * Pow10(k - 2);
      DigitCountUnique(n / 10, k - 1);
    }
  }

  lemma {:induction false} DigitCountAtMost(n: nat, k: nat)
    requires k >= 1 && n < Pow10(k)
    ensures DigitCount(n) <= k
  {
    if n >= 10 {
      assert Pow10(k) == 10 * Pow10(k - 1);
      DigitCountAtMost(n / 10, k - 1);
    }
  }

  /** The number of digits before the point of |value|: the digit count of its floor. */
  function IntegerDigits(value: Decimal): nat {
    DigitCount(Floor(Abs(value)))
  }

  /**
   * `value.NumIntegerDigits()`: divide the floor of |value| by ten until it drops below ten.
   */
  method NumIntegerDigits(value: Decimal) returns (digitCount: int)
    ensures digitCount == IntegerDigits(value) && digitCount >= 1
  {
    var v := Decimal(Floor(Abs(value)), 0);
    ghost var n := v.mantissa;
    digitCount := 1;
    while !Less(v, Decimal(10, 0))
      invariant v == Decimal(n, digitCount - 1)
      invariant digitCount >= 1
      invariant digitCount > 1 ==> Pow10(digitCount - 1) <= n
      decreases n - Pow10(digitCount - 1)
    {
      digitCount := digitCount + 1;
      v := DivideBy10(v);
    }
    DigitCountUnique(n, digitCount);
  }

  /** The digit count k of floor(|value|) is pinned down by 10^(k-1) <= floor(|value|) < 10^k. */
  lemma IntegerDigitsBounds(value: Decimal)
    ensures IntegerDigits(value) >= 1 && Floor(Abs(value)) < Pow10(IntegerDigits(value))
    ensures IntegerDigits(value) > 1 ==> Pow10(IntegerDigits(value) - 1) <= Floor(Abs(value))
  {
    DigitCountBounds(Floor(Abs(value)));
  }

  lemma IntegerDigitsOfPowers(k: nat)
    ensures DigitCount(Pow10(k)) == k + 1
    ensures k >= 1 ==> DigitCount(Pow10(k) - 1) == k
  {
    DigitCountUnique(Pow10(k), k + 1);
    if k >= 1 {
      Pow10Monotonic(k - 1, k);
      if k > 1 {
        assert Pow10(k - 1) == 10 * Pow10(k - 2);
      }
      DigitCountUnique(Pow10(k) - 1, k);
    }
  }

  // ---------------------------------------------------------------------------------------
  // NumFractionalDigits

  /** The scale left once the trailing zero digits of the mantissa are dropped. */
  function TrimmedScale(m: int, s: nat): (r: nat)
    ensures r <= s
    decreases s
  {
    if s == 0 || m % 10 != 0 then s else TrimmedScale(m / 10, s - 1)
  }

  lemma {:induction false} TrimmedScaleOfZero(s: nat)
    ensures TrimmedScale(0, s) == 0
  {
    if s > 0 {
      TrimmedScaleOfZero(s - 1);
    }
  }

  /** m / 10^s multiplied by 10^k is an integer. */
  predicate ScaledIsInteger(m: int, s: nat, k: nat) {
    k >= s || m % Pow10(s - k) == 0
  }

  /** The number of fractional digits of |value|, ignoring trailing zeros of its representation. */
  function FractionalDigits(value: Decimal): nat {
    TrimmedScale(Abs(value).mantissa, value.scale)
  }

  /** Splitting off the last digit: n mod 10p is n mod 10 plus ten times (n / 10) mod p. */
  lemma ModTenTimes(n: int, p: int)
    requires p > 0
    ensures n % (10 * p) == n % 10 + 10 * ((n / 10) % p)
    ensures (n % (10 * p)) % 10 == n % 10 && (n % (10 * p)) / 10 == (n / 10) % p
  {
    DivDiv(n, 10, p);
    DivModUnique(n % (10 * p), 10, (n / 10) % p, n % 10);
  }

  lemma DivModIdentity(n: int, p: int)
    requires p > 0
    ensures n - (n / p) * p == n % p
  {
  }

  /** The trimmed scale is the least k for which |value| * 10^k is an integer. */
  lemma {:induction false} TrimmedScaleLeast(m: int, s: nat)
    ensures ScaledIsInteger(m, s, TrimmedScale(m, s))
    ensures forall k: nat :: k < TrimmedScale(m, s) ==> !ScaledIsInteger(m, s, k)
    decreases s
  {
    if s == 0 {
    } else if m % 10 != 0 {
      forall k: nat | k < s
        ensures !ScaledIsInteger(m, s, k)
      {
        ModTenTimes(m, Pow10(s - k - 1));
      }
    } else {
      TrimmedScaleLeast(m / 10, s - 1);
      forall k: nat | k < s
        ensures ScaledIsInteger(m, s, k) == ScaledIsInteger(m / 10, s - 1, k)
      {
        ModTenTimes(m, Pow10(s - k - 1));
      }
    }
  }

  /** Only the digits after the point decide the trimmed scale. */
  lemma {:induction false} TrimmedScaleOfFraction(m: int, s: nat)
    ensures TrimmedScale(m % Pow10(s), s) == TrimmedScale(m, s)
    decreases s
  {
    if s > 0 {
      ModTenTimes(m, Pow10(s - 1));
      if m % 10 == 0 {
        TrimmedScaleOfFraction(m / 10, s - 1);
      }
    }
  }

  /**
   * Multiplying a nonzero fraction f / 10^s by ten and dropping the integer part removes its
   * first digit, so one fewer place is needed.
   */
  lemma {:induction false} ShiftOutFirstDigit(f: int, s: nat)
    requires 0 < f < Pow10(s)
    ensures s >= 1 && TrimmedScale(f, s) >= 1
    ensures TrimmedScale((10 * f) % Pow10(s), s) == TrimmedScale(f, s) - 1
  {
    var p' := Pow10(s - 1);
    TenTimesMod(f, p');
    var g := (10 * f) % Pow10(s);
    assert g == 10 * (f % p');
    MulDiv(f % p', 10);
    assert g % 10 == 0 && g / 10 == f % p';
    if f % 10 != 0 {
      if s > 1 {
        ModTenTimes(f, Pow10(s - 2));
      }
    } else {
      var h := f / 10;
      assert f == 10 * h;
      ShiftOutFirstDigit(h, s - 1);
    }
  }

  /** The fractional digit count is the least k for which |value| * 10^k is an integer. */
  lemma FractionalDigitsLeast(value: Decimal)
    ensures ScaledIsInteger(Abs(value).mantissa, value.scale, FractionalDigits(value))
    ensures forall k: nat :: k < FractionalDigits(value) ==> !ScaledIsInteger(Abs(value).mantissa, value.scale, k)
  {
    TrimmedScaleLeast(Abs(value).mantissa, value.scale);
  }

  /**
   * `value.NumFractionalDigits()`: scan the fractional digits of |value| one at a time,
   * holding back a run of zeros until a later nonzero digit shows that it counts.
   */
  method NumFractionalDigits(value: Decimal) returns (digitCount: int)
    ensures digitCount == FractionalDigits(value)
  {
    var a := Abs(value);
    var p := Pow10(a.scale);
    // |value| - floor(|value|): the fraction f / 10^s
    var v := Decimal(a.mantissa - Floor(a) * p, a.scale);
    DivModIdentity(a.mantissa, p);
    assert v.mantissa == a.mantissa % p;
    TrimmedScaleOfFraction(a.mantissa, a.scale);
    TrimmedScaleOfZero(a.scale);
    ghost var answer := FractionalDigits(value);
    ghost var scanned: nat := 0;

    digitCount := 0;
    var zeroRun := 0;
    while v.mantissa != 0
      invariant v.scale == a.scale && 0 <= v.mantissa < p
      invariant digitCount + zeroRun == scanned && digitCount >= 0 && zeroRun >= 0
      invariant v.mantissa != 0 ==> answer == scanned + TrimmedScale(v.mantissa, a.scale)
      invariant v.mantissa == 0 ==> answer == digitCount
      invariant scanned <= answer
      decreases answer - scanned
    {
      ghost var f := v.mantissa;
      ShiftOutFirstDigit(f, a.scale);
      TrimmedScaleOfZero(a.scale);
      v := Mul(v, Decimal(10, 0));
      var integerPart := Floor(v);
      if integerPart == 0 {
        zeroRun := zeroRun + 1;
      } else {
        digitCount := digitCount + zeroRun + 1;
        zeroRun := 0;
      }
      assert integerPart == (10 * f) / p;
      v := SubtractInt(v, integerPart);
      DivModIdentity(10 * f, p);
      assert v.mantissa == (10 * f) % p;
      scanned := scanned + 1;
    }
    TrimmedScaleLeast(a.mantissa, a.scale);
  }

  // ---------------------------------------------------------------------------------------
  // GetDigit

  /**
   * `value.GetDigit(digitIndex)`: the digit at a signed position. Index 0 is the units digit,
   * positive indices move left of the point and negative indices right of it. For a
   * non-negative index the decimal quotient floor(value) / 10^i is reduced modulo ten and
   * truncated toward zero, so a negative value gives a non-positive digit; a negative index
   * reads the fraction value - floor(value), which is never negative.
   */
  function GetDigit(value: Decimal, digitIndex: int): (r: int)
    ensures -9 <= r <= 9
    ensures value.mantissa >= 0 ==> 0 <= r
  {
    if digitIndex >= 0 then
      var n := Floor(value);
      var digit := (if n < 0 then -n else n) / Pow10(digitIndex) % 10;
      if n < 0 then -digit else digit
    else
      var fraction := value.mantissa % Pow10(value.scale);
      (fraction * Pow10(-digitIndex) / Pow10(value.scale)) % 10
  }

  /** The digits at positions 0 .. k-1 weighted by their place values. */
  function IntegerDigitsValue(value: Decimal, k: nat): int {
    if k == 0 then 0 else IntegerDigitsValue(value, k - 1) + GetDigit(value, k - 1) * Pow10(k - 1)
  }

  /** The lowest k integer digits reassemble floor(value) modulo 10^k. */
  lemma {:induction false} IntegerDigitsReassemble(value: Decimal, k: nat)
    requires value.mantissa >= 0
    ensures IntegerDigitsValue(value, k) == Floor(value) % Pow10(k)
  {
    var n := Floor(value);
    if k == 0 {
      DivModUnique(n, 1, n, 0);
    } else {
      var p := Pow10(k - 1);
      IntegerDigitsReassemble(value, k - 1);
      FloorBounds(value);
      var d := (n / p) % 10;
      assert GetDigit(value, k - 1) == d;
      assert IntegerDigitsValue(value, k) == n % p + d * p;
      DivDiv(n, p, 10);
      assert Pow10(k) == p * 10;
    }
  }

  /** All integer digits together give back floor(value). */
  lemma IntegerPartFromDigits(value: Decimal)
    requires value.mantissa >= 0
    ensures IntegerDigitsValue(value, IntegerDigits(value)) == Floor(value)
  {
    var n := Floor(value);
    IntegerDigitsReassemble(value, IntegerDigits(value));
    DigitCountBounds(n);
    DivModUnique(n, Pow10(DigitCount(n)), 0, n);
  }

  /** Left of the most significant digit every digit is zero. */
  lemma DigitsBeyondIntegerPart(value: Decimal, i: int)
    requires value.mantissa >= 0 && i >= IntegerDigits(value)
    ensures GetDigit(value, i) == 0
  {
    var n := Floor(value);
    DigitCountBounds(n);
    Pow10Monotonic(DigitCount(n), i);
    DivModUnique(n, Pow10(i), 0, n);
  }

  /** The first k fractional digits read as one k-digit integer. */
  function FractionDigitsValue(value: Decimal, k: nat): int {
    if k == 0 then 0 else 10 * FractionDigitsValue(value, k - 1) + GetDigit(value, -(k as int))
  }

  /** The first k fractional digits are floor(fraction * 10^k). */
  lemma {:induction false} FractionDigitsReassemble(value: Decimal, k: nat)
    ensures FractionDigitsValue(value, k)
         == (value.mantissa % Pow10(value.scale)) * Pow10(k) / Pow10(value.scale)
  {
    var f, p := value.mantissa % Pow10(value.scale), Pow10(value.scale);
    if k == 0 {
      DivModUnique(f, p, 0, f);
    } else {
      FractionDigitsReassemble(value, k - 1);
      var x' := f * Pow10(k - 1);
      var x := f * Pow10(k);
      TimesPow10(f, k);
      var y := x / p;
      DivDiv(x, p, 10);
      TenTimesMod(x', p);
      assert y / 10 == x' / p;
      assert GetDigit(value, -(k as int)) == y % 10;
      assert FractionDigitsValue(value, k) == 10 * (x' / p) + y % 10;
      assert y == 10 * (y / 10) + y % 10;
    }
  }

  /** One more power of ten is one more factor ten. */
  lemma TimesPow10(f: int, k: nat)
    requires k >= 1
    ensures f * Pow10(k) == 10 * (f * Pow10(k - 1))
  {
    var q := Pow10(k - 1);
    assert Pow10(k) == 10 * q;
    assert f * (10 * q) == 10 * (f * q);
  }

  lemma MulAssoc(a: int, b: int, c: int)
    ensures a * b * c == a * (b * c)
  {
  }

  /** c * 10^(e+1) * p over p is a multiple of ten, so its last digit is zero. */
  lemma LastDigitOfTens(c: int, e: nat, p: int)
    requires p > 0
    ensures (c * Pow10(e + 1) * p / p) % 10 == 0
  {
    MulDiv(c * Pow10(e + 1), p);
    assert c * Pow10(e + 1) == (c * Pow10(e)) * 10;
    MulDiv(c * Pow10(e), 10);
  }

  /** Right of the last significant fractional digit every digit is zero. */
  lemma DigitsBeyondFraction(value: Decimal, j: nat)
    requires value.mantissa >= 0 && j > FractionalDigits(value)
    ensures GetDigit(value, -(j as int)) == 0
  {
    var s := value.scale;
    var f := value.mantissa % Pow10(s);
    var t := FractionalDigits(value);
    TrimmedScaleOfFraction(value.mantissa, s);
    TrimmedScaleLeast(f, s);
    assert GetDigit(value, -(j as int)) == (f * Pow10(j) / Pow10(s)) % 10;
    if t >= s {
      ShiftedPastScale(f, j, s);
    } else {
      ShiftedPastTrim(f, j, s, t);
    }
  }

  lemma ShiftedPastScale(f: int, j: nat, s: nat)
    requires j > s
    ensures (f * Pow10(j) / Pow10(s)) % 10 == 0
  {
    Pow10Add(j - s, s);
    MulAssoc(f, Pow10(j - s), Pow10(s));
    LastDigitOfTens(f, j - s - 1, Pow10(s));
  }

  lemma ShiftedPastTrim(f: int, j: nat, s: nat, t: nat)
    requires t < s && t < j && f % Pow10(s - t) == 0
    ensures (f * Pow10(j) / Pow10(s)) % 10 == 0
  {
    var g := f / Pow10(s - t);
    assert f == g * Pow10(s - t);
    Pow10Add(s - t, j);
    Pow10Add(j - t, s);
    MulAssoc(g, Pow10(s - t), Pow10(j));
    MulAssoc(g, Pow10(j - t), Pow10(s));
    assert f * Pow10(j) == g * Pow10(j - t) * Pow10(s);
    LastDigitOfTens(g, j - t - 1, Pow10(s));
  }

  // ---------------------------------------------------------------------------------------
  // Worked digit counts and digits

  /** Integer digit counts of 0, 9, 10, 9.9 and 9.999999999999999999999999999. */
  lemma IntegerDigitsExamples()
    ensures IntegerDigits(Decimal(0, 0)) == 1 && IntegerDigits(Decimal(9, 0)) == 1
    ensures IntegerDigits(Decimal(10, 0)) == 2 && IntegerDigits(Decimal(99, 1)) == 1
    ensures IntegerDigits(Decimal(9999999999999999999999999999, 27)) == 1
  {
    assert Pow10(9) == 1000000000;
    Pow10Add(9, 9);
    Pow10Add(18, 9);
    assert Floor(Decimal(9999999999999999999999999999, 27)) == 9;
  }

  /** Fractional digit counts of 0, 1, 0.1, 0.10, 0.01 and 0.1001. */
  lemma FractionalDigitsExamples()
    ensures FractionalDigits(Decimal(0, 0)) == 0 && FractionalDigits(Decimal(1, 0)) == 0
    ensures FractionalDigits(Decimal(1, 1)) == 1 && FractionalDigits(Decimal(10, 2)) == 1
    ensures FractionalDigits(Decimal(1, 2)) == 2 && FractionalDigits(Decimal(1001, 4)) == 4
  {
  }

  /** Digits of 0, 1, 10, 0.1 and 0.01 at positions on both sides of the point. */
  lemma GetDigitExamples()
    ensures GetDigit(Decimal(0, 0), 0) == 0 && GetDigit(Decimal(0, 0), 1) == 0 && GetDigit(Decimal(0, 0), -1) == 0
    ensures GetDigit(Decimal(1, 0), 0) == 1 && GetDigit(Decimal(10, 0), 0) == 0 && GetDigit(Decimal(10, 0), 1) == 1
    ensures GetDigit(Decimal(1, 1), 0) == 0 && GetDigit(Decimal(1, 1), -1) == 1 && GetDigit(Decimal(1, 1), -2) == 0
    ensures GetDigit(Decimal(1, 2), -2) == 1
  {
    assert Pow10(1) == 10 && Pow10(2) == 100;
  }

  // ---------------------------------------------------------------------------------------
  // WriteByte

  /** The eight bits of a byte, most significant first. */
  function ByteBits(b: bv8): (bits: seq<bool>)
    ensures |bits| == 8
  {
    [b & 0x80 != 0, b & 0x40 != 0, b & 0x20 != 0, b & 0x10 != 0,
     b & 0x08 != 0, b & 0x04 != 0, b & 0x02 != 0, b & 0x01 != 0]
  }

  /** The byte whose bits, most significant first, are the given ones. */
  function ByteFromBits(bits: seq<bool>): (b: bv8)
    requires |bits| == 8
  {
    (if bits[0] then 0x80 else 0) | (if bits[1] then 0x40 else 0)
    | (if bits[2] then 0x20 else 0) | (if bits[3] then 0x10 else 0)
    | (if bits[4] then 0x08 else 0) | (if bits[5] then 0x04 else 0)
    | (if bits[6] then 0x02 else 0) | (if bits[7] then 0x01 else 0)
  }

  /** The bits of a byte, put back together, give the byte. */
  lemma ByteBitsRoundTrip(b: bv8)
    ensures ByteFromBits(ByteBits(b)) == b
  {
  }

  /** Two bytes that put out the same bits are the same byte. */
  lemma ByteBitsInjective(a: bv8, b: bv8)
    requires ByteBits(a) == ByteBits(b)
    ensures a == b
  {
    ByteBitsRoundTrip(a);
    ByteBitsRoundTrip(b);
  }

  /** Bit k + 1 of v, counted from the top, is bit k of v << 1; the bottom bit becomes zero. */
  lemma ShiftLeftMasks(v: bv8)
    ensures ((v << 1) & 0x80 != 0) == (v & 0x40 != 0) && ((v << 1) & 0x40 != 0) == (v & 0x20 != 0)
    ensures ((v << 1) & 0x20 != 0) == (v & 0x10 != 0) && ((v << 1) & 0x10 != 0) == (v & 0x08 != 0)
    ensures ((v << 1) & 0x08 != 0) == (v & 0x04 != 0) && ((v << 1) & 0x04 != 0) == (v & 0x02 != 0)
    ensures ((v << 1) & 0x02 != 0) == (v & 0x01 != 0) && (v << 1) & 0x01 == 0
  {
  }

  /** One left shift drops the top bit and brings a zero in at the bottom. */
  lemma ShiftLeftOnce(v: bv8)
    ensures (v & 0x80 != 0) == ByteBits(v)[0]
    ensures ByteBits(v << 1) == ByteBits(v)[1..] + [false]
  {
    ShiftLeftMasks(v);
  }

  /** The bits from place i on, followed by i zeros: the bits of a byte shifted left i times. */
  function ShiftedOut(bits: seq<bool>, i: nat): (r: seq<bool>)
    requires i <= |bits|
    ensures |r| == |bits|
  {
    bits[i..] + seq(i, _ => false)
  }

  /** Dropping the top of the shifted-out bits and adding a zero shifts out one more. */
  lemma ShiftedOutStep(bits: seq<bool>, i: nat)
    requires i < |bits|
    ensures ShiftedOut(bits, i)[0] == bits[i]
    ensures ShiftedOut(bits, i)[1..] + [false] == ShiftedOut(bits, i + 1)
  {
    var a, b := ShiftedOut(bits, i)[1..] + [false], ShiftedOut(bits, i + 1);
    forall k | 0 <= k < |bits|
      ensures a[k] == b[k]
    {
      if k < |bits| - i - 1 {
        assert a[k] == bits[i + 1 + k] == b[k];
      }
    }
  }

  /** Shifting once more moves the next bit to the top. */
  lemma ShiftStep(value: bv8, v: bv8, i: nat)
    requires i < 8 && ByteBits(v) == ShiftedOut(ByteBits(value), i)
    ensures (v & 0x80 != 0) == ByteBits(value)[i]
    ensures ByteBits(v << 1) == ShiftedOut(ByteBits(value), i + 1)
  {
    ShiftLeftOnce(v);
    ShiftedOutStep(ByteBits(value), i);
  }

  /** Writing bit i after the first i bits gives the trace of the first i + 1. */
  lemma NextBitTrace(start: seq<PinEvent>, s: LedDriverSettings, bits: seq<bool>, i: nat,
                     before: seq<PinEvent>, bit: bool, after: seq<PinEvent>)
    requires i < |bits| && bit == bits[i]
    requires before == start + BitsTrace(s, bits[..i])
    requires after == before + WriteBitTrace(s, LevelOf(bit))
    ensures after == start + BitsTrace(s, bits[..i + 1])
  {
    BitsTracePrefix(s, bits, i);
  }

  /** `driver.WriteBit(bool)`: High for true, Low for false. */
  method WriteBitValue(driver: LedDriver, value: bool)
    modifies driver`trace
    ensures driver.trace == old(driver.trace) + WriteBitTrace(driver.settings, LevelOf(value))
  {
    driver.WriteBit(if value then High else Low);
  }

  /** `driver.WriteByte(value)`: test the top bit, shift left, eight times. */
  method WriteByte(driver: LedDriver, value: bv8)
    modifies driver`trace
    ensures driver.trace == old(driver.trace) + BitsTrace(driver.settings, ByteBits(value))
    ensures DistinctPins(driver.settings) ==>
      ShiftedBits(driver.trace, driver.settings) == ShiftedBits(old(driver.trace), driver.settings) + ByteBits(value)
  {
    ghost var bits, s, start := ByteBits(value), driver.settings, driver.trace;
    var v := value;
    assert ShiftedOut(bits, 0) == bits;
    for i := 0 to 8
      invariant ByteBits(v) == ShiftedOut(bits, i)
      invariant driver.trace == start + BitsTrace(s, bits[..i])
    {
      ShiftStep(value, v, i);
      var bit := v & 0x80;
      v := v << 1;
      ghost var before := driver.trace;
      WriteBitValue(driver, bit != 0);
      NextBitTrace(start, s, bits, i, before, bit != 0, driver.trace);
    }
    assert bits[..8] == bits;
    if DistinctPins(s) {
      BitsShiftIn(start, s, bits);
    }
  }
}
