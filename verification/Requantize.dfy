/** The fixed-point kernel of the neural-network library: a rounding doubling multiply, a rounding
    right shift, and their composition.  Machine integers are written out as ranges of `int`, and
    the operators of C with them: `/` truncates, `>>` floors, `&` with a mask of ones is the
    non-negative remainder.
 */
module Requantize {

  const TWO31 := 0x8000_0000
  const TWO32 := 0x1_0000_0000
  const TWO64 := 0x1_0000_0000_0000_0000

  predicate Q31(x: int) {
    -TWO31 <= x < TWO31
  }

  // The width of the C type `long`.
  datatype Long = Long32 | Long64

  // ---- C arithmetic ----

  function TruncDiv(a: int, b: int): int
    requires 0 < b
  {
    if 0 <= a then a / b else -((-a) / b)
  }

  // Conversion to a 32-bit signed integer
  function ToInt32(x: int): (r: int)
    ensures Q31(r)
    ensures Q31(x) ==> r == x
  {
    var u := x % TWO32;
    if u < TWO31 then u else u - TWO32
  }

  function Pow2(e: nat): (r: int)
    ensures 0 < r
    ensures if e == 0 then r == 1 else 2 <= r && r % 2 == 0
  {
    if e == 0 then 1 else 2 * Pow2(e - 1)
  }

  // The powers of two: nothing else starts like this and turns sums into products.
  lemma {:induction false} PowersOfTwo(a: nat, b: nat)
    ensures Pow2(0) == 1 && Pow2(1) == 2
    ensures Pow2(a + b) == Pow2(a) * Pow2(b)
  {
    if 0 < a {
      PowersOfTwo(a - 1, b);
      assert Pow2(a + b) == 2 * (Pow2(a - 1) * Pow2(b));
    }
  }

  function Abs(x: int): int {
    if x < 0 then -x else x
  }

  // ---- riscv_nn_sat_doubling_high_mult ----

  // `mult / (1UL << 31)`: the divisor is an unsigned long, so with 64-bit longs a negative
  // dividend is first taken modulo 2^64.
  function DivideByUnsignedLong(mult: int, long: Long): int {
    if long == Long64 && mult < 0 then (mult + TWO64) / TWO31 else TruncDiv(mult, TWO31)
  }

  // `m1 == Q31_MIN`: 0x80000000L is unsigned if long has 32 bits, and the positive 2^31 if not.
  predicate EqualsQ31Min(m: int, long: Long) {
    if long == Long32 then m % TWO32 == TWO31 else m == TWO31
  }

  function SatDoublingHighMult(m1: int, m2: int, long: Long): (r: int)
    requires Q31(m1) && Q31(m2)
    ensures Q31(r)
  {
    var offset := if (m1 < 0) != (m2 < 0) then 1 - 0x4000_0000 else 0x4000_0000;
    var mult := offset + m1 * m2;
    if m1 == m2 && EqualsQ31Min(m1, long) then TWO31 - 1
    else ToInt32(DivideByUnsignedLong(mult, long))
  }

  lemma MulBound(a: int, b: int, c: int)
    requires 0 <= a <= c && 0 <= b
    ensures 0 <= a * b <= c * b
  {
  }

  // Magnitudes up to 2^31 have products up to 2^62, and no product in between misses 2^31.
  lemma MagnitudeBound(a: int, b: int)
    requires 0 <= a <= TWO31 && 0 <= b <= TWO31
    ensures 0 <= a * b <= TWO31 * TWO31
    ensures a < TWO31 || b < TWO31 ==> a * b <= TWO31 * (TWO31 - 1)
  {
    MulBound(a, b, TWO31);
    if a < TWO31 {
      MulBound(a, b, TWO31 - 1);
    } else if b < TWO31 {
      MulBound(b, a, TWO31 - 1);
    }
  }

  lemma SignedProduct(m1: int, m2: int)
    ensures m1 * m2 == if (m1 < 0) == (m2 < 0) then Abs(m1) * Abs(m2) else -(Abs(m1) * Abs(m2))
  {
    assert (-m1) * m2 == -(m1 * m2) && m1 * (-m2) == -(m1 * m2) && (-m1) * (-m2) == m1 * m2;
  }

  lemma ProductBounds(m1: int, m2: int)
    requires Q31(m1) && Q31(m2)
    ensures (m1 < 0) != (m2 < 0) ==> -TWO31 * (TWO31 - 1) <= m1 * m2 <= 0
    ensures (m1 < 0) == (m2 < 0) && !(m1 == m2 == -TWO31) ==> 0 <= m1 * m2 <= TWO31 * (TWO31 - 1)
    ensures m1 == m2 == -TWO31 ==> m1 * m2 == TWO31 * TWO31
  {
    SignedProduct(m1, m2);
    MagnitudeBound(Abs(m1), Abs(m2));
  }

  // VQRDMULH: double, round by adding half, keep the high word, saturate.
  function VQRDMULH(m1: int, m2: int): int {
    var high := (2 * (m1 * m2) + TWO31) / TWO32;
    if high < -TWO31 then -TWO31 else if TWO31 <= high then TWO31 - 1 else high
  }

  // Truncating after a sign-dependent offset is flooring after adding half.
  lemma RoundedQuotient(p: int)
    ensures 0 <= p ==> TruncDiv(p + 0x4000_0000, TWO31) == (p + 0x4000_0000) / TWO31
    ensures p <= 0 ==> TruncDiv(p + 1 - 0x4000_0000, TWO31) == (p + 0x4000_0000) / TWO31
    ensures (2 * p + TWO31) / TWO32 == (p + 0x4000_0000) / TWO31
  {
  }

  lemma QuotientInRange(p: int)
    requires -TWO31 * (TWO31 - 1) <= p <= TWO31 * (TWO31 - 1)
    ensures Q31((p + 0x4000_0000) / TWO31)
  {
  }

  // The multiply for a pair that does not saturate.
  lemma MultiplyFloors(m1: int, m2: int)
    requires Q31(m1) && Q31(m2) && !(m1 == m2 == -TWO31)
    ensures SatDoublingHighMult(m1, m2, Long32) == (m1 * m2 + 0x4000_0000) / TWO31
    ensures VQRDMULH(m1, m2) == (m1 * m2 + 0x4000_0000) / TWO31
  {
    hide TruncDiv;
    var p := m1 * m2;
    ProductBounds(m1, m2);
    RoundedQuotient(p);
    QuotientInRange(p);
  }

  // With 32-bit longs the multiply is the documented instruction, for every pair.
  lemma MultiplyIsVQRDMULH(m1: int, m2: int)
    requires Q31(m1) && Q31(m2)
    ensures SatDoublingHighMult(m1, m2, Long32) == VQRDMULH(m1, m2)
  {
    if m1 == m2 == -TWO31 {
      ProductBounds(m1, m2);
    } else {
      MultiplyFloors(m1, m2);
    }
  }

  // That is the nearest integer to the product over 2^31 (the larger one if two are), except for
  // the one saturated pair.
  lemma MultiplyRounds(m1: int, m2: int)
    requires Q31(m1) && Q31(m2)
    ensures var r := SatDoublingHighMult(m1, m2, Long32);
            if m1 == m2 == -TWO31 then r == TWO31 - 1
            else r == (m1 * m2 + 0x4000_0000) / TWO31 && -TWO31 <= 2 * (m1 * m2 - r * TWO31) < TWO31
  {
    if !(m1 == m2 == -TWO31) {
      hide SatDoublingHighMult;
      MultiplyFloors(m1, m2);
    }
  }

  // With 64-bit longs the unsigned division floors instead of truncating and the saturation test
  // never succeeds, so the result is right exactly for factors of equal sign that are not both
  // the minimum, and for the products just below a midpoint; otherwise it is one too small, or
  // the minimum instead of the maximum.
  lemma LongWidthMatters(m1: int, m2: int)
    requires Q31(m1) && Q31(m2)
    ensures SatDoublingHighMult(m1, m2, Long64) == VQRDMULH(m1, m2) <==>
            if (m1 < 0) == (m2 < 0) then !(m1 == m2 == -TWO31) else (m1 * m2 + 0x4000_0000) % TWO31 == TWO31 - 1
    ensures (m1 < 0) != (m2 < 0) ==> VQRDMULH(m1, m2) - 1 <= SatDoublingHighMult(m1, m2, Long64) <= VQRDMULH(m1, m2)
    ensures m1 == m2 == -TWO31 ==> SatDoublingHighMult(m1, m2, Long64) == -TWO31
  {
    hide SatDoublingHighMult;
    if (m1 < 0) != (m2 < 0) {
      FlooredMultiply(m1, m2);
      MultiplyFloors(m1, m2);
    } else {
      SameSignMultiply(m1, m2);
      MultiplyIsVQRDMULH(m1, m2);
    }
  }

  lemma SameSignMultiply(m1: int, m2: int)
    requires Q31(m1) && Q31(m2) && (m1 < 0) == (m2 < 0)
    ensures SatDoublingHighMult(m1, m2, Long64) ==
            if m1 == m2 == -TWO31 then -TWO31 else SatDoublingHighMult(m1, m2, Long32)
  {
    ProductBounds(m1, m2);
  }

  lemma FlooredMultiply(m1: int, m2: int)
    requires Q31(m1) && Q31(m2) && (m1 < 0) != (m2 < 0)
    ensures SatDoublingHighMult(m1, m2, Long64) == (m1 * m2 + 1 - 0x4000_0000) / TWO31
  {
    ProductBounds(m1, m2);
    FlooredQuotient(m1 * m2);
  }

  lemma FlooredQuotient(p: int)
    requires -TWO31 * (TWO31 - 1) <= p <= 0
    ensures ToInt32((p + 1 - 0x4000_0000 + TWO64) / TWO31) == (p + 1 - 0x4000_0000) / TWO31
  {
    assert (p + 1 - 0x4000_0000 + TWO64) / TWO31 == (p + 1 - 0x4000_0000) / TWO31 + 2 * TWO32;
  }

  lemma LongWidthExample()
    ensures SatDoublingHighMult(1, -1, Long32) == 0 && SatDoublingHighMult(1, -1, Long64) == -1
  {
  }

  // ---- riscv_nn_divide_by_power_of_two ----

  function DivideByPowerOfTwo(dividend: int, exponent: nat): int {
    var n := Pow2(exponent);
    var remainder, floor := dividend % n, dividend / n;
    var threshold := (n - 1) / 2 + (if floor < 0 then 1 else 0);
    if threshold < remainder then floor + 1 else floor
  }

  // r is an integer nearest to d / n, the one further from zero if two are.
  predicate RoundsAway(d: int, n: int, r: int) {
    2 * Abs(d - r * n) <= n && (2 * Abs(d - r * n) == n ==> Abs(d) < Abs(r * n))
  }

  lemma DivideRoundsAway(d: int, e: nat)
    ensures RoundsAway(d, Pow2(e), DivideByPowerOfTwo(d, e))
  {
    hide Pow2;
    var n := Pow2(e);
    var a := d / n * n;
    FloorMultiple(d, n);
    RoundAtThreshold(d, n, a, d % n);
  }

  lemma FloorMultiple(d: int, n: int)
    requires 0 < n
    ensures var floor, a := d / n, d / n * n;
            d == a + d % n && (floor + 1) * n == a + n && (floor < 0 ==> a <= -n) && (0 <= floor ==> 0 <= a)
  {
    NextMultiple(n, d / n, d / n + 1);
  }

  // The two candidates a <= d and a + n, and the threshold that decides between them.
  lemma RoundAtThreshold(d: int, n: int, a: int, rem: int)
    requires n == 1 || (2 <= n && n % 2 == 0)
    requires d == a + rem && 0 <= rem < n && (a <= -n || 0 <= a)
    ensures (n - 1) / 2 + (if a < 0 then 1 else 0) < rem ==>
              2 * Abs(d - (a + n)) <= n && (2 * Abs(d - (a + n)) == n ==> Abs(d) < Abs(a + n))
    ensures rem <= (n - 1) / 2 + (if a < 0 then 1 else 0) ==>
              2 * Abs(d - a) <= n && (2 * Abs(d - a) == n ==> Abs(d) < Abs(a))
  {
  }

  // Rounding away from zero determines the result.
  lemma RoundsAwayUnique(d: int, n: int, r: int, s: int)
    requires 0 < n && RoundsAway(d, n, r) && RoundsAway(d, n, s)
    ensures r == s
  {
    if r < s {
      NotAbove(d, n, r, s);
    } else if s < r {
      NotAbove(d, n, s, r);
    }
  }

  lemma NextMultiple(n: int, r: int, s: int)
    requires 0 < n && r < s
    ensures r * n + n <= s * n
    ensures r < 0 ==> r * n <= -n
    ensures 0 <= r ==> 0 <= r * n
  {
    MulBound(1, n, s - r);
    assert s * n - r * n == (s - r) * n;
    if r < 0 {
      MulBound(1, n, -r);
    } else {
      MulBound(0, n, r);
    }
  }

  lemma NotAbove(d: int, n: int, r: int, s: int)
    requires 0 < n && r < s && RoundsAway(d, n, r)
    ensures !RoundsAway(d, n, s)
  {
    NextMultiple(n, r, s);
    OneOfTwoMultiples(d, n, r * n, s * n);
  }

  lemma OneOfTwoMultiples(d: int, n: int, a: int, b: int)
    requires 0 < n && a + n <= b && (a <= -n || 0 <= a)
    requires 2 * Abs(d - a) <= n && (2 * Abs(d - a) == n ==> Abs(d) < Abs(a))
    ensures !(2 * Abs(d - b) <= n && (2 * Abs(d - b) == n ==> Abs(d) < Abs(b)))
  {
  }

  lemma DivideMonotone(d: int, d': int, e: nat)
    requires d <= d'
    ensures DivideByPowerOfTwo(d, e) <= DivideByPowerOfTwo(d', e)
  {
    hide DivideByPowerOfTwo;
    var n, r, r' := Pow2(e), DivideByPowerOfTwo(d, e), DivideByPowerOfTwo(d', e);
    DivideRoundsAway(d, e);
    DivideRoundsAway(d', e);
    if r' < r && d != d' {
      NextMultiple(n, r', r);
      NearMultiplesOrdered(d, d', n, r * n, r' * n);
    }
  }

  lemma NearMultiplesOrdered(d: int, d': int, n: int, a: int, a': int)
    requires d < d' && 2 * Abs(d - a) <= n && 2 * Abs(d' - a') <= n
    ensures a < a' + n
  {
  }

  // ---- riscv_nn_requantize ----

  function LeftShift(shift: int): nat {
    if 0 < shift then shift else 0
  }

  function RightShift(shift: int): nat {
    if 0 < shift then 0 else -shift
  }

  // The shifts that C defines, and no overflow of the shifted value.
  predicate InRange(val: int, multiplier: int, shift: int) {
    Q31(val) && Q31(multiplier) && -30 <= shift <= 30 && Q31(val * Pow2(LeftShift(shift)))
  }

  function RequantizeValue(val: int, multiplier: int, shift: int): int
    requires InRange(val, multiplier, shift)
  {
    DivideByPowerOfTwo(SatDoublingHighMult(val * Pow2(LeftShift(shift)), multiplier, Long32), RightShift(shift))
  }

  // Two roundings: to the nearest multiple of 2^31, then to the nearest multiple of 2^31 n.
  lemma TwoRoundings(p: int, q: int, r: int, n: int, slack: int)
    requires Abs(2 * (p - q * TWO31)) <= slack && 2 * Abs(q - r * n) <= n
    ensures 2 * Abs(p - r * (TWO31 * n)) <= TWO31 * n + slack
  {
    assert r * (TWO31 * n) == TWO31 * (r * n);
    assert p - TWO31 * (r * n) == (p - q * TWO31) + TWO31 * (q - r * n);
  }

  // The result is within 1 of val * multiplier * 2^(shift - 31), which is a fraction with the
  // denominator 2^(31 + right shift); and within 1/2 + 1/2^(1 + right shift) unless the multiply
  // saturates.
  lemma RequantizeError(val: int, multiplier: int, shift: int)
    requires InRange(val, multiplier, shift)
    ensures var (up, down) := if 0 <= shift then (Pow2(shift), 1) else (1, Pow2(-shift));
            var exact, r := val * up * multiplier, RequantizeValue(val, multiplier, shift);
            && Abs(exact - r * (TWO31 * down)) <= TWO31 * down
            && (!(val * up == multiplier == -TWO31) ==>
                  2 * Abs(exact - r * (TWO31 * down)) <= TWO31 * down + TWO31)
  {
    hide Pow2, SatDoublingHighMult, DivideByPowerOfTwo;
    PowersOfTwo(0, 0);
    var v, n := val * Pow2(LeftShift(shift)), Pow2(RightShift(shift));
    var q, r := SatDoublingHighMult(v, multiplier, Long32), RequantizeValue(val, multiplier, shift);
    MultiplyRounds(v, multiplier);
    DivideRoundsAway(q, RightShift(shift));
    var slack := if v == multiplier == -TWO31 then 2 * TWO31 else TWO31;
    TwoRoundings(v * multiplier, q, r, n, slack);
    if n == 1 {
      assert q == r;
    }
  }

  lemma OrderedProducts(a: int, b: int, c: int)
    requires a <= b && 0 <= c
    ensures a * c <= b * c
  {
  }

  lemma MultiplyMonotone(v: int, v': int, multiplier: int)
    requires Q31(v) && Q31(v') && Q31(multiplier) && v <= v' && 0 <= multiplier
    ensures SatDoublingHighMult(v, multiplier, Long32) <= SatDoublingHighMult(v', multiplier, Long32)
  {
    hide SatDoublingHighMult;
    MultiplyRounds(v, multiplier);
    MultiplyRounds(v', multiplier);
    OrderedProducts(v, v', multiplier);
  }

  lemma RequantizeMonotone(val: int, val': int, multiplier: int, shift: int)
    requires InRange(val, multiplier, shift) && InRange(val', multiplier, shift) && val <= val' && 0 <= multiplier
    ensures RequantizeValue(val, multiplier, shift) <= RequantizeValue(val', multiplier, shift)
  {
    var n := Pow2(LeftShift(shift));
    OrderedProducts(val, val', n);
    MultiplyMonotone(val * n, val' * n, multiplier);
    DivideMonotone(SatDoublingHighMult(val * n, multiplier, Long32),
                   SatDoublingHighMult(val' * n, multiplier, Long32), RightShift(shift));
  }
}
