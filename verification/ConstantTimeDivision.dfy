/** Division by an invariant divisor with one multiplication and two shifts
    (c/util/util.h), after Granlund and Montgomery. */
module ConstantTimeDivision {
  import opened Words
  import WideDivision

  /** c/util/util.h floor_log2, as the source loops it.  Zero gives zero. */
  method FloorLog2(n: U64) returns (result: nat)
    ensures n > 0 ==> Pow2(result) <= n < Pow2(result + 1)
    ensures n == 0 ==> result == 0
  {
    var m := n;
    result := 0;
    while m > 1
      invariant n > 0 ==> m > 0 && m * Pow2(result) <= n < (m + 1) * Pow2(result)
      invariant n == 0 ==> m == 0 && result == 0
      decreases m
    {
      HalveStep(n, m, Pow2(result));
      m := m / 2;
      result := result + 1;
    }
  }

  lemma HalveStep(n: nat, m: nat, p: nat)
    requires m * p <= n < (m + 1) * p
    ensures (m / 2) * (2 * p) <= n < (m / 2 + 1) * (2 * p)
  {
    MulMonotone(2 * (m / 2), m, p);
    MulMonotone(m + 1, 2 * (m / 2 + 1), p);
    MulAssoc(m / 2, 2, p);
    MulAssoc(m / 2 + 1, 2, p);
  }

  /** c/util/util.h ceil_log2: the least exponent whose power of two reaches n. */
  method CeilLog2(n: U64) returns (l: nat)
    ensures IsCeilLog2(n, l)
  {
    var floor := FloorLog2(n);
    l := if n > Pow2(floor) then floor + 1 else floor;
  }

  predicate IsCeilLog2(n: nat, l: nat) {
    n <= Pow2(l) && (l > 0 ==> Pow2(l - 1) < n)
  }

  // The two shift amounts, with the unsigned wrap-around of `l - 1`.
  function Shift1(l: nat): nat { if l < 1 then l else 1 }
  function Shift2(l: nat): nat { if Sub(l, 1) > 0 then Sub(l, 1) else 0 }

  /** The set-up is meaningful for exactly the divisors 2 .. 2^63: those are the ones for
      which neither the shift by l nor the later shift by shift2 reaches the word size. */
  lemma PrepDefinedIff(d: U64, l: nat)
    requires d > 0 && IsCeilLog2(d, l)
    ensures l < 64 && Shift2(l) < 64 <==> 2 <= d <= 0x8000_0000_0000_0000
  {
    Pow2Literals();
    if l >= 64 {
      Pow2Monotone(63, l - 1);
    } else {
      Pow2Monotone(l, 63);
    }
  }

  /** c/util/util.h prep_ct_div.  The stored multiplier plus 2^64 is the smallest integer
      above 2^(64+l) / d; the quotient fits a word and so does one more than it. */
  method PrepCtDiv(d: U64) returns (mPrime: U64, shift1: nat, shift2: nat, ghost l: nat)
    requires 2 <= d <= 0x8000_0000_0000_0000
    ensures IsCeilLog2(d, l) && 1 <= l <= 63 && shift1 == 1 && shift2 == l - 1
    ensures mPrime == (0x1_0000_0000_0000_0000 * (Pow2(l) - d)) / d + 1
  {
    var k := CeilLog2(d);
    l := k;
    PrepDefinedIff(d, k);
    assert Pow2(0) == 1;
    assert Pow2(l) == 2 * Pow2(l - 1);
    var dividend := 0x1_0000_0000_0000_0000 * (Pow2(k) - d);
    MultiplierFits(d, Pow2(k));
    var q := WideDivision.Div128By64(dividend, d);
    mPrime := 1 + q;
    shift1 := Shift1(k);
    shift2 := Shift2(k);
  }

  lemma MultiplierFits(d: nat, p: nat)
    requires 2 <= d <= p < 2 * d
    ensures 0x1_0000_0000_0000_0000 * (p - d) < d * 0x1_0000_0000_0000_0000
    ensures d <= 0x8000_0000_0000_0000 ==> (0x1_0000_0000_0000_0000 * (p - d)) / d + 1 < 0x1_0000_0000_0000_0000
  {
    var n := 0x1_0000_0000_0000_0000 * (p - d);
    assert n <= (d - 1) * 0x1_0000_0000_0000_0000;
    if d <= 0x8000_0000_0000_0000 {
      assert (0x1_0000_0000_0000_0000 - 1) * d == 0x1_0000_0000_0000_0000 * d - d;
      DivLess(n, 0x1_0000_0000_0000_0000 - 1, d);
    }
  }

  // Theorem 4.2 of Granlund and Montgomery: a multiplier slightly above P / d, off by at
  // most P / 2^64 after scaling, divides every word exactly.
  lemma MultiplyDivides(n: nat, d: nat, m: nat, P: nat, k: nat)
    requires d > 0 && P > 0 && m * d == P + k && n * k < P
    ensures (m * n) / P == n / d
  {
    var q := n / d;
    DivMulBounds(n, d);
    ScaledProduct(n, d, m, P, k);
    QuotientBelow(n, d, m, P, k, q);
    QuotientAbove(n, d, m, P, k, q);
    QuotientUnique(m * n, P, q);
  }

  lemma ScaledProduct(n: nat, d: nat, m: nat, P: nat, k: nat)
    requires m * d == P + k
    ensures (m * n) * d == n * P + n * k
  {
    assert (m * n) * d == n * (m * d);
    assert n * (P + k) == n * P + n * k;
  }

  lemma QuotientBelow(n: nat, d: nat, m: nat, P: nat, k: nat, q: nat)
    requires d > 0 && (m * n) * d == n * P + n * k && q * d <= n
    ensures q * P <= m * n
  {
    MulMonotone(q * d, n, P);
    assert (q * d) * P == (q * P) * d;
    CancelLeq(q * P, m * n, d);
  }

  lemma QuotientAbove(n: nat, d: nat, m: nat, P: nat, k: nat, q: nat)
    requires d > 0 && (m * n) * d == n * P + n * k && n * k < P && n < (q + 1) * d
    ensures m * n < (q + 1) * P
  {
    MulMonotone(n + 1, (q + 1) * d, P);
    assert (n + 1) * P == n * P + P;
    assert ((q + 1) * d) * P == ((q + 1) * P) * d;
    CancelLess(m * n, (q + 1) * P, d);
  }

  lemma CancelLeq(a: int, b: int, d: int)
    requires d > 0 && a * d <= b * d
    ensures a <= b
  {
    if a > b { MulMonotone(b + 1, a, d); }
  }

  lemma CancelLess(a: int, b: int, d: int)
    requires d > 0 && a * d < b * d
    ensures a < b
  {
    if a >= b { MulMonotone(b, a, d); }
  }

  // m = 2^64 + m' lies above 2^(64+l) / d by at most 1.
  lemma MultiplierNearMiss(d: nat, p: nat, mPrime: nat) returns (k: nat)
    requires 0 < d <= p && mPrime == (0x1_0000_0000_0000_0000 * (p - d)) / d + 1
    ensures 0 < k <= d && (0x1_0000_0000_0000_0000 + mPrime) * d == 0x1_0000_0000_0000_0000 * p + k
  {
    var n := 0x1_0000_0000_0000_0000 * (p - d);
    k := d - n % d;
    assert n == (mPrime - 1) * d + n % d;
    assert mPrime * d == (mPrime - 1) * d + d;
    assert (0x1_0000_0000_0000_0000 + mPrime) * d == 0x1_0000_0000_0000_0000 * d + mPrime * d;
  }

  /** c/util/util.h muluh64. */
  function MulUh64(a: nat, b: nat): nat {
    (a * b) / 0x1_0000_0000_0000_0000
  }

  /** c/util/util.h ct_div and ct_mod, in wrapping words. */
  function CtDiv(n: U64, mPrime: U64, shift1: nat, shift2: nat): nat {
    var t1 := MulUh64(mPrime, n);
    Shr(Add(t1, Shr(Sub(n, t1), shift1)), shift2)
  }

  function CtMod(n: U64, d: U64, mPrime: U64, shift1: nat, shift2: nat): nat {
    Sub(n, Mul(CtDiv(n, mPrime, shift1, shift2), d))
  }

  // No step of ct_div wraps, and the three steps together are one exact division.
  lemma CtDivIsOneDivision(n: U64, mPrime: U64, l: nat)
    requires 1 <= l
    ensures MulUh64(mPrime, n) <= n
    ensures CtDiv(n, mPrime, 1, l - 1) == ((0x1_0000_0000_0000_0000 + mPrime) * n) / (0x1_0000_0000_0000_0000 * Pow2(l))
  {
    hide *;
    HighHalfBelow(mPrime, n);
    AddHigh(n, mPrime);
    var t1 := MulUh64(mPrime, n);
    CtDivSteps(n, mPrime, t1, l);
    FoldShifts((0x1_0000_0000_0000_0000 + mPrime) * n, Pow2(l - 1));
    Pow2Double(l - 1);
  }

  // No step wraps: the two additions halve n + t1, the last shift divides.
  lemma CtDivSteps(n: U64, mPrime: U64, t1: nat, l: nat)
    requires t1 == MulUh64(mPrime, n) <= n && 1 <= l
    ensures CtDiv(n, mPrime, 1, l - 1) == (n + t1) / 2 / Pow2(l - 1)
  {
    hide MulUh64, Pow2, Shr, Add, Sub;
    SubExact(n, t1);
    ShrOne(n - t1);
    HalveSum(n, t1);
    AddExact(t1, (n - t1) / 2);
    ShrIsDiv((n + t1) / 2, l - 1);
  }

  lemma ShrOne(x: nat)
    ensures Shr(x, 1) == x / 2
  {
    assert Shr(x / 2, 0) == x / 2;
  }

  lemma HalveSum(n: nat, t: nat)
    requires t <= n
    ensures t + (n - t) / 2 == (n + t) / 2 <= n
  {
  }

  lemma HighHalfBelow(a: U64, b: U64)
    ensures MulUh64(a, b) <= b
  {
    var x := a * b;
    assert x <= 0x1_0000_0000_0000_0000 * b by { MulMonotone(a, 0x1_0000_0000_0000_0000, b); }
  }

  lemma AddHigh(n: nat, m: nat)
    ensures n + MulUh64(m, n) == ((0x1_0000_0000_0000_0000 + m) * n) / 0x1_0000_0000_0000_0000
  {
    var x := m * n;
    assert (0x1_0000_0000_0000_0000 + m) * n == 0x1_0000_0000_0000_0000 * n + x;
  }

  lemma FoldShifts(a: nat, p: nat)
    requires p > 0
    ensures a / 0x1_0000_0000_0000_0000 / 2 / p == a / (0x1_0000_0000_0000_0000 * (2 * p))
  {
    DivDiv(a / 0x1_0000_0000_0000_0000, 2, p);
    DivDiv(a, 0x1_0000_0000_0000_0000, 2 * p);
  }

  /** With the constants of prep_ct_div(d), ct_div is `/` and ct_mod is `%`, for every word n. */
  lemma CtDivModExact(n: U64, d: U64, l: nat, mPrime: U64)
    requires 2 <= d && IsCeilLog2(d, l)
    requires mPrime == (0x1_0000_0000_0000_0000 * (Pow2(l) - d)) / d + 1
    ensures CtDiv(n, mPrime, 1, l - 1) == n / d
    ensures CtMod(n, d, mPrime, 1, l - 1) == n % d
  {
    hide *;
    assert l >= 1 && d <= Pow2(l) by { OneIsZeroth(d, l); }
    CtDivIsOneDivision(n, mPrime, l);
    var k := MultiplierNearMiss(d, Pow2(l), mPrime);
    ErrorTooSmall(n, k, d, Pow2(l));
    MultiplyDivides(n, d, 0x1_0000_0000_0000_0000 + mPrime, 0x1_0000_0000_0000_0000 * Pow2(l), k);
    ModFromDiv(n, d, mPrime, l - 1);
  }

  lemma OneIsZeroth(d: nat, l: nat)
    requires 2 <= d && IsCeilLog2(d, l)
    ensures l >= 1 && d <= Pow2(l)
  {
  }

  lemma ErrorTooSmall(n: U64, k: nat, d: nat, p: nat)
    requires 0 < k <= d <= p
    ensures n * k < 0x1_0000_0000_0000_0000 * p
  {
    MulMonotone(n + 1, 0x1_0000_0000_0000_0000, k);
    assert (n + 1) * k == n * k + k;
  }

  lemma ModFromDiv(n: U64, d: U64, mPrime: U64, shift2: nat)
    requires d > 0 && CtDiv(n, mPrime, 1, shift2) == n / d
    ensures CtMod(n, d, mPrime, 1, shift2) == n % d
  {
    hide CtDiv;
    var x := (n / d) * d;
    assert n == x + n % d;
    assert Mul(n / d, d) == x;
  }

  /** The whole path: set up for d, then divide and reduce every n. */
  method DivideBy(d: U64, n: U64) returns (q: nat, r: nat)
    requires 2 <= d <= 0x8000_0000_0000_0000
    ensures q == n / d && r == n % d
  {
    var mPrime, shift1, shift2, l := PrepCtDiv(d);
    CtDivModExact(n, d, l, mPrime);
    q := CtDiv(n, mPrime, shift1, shift2);
    r := CtMod(n, d, mPrime, shift1, shift2);
  }
}
