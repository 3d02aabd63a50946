/** The 128-by-64-bit division of c/util/uint128div.c: Knuth's Algorithm D with two
    base-2^32 digits.  Every word operation wraps as in C; the contracts show that
    the wrapping never changes the answer. */
module WideDivision {
  import opened Words

  // Number of leading zero bits of a non-zero word.
  function Clz(v: nat): (s: nat)
    requires 0 < v < 0x1_0000_0000_0000_0000
    ensures s < 64 && 0x8000_0000_0000_0000 <= v * Pow2(s) < 0x1_0000_0000_0000_0000
    decreases 0x1_0000_0000_0000_0000 - v
  {
    if v >= 0x8000_0000_0000_0000 then 0
    else
      var r := Clz(2 * v);
      MulAssoc(v, 2, Pow2(r));
      ClzBound(v, r + 1);
      r + 1
  }

  lemma ClzBound(v: nat, s: nat)
    requires v > 0 && v * Pow2(s) < 0x1_0000_0000_0000_0000
    ensures s < 64
  {
    if s >= 64 {
      Pow2Literals();
      Pow2Monotone(64, s);
      MulMonotone(1, v, Pow2(s));
    }
  }

  // The true quotient digit.
  function Digit(u: nat, low: nat, v1: nat, v0: nat): nat
    requires v1 > 0
  {
    DivNonNeg(u * 0x1_0000_0000 + low, v1 * 0x1_0000_0000 + v0);
    (u * 0x1_0000_0000 + low) / (v1 * 0x1_0000_0000 + v0)
  }

  /** The test `left > right` asks exactly whether the guess exceeds the true digit. */
  lemma GuessTooBig(u: nat, low: nat, v1: nat, v0: nat, q: nat, r: nat)
    requires q * v1 + r == u && v1 > 0
    ensures q * v0 > r * 0x1_0000_0000 + low <==> q > Digit(u, low, v1, v0)
  {
    var v := v1 * 0x1_0000_0000 + v0;
    var n := u * 0x1_0000_0000 + low;
    assert q * v == (q * v1) * 0x1_0000_0000 + q * v0;
    assert q * v - n == q * v0 - r * 0x1_0000_0000 - low;
    ProductAbove(q, n, v);
  }

  lemma ProductAbove(q: nat, n: nat, v: nat)
    requires v > 0
    ensures q * v > n <==> q > n / v
  {
    DivMulBounds(n, v);
    var t := n / v;
    if q > t { MulMonotone(t + 1, q, v); } else { MulMonotone(q, t, v); }
  }

  lemma DigitBelowBase(u: nat, low: nat, v1: nat, v0: nat)
    requires v1 > 0 && u < v1 * 0x1_0000_0000 + v0 && low < 0x1_0000_0000
    ensures Digit(u, low, v1, v0) < 0x1_0000_0000
  {
    var v := v1 * 0x1_0000_0000 + v0;
    MulMonotone(u + 1, v, 0x1_0000_0000);
    DivLess(u * 0x1_0000_0000 + low, 0x1_0000_0000, v);
  }

  lemma FirstGuess(u: nat, v1: nat, v0: nat)
    requires 0x8000_0000 <= v1 < 0x1_0000_0000 && v0 < 0x1_0000_0000 && u < v1 * 0x1_0000_0000 + v0
    ensures u / v1 <= 0x1_0000_0000 + 1 && (u / v1) * v0 < 0x1_0000_0000_0000_0000
  {
    assert v0 < 2 * v1;
    assert u < (0x1_0000_0000 + 2) * v1;
    DivLess(u, 0x1_0000_0000 + 2, v1);
    MulMonotone(u / v1, 0x1_0000_0000 + 1, v0);
  }

  // Leaving the loop with rhat >= base means the guess cannot be too big any more.
  lemma BigRemainder(u: nat, low: nat, v1: nat, v0: nat, q: nat, r: nat)
    requires q * v1 + r == u && v1 > 0 && r >= 0x1_0000_0000 && q <= 0x1_0000_0000 && v0 < 0x1_0000_0000
    ensures q <= Digit(u, low, v1, v0)
  {
    hide Digit;
    MulMonotone(q, 0x1_0000_0000, v0);
    MulMonotone(0x1_0000_0000, r, 0x1_0000_0000);
    GuessTooBig(u, low, v1, v0, q, r);
  }

  // What one trip through the correction loop changes.
  lemma CorrectionStep(u: nat, low: nat, v1: nat, v0: nat, q: nat, r: nat)
    requires q > 0 && Times(q, v1) + r == u && v1 > 0 && low < 0x1_0000_0000 && v0 < 0x1_0000_0000
    ensures Times(q - 1, v1) + (r + v1) == u && Times(q - 1, v0) == Times(q, v0) - v0
    ensures Times(q - 1, v0) > (r + v1) * 0x1_0000_0000 + low <==> q - 1 > Digit(u, low, v1, v0)
    ensures r + v1 >= 0x1_0000_0000 && q - 1 <= 0x1_0000_0000 ==> q - 1 <= Digit(u, low, v1, v0)
  {
    hide Digit;
    assert q * v1 == (q - 1) * v1 + v1;
    GuessTooBig(u, low, v1, v0, q - 1, r + v1);
    if r + v1 >= 0x1_0000_0000 && q - 1 <= 0x1_0000_0000 { BigRemainder(u, low, v1, v0, q - 1, r + v1); }
  }

  lemma StartGuess(u: nat, low: nat, v1: nat, v0: nat)
    requires 0x8000_0000 <= v1 < 0x1_0000_0000 && v0 < 0x1_0000_0000 && low < 0x1_0000_0000 && u < v1 * 0x1_0000_0000 + v0
    ensures Times(u / v1, v1) + u % v1 == u && Times(u / v1, v0) < 0x1_0000_0000_0000_0000
    ensures Digit(u, low, v1, v0) <= u / v1 <= 0x1_0000_0000 + 1 && Digit(u, low, v1, v0) < 0x1_0000_0000
    ensures Times(u / v1, v0) > (u % v1) * 0x1_0000_0000 + low <==> u / v1 > Digit(u, low, v1, v0)
  {
    hide Digit;
    DigitBelowBase(u, low, v1, v0);
    FirstGuess(u, v1, v0);
    GuessAtLeast(u, low, v1, v0);
    GuessTooBig(u, low, v1, v0, u / v1, u % v1);
  }

  /** One unrolled digit: guess from the leading divisor digit, then correct downwards.
      The result is the true quotient digit, found after at most two corrections. */
  method QuotientDigit(u: U64, low: U32, v1: U32, v0: U32) returns (q: U64, ghost corrections: nat)
    requires 0x8000_0000 <= v1 && u < v1 * 0x1_0000_0000 + v0
    ensures q == Digit(u, low, v1, v0) < 0x1_0000_0000
    ensures corrections <= 2
  {
    hide *;
    StartGuess(u, low, v1, v0);
    q := u / v1;
    var rhat: U64 := u % v1;
    MulExact(q, v0);
    AddExact(rhat * 0x1_0000_0000, low);
    var left, right := Mul(q, v0), Add(rhat * 0x1_0000_0000, low);
    corrections := 0;
    while q >= 0x1_0000_0000 || left > right
      invariant Times(q, v1) + rhat == u && left == Times(q, v0)
      invariant Digit(u, low, v1, v0) <= q <= 0x1_0000_0001
      invariant rhat >= corrections * 0x8000_0000 && rhat < 0x1_0000_0000
      invariant right == rhat * 0x1_0000_0000 + low
      invariant left > right <==> q > Digit(u, low, v1, v0)
      decreases q
    {
      CorrectionStep(u, low, v1, v0, q, rhat);
      q := q - 1;
      rhat := rhat + v1;
      corrections := corrections + 1;
      if rhat < 0x1_0000_0000 {
        SubExact(left, v0);
        left := Sub(left, v0);
        AddExact(rhat * 0x1_0000_0000, low);
        right := Add(rhat * 0x1_0000_0000, low);
      } else {
        break;
      }
    }
  }

  lemma GuessAtLeast(u: nat, low: nat, v1: nat, v0: nat)
    requires v1 > 0 && low < 0x1_0000_0000
    ensures Digit(u, low, v1, v0) <= u / v1
  {
    var v, n, q := v1 * 0x1_0000_0000 + v0, u * 0x1_0000_0000 + low, u / v1;
    DivMulBounds(u, v1);
    assert u + 1 <= (q + 1) * v1;
    MulMonotone(u + 1, (q + 1) * v1, 0x1_0000_0000);
    MulAssoc(q + 1, v1, 0x1_0000_0000);
    assert n < (q + 1) * (v1 * 0x1_0000_0000);
    MulMonotone(v1 * 0x1_0000_0000, v, q + 1);
    assert n < (q + 1) * v;
    DivLess(n, q + 1, v);
  }

  lemma LongDivision(u: nat, l1: nat, l0: nat, v: nat)
    requires v > 0 && l0 < 0x1_0000_0000
    ensures var q1, r := (u * 0x1_0000_0000 + l1) / v, (u * 0x1_0000_0000 + l1) % v;
      ((u * 0x1_0000_0000 + l1) * 0x1_0000_0000 + l0) / v == q1 * 0x1_0000_0000 + (r * 0x1_0000_0000 + l0) / v
  {
    var n := u * 0x1_0000_0000 + l1;
    var q1, r := n / v, n % v;
    var q0 := (r * 0x1_0000_0000 + l0) / v;
    assert n == q1 * v + r;
    assert n * 0x1_0000_0000 + l0 == (q1 * v) * 0x1_0000_0000 + (r * 0x1_0000_0000 + l0);
    assert (q1 * v) * 0x1_0000_0000 == (q1 * 0x1_0000_0000) * v;
    DivMulBounds(r * 0x1_0000_0000 + l0, v);
    assert (q1 * 0x1_0000_0000 + q0) * v == (q1 * 0x1_0000_0000) * v + q0 * v;
    QuotientUnique(n * 0x1_0000_0000 + l0, v, q1 * 0x1_0000_0000 + q0);
  }

  // Scaling dividend and divisor by the same factor keeps the quotient.
  lemma Normalise(n: nat, v: nat, p: nat)
    requires v > 0 && p > 0
    ensures v * p > 0 && (n * p) / (v * p) == n / v
  {
    var q := n / v;
    DivMulBounds(n, v);
    MulMonotone(q * v, n, p);
    MulMonotone(n + 1, (q + 1) * v, p);
    MulAssoc(q, v, p);
    MulAssoc(q + 1, v, p);
    assert (n + 1) * p == n * p + p;
    assert v * p > 0;
    QuotientUnique(n * p, v * p, q);
  }

  // The low half of the dividend, shifted: what leaves at the top and what stays.
  lemma ShiftLow(u0: U64, p: nat, c: nat)
    requires p > 0 && c > 0 && p * c == 0x1_0000_0000_0000_0000
    ensures u0 / c < p && (u0 * p) / 0x1_0000_0000_0000_0000 == u0 / c
  {
    DivLess(u0, p, c);
    Normalise(u0, c, p);
    assert c * p == p * c;
  }

  // The two shifted halves hold exactly the shifted dividend.
  lemma ShiftDividend(u1: U64, u0: U64, v: U64, s: nat)
    requires u1 < v && v * Pow2(s) < 0x1_0000_0000_0000_0000 && 0 < s < 64
    ensures Or(Shl(u1, s), Shr(u0, 64 - s)) < v * Pow2(s)
    ensures Or(Shl(u1, s), Shr(u0, 64 - s)) * 0x1_0000_0000_0000_0000 + Shl(u0, s)
         == (u1 * 0x1_0000_0000_0000_0000 + u0) * Pow2(s)
  {
    hide *;
    var p, c := Pow2(s), Pow2(64 - s);
    assert p * c == 0x1_0000_0000_0000_0000 by {
      Pow2Add(s, 64 - s);
      Pow2Literals();
    }
    ShiftLow(u0, p, c);
    var t := u0 / c;
    assert u1 * p + p <= v * p by { MulMonotone(u1 + 1, v, p); assert (u1 + 1) * p == u1 * p + p; }
    ShlExact(u1, s);
    OrDisjoint(u1, s, t);
    ShrShlDef(u0, s);
    SplitScaled(u1, u0, p);
  }

  lemma ShrShlDef(u: nat, s: nat)
    requires s <= 64
    ensures Shr(u, 64 - s) == u / Pow2(64 - s) && Shl(u, s) == (u * Pow2(s)) % 0x1_0000_0000_0000_0000
  {
    ShrIsDiv(u, 64 - s);
  }

  lemma SplitScaled(u1: nat, u0: nat, p: nat)
    ensures (u1 * 0x1_0000_0000_0000_0000 + u0) * p
         == (u1 * p + (u0 * p) / 0x1_0000_0000_0000_0000) * 0x1_0000_0000_0000_0000
            + (u0 * p) % 0x1_0000_0000_0000_0000
  {
    assert (u1 * 0x1_0000_0000_0000_0000 + u0) * p == (u1 * p) * 0x1_0000_0000_0000_0000 + u0 * p;
  }

  // The wrapped computation of the partial remainder is the true remainder.
  lemma PartialRemainder(u: U64, low: U32, q: nat, w: U64, r: nat)
    requires u * 0x1_0000_0000 + low == q * w + r && r < 0x1_0000_0000_0000_0000
    ensures Add(Mul(u, 0x1_0000_0000), Sub(low, Mul(q, w))) == r
  {
    ModChain(u * 0x1_0000_0000, low, q * w, r);
  }

  lemma ModChain(x: nat, low: nat, m: nat, r: nat)
    requires x + low == m + r && r < 0x1_0000_0000_0000_0000
    ensures Add(x % 0x1_0000_0000_0000_0000, Sub(low, m % 0x1_0000_0000_0000_0000)) == r
  {
    var k, j := x / 0x1_0000_0000_0000_0000, m / 0x1_0000_0000_0000_0000;
    var y := low - m % 0x1_0000_0000_0000_0000;
    var z := x % 0x1_0000_0000_0000_0000 + y % 0x1_0000_0000_0000_0000;
    assert z == r + (j - k - y / 0x1_0000_0000_0000_0000) * 0x1_0000_0000_0000_0000;
  }

  /** c/util/uint128div.c divmod128by64: the exact quotient of the 128-bit dividend. */
  method DivMod128By64(u1: U64, u0: U64, v: U64) returns (q: U64)
    requires u1 < v
    ensures q == (u1 * 0x1_0000_0000_0000_0000 + u0) / v
  {
    hide *;
    var s := Clz(v);
    var w: U64 := Shl(v, s);
    ShlExact(v, s);
    var u32: U64, u10: U64;
    if s > 0 {
      ShiftDividend(u1, u0, v, s);
      u32 := Or(Shl(u1, s), Shr(u0, 64 - s));
      u10 := Shl(u0, s);
    } else {
      ShlExact(v, 0);
      u32, u10 := u1, u0;
    }
    q := DivideNormalised(u32, u10, w);
    Normalise(u1 * 0x1_0000_0000_0000_0000 + u0, v, Pow2(s));
  }

  // Its two digits, once the divisor has its high bit set.
  method DivideNormalised(u32: U64, u10: U64, w: U64) returns (q: U64)
    requires u32 < w && 0x8000_0000_0000_0000 <= w
    ensures q == (u32 * 0x1_0000_0000_0000_0000 + u10) / w
  {
    hide *;
    var v1: U32, v0: U32 := w / 0x1_0000_0000, w % 0x1_0000_0000;
    var low1: U32, low0: U32 := u10 / 0x1_0000_0000, u10 % 0x1_0000_0000;
    var q1, _ := QuotientDigit(u32, low1, v1, v0);
    DigitIsQuotient(u32, low1, v1, v0, w);
    PartialRemainder(u32, low1, q1, w, (u32 * 0x1_0000_0000 + low1) % w);
    var u21 := Add(Mul(u32, 0x1_0000_0000), Sub(low1, Mul(q1, w)));
    var q0, _ := QuotientDigit(u21, low0, v1, v0);
    DigitIsQuotient(u21, low0, v1, v0, w);
    JoinDigits(q1, q0);
    q := Or(Shl(q1, 32), q0);
    LongDivision(u32, low1, low0, w);
  }

  lemma ShlExact(v: nat, s: nat)
    requires v * Pow2(s) < 0x1_0000_0000_0000_0000
    ensures Shl(v, s) == v * Pow2(s) && Pow2(0) == 1
  {
  }

  lemma JoinDigits(q1: U32, q0: U32)
    ensures Or(Shl(q1, 32), q0) == q1 * 0x1_0000_0000 + q0
  {
    hide *;
    Pow2Literals();
    OrDisjoint(q1, 32, q0);
    ShlExact(q1, 32);
  }

  lemma DigitIsQuotient(u: nat, low: nat, v1: nat, v0: nat, w: nat)
    requires v1 > 0 && w == v1 * 0x1_0000_0000 + v0
    ensures Digit(u, low, v1, v0) == (u * 0x1_0000_0000 + low) / w
    ensures u * 0x1_0000_0000 + low == Digit(u, low, v1, v0) * w + (u * 0x1_0000_0000 + low) % w
    ensures (u * 0x1_0000_0000 + low) % w < w
  {
  }

  /** c/util/uint128div.c div128by64: split the 128-bit dividend and divide. */
  method Div128By64(u: nat, v: U64) returns (q: U64)
    requires u < v * 0x1_0000_0000_0000_0000
    ensures q == u / v
  {
    DivLess(u, v, 0x1_0000_0000_0000_0000);
    q := DivMod128By64(u / 0x1_0000_0000_0000_0000, u % 0x1_0000_0000_0000_0000, v);
  }
}
