/** Machine words as bounded naturals: powers of two, wrapping arithmetic, shifts and
    bitwise operators, with the facts that relate the bitwise ones to plain arithmetic. */
module Words {
  const U64_MAX: nat := 0xFFFF_FFFF_FFFF_FFFF
  const INT_MAX: nat := 0x7FFF_FFFF

  type Byte = x: nat | x < 256
  type U32 = x: nat | x < 0x1_0000_0000
  type U64 = x: nat | x < 0x1_0000_0000_0000_0000

  function Pow2(k: nat): (p: nat)
    ensures p > 0
  {
    if k == 0 then 1 else 2 * Pow2(k - 1)
  }

  // ----- wrapping arithmetic and shifts of 64-bit words

  function Add(a: nat, b: nat): U64 { (a + b) % 0x1_0000_0000_0000_0000 }
  function Sub(a: nat, b: nat): U64 { (a - b) % 0x1_0000_0000_0000_0000 }
  function Mul(a: nat, b: nat): U64 { (a * b) % 0x1_0000_0000_0000_0000 }
  function Shl(a: nat, k: nat): U64 { (a * Pow2(k)) % 0x1_0000_0000_0000_0000 }
  function Shr(a: nat, k: nat): nat { if k == 0 then a else Shr(a / 2, k - 1) }

  lemma {:induction false} ShrIsDiv(a: nat, k: nat)
    ensures Shr(a, k) == a / Pow2(k)
  {
    if k != 0 {
      ShrIsDiv(a / 2, k - 1);
      DivDiv(a, 2, Pow2(k - 1));
    }
  }


  function Max(a: nat, b: nat): nat { if a > b then a else b }

  // A product kept as an uninterpreted term where its value is not needed.
  function Times(a: nat, b: nat): nat { a * b }

  lemma AddExact(a: nat, b: nat)
    requires a + b < 0x1_0000_0000_0000_0000
    ensures Add(a, b) == a + b
  {
  }

  lemma SubExact(a: nat, b: nat)
    requires b <= a < 0x1_0000_0000_0000_0000
    ensures Sub(a, b) == a - b
  {
  }

  lemma MulExact(a: nat, b: nat)
    requires Times(a, b) < 0x1_0000_0000_0000_0000
    ensures Mul(a, b) == Times(a, b)
  {
  }

  // ----- bitwise operators, bit by bit

  function And(a: nat, b: nat): (r: nat)
    ensures r <= a && r <= b
  {
    if a == 0 || b == 0 then 0 else 2 * And(a / 2, b / 2) + (if a % 2 == 1 && b % 2 == 1 then 1 else 0)
  }

  function Or(a: nat, b: nat): (r: nat)
    ensures r >= a && r >= b && r <= a + b
    decreases a + b
  {
    if a == 0 then b else if b == 0 then a
    else 2 * Or(a / 2, b / 2) + (if a % 2 == 1 || b % 2 == 1 then 1 else 0)
  }

  function Xor(a: nat, b: nat): (r: nat)
    ensures r <= a + b
    decreases a + b
  {
    if a == 0 then b else if b == 0 then a
    else 2 * Xor(a / 2, b / 2) + (if a % 2 != b % 2 then 1 else 0)
  }

  // ----- powers of two

  lemma {:induction false} Pow2Add(a: nat, b: nat)
    ensures Pow2(a + b) == Pow2(a) * Pow2(b)
  {
    if a != 0 {
      Pow2Add(a - 1, b);
      MulAssoc(2, Pow2(a - 1), Pow2(b));
    }
  }

  lemma {:induction false} Pow2Monotone(a: nat, b: nat)
    requires a <= b
    ensures Pow2(a) <= Pow2(b)
    decreases b
  {
    if a < b { Pow2Monotone(a, b - 1); }
  }

  lemma Pow2Literals()
    ensures Pow2(7) == 128 && Pow2(32) == 0x1_0000_0000
    ensures Pow2(63) == 0x8000_0000_0000_0000 && Pow2(64) == 0x1_0000_0000_0000_0000
  {
    assert Pow2(2) == 4;
    hide Pow2;
    Pow2Square(2, 4);
    Pow2Square(4, 16);
    Pow2Square(8, 0x100);
    Pow2Square(16, 0x1_0000);
    Pow2Square(32, 0x1_0000_0000);
    Pow2Double(7);
    Pow2Double(63);
  }

  lemma Pow2Square(k: nat, v: nat)
    requires Pow2(k) == v
    ensures Pow2(2 * k) == v * v
  {
    Pow2Add(k, k);
  }

  lemma Pow2Double(k: nat)
    ensures Pow2(k + 1) == 2 * Pow2(k)
  {
  }

  // ----- nonlinear helpers

  lemma MulAssoc(a: int, b: int, c: int)
    ensures (a * b) * c == a * (b * c)
  {
  }

  lemma MulMonotone(a: int, b: int, c: int)
    requires a <= b && 0 <= c
    ensures a * c <= b * c
  {
  }

  // q is the quotient as soon as the dividend lies in q's bucket.
  lemma QuotientUnique(a: int, d: int, q: int)
    requires d > 0 && q * d <= a < (q + 1) * d
    ensures a / d == q
  {
    var t := a / d;
    assert a == t * d + a % d;
    if t < q { MulMonotone(t + 1, q, d); }
    if t > q { MulMonotone(q + 1, t, d); }
  }

  lemma DivNonNeg(a: nat, d: nat)
    requires d > 0
    ensures a / d >= 0
  {
    DivMulBounds(a, d);
    if a / d <= -1 { MulMonotone(a / d + 1, 0, d); }
  }

  lemma DivMulBounds(a: int, d: int)
    requires d > 0
    ensures (a / d) * d <= a < (a / d + 1) * d
  {
  }

  lemma DivDiv(a: nat, b: nat, c: nat)
    requires b > 0 && c > 0
    ensures b * c > 0 && a / b / c == a / (b * c)
  {
    var q := a / b / c;
    DivMulBounds(a, b);
    DivMulBounds(a / b, c);
    MulMonotone(q * c, a / b, b);
    MulMonotone(a / b + 1, (q + 1) * c, b);
    MulAssoc(q, c, b);
    MulAssoc(q + 1, c, b);
    assert b * c > 0;
    assert c * b == b * c;
    QuotientUnique(a, b * c, q);
  }

  lemma DivLess(a: nat, b: nat, d: nat)
    requires d > 0 && a < b * d
    ensures a / d < b
  {
    DivMulBounds(a, d);
    if a / d >= b { MulMonotone(b, a / d, d); }
  }

  // ----- bitwise against arithmetic

  // OR of a multiple of 2^k with a number below 2^k is their sum.
  lemma {:induction false} OrDisjoint(h: nat, k: nat, b: nat)
    requires b < Pow2(k)
    ensures Or(h * Pow2(k), b) == h * Pow2(k) + b
    decreases k
  {
    var a := h * Pow2(k);
    if a != 0 && b != 0 {
      assert k > 0;
      MulAssoc(h, 2, Pow2(k - 1));
      assert a == 2 * (h * Pow2(k - 1));
      OrDisjoint(h, k - 1, b / 2);
    }
  }

  // AND with 2^k - 1 keeps the low k bits.
  lemma {:induction false} AndLowMask(a: nat, k: nat)
    ensures And(a, Pow2(k) - 1) == a % Pow2(k)
  {
    if k == 0 {
      AndStep(a, 0);
    } else if a == 0 {
      AndStep(0, Pow2(k) - 1);
      ModUnique(0, Pow2(k), 0, 0);
    } else {
      AndLowMask(a / 2, k - 1);
      Pow2Double(k - 1);
      hide And, Pow2;
      AndMaskStep(a, Pow2(k - 1));
    }
  }

  lemma AndMaskStep(a: nat, p: nat)
    requires a > 0 && p > 0 && And(a / 2, p - 1) == (a / 2) % p
    ensures And(a, 2 * p - 1) == a % (2 * p)
  {
    hide And;
    AndStep(a, 2 * p - 1);
    OddHalf(p);
    ModDouble(a, p);
  }

  lemma {:induction false} AndStep(a: nat, b: nat)
    ensures And(a, b) == if a == 0 || b == 0 then 0 else 2 * And(a / 2, b / 2) + (if a % 2 == 1 && b % 2 == 1 then 1 else 0)
  {
  }

  lemma OddHalf(p: nat)
    requires p > 0
    ensures (2 * p - 1) / 2 == p - 1 && (2 * p - 1) % 2 == 1
  {
  }

  lemma ModDouble(a: nat, p: nat)
    requires p > 0
    ensures a % (2 * p) == 2 * ((a / 2) % p) + a % 2
  {
    var h := a / 2;
    assert h == (h / p) * p + h % p;
    assert a == (h / p) * (2 * p) + (2 * (h % p) + a % 2) by {
      MulAssoc(h / p, 2, p);
      assert (h / p) * (2 * p) == 2 * ((h / p) * p);
    }
    ModUnique(a, 2 * p, h / p, 2 * (h % p) + a % 2);
  }

  lemma ModUnique(a: int, d: int, q: int, r: int)
    requires d > 0 && a == q * d + r && 0 <= r < d
    ensures a / d == q && a % d == r
  {
    QuotientUnique(a, d, q);
    assert a == (a / d) * d + a % d;
  }

  lemma AndMax(a: nat, k: nat)
    requires a < Pow2(k)
    ensures And(a, Pow2(k) - 1) == a
  {
    AndLowMask(a, k);
    ModUnique(a, Pow2(k), 0, a);
  }

  lemma {:induction false} XorZeroSelf(a: nat)
    ensures Xor(a, 0) == a && Xor(0, a) == a && Xor(a, a) == 0
  {
    if a != 0 { XorZeroSelf(a / 2); }
  }

  lemma {:induction false} OrComm(a: nat, b: nat)
    ensures Or(a, b) == Or(b, a)
  {
    if a != 0 && b != 0 { OrComm(a / 2, b / 2); }
  }

  // AND with one bit picks that bit.
  lemma {:induction false} AndBit(a: nat, k: nat)
    ensures And(a, Pow2(k)) == (Shr(a, k) % 2) * Pow2(k)
  {
    if a == 0 {
      ShrZero(k);
    } else if k == 0 {
      assert And(a, 1) == 2 * And(a / 2, 0) + a % 2;
    } else {
      AndBit(a / 2, k - 1);
      AndDouble(a, Pow2(k - 1));
      MulAssoc(2, Shr(a, k) % 2, Pow2(k - 1));
    }
  }

  lemma AndDouble(a: nat, q: nat)
    requires q > 0
    ensures And(a, 2 * q) == 2 * And(a / 2, q)
  {
    AndStep(a, 2 * q);
    hide And;
    assert (2 * q) / 2 == q && (2 * q) % 2 == 0;
    AndNone(q);
  }

  lemma AndNone(b: nat)
    ensures And(0, b) == 0
  {
  }

  lemma {:induction false} ShrZero(k: nat)
    ensures Shr(0, k) == 0
  {
    if k > 0 { ShrZero(k - 1); }
  }

  // The highest bit of a byte.
  lemma ByteHighBit(b: nat)
    requires b < 256
    ensures And(b, 0x80) == if b >= 128 then 128 else 0
  {
    hide And, Shr;
    AndBit(b, 7);
    ShrIsDiv(b, 7);
    Pow2Literals();
  }

  // OR with one bit sets that bit.
  lemma {:induction false} OrBit(v: nat, k: nat)
    ensures Or(v, Pow2(k)) % (2 * Pow2(k)) == v % Pow2(k) + Pow2(k)
  {
    hide Or;
    if k == 0 {
      OrOdd(v);
    } else {
      OrBit(v / 2, k - 1);
      OrEven(v, Pow2(k - 1));
      OrBitStep(v, Pow2(k - 1), Or(v / 2, Pow2(k - 1)));
    }
  }

  lemma OrOdd(v: nat)
    ensures Or(v, 1) % 2 == 1
  {
  }

  lemma OrEven(v: nat, q: nat)
    requires q > 0
    ensures Or(v, 2 * q) == 2 * Or(v / 2, q) + v % 2
  {
  }

  lemma OrBitStep(v: nat, p: nat, a: nat)
    requires p > 0 && a % (2 * p) == (v / 2) % p + p
    ensures (2 * a + v % 2) % (2 * (2 * p)) == v % (2 * p) + 2 * p
  {
    ModDouble(2 * a + v % 2, 2 * p);
    ModDouble(v, p);
  }

  // ----- the branch-free selection U64_TERNARY

  function Ternary(b: bool, t: U64, f: U64): nat {
    var bit := if b then 1 else 0;
    Or(And(Sub(0, bit), t), And(Add(U64_MAX, bit), f))
  }

  lemma {:induction false} AndComm(a: nat, b: nat)
    ensures And(a, b) == And(b, a)
  {
    if a != 0 && b != 0 { AndComm(a / 2, b / 2); }
  }

  // All ones keep a word, all zeros clear it.
  lemma AndOnes(a: U64)
    ensures And(0xFFFF_FFFF_FFFF_FFFF, a) == a && And(0, a) == 0 && And(a, 0xFFFF_FFFF_FFFF_FFFF) == a
  {
    hide And;
    Pow2Literals();
    AndMax(a, 64);
    AndComm(a, 0xFFFF_FFFF_FFFF_FFFF);
    AndZero(a);
  }

  lemma AndZero(a: nat)
    ensures And(0, a) == 0 && And(a, 0) == 0
  {
  }

  /** The masked selection is the conditional it stands for. */
  lemma TernarySelects(b: bool, t: U64, f: U64)
    ensures Ternary(b, t, f) == if b then t else f
  {
    hide And;
    AndOnes(t);
    AndOnes(f);
  }
}
