/** Bitwise operators on natural numbers, and powers of two. */
module Bits {
  type Byte = b: nat | b < 256

  // Two bytes as a little-endian number.
  function Le16(low: nat, high: nat): (n: nat) {
    low + 256 * high
  }

  function Min(a: nat, b: nat): (m: nat) {
    if a < b then a else b
  }

  function Pow2(k: nat): (r: nat)
    ensures 0 < r
  {
    if k == 0 then 1 else 2 * Pow2(k - 1)
  }

  function Xor(a: nat, b: nat): (r: nat) {
    if a == 0 && b == 0 then 0 else (a + b) % 2 + 2 * Xor(a / 2, b / 2)
  }

  function And(a: nat, b: nat): (r: nat) {
    if a == 0 || b == 0 then 0 else (a % 2) * (b % 2) + 2 * And(a / 2, b / 2)
  }

  function Or(a: nat, b: nat): (r: nat) {
    if a == 0 && b == 0 then 0 else OrBit(a % 2, b % 2) + 2 * Or(a / 2, b / 2)
  }

  function OrBit(a: nat, b: nat): (r: nat)
    ensures r < 2
  {
    if a == 1 || b == 1 then 1 else 0
  }

  // Quotients and remainders.

  lemma MulLess(m: nat, a: int, b: int)
    ensures a < b ==> m * a + m <= m * b
  {
    if a < b {
      var d: nat := b - a - 1;
      assert m * b == m * (a + 1 + d) == m * a + m + m * d;
    }
  }

  lemma DivMod(m: nat, q: nat, r: nat)
    requires r < m
    ensures (m * q + r) / m == q && (m * q + r) % m == r
  {
    var n := m * q + r;
    var p := n / m;
    assert n == m * p + n % m;
    MulLess(m, p, q);
    MulLess(m, q, p);
  }

  lemma Halve(bit: nat, x: nat)
    requires bit < 2
    ensures (bit + 2 * x) / 2 == x && (bit + 2 * x) % 2 == bit
  {
  }

  lemma SameParity(x: nat, y: nat, c: nat)
    requires x % 2 == y % 2
    ensures (x + c) % 2 == (y + c) % 2 && (c + x) % 2 == (c + y) % 2
  {
  }

  lemma HalfMod(a: nat, m: nat)
    requires 0 < m
    ensures a % (2 * m) == a % 2 + 2 * ((a / 2) % m)
  {
    var q, r := (a / 2) / m, (a / 2) % m;
    assert a / 2 == m * q + r;
    assert a == (2 * m) * q + (a % 2 + 2 * r);
    DivMod(2 * m, q, a % 2 + 2 * r);
  }

  lemma {:induction false} Pow2Add(a: nat, b: nat)
    ensures Pow2(a + b) == Pow2(a) * Pow2(b)
    decreases b
  {
    if b != 0 {
      Pow2Add(a, b - 1);
      assert Pow2(a + b) == 2 * Pow2(a + (b - 1));
      assert Pow2(a) * (2 * Pow2(b - 1)) == 2 * (Pow2(a) * Pow2(b - 1));
    }
  }

  lemma Pow2Values()
    ensures Pow2(8) == 256 && Pow2(16) == 0x1_0000 && Pow2(24) == 0x100_0000 && Pow2(32) == 0x1_0000_0000
  {
    assert Pow2(4) == 16 && Pow2(12) == 16 * Pow2(8);
    assert Pow2(16) == 16 * Pow2(12) && Pow2(20) == 16 * Pow2(16) && Pow2(24) == 16 * Pow2(20);
    assert Pow2(28) == 16 * Pow2(24) && Pow2(32) == 16 * Pow2(28);
  }

  // Exclusive or.

  lemma XorUnfold(a: nat, b: nat)
    ensures Xor(a, b) == (a + b) % 2 + 2 * Xor(a / 2, b / 2)
  {
  }

  lemma XorHalf(a: nat, b: nat)
    ensures Xor(a, b) % 2 == (a + b) % 2 && Xor(a, b) / 2 == Xor(a / 2, b / 2)
  {
    hide Xor;
    var bit, half := (a + b) % 2, Xor(a / 2, b / 2);
    XorUnfold(a, b);
    assert Xor(a, b) == bit + 2 * half;
    Halve(bit, half);
  }

  lemma {:induction false} XorZero(a: nat)
    ensures Xor(a, 0) == a
  {
    if a != 0 {
      XorZero(a / 2);
    }
  }

  lemma {:induction false} XorComm(a: nat, b: nat)
    ensures Xor(a, b) == Xor(b, a)
  {
    if a != 0 || b != 0 {
      XorComm(a / 2, b / 2);
    }
  }

  lemma {:induction false} XorSelf(a: nat)
    ensures Xor(a, a) == 0
  {
    if a != 0 {
      XorSelf(a / 2);
      Halve(0, a);
    }
  }

  lemma {:induction false} XorAssoc(a: nat, b: nat, c: nat)
    ensures Xor(Xor(a, b), c) == Xor(a, Xor(b, c))
    decreases a + b + c
  {
    if a != 0 || b != 0 || c != 0 {
      XorAssoc(a / 2, b / 2, c / 2);
      XorAssocStep(a, b, c);
    }
  }

  lemma XorAssocStep(a: nat, b: nat, c: nat)
    requires Xor(Xor(a / 2, b / 2), c / 2) == Xor(a / 2, Xor(b / 2, c / 2))
    ensures Xor(Xor(a, b), c) == Xor(a, Xor(b, c))
  {
    hide Xor;
    XorHalf(a, b);
    XorHalf(b, c);
    XorUnfold(Xor(a, b), c);
    XorUnfold(a, Xor(b, c));
    SameParity(Xor(a, b), a + b, c);
    SameParity(Xor(b, c), b + c, a);
    assert (a + b) + c == a + (b + c);
  }

  lemma XorCancel(a: nat, b: nat, c: nat)
    requires Xor(a, b) == Xor(a, c)
    ensures b == c
  {
    hide Xor;
    XorAssoc(a, a, b);
    XorAssoc(a, a, c);
    XorSelf(a);
    XorComm(0, b);
    XorComm(0, c);
    XorZero(b);
    XorZero(c);
  }

  lemma XorDiffers(a: nat, b: nat)
    requires Xor(a, b) == 0
    ensures a == b
  {
    hide Xor;
    XorSelf(a);
    XorCancel(a, b, a);
  }

  lemma {:induction false} XorBound(a: nat, b: nat, k: nat)
    requires a < Pow2(k) && b < Pow2(k)
    ensures Xor(a, b) < Pow2(k)
    decreases k
  {
    if k != 0 {
      XorBound(a / 2, b / 2, k - 1);
      XorUnfold(a, b);
    }
  }

  // Bits that do not overlap.
  lemma {:induction false} XorJoin(high: nat, low: nat, k: nat)
    requires low < Pow2(k)
    ensures Xor(Pow2(k) * high, low) == Pow2(k) * high + low
    decreases k
  {
    hide Xor;
    if k == 0 {
      XorZero(high);
    } else {
      var p := Pow2(k - 1) * high;
      assert Pow2(k) * high == 2 * p;
      XorJoin(high, low / 2, k - 1);
      XorUnfold(2 * p, low);
      Halve(0, p);
      SameParity(2 * p, 0, low);
    }
  }

  // And, or.

  lemma AndUnfold(a: nat, b: nat)
    ensures And(a, b) == (a % 2) * (b % 2) + 2 * And(a / 2, b / 2)
  {
  }

  // Masking with ones keeps the low bits.
  lemma {:induction false} AndOnes(a: nat, k: nat)
    ensures And(a, Pow2(k) - 1) == a % Pow2(k)
    decreases k
  {
    if k != 0 {
      AndOnes(a / 2, k - 1);
      AndOnesStep(a, Pow2(k - 1));
    }
  }

  lemma AndOnesStep(a: nat, m: nat)
    requires 0 < m && And(a / 2, m - 1) == (a / 2) % m
    ensures And(a, 2 * m - 1) == a % (2 * m)
  {
    hide And;
    AndUnfold(a, 1 + 2 * (m - 1));
    Halve(1, m - 1);
    HalfMod(a, m);
  }

  lemma OrUnfold(a: nat, b: nat)
    ensures Or(a, b) == OrBit(a % 2, b % 2) + 2 * Or(a / 2, b / 2)
  {
  }

  lemma {:induction false} OrZero(a: nat)
    ensures Or(a, 0) == a && Or(0, a) == a
  {
    if a != 0 {
      OrZero(a / 2);
    }
  }

  // The bits above and below position `k` are combined separately.
  lemma {:induction false} OrSplit(a: nat, b: nat, x: nat, y: nat, k: nat)
    requires x < Pow2(k) && y < Pow2(k)
    ensures Or(Pow2(k) * a + x, Pow2(k) * b + y) == Pow2(k) * Or(a, b) + Or(x, y)
    decreases k
  {
    hide Or;
    if k == 0 {
      OrZero(0);
    } else {
      var p := Pow2(k - 1);
      var pa, pb := p * a, p * b;
      assert Pow2(k) * a == 2 * pa && Pow2(k) * b == 2 * pb;
      assert Pow2(k) * Or(a, b) == 2 * (p * Or(a, b));
      OrSplit(a, b, x / 2, y / 2, k - 1);
      OrSplitStep(pa, pb, p * Or(a, b), x, y);
    }
  }

  lemma OrSplitStep(a: nat, b: nat, or: nat, x: nat, y: nat)
    requires Or(a + x / 2, b + y / 2) == or + Or(x / 2, y / 2)
    ensures Or(2 * a + x, 2 * b + y) == 2 * or + Or(x, y)
  {
    hide Or;
    OrUnfold(2 * a + x, 2 * b + y);
    OrUnfold(x, y);
    Halve(x % 2, a + x / 2);
    Halve(y % 2, b + y / 2);
  }

  // Bits that do not overlap.
  lemma OrJoin(high: nat, low: nat, k: nat)
    requires low < Pow2(k)
    ensures Or(Pow2(k) * high, low) == Pow2(k) * high + low == Or(low, Pow2(k) * high)
  {
    hide Or;
    OrSplit(high, 0, 0, low, k);
    OrSplit(0, high, low, 0, k);
    OrZero(high);
    OrZero(low);
  }
}
