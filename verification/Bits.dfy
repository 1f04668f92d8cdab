/** Words as natural numbers: powers of two, masks, bitwise or. */
module Bits {
  import opened Arithmetic

  function Pow2(n: nat): (r: nat)
    ensures r >= 1
  {
    if n == 0 then 1 else 2 * Pow2(n - 1)
  }

  lemma {:induction false} Pow2Sum(a: nat, b: nat)
    ensures Pow2(a + b) == Pow2(a) * Pow2(b)
    decreases b
  {
    if b > 0 {
      Pow2Sum(a, b - 1);
      TwiceProduct(Pow2(a), Pow2(b - 1));
    }
  }

  lemma TwiceProduct(x: nat, y: nat)
    ensures x * (2 * y) == 2 * (x * y)
  {
  }

  /** Bitwise or of two words. */
  function Or(a: nat, b: nat): nat {
    if a == 0 && b == 0 then 0
    else 2 * Or(a / 2, b / 2) + (if a % 2 == 1 || b % 2 == 1 then 1 else 0)
  }

  /** The two low bits survive an or. */
  lemma OrKeepsLowBits(a: nat, b: nat)
    requires a % 4 == 3
    ensures Or(a, b) % 4 == 3
  {
    var h := Or(a / 2, b / 2);
    assert a / 2 % 2 == 1;
    assert h % 2 == 1;
    assert Or(a, b) == 2 * h + 1;
  }

  // ----- masks -----

  /** Bitwise and of two words. */
  function And(a: nat, b: nat): nat {
    if a == 0 || b == 0 then 0
    else 2 * And(a / 2, b / 2) + (if a % 2 == 1 && b % 2 == 1 then 1 else 0)
  }

  /** And of two words from their halves and low bits. */
  lemma AndHalves(u: nat, w: nat, x: nat, y: nat, b: nat, c: nat)
    requires u == 2 * x + b && w == 2 * y + c && b < 2 && c < 2
    ensures And(u, w) == 2 * And(x, y) + if b == 1 && c == 1 then 1 else 0
  {
    assert u / 2 == x && u % 2 == b && w / 2 == y && w % 2 == c;
  }

  /** x << k */
  function Shift(x: nat, k: nat): nat { if k == 0 then x else 2 * Shift(x, k - 1) }

  lemma {:induction false} ShiftIsProduct(x: nat, k: nat)
    ensures Shift(x, k) == x * Pow2(k)
  {
    if k > 0 { ShiftIsProduct(x, k - 1); }
  }

  lemma {:induction false} AndAtMost(a: nat, b: nat)
    ensures And(a, b) <= a && And(a, b) <= b
  {
    if a > 0 && b > 0 { AndAtMost(a / 2, b / 2); }
  }

  /** t & (2^n - 1) is the remainder r. */
  lemma {:induction false} AndLow(t: nat, n: nat, mask: nat, q: nat, r: nat)
    requires mask == Pow2(n) - 1 && t == Shift(q, n) + r && r < Pow2(n)
    ensures And(t, mask) == r
    decreases n
  {
    if n > 0 {
      AndLow(t / 2, n - 1, mask / 2, q, r / 2);
      AndHalves(t, mask, t / 2, mask / 2, t % 2, 1);
    }
  }

  /** t & ~(2^k - 1), in n bits, clears the remainder r. */
  lemma {:induction false} AndHigh(t: nat, n: nat, k: nat, mask: nat, q: nat, r: nat)
    requires k <= n && t < Pow2(n) && mask == Pow2(n) - Pow2(k) && t == Shift(q, k) + r && r < Pow2(k)
    ensures And(t, mask) == t - r
    decreases n
  {
    if k == 0 {
      ShiftIsProduct(0, n);
      AndLow(t, n, mask, 0, t);
    } else {
      AndHigh(t / 2, n - 1, k - 1, mask / 2, q, r / 2);
      AndHalves(t, mask, t / 2, mask / 2, t % 2, 0);
    }
  }

  /** p & 2^n picks the top bit of an n + 1 bit word. */
  lemma {:induction false} AndTop(p: nat, n: nat, bit: nat)
    requires bit == Pow2(n) && p < 2 * bit
    ensures And(p, bit) == if p < bit then 0 else bit
    decreases n
  {
    if n == 0 {
      assert And(0, 0) == 0;
    } else {
      AndTop(p / 2, n - 1, bit / 2);
      AndHalves(p, bit, p / 2, bit / 2, p % 2, 0);
    }
  }

  predicate PowerOfTwo(n: nat) { n == 1 || (n > 1 && n % 2 == 0 && PowerOfTwo(n / 2)) }

  function Log2(a: nat): (k: nat)
    requires PowerOfTwo(a)
    ensures Pow2(k) == a
  {
    if a == 1 then 0 else 1 + Log2(a / 2)
  }

  lemma {:induction false} PowerLess(a: nat, b: nat)
    requires a <= b
    ensures Pow2(a) <= Pow2(b) && (a < b ==> Pow2(a) < Pow2(b))
    decreases b
  {
    if a < b { PowerLess(a, b - 1); }
  }

  const WORD64: nat := 0x1_0000_0000_0000_0000

  lemma Word64IsPower()
    ensures Pow2(64) == WORD64
  {
    assert Pow2(4) == 16;
    Pow2Sum(4, 4);
    assert Pow2(8) == 0x100;
    Pow2Sum(8, 8);
    assert Pow2(16) == 0x1_0000;
    Pow2Sum(16, 16);
    assert Pow2(32) == 0x1_0000_0000;
    Pow2Sum(32, 32);
  }

  /** t & ~(a - 1) on 64-bit words. */
  function MaskDown(t: nat, a: nat): nat
    requires a <= WORD64
  {
    And(t, WORD64 - a)
  }

  /** For a power of two the mask clears the remainder. */
  lemma MaskClears(t: nat, a: nat)
    requires PowerOfTwo(a) && a <= WORD64 && t < WORD64
    ensures MaskDown(t, a) == t - t % a
  {
    MaskClearsPower(t, a, Log2(a));
  }

  lemma MaskClearsPower(t: nat, a: nat, k: nat)
    requires Pow2(k) == a && a <= WORD64 && t < WORD64
    ensures MaskDown(t, a) == t - t % a
  {
    Word64IsPower();
    if k > 64 { PowerLess(64, k); }
    Euclid(t, a);
    ShiftIsProduct(t / a, k);
    AndHigh(t, 64, k, WORD64 - a, t / a, t % a);
  }

  /** t & (a - 1) for a power of two. */
  lemma MaskKeeps(t: nat, a: nat)
    requires PowerOfTwo(a)
    ensures And(t, a - 1) == t % a
  {
    MaskKeepsPower(t, a, Log2(a));
  }

  lemma MaskKeepsPower(t: nat, a: nat, k: nat)
    requires Pow2(k) == a
    ensures And(t, a - 1) == t % a
  {
    Euclid(t, a);
    ShiftIsProduct(t / a, k);
    AndLow(t, k, a - 1, t / a, t % a);
  }

  // ----- four-bit fields -----

  function Pow16(i: nat): (r: nat)
    ensures r >= 1
  {
    if i == 0 then 1 else 16 * Pow16(i - 1)
  }

  /** (e >> 4i) & 0xf */
  function Nibble(e: nat, i: nat): nat {
    if i == 0 then e % 16 else Nibble(e / 16, i - 1)
  }

  /** e & ~(0xf << 4i) */
  function ClearNibble(e: nat, i: nat): nat {
    if i == 0 then e / 16 * 16 else ClearNibble(e / 16, i - 1) * 16 + e % 16
  }

  /** e with field i replaced. */
  function SetNibble(e: nat, i: nat, v: nat): nat {
    if i == 0 then e / 16 * 16 + v else SetNibble(e / 16, i - 1, v) * 16 + e % 16
  }

  /** Or of two words from their halves and low bits. */
  lemma OrHalves(u: nat, w: nat, x: nat, y: nat, b: nat, c: nat)
    requires u == 2 * x + b && w == 2 * y + c && b < 2 && c < 2
    ensures Or(u, w) == 2 * Or(x, y) + if b == 1 || c == 1 then 1 else 0
  {
    assert u / 2 == x && u % 2 == b && w / 2 == y && w % 2 == c;
  }

  /** Or works on the low k bits and on the rest by themselves. */
  lemma {:induction false} OrSplit(k: nat, u: nat, x: nat, r: nat, w: nat, y: nat, s: nat)
    requires u == Shift(x, k) + r && w == Shift(y, k) + s && r < Pow2(k) && s < Pow2(k)
    ensures Or(u, w) == Shift(Or(x, y), k) + Or(r, s) && Or(r, s) < Pow2(k)
    decreases k
  {
    if k == 0 {
      assert Or(0, 0) == 0;
    } else {
      OrSplit(k - 1, u / 2, x, r / 2, w / 2, y, s / 2);
      OrHalves(u, w, u / 2, w / 2, u % 2, w % 2);
      OrHalves(r, s, r / 2, s / 2, r % 2, s % 2);
    }
  }

  lemma OrQuarters(u: nat, x: nat, r: nat, w: nat, y: nat, s: nat)
    requires r < 4 && s < 4 && u == 4 * x + r && w == 4 * y + s
    ensures Or(u, w) == 4 * Or(x, y) + Or(r, s)
  {
    var r1, r0, s1, s0 := r / 2, r % 2, s / 2, s % 2;
    OrHalves(u, w, 2 * x + r1, 2 * y + s1, r0, s0);
    OrHalves(2 * x + r1, 2 * y + s1, x, y, r1, s1);
    OrHalves(r, s, r1, s1, r0, s0);
    OrHalves(r1, s1, 0, 0, r1, s1);
    assert Or(0, 0) == 0;
  }

  /** Or works on each four-bit field by itself. */
  lemma OrNibble(u: nat, x: nat, r: nat, w: nat, y: nat, s: nat)
    requires r < 16 && s < 16 && u == 16 * x + r && w == 16 * y + s
    ensures Or(u, w) == 16 * Or(x, y) + Or(r, s)
  {
    var r1, r0, s1, s0 := r / 4, r % 4, s / 4, s % 4;
    OrQuarters(u, 4 * x + r1, r0, w, 4 * y + s1, s0);
    OrQuarters(4 * x + r1, x, r1, 4 * y + s1, y, s1);
    OrQuarters(r, r1, r0, s, s1, s0);
  }

  lemma {:induction false} OrZero(a: nat)
    ensures Or(a, 0) == a && Or(0, a) == a
  {
    if a > 0 { OrZero(a / 2); }
  }

  /** Clearing a field and or-ing a four-bit value into it replaces the field. */
  lemma {:induction false} ClearThenOr(e: nat, i: nat, v: nat)
    requires v < 16
    ensures Or(ClearNibble(e, i), v * Pow16(i)) == SetNibble(e, i, v)
    decreases i
  {
    if i == 0 {
      OrInto(e / 16, v);
    } else {
      var h, low := e / 16, e % 16;
      ClearThenOr(h, i - 1, v);
      FieldAbove(v, Pow16(i - 1));
      OrAbove(ClearNibble(h, i - 1), v * Pow16(i - 1), low, SetNibble(h, i - 1, v), v * Pow16(i));
    }
  }

  lemma FieldAbove(v: nat, p: nat)
    ensures v * (16 * p) == 16 * (v * p)
  {
  }

  lemma OrInto(h: nat, v: nat)
    requires v < 16
    ensures Or(h * 16, v) == h * 16 + v
  {
    OrNibble(h * 16, h, 0, v, 0, v);
    OrZero(h);
    OrZero(v);
  }

  /** One field further up. */
  lemma OrAbove(q: nat, w: nat, low: nat, merged: nat, shifted: nat)
    requires low < 16 && Or(q, w) == merged && shifted == 16 * w
    ensures Or(q * 16 + low, shifted) == merged * 16 + low
  {
    OrNibble(q * 16 + low, q, low, shifted, w, 0);
    OrZero(low);
  }

  lemma {:induction false} NibbleOfSet(e: nat, i: nat, v: nat, j: nat)
    requires v < 16
    ensures Nibble(SetNibble(e, i, v), j) == if i == j then v else Nibble(e, j)
    decreases i
  {
    var r := SetNibble(e, i, v);
    if i == 0 {
      assert r / 16 == e / 16 && r % 16 == v;
    } else {
      assert r / 16 == SetNibble(e / 16, i - 1, v) && r % 16 == e % 16;
      if j > 0 { NibbleOfSet(e / 16, i - 1, v, j - 1); }
    }
  }

  lemma {:induction false} SetSameNibble(e: nat, i: nat)
    ensures SetNibble(e, i, Nibble(e, i)) == e
    decreases i
  {
    if i > 0 { SetSameNibble(e / 16, i - 1); }
  }

  /** Field i by division, and what replacing it leaves of the rest. */
  lemma {:induction false} NibbleParts(e: nat, i: nat, v: nat)
    requires v < 16
    ensures var p, r := Pow16(i), SetNibble(e, i, v);
            && Nibble(e, i) == e / p % 16
            && r / p % 16 == v && r / p / 16 == e / p / 16 && r % p == e % p
    decreases i
  {
    if i == 0 {
      LowNibble(e, v);
    } else {
      NibbleParts(e / 16, i - 1, v);
      NibbleStep(e, SetNibble(e, i, v), Pow16(i - 1), SetNibble(e / 16, i - 1, v));
    }
  }

  lemma LowNibble(e: nat, v: nat)
    requires v < 16
    ensures var r := e / 16 * 16 + v; r % 16 == v && r / 16 == e / 16 && r / 1 == r && e / 1 == e && r % 1 == e % 1 == 0
  {
    RemainderUnique(e / 16 * 16 + v, 16, e / 16, v);
  }

  /** One field further up: r is q with the low field of e below it. */
  lemma NibbleStep(e: nat, r: nat, p: nat, q: nat)
    requires p > 0 && r == q * 16 + e % 16 && q % p == e / 16 % p
    ensures r / (16 * p) == q / p && e / (16 * p) == e / 16 / p && r % (16 * p) == e % (16 * p)
  {
    RemainderUnique(r, 16, q, e % 16);
    DivideTwice(r, 16, p);
    DivideTwice(e, 16, p);
    RemainderTwice(r, p);
    RemainderTwice(e, p);
  }

  lemma RemainderTwice(x: nat, p: nat)
    requires p > 0
    ensures x % (16 * p) == x / 16 % p * 16 + x % 16
  {
    var h, l := x / 16, x % 16;
    Euclid(h, p);
    var q, s := h / p, h % p;
    assert x == q * (16 * p) + (s * 16 + l) by { assert 16 * (q * p) == q * (16 * p); }
    RemainderUnique(x, 16 * p, q, s * 16 + l);
  }
}
