/** Machine integers as numbers: powers of two and the bitwise operators the codecs use. */
module Bits {

  function Pow2(n: nat): (r: nat)
    ensures r > 0
  {
    if n == 0 then 1 else 2 * Pow2(n - 1)
  }

  lemma TwiceProduct(x: nat, y: nat)
    ensures 2 * (x * y) == (2 * x) * y
  {
  }

  lemma {:induction false} Pow2Add(a: nat, b: nat)
    ensures Pow2(a + b) == Pow2(a) * Pow2(b)
  {
    if a > 0 {
      Pow2Add(a - 1, b);
      TwiceProduct(Pow2(a - 1), Pow2(b));
      assert Pow2(a + b) == 2 * Pow2(a - 1 + b);
    }
  }

  lemma Powers()
    ensures Pow2(7) == 128
    ensures Pow2(32) == 0x1_0000_0000
    ensures Pow2(63) == 0x8000_0000_0000_0000
    ensures Pow2(64) == 0x1_0000_0000_0000_0000
  {
    assert Pow2(8) == 256;
    Pow2Add(8, 8);
    Pow2Add(16, 16);
    Pow2Add(32, 32);
  }

  /** Bitwise or. */
  function Or(a: nat, b: nat): nat {
    if a == 0 && b == 0 then 0
    else (if a % 2 == 1 || b % 2 == 1 then 1 else 0) + 2 * Or(a / 2, b / 2)
  }

  /** Bitwise exclusive or of two `w`-bit words. */
  function Xor(w: nat, a: nat, b: nat): nat {
    if w == 0 then 0 else (if a % 2 != b % 2 then 1 else 0) + 2 * Xor(w - 1, a / 2, b / 2)
  }

  /** Bit `i` of a number. */
  predicate Bit(a: nat, i: nat) {
    if i == 0 then a % 2 == 1 else Bit(a / 2, i - 1)
  }

  /** Both operators work bit by bit. */
  lemma {:induction false} BitByBit(w: nat, a: nat, b: nat, i: nat)
    ensures Bit(Or(a, b), i) <==> Bit(a, i) || Bit(b, i)
    ensures Bit(Xor(w, a, b), i) <==> i < w && Bit(a, i) != Bit(b, i)
    decreases i
  {
    hide Or, Xor;
    OrHalf(a, b);
    XorHalf(w, a, b);
    if i > 0 {
      BitByBit(if w == 0 then 0 else w - 1, a / 2, b / 2, i - 1);
    }
  }

  lemma OrHalf(a: nat, b: nat)
    ensures Or(a, b) / 2 == Or(a / 2, b / 2) && (Or(a, b) % 2 == 1 <==> a % 2 == 1 || b % 2 == 1)
  {
    Doubled(if a % 2 == 1 || b % 2 == 1 then 1 else 0, Or(a / 2, b / 2));
  }

  lemma XorHalf(w: nat, a: nat, b: nat)
    ensures Xor(w, a, b) / 2 == Xor(if w == 0 then 0 else w - 1, a / 2, b / 2)
    ensures Xor(w, a, b) % 2 == 1 <==> w > 0 && a % 2 != b % 2
  {
    if w > 0 {
      Doubled(if a % 2 != b % 2 then 1 else 0, Xor(w - 1, a / 2, b / 2));
    }
  }

  lemma Doubled(low: nat, x: nat)
    requires low < 2
    ensures (low + 2 * x) / 2 == x && (low + 2 * x) % 2 == low
  {
  }

  lemma {:induction false} OrZero(b: nat)
    ensures Or(0, b) == b
  {
    if b > 0 {
      OrZero(b / 2);
    }
  }

  /** Words without a common bit are or-ed by adding them. */
  lemma {:induction false} OrDisjoint(a: nat, b: nat, k: nat)
    requires a < Pow2(k)
    ensures Or(a, b * Pow2(k)) == a + b * Pow2(k)
  {
    if k == 0 {
      OrZero(b);
    } else {
      assert b * Pow2(k) == 2 * (b * Pow2(k - 1));
      OrDisjoint(a / 2, b, k - 1);
    }
  }

  lemma {:induction false} XorZero(w: nat, a: nat)
    requires a < Pow2(w)
    ensures Xor(w, a, 0) == a
  {
    if w > 0 {
      XorZero(w - 1, a / 2);
    }
  }

  lemma {:induction false} XorOnes(w: nat, a: nat)
    requires a < Pow2(w)
    ensures Xor(w, a, Pow2(w) - 1) == Pow2(w) - 1 - a
  {
    if w > 0 {
      XorOnes(w - 1, a / 2);
      assert (Pow2(w) - 1) / 2 == Pow2(w - 1) - 1;
    }
  }
}
