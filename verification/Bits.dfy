/** Arithmetic on 32-bit words, with exclusive or spelled out on numbers. */
module Bits {

  type Byte = b: int | 0 <= b < 0x100
  type Word = w: int | 0 <= w < 0x1_0000_0000

  function Pow2(n: nat): nat { if n == 0 then 1 else 2 * Pow2(n - 1) }

  /** Bitwise exclusive or. */
  function Xor(a: nat, b: nat): nat {
    if a == 0 && b == 0 then 0 else 2 * Xor(a / 2, b / 2) + (a + b) % 2
  }

  lemma {:induction false} XorFits(a: nat, b: nat, n: nat)
    requires a < Pow2(n) && b < Pow2(n)
    ensures Xor(a, b) < Pow2(n)
  {
    if n != 0 && !(a == 0 && b == 0) {
      XorFits(a / 2, b / 2, n - 1);
    }
  }

  lemma WordBits()
    ensures Pow2(32) == 0x1_0000_0000
  {
    assert Pow2(8) == 0x100;
    assert Pow2(16) == 0x1_0000;
    assert Pow2(24) == 0x100_0000;
  }

  lemma FourBits(n: nat)
    requires n > 0
    ensures Pow2(4 * n) == 16 * Pow2(4 * (n - 1))
  {
    assert Pow2(4 * n) == 2 * Pow2(4 * n - 1) && Pow2(4 * n - 1) == 2 * Pow2(4 * n - 2);
    assert Pow2(4 * n - 2) == 2 * Pow2(4 * n - 3) && Pow2(4 * n - 3) == 2 * Pow2(4 * (n - 1));
  }

  // ---------------------------------------------------------------- undoing

  lemma PrimeInverts(x: Word)
    ensures (x * 0x01000193 % 0x1_0000_0000) * 0x359C449B % 0x1_0000_0000 == x
    ensures (x * 0x359C449B % 0x1_0000_0000) * 0x01000193 % 0x1_0000_0000 == x
  {
    UndoMultiplication(x, 0x01000193, 0x359C449B, 0x359C449B * 0x01000193 / 0x1_0000_0000);
    UndoMultiplication(x, 0x359C449B, 0x01000193, 0x359C449B * 0x01000193 / 0x1_0000_0000);
  }

  lemma UndoMultiplication(x: Word, p: nat, q: nat, k: nat)
    requires p * q == 1 + k * 0x1_0000_0000
    ensures (x * p % 0x1_0000_0000) * q % 0x1_0000_0000 == x
  {
    var r, d := x * p % 0x1_0000_0000, x * p / 0x1_0000_0000;
    calc {
      r * q;
      (x * p - d * 0x1_0000_0000) * q;
      x * (p * q) - (d * q) * 0x1_0000_0000;
      x * (1 + k * 0x1_0000_0000) - (d * q) * 0x1_0000_0000;
      x + (x * k - d * q) * 0x1_0000_0000;
    }
    RemainderOf(r * q, x, x * k - d * q);
  }

  lemma RemainderOf(v: int, x: Word, m: int)
    requires v == x + m * 0x1_0000_0000
    ensures v % 0x1_0000_0000 == x
  {
  }

  lemma XorParts(a: nat, b: nat)
    ensures Xor(a, b) / 2 == Xor(a / 2, b / 2)
    ensures Xor(a, b) % 2 == (a + b) % 2
  {
  }

  lemma SameHalves(x: nat, y: nat)
    requires x / 2 == y / 2 && x % 2 == y % 2
    ensures x == y
  {
  }

  lemma ParityCancels(a: nat, b: nat, x: nat)
    requires x % 2 == (a + b) % 2
    ensures (x + b) % 2 == a % 2
  {
  }

  lemma {:induction false} XorCancels(a: nat, b: nat)
    ensures Xor(Xor(a, b), b) == a
  {
    if a == 0 && b == 0 {
      assert Xor(0, 0) == 0;
    } else {
      hide Xor;
      XorCancels(a / 2, b / 2);
      XorParts(a, b);
      XorParts(Xor(a, b), b);
      ParityCancels(a, b, Xor(a, b));
      SameHalves(Xor(Xor(a, b), b), a);
    }
  }

  lemma {:induction false} XorSeparates(h: nat, a: nat, b: nat)
    requires a != b
    ensures Xor(h, a) != Xor(h, b)
  {
    if a / 2 != b / 2 {
      XorSeparates(h / 2, a / 2, b / 2);
    }
  }

  // ---------------------------------------------------------------- computing

  lemma XorStep(a: nat, b: nat, halves: nat)
    requires Xor(a / 2, b / 2) == halves && a != 0
    ensures Xor(a, b) == 2 * halves + (a + b) % 2
  {
  }

  lemma KnownXor()
    ensures Xor(0x811C9DC5, 0x61) == 0x811C9DA4
  {
    hide Xor;
    XorWithZero(16922939);
    XorStep(33845879, 1, 16922939);
    XorStep(67691758, 3, 33845878);
    XorStep(135383516, 6, 67691757);
    XorStep(270767032, 12, 135383514);
    XorStep(541534065, 24, 270767028);
    XorStep(1083068130, 48, 541534057);
    XorStep(2166136261, 97, 1083068114);
  }

  lemma {:induction false} XorWithZero(a: nat)
    ensures Xor(a, 0) == a
  {
    if a != 0 {
      XorWithZero(a / 2);
    }
  }
}
