/** Exclusive or and powers of two, on unbounded naturals. */
module Bits {

  function Pow2(e: nat): (p: nat)
    ensures p >= 1
  {
    if e == 0 then 1 else 2 * Pow2(e - 1)
  }

  lemma {:induction false} Pow2Add(a: nat, b: nat)
    ensures Pow2(a + b) == Pow2(a) * Pow2(b)
    decreases a
  {
    if a > 0 {
      Pow2Add(a - 1, b);
    }
  }

  lemma Pow16()
    ensures Pow2(16) == 0x1_0000
  {
    assert Pow2(8) == 256;
    Pow2Add(8, 8);
  }

  /** Exclusive or of the low n bits. */
  function XorBits(a: nat, b: nat, n: nat): nat {
    if n == 0 then 0 else 2 * XorBits(a / 2, b / 2, n - 1) + (a % 2 + b % 2) % 2
  }

  lemma {:induction false} XorBound(a: nat, b: nat, n: nat)
    ensures XorBits(a, b, n) < Pow2(n)
  {
    if n > 0 {
      XorBound(a / 2, b / 2, n - 1);
    }
  }

  /** Exclusive or with the difference gives the other back. */
  lemma {:induction false} XorBack(a: nat, b: nat, n: nat)
    requires a < Pow2(n) && b < Pow2(n)
    ensures XorBits(a, XorBits(a, b, n), n) == b
  {
    if n > 0 {
      hide XorBits, Pow2;
      Pow2Half(n, a);
      Pow2Half(n, b);
      XorBack(a / 2, b / 2, n - 1);
      XorStep(a, b, n);
      XorStep(a, XorBits(a, b, n), n);
      Parity(a % 2, b % 2);
    }
  }

  lemma Pow2Half(n: nat, a: nat)
    requires n > 0 && a < Pow2(n)
    ensures a / 2 < Pow2(n - 1)
  {
  }

  lemma XorStep(a: nat, b: nat, n: nat)
    requires n > 0
    ensures var x := XorBits(a, b, n); x / 2 == XorBits(a / 2, b / 2, n - 1) && x % 2 == (a % 2 + b % 2) % 2
    ensures XorBits(a, b, n) == 2 * XorBits(a / 2, b / 2, n - 1) + (a % 2 + b % 2) % 2
  {
  }

  lemma Parity(p: nat, q: nat)
    requires p < 2 && q < 2
    ensures (p + (p + q) % 2) % 2 == q
  {
  }

  lemma {:induction false} XorZero(a: nat, n: nat)
    requires a < Pow2(n)
    ensures XorBits(a, 0, n) == a
  {
    if n > 0 {
      XorZero(a / 2, n - 1);
    }
  }

  lemma XorOne(a: nat, n: nat)
    requires a < Pow2(n) && n > 0
    ensures XorBits(a, 1, n) == if a % 2 == 0 then a + 1 else a - 1
  {
    XorZero(a / 2, n - 1);
  }

  lemma XorTwice(a: nat, b: nat, n: nat, d: int)
    requires n > 0 && XorBits(a / 2, b, n - 1) == a / 2 + d
    ensures XorBits(a, 2 * b, n) == a + 2 * d
  {
    assert 2 * b / 2 == b && 2 * b % 2 == 0;
    var low := XorBits(a / 2, b, n - 1);
    assert XorBits(a, 2 * b, n) == 2 * low + a % 2;
  }

  /** Exclusive or with a letter's case bit sets it or clears it. */
  lemma Xor32(a: nat)
    requires a < 128
    ensures Xor16(a, 32) == if a / 32 % 2 == 0 then a + 32 else a - 32
  {
    hide XorBits;
    var d := if a / 32 % 2 == 0 then 1 else -1;
    assert Pow2(11) == 32 * Pow2(6);
    XorOne(a / 32, 11);
    XorTwice(a / 16, 1, 12, d);
    XorTwice(a / 8, 2, 13, 2 * d);
    XorTwice(a / 4, 4, 14, 4 * d);
    XorTwice(a / 2, 8, 15, 8 * d);
    XorTwice(a, 16, 16, 16 * d);
  }

  function Xor16(a: nat, b: nat): (x: nat)
    ensures x < 0x1_0000
  {
    Pow16();
    XorBound(a, b, 16);
    XorBits(a, b, 16)
  }

  lemma Xor16Back(a: nat, b: nat)
    requires a < 0x1_0000 && b < 0x1_0000
    ensures Xor16(a, Xor16(a, b)) == b && Xor16(a, 0) == a
    ensures Xor16(a, b) == 0 <==> a == b
  {
    Pow16();
    XorBack(a, b, 16);
    XorZero(a, 16);
    XorBack(a, a, 16);
    XorCancels(a, 16);
  }

  lemma {:induction false} XorCancels(a: nat, n: nat)
    ensures XorBits(a, a, n) == 0
  {
    if n > 0 {
      XorCancels(a / 2, n - 1);
    }
  }
}
