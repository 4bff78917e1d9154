/** Exclusive or on the natural numbers, bit by bit: one definition serves Rust's
    u32 and u64 and Python's unbounded integers. */
module Bitwise {

  function Xor(a: nat, b: nat): nat
    decreases a + b
  {
    if a == 0 && b == 0 then 0
    else 2 * Xor(a / 2, b / 2) + if a % 2 == b % 2 then 0 else 1
  }

  function Pow2(k: nat): nat {
    if k == 0 then 1 else 2 * Pow2(k - 1)
  }

  lemma XorStep(a: nat, b: nat)
    ensures Xor(a, b) / 2 == Xor(a / 2, b / 2)
    ensures Xor(a, b) % 2 == if a % 2 == b % 2 then 0 else 1
  {
  }

  lemma {:induction false} XorZero(a: nat)
    ensures Xor(a, 0) == a
  {
    if a > 0 {
      XorZero(a / 2);
    }
  }

  lemma {:induction false} XorSelf(a: nat)
    ensures Xor(a, a) == 0
  {
    if a > 0 {
      XorSelf(a / 2);
    }
  }

  lemma {:induction false} XorCommutes(a: nat, b: nat)
    ensures Xor(a, b) == Xor(b, a)
    decreases a + b
  {
    if a > 0 || b > 0 {
      XorCommutes(a / 2, b / 2);
    }
  }

  lemma {:induction false} XorAssociates(a: nat, b: nat, c: nat)
    ensures Xor(Xor(a, b), c) == Xor(a, Xor(b, c))
    decreases a + b + c
  {
    if a > 0 || b > 0 || c > 0 {
      XorAssociates(a / 2, b / 2, c / 2);
      XorStep(a, b);
      XorStep(b, c);
      XorStep(Xor(a, b), c);
      XorStep(a, Xor(b, c));
    }
  }

  lemma XorCancels(a: nat, b: nat, x: nat)
    requires Xor(a, x) == Xor(b, x)
    ensures a == b
  {
    XorAssociates(a, x, x);
    XorAssociates(b, x, x);
    XorSelf(x);
    XorZero(a);
    XorZero(b);
  }

  lemma {:induction false} XorBound(a: nat, b: nat, k: nat)
    requires a < Pow2(k) && b < Pow2(k)
    ensures Xor(a, b) < Pow2(k)
  {
    if k > 0 {
      XorBound(a / 2, b / 2, k - 1);
      XorStep(a, b);
    }
  }

  /** A top bit that only one side has stays. */
  lemma {:induction false} XorTopBit(a: nat, b: nat, k: nat)
    requires a < Pow2(k) <= b < Pow2(k + 1)
    ensures Pow2(k) <= Xor(a, b)
  {
    if k > 0 {
      XorTopBit(a / 2, b / 2, k - 1);
      XorStep(a, b);
    }
  }

  function Shift(b: nat, k: nat): nat {
    if k == 0 then b else 2 * Shift(b, k - 1)
  }

  /** On disjoint bits, exclusive or is addition. */
  lemma {:induction false} XorDisjoint(a: nat, b: nat, k: nat)
    requires a < Pow2(k)
    ensures Xor(a, Shift(b, k)) == a + Shift(b, k)
  {
    if k == 0 {
      XorCommutes(0, b);
      XorZero(b);
    } else {
      XorDisjoint(a / 2, b, k - 1);
      XorDoubled(a, Shift(b, k - 1));
    }
  }

  lemma XorDoubled(a: nat, high: nat)
    requires Xor(a / 2, high) == a / 2 + high
    ensures Xor(a, 2 * high) == a + 2 * high
  {
    assert 2 * high / 2 == high && 2 * high % 2 == 0;
    assert Xor(a, 2 * high) == 2 * Xor(a / 2, high) + if a % 2 == 0 then 0 else 1 by {
      XorUnfolds(a, 2 * high);
    }
    hide Xor;
    assert a == 2 * (a / 2) + a % 2;
  }

  lemma XorUnfolds(a: nat, b: nat)
    ensures Xor(a, b) == 2 * Xor(a / 2, b / 2) + if a % 2 == b % 2 then 0 else 1
  {
  }

  lemma XorReturns(a: nat, b: nat)
    ensures Xor(Xor(a, b), a) == b && Xor(a, Xor(a, b)) == b
  {
    XorCommutes(a, b);
    XorCommutes(Xor(a, b), a);
    XorAssociates(a, a, b);
    XorSelf(a);
    XorCommutes(0, b);
    XorZero(b);
  }

  lemma {:induction false} ShiftIs(b: nat, k: nat)
    ensures Shift(b, k) == b * Pow2(k)
  {
    if k > 0 {
      ShiftIs(b, k - 1);
    }
  }

  lemma PowersOfTwo()
    ensures Pow2(5) == 0x20 && Pow2(8) == 0x100 && Pow2(9) == 0x200
    ensures Pow2(15) == 0x8000 && Pow2(19) == 0x8_0000 && Pow2(20) == 0x10_0000 && Pow2(21) == 0x20_0000
    ensures Pow2(23) == 0x80_0000 && Pow2(24) == 0x100_0000 && Pow2(26) == 0x400_0000 && Pow2(27) == 0x800_0000
    ensures Pow2(29) == 0x2000_0000 && Pow2(30) == 0x4000_0000 && Pow2(31) == 0x8000_0000
  {
    assert Pow2(5) == 0x20;
    assert Pow2(10) == 0x400;
    assert Pow2(15) == 0x8000;
    assert Pow2(20) == 0x10_0000;
    assert Pow2(25) == 0x200_0000;
  }
}
