/** Bitwise operators on unsigned integers: the `^` and `&` of C and JavaScript, without their width. */
module Bits {

  function Pow2(n: nat): (p: int)
    ensures p >= 1
  {
    if n == 0 then 1 else 2 * Pow2(n - 1)
  }

  function Xor(a: nat, b: nat): nat
    decreases a + b
  {
    if a == 0 && b == 0 then 0 else 2 * Xor(a / 2, b / 2) + (a + b) % 2
  }

  function And(a: nat, b: nat): nat
    decreases a + b
  {
    if a == 0 && b == 0 then 0 else 2 * And(a / 2, b / 2) + (a % 2) * (b % 2)
  }

  lemma XorHalves(a: nat, b: nat)
    ensures Xor(a, b) / 2 == Xor(a / 2, b / 2) && Xor(a, b) % 2 == (a + b) % 2
  {
  }

  lemma {:induction false} XorFromHalves(a: nat, b: nat, r: nat)
    requires r / 2 == Xor(a / 2, b / 2) && r % 2 == (a + b) % 2
    ensures r == Xor(a, b)
  {
    assert Xor(0, 0) == 0;
    assert r == 2 * (r / 2) + r % 2;
  }

  lemma Parity(a: int, b: int, c: int)
    requires a % 2 == b % 2
    ensures (a + c) % 2 == (b + c) % 2 && (c + a) % 2 == (c + b) % 2
  {
  }

  lemma {:induction false} XorCommutes(a: nat, b: nat)
    ensures Xor(a, b) == Xor(b, a)
    decreases a + b
  {
    if a + b > 0 {
      XorCommutes(a / 2, b / 2);
    }
  }

  lemma {:induction false} XorAssociates(a: nat, b: nat, c: nat)
    ensures Xor(Xor(a, b), c) == Xor(a, Xor(b, c))
    decreases a + b + c
  {
    if a + b + c > 0 {
      XorAssociates(a / 2, b / 2, c / 2);
      var ab, bc, r := Xor(a, b), Xor(b, c), Xor(a, Xor(b, c));
      XorHalves(a, b);
      XorHalves(b, c);
      XorHalves(a, bc);
      Parity(bc, b + c, a);
      Parity(ab, a + b, c);
      XorFromHalves(ab, c, r);
    }
  }

  lemma {:induction false} XorZero(a: nat)
    ensures Xor(a, 0) == a && Xor(0, a) == a
  {
    if a > 0 {
      XorZero(a / 2);
    }
  }

  lemma {:induction false} XorSelf(a: nat)
    ensures Xor(a, a) == 0
  {
    if a > 0 {
      XorSelf(a / 2);
    }
  }

  /** Applying the same mask twice gives the value back. */
  lemma XorTwice(a: nat, m: nat)
    ensures Xor(Xor(a, m), m) == a
  {
    XorAssociates(a, m, m);
    XorSelf(m);
    XorZero(a);
  }

  lemma XorIsInjective(a: nat, b: nat, m: nat)
    requires Xor(a, m) == Xor(b, m)
    ensures a == b
  {
    XorTwice(a, m);
    XorTwice(b, m);
  }

  /** The last two of three operands may change places. */
  lemma XorSwap(a: nat, b: nat, c: nat)
    ensures Xor(Xor(a, b), c) == Xor(Xor(a, c), b)
  {
    XorAssociates(a, b, c);
    XorAssociates(a, c, b);
    XorCommutes(b, c);
  }

  lemma {:induction false} XorFits(a: nat, b: nat, n: nat)
    requires a < Pow2(n) && b < Pow2(n)
    ensures Xor(a, b) < Pow2(n)
  {
    if n > 0 {
      XorFits(a / 2, b / 2, n - 1);
    }
  }

  /** Operands with no bit in common add up. */
  lemma {:induction false} XorDisjoint(lo: nat, hi: nat, n: nat)
    requires lo < Pow2(n)
    ensures Xor(lo, Pow2(n) * hi) == lo + Pow2(n) * hi
  {
    if n == 0 {
      XorZero(hi);
    } else {
      var p := Pow2(n - 1) * hi;
      assert Pow2(n) * hi == 2 * p;
      XorDisjoint(lo / 2, hi, n - 1);
      assert (2 * p) / 2 == p && (lo + 2 * p) / 2 == lo / 2 + p;
      XorFromHalves(lo, 2 * p, lo + 2 * p);
    }
  }

  /** A mask of n ones keeps the low n bits. */
  lemma {:induction false} AndOnes(a: nat, n: nat)
    requires a < Pow2(n)
    ensures And(a, Pow2(n) - 1) == a && And(a, 0) == 0
  {
    if n > 0 {
      var m := Pow2(n) - 1;
      assert m / 2 == Pow2(n - 1) - 1 && m % 2 == 1;
      AndOnes(a / 2, n - 1);
    } else {
      assert And(0, 0) == 0;
    }
    AndZero(a);
  }

  lemma {:induction false} AndZero(a: nat)
    ensures And(a, 0) == 0
  {
    if a > 0 {
      AndZero(a / 2);
    }
  }

  /** A value without bit n - 1 gains it from a mask that has it. */
  lemma {:induction false} XorSetsTopBit(a: nat, m: nat, n: nat)
    requires n > 0 && a < Pow2(n - 1) && Pow2(n - 1) <= m < Pow2(n)
    ensures Xor(a, m) >= Pow2(n - 1)
    decreases n
  {
    XorHalves(a, m);
    if n > 1 {
      XorSetsTopBit(a / 2, m / 2, n - 1);
    }
  }
}
