/**
 * Bitwise arithmetic on non-negative integers, as the register accessors
 * use it. Ruby integers are unbounded, so no register width appears here:
 * `&`, `|`, `x & ~y`, `<<` and `>>` are defined digit by digit in base 2,
 * and `Bit` names one binary digit.
 */
module RegisterBits {
  /** `a & b`. */
  function And(a: nat, b: nat): nat
    decreases a
  {
    if a == 0 || b == 0 then 0
    else 2 * And(a / 2, b / 2) + (if a % 2 == 1 && b % 2 == 1 then 1 else 0)
  }

  /** `a | b`. */
  function Or(a: nat, b: nat): nat
    decreases a + b
  {
    if a == 0 then b
    else if b == 0 then a
    else 2 * Or(a / 2, b / 2) + (if a % 2 == 1 || b % 2 == 1 then 1 else 0)
  }

  /** `a & ~b`: `a` with the bits of `b` cleared (non-negative for non-negative `a`). */
  function AndNot(a: nat, b: nat): nat
    decreases a
  {
    if a == 0 then 0
    else 2 * AndNot(a / 2, b / 2) + (if a % 2 == 1 && b % 2 == 0 then 1 else 0)
  }

  /** `x << k`. */
  function Shl(x: nat, k: nat): (r: nat)
    ensures x > 0 ==> r > 0
  {
    if k == 0 then x else 2 * Shl(x, k - 1)
  }

  /** `x >> k`. */
  function Shr(x: nat, k: nat): nat {
    if k == 0 then x else Shr(x / 2, k - 1)
  }

  /** Binary digit `i` of `x`. */
  predicate Bit(x: nat, i: nat) {
    if i == 0 then x % 2 == 1 else Bit(x / 2, i - 1)
  }

  lemma BitSucc(x: nat, i: nat)
    ensures Bit(x, i + 1) == Bit(x / 2, i)
  {
  }

  lemma {:induction false} BitOfZero(i: nat)
    ensures !Bit(0, i)
  {
    if i > 0 {
      BitOfZero(i - 1);
    }
  }

  /** Two integers with the same binary digits are equal. */
  lemma {:induction false} BitsDetermine(a: nat, b: nat)
    requires forall i: nat :: Bit(a, i) == Bit(b, i)
    ensures a == b
    decreases a + b
  {
    assert Bit(a, 0) == Bit(b, 0);
    if a != 0 || b != 0 {
      forall i: nat
        ensures Bit(a / 2, i) == Bit(b / 2, i)
      {
        BitSucc(a, i);
        BitSucc(b, i);
      }
      BitsDetermine(a / 2, b / 2);
    }
  }

  /** An integer without set digits is zero. */
  lemma NoBitsIsZero(a: nat)
    requires forall i: nat :: !Bit(a, i)
    ensures a == 0
  {
    forall i: nat
      ensures Bit(a, i) == Bit(0, i)
    {
      BitOfZero(i);
    }
    BitsDetermine(a, 0);
  }

  lemma {:induction false} BitOfAnd(a: nat, b: nat, i: nat)
    ensures Bit(And(a, b), i) == (Bit(a, i) && Bit(b, i))
    decreases i
  {
    if a == 0 || b == 0 {
      BitOfZero(i);
    } else if i > 0 {
      BitOfAnd(a / 2, b / 2, i - 1);
    }
  }

  lemma {:induction false} BitOfOr(a: nat, b: nat, i: nat)
    ensures Bit(Or(a, b), i) == (Bit(a, i) || Bit(b, i))
    decreases i
  {
    if a == 0 || b == 0 {
      BitOfZero(i);
    } else if i > 0 {
      BitOfOr(a / 2, b / 2, i - 1);
    }
  }

  lemma {:induction false} BitOfAndNot(a: nat, b: nat, i: nat)
    ensures Bit(AndNot(a, b), i) == (Bit(a, i) && !Bit(b, i))
    decreases i
  {
    if a == 0 {
      BitOfZero(i);
    } else if i > 0 {
      BitOfAndNot(a / 2, b / 2, i - 1);
    }
  }

  /** Shifting left by `k` moves digit `i - k` to position `i` and fills with zeros. */
  lemma {:induction false} BitOfShl(x: nat, k: nat, i: nat)
    ensures Bit(Shl(x, k), i) == (k <= i && Bit(x, i - k))
  {
    if k > 0 && i > 0 {
      BitOfShl(x, k - 1, i - 1);
    }
  }

  /** Shifting right by `k` moves digit `i + k` to position `i`. */
  lemma {:induction false} BitOfShr(x: nat, k: nat, i: nat)
    ensures Bit(Shr(x, k), i) == Bit(x, i + k)
  {
    if k > 0 {
      BitOfShr(x / 2, k - 1, i);
      BitSucc(x, i + k - 1);
    }
  }

  /** `1 << k` has exactly digit `k` set. */
  lemma BitOfPower(k: nat, i: nat)
    ensures Bit(Shl(1, k), i) <==> i == k
  {
    BitOfShl(1, k, i);
    if k < i {
      BitOfZero(i - k - 1);
    }
  }

  /** `2 ** w - 1` has exactly the digits below `w` set. */
  lemma {:induction false} BitOfPowerMinusOne(w: nat, i: nat)
    ensures Bit(Shl(1, w) - 1, i) <==> i < w
  {
    if w == 0 {
      BitOfZero(i);
    } else if i > 0 {
      BitOfPowerMinusOne(w - 1, i - 1);
    }
  }

  /** A value below `2 ** w` has no digit at `w` or above. */
  lemma {:induction false} BitBelowPower(n: nat, w: nat, i: nat)
    requires n < Shl(1, w) && w <= i
    ensures !Bit(n, i)
  {
    if w == 0 {
      assert n == 0;
      BitOfZero(i);
    } else {
      BitBelowPower(n / 2, w - 1, i - 1);
    }
  }

}
