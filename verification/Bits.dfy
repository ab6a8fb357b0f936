/** Bitwise operators on unbounded naturals, bit by bit. A fixed width shows up only as a bound. */
module Bits {

  ghost function Pow2(k: nat): (p: nat)
    ensures p > 0
  {
    if k == 0 then 1 else 2 * Pow2(k - 1)
  }

  function Or(a: nat, b: nat): nat {
    if a == 0 then b
    else if b == 0 then a
    else 2 * Or(a / 2, b / 2) + (if a % 2 == 1 || b % 2 == 1 then 1 else 0)
  }

  /** `a & !b` */
  function AndNot(a: nat, b: nat): nat {
    if a == 0 then 0 else 2 * AndNot(a / 2, b / 2) + (if a % 2 == 1 && b % 2 == 0 then 1 else 0)
  }

  function Xor(a: nat, b: nat): nat {
    if a == 0 then b
    else if b == 0 then a
    else 2 * Xor(a / 2, b / 2) + (if a % 2 != b % 2 then 1 else 0)
  }

  /** Bit `k` of `a` is set. */
  predicate Bit(a: nat, k: nat) {
    if k == 0 then a % 2 == 1 else Bit(a / 2, k - 1)
  }

  lemma {:induction false} BitOfOr(a: nat, b: nat, k: nat)
    ensures Bit(Or(a, b), k) <==> Bit(a, k) || Bit(b, k)
  {
    ZeroHasNoBits(k);
    if k > 0 && a != 0 && b != 0 {
      BitOfOr(a / 2, b / 2, k - 1);
    }
  }

  lemma {:induction false} BitOfAndNot(a: nat, b: nat, k: nat)
    ensures Bit(AndNot(a, b), k) <==> Bit(a, k) && !Bit(b, k)
  {
    ZeroHasNoBits(k);
    if k > 0 && a != 0 {
      BitOfAndNot(a / 2, b / 2, k - 1);
    }
  }

  lemma {:induction false} ZeroHasNoBits(k: nat)
    ensures !Bit(0, k)
  {
    if k > 0 {
      ZeroHasNoBits(k - 1);
    }
  }

  lemma {:induction false} BitOfPow2(j: nat, k: nat)
    ensures Bit(Pow2(j), k) <==> j == k
  {
    if j == 0 {
      if k > 0 {
        ZeroHasNoBits(k - 1);
      }
    } else if k > 0 {
      BitOfPow2(j - 1, k - 1);
    }
  }

  lemma {:induction false} OrBound(a: nat, b: nat, w: nat)
    requires a < Pow2(w) && b < Pow2(w)
    ensures Or(a, b) < Pow2(w)
  {
    if w > 0 && a != 0 && b != 0 {
      OrBound(a / 2, b / 2, w - 1);
    }
  }

  lemma {:induction false} AndNotBound(a: nat, b: nat)
    ensures AndNot(a, b) <= a
  {
    if a != 0 {
      AndNotBound(a / 2, b / 2);
    }
  }

  /** A left shift past every bit of `low` makes the exclusive or a plain sum. */
  lemma {:induction false} XorAbove(low: nat, high: nat, k: nat)
    requires low < Pow2(k)
    ensures Xor(low, high * Pow2(k)) == high * Pow2(k) + low
  {
    if k > 0 && low != 0 && high != 0 {
      var half := high * Pow2(k - 1);
      assert high * Pow2(k) == 2 * half;
      XorAbove(low / 2, high, k - 1);
    }
  }
}
