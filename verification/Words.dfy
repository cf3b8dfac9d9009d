/**
  Machine words of `w` bits as numbers, with their bitwise operations.
*/
module Words {
  function Pow2(k: nat): (n: nat)
    ensures n > 0
  {
    if k == 0 then 1 else 2 * Pow2(k - 1)
  }

  lemma {:induction false} Pow2Monotone(j: nat, k: nat)
    requires j <= k
    ensures Pow2(j) <= Pow2(k)
    decreases k
  {
    if j < k { Pow2Monotone(j, k - 1); }
  }

  /** Bitwise `and` of two `w`-bit words. */
  function And(w: nat, x: nat, y: nat): nat {
    if w == 0 then 0 else (x % 2) * (y % 2) + 2 * And(w - 1, x / 2, y / 2)
  }

  /** Bitwise `or` of two `w`-bit words. */
  function Or(w: nat, x: nat, y: nat): nat {
    if w == 0 then 0 else (if x % 2 == 1 || y % 2 == 1 then 1 else 0) + 2 * Or(w - 1, x / 2, y / 2)
  }

  /** The complement of a `w`-bit word. */
  function Not(w: nat, x: nat): nat
    requires x < Pow2(w)
  {
    Pow2(w) - 1 - x
  }

  /** Bit `k` of a number. */
  predicate Bit(x: nat, k: nat) {
    if k == 0 then x % 2 == 1 else Bit(x / 2, k - 1)
  }

  lemma {:induction false} AndBits(w: nat, x: nat, y: nat, k: nat)
    ensures And(w, x, y) < Pow2(w)
    ensures k < w ==> (Bit(And(w, x, y), k) <==> Bit(x, k) && Bit(y, k))
    decreases w
  {
    if w > 0 {
      AndBits(w - 1, x / 2, y / 2, if k > 0 then k - 1 else 0);
      var b := (x % 2) * (y % 2);
      assert b == if x % 2 == 1 && y % 2 == 1 then 1 else 0;
      LowAndRest(b, And(w - 1, x / 2, y / 2));
    }
  }

  lemma {:induction false} OrBits(w: nat, x: nat, y: nat, k: nat)
    ensures Or(w, x, y) < Pow2(w)
    ensures k < w ==> (Bit(Or(w, x, y), k) <==> Bit(x, k) || Bit(y, k))
    decreases w
  {
    if w > 0 {
      OrBits(w - 1, x / 2, y / 2, if k > 0 then k - 1 else 0);
      LowAndRest(if x % 2 == 1 || y % 2 == 1 then 1 else 0, Or(w - 1, x / 2, y / 2));
    }
  }

  lemma LowAndRest(b: nat, rest: nat)
    requires b < 2
    ensures (b + 2 * rest) % 2 == b && (b + 2 * rest) / 2 == rest
  {
  }

  lemma {:induction false} NotBits(w: nat, x: nat, k: nat)
    requires x < Pow2(w) && k < w
    ensures Bit(Not(w, x), k) <==> !Bit(x, k)
    decreases w
  {
    LowAndRest(1 - x % 2, Pow2(w - 1) - 1 - x / 2);
    assert Not(w, x) == (1 - x % 2) + 2 * (Pow2(w - 1) - 1 - x / 2);
    if k > 0 { NotBits(w - 1, x / 2, k - 1); }
  }

  lemma {:induction false} ZeroBits(k: nat)
    ensures !Bit(0, k)
  {
    if k > 0 { ZeroBits(k - 1); }
  }

  lemma {:induction false} Pow2Bits(j: nat, k: nat)
    ensures Bit(Pow2(j), k) <==> j == k
    decreases k
  {
    if j == 0 {
      if k > 0 { ZeroBits(k - 1); }
    } else {
      LowAndRest(0, Pow2(j - 1));
      if k > 0 { Pow2Bits(j - 1, k - 1); }
    }
  }

  /** Two words with the same bits are equal. */
  lemma {:induction false} SameBits(w: nat, x: nat, y: nat)
    requires x < Pow2(w) && y < Pow2(w) && forall k: nat | k < w :: Bit(x, k) <==> Bit(y, k)
    ensures x == y
    decreases w
  {
    if w > 0 {
      assert Bit(x, 0) <==> Bit(y, 0);
      forall k: nat | k < w - 1 ensures Bit(x / 2, k) <==> Bit(y / 2, k) {
        assert Bit(x, k + 1) <==> Bit(y, k + 1);
      }
      SameBits(w - 1, x / 2, y / 2);
    }
  }

  /** Testing with a one-bit mask. */
  lemma {:induction false} AndMask(w: nat, x: nat, k: nat)
    requires k < w
    ensures And(w, x, Pow2(k)) != 0 <==> Bit(x, k)
    decreases w
  {
    if k == 0 {
      AndZero(w - 1, x / 2);
      assert Pow2(0) / 2 == 0;
    } else {
      LowAndRest(0, Pow2(k - 1));
      AndMask(w - 1, x / 2, k - 1);
    }
  }

  lemma {:induction false} AndZero(w: nat, x: nat)
    ensures And(w, x, 0) == 0
    decreases w
  {
    if w > 0 { AndZero(w - 1, x / 2); }
  }
}
