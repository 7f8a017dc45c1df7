/** Natural numbers as bit strings: the parts of big.Int and of shifts that the CPU masks use. */
module Bits {

  /** Bit `k` of `m`. */
  function Bit(m: nat, k: nat): bool {
    if k == 0 then m % 2 == 1 else Bit(m / 2, k - 1)
  }

  /** m >> k */
  function Shr(m: nat, k: nat): nat {
    if k == 0 then m else Shr(m / 2, k - 1)
  }

  /** m << k */
  function Shl(m: nat, k: nat): nat {
    if k == 0 then m else 2 * Shl(m, k - 1)
  }

  /** The bitwise or. */
  function Or(a: nat, b: nat): nat {
    if a == 0 then b else if b == 0 then a
    else 2 * Or(a / 2, b / 2) + (if a % 2 == 1 || b % 2 == 1 then 1 else 0)
  }

  /** `m` has exactly the bits in `s`. */
  ghost predicate IsMask(m: nat, s: set<nat>) {
    forall k: nat :: Bit(m, k) <==> k in s
  }

  lemma {:induction false} ZeroBits(k: nat)
    ensures !Bit(0, k)
  {
    if k > 0 {
      ZeroBits(k - 1);
    }
  }

  lemma OrHalves(a: nat, b: nat)
    requires a != 0 && b != 0
    ensures Or(a, b) / 2 == Or(a / 2, b / 2)
    ensures Or(a, b) % 2 == 1 <==> a % 2 == 1 || b % 2 == 1
  {
  }

  lemma {:induction false} OrBits(a: nat, b: nat, k: nat)
    ensures Bit(Or(a, b), k) <==> Bit(a, k) || Bit(b, k)
  {
    ZeroBits(k);
    if a != 0 && b != 0 {
      OrHalves(a, b);
      if k > 0 {
        OrBits(a / 2, b / 2, k - 1);
      }
    }
  }

  lemma {:induction false} ShrBits(m: nat, a: nat, k: nat)
    ensures Bit(Shr(m, a), k) == Bit(m, a + k)
  {
    if a > 0 {
      ShrBits(m / 2, a - 1, k);
    }
  }

  /** The bits of a sum whose parts do not overlap. */
  lemma {:induction false} ShlAddBits(v: nat, w: nat, a: nat, k: nat)
    requires w < Shl(1, a)
    ensures Bit(Shl(v, a) + w, k) == if k < a then Bit(w, k) else Bit(v, k - a)
  {
    if a > 0 {
      assert Shl(v, a) + w == 2 * (Shl(v, a - 1) + w / 2) + w % 2;
      if k > 0 {
        ShlAddBits(v, w / 2, a - 1, k - 1);
      }
    }
  }

  lemma {:induction false} OneBit(a: nat, k: nat)
    ensures Bit(Shl(1, a), k) <==> k == a
  {
    ShlAddBits(1, 0, a, k) by { ShlPositive(1, a); }
    ZeroBits(k);
    if k > a {
      ZeroBits(k - a - 1);
    }
  }

  lemma {:induction false} ShlPositive(v: nat, a: nat)
    ensures v > 0 ==> Shl(v, a) > 0
    ensures Shl(v, a) >= v
  {
    if a > 0 {
      ShlPositive(v, a - 1);
    }
  }

  lemma {:induction false} ShlMonotone(v: nat, w: nat, a: nat)
    requires v <= w
    ensures Shl(v, a) <= Shl(w, a)
  {
    if a > 0 {
      ShlMonotone(v, w, a - 1);
    }
  }

  lemma {:induction false} ShlSum(v: nat, a: nat, b: nat)
    ensures Shl(Shl(v, a), b) == Shl(v, a + b)
  {
    if b > 0 {
      ShlSum(v, a, b - 1);
    }
  }

  lemma {:induction false} ShrSum(m: nat, a: nat, b: nat)
    ensures Shr(Shr(m, a), b) == Shr(m, a + b)
  {
    if a > 0 {
      ShrSum(m / 2, a - 1, b);
    }
  }

  /** A number is determined by its bits. */
  lemma {:induction false} SameBits(a: nat, b: nat)
    requires forall k: nat :: Bit(a, k) == Bit(b, k)
    ensures a == b
    decreases a + b
  {
    assert Bit(a, 0) == Bit(b, 0);
    if a + b > 0 {
      forall k: nat
        ensures Bit(a / 2, k) == Bit(b / 2, k)
      {
        assert Bit(a, k + 1) == Bit(b, k + 1);
      }
      SameBits(a / 2, b / 2);
    }
  }

  /** A word of 32 bits. */
  const WORD: nat := 0x1_0000_0000

  lemma Shl4(v: nat, a: nat)
    ensures Shl(v, a + 4) == 16 * Shl(v, a)
  {
    assert Shl(v, a + 4) == 2 * Shl(v, a + 3) && Shl(v, a + 3) == 2 * Shl(v, a + 2);
    assert Shl(v, a + 2) == 2 * Shl(v, a + 1) && Shl(v, a + 1) == 2 * Shl(v, a);
  }

  lemma ShlWord(v: nat)
    ensures Shl(v, 32) == WORD * v
  {
    Shl4(v, 0);
    Shl4(v, 4);
    Shl4(v, 8);
    Shl4(v, 12);
    Shl4(v, 16);
    Shl4(v, 20);
    Shl4(v, 24);
    Shl4(v, 28);
  }

  lemma Shr4(m: nat)
    ensures Shr(m, 4) == m / 16
  {
    assert Shr(m, 4) == Shr(m / 2, 3) && Shr(m / 2, 3) == Shr(m / 2 / 2, 2);
    assert Shr(m / 2 / 2, 2) == Shr(m / 2 / 2 / 2, 1) && Shr(m / 2 / 2 / 2, 1) == Shr(m / 2 / 2 / 2 / 2, 0);
  }
}
