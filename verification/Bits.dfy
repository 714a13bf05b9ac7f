/** The bit operations the codec needs, on natural numbers: each is given by recursion on the bits, and each
    comes with the lemma that says which bit of the result is which bit of the operands. */
module Bits {
  type Byte = b: nat | b < 256

  /** Bit `s` of `v`, the least significant being bit 0. */
  predicate Bit(v: nat, s: nat) {
    if s == 0 then v % 2 == 1 else Bit(v / 2, s - 1)
  }

  function Shl(v: nat, n: nat): nat {
    if n == 0 then v else 2 * Shl(v, n - 1)
  }

  function Shr(v: nat, n: nat): nat {
    if n == 0 then v else Shr(v / 2, n - 1)
  }

  function Or(a: nat, b: nat): nat
    decreases a + b
  {
    if a == 0 && b == 0 then 0
    else 2 * Or(a / 2, b / 2) + if a % 2 == 1 || b % 2 == 1 then 1 else 0
  }

  function And(a: nat, b: nat): nat {
    if a == 0 then 0
    else 2 * And(a / 2, b / 2) + if a % 2 == 1 && b % 2 == 1 then 1 else 0
  }

  /** The low `n` bits of `v`: what a cast to an `n`-bit unsigned type keeps. */
  function Low(v: nat, n: nat): nat {
    if n == 0 then 0 else 2 * Low(v / 2, n - 1) + v % 2
  }

  /** `n` set bits, the constant `ones<n>` of the source. */
  function Ones(n: nat): nat {
    if n == 0 then 0 else 2 * Ones(n - 1) + 1
  }

  function ToByte(v: nat): Byte {
    LowIsByte(v);
    Low(v, 8)
  }

  lemma {:induction false} LowIsByte(v: nat)
    ensures Low(v, 8) < 256
  {
    assert Low(v, 8) == 2 * Low(v / 2, 7) + v % 2;
    LowBound(v / 2, 7, 128);
  }

  /** `Low(v, n) < 2^n`, with the power given by the caller. */
  lemma {:induction false} LowBound(v: nat, n: nat, bound: nat)
    requires bound == Shl(1, n)
    ensures Low(v, n) < bound
  {
    if n > 0 {
      LowBound(v / 2, n - 1, Shl(1, n - 1));
    }
  }

  lemma {:induction false} BitZero(s: nat)
    ensures !Bit(0, s)
  {
    if s > 0 { BitZero(s - 1); }
  }

  lemma {:induction false} BitShl(v: nat, n: nat, s: nat)
    ensures Bit(Shl(v, n), s) == (s >= n && Bit(v, s - n))
  {
    if n > 0 {
      assert Shl(v, n) % 2 == 0 && Shl(v, n) / 2 == Shl(v, n - 1);
      if s > 0 { BitShl(v, n - 1, s - 1); }
    }
  }

  lemma {:induction false} BitShr(v: nat, n: nat, s: nat)
    ensures Bit(Shr(v, n), s) == Bit(v, s + n)
  {
    if n > 0 { BitShr(v / 2, n - 1, s); }
  }

  lemma {:induction false} BitOr(a: nat, b: nat, s: nat)
    ensures Bit(Or(a, b), s) == (Bit(a, s) || Bit(b, s))
  {
    if a == 0 && b == 0 {
      BitZero(s);
    } else {
      assert Or(a, b) / 2 == Or(a / 2, b / 2);
      if s > 0 { BitOr(a / 2, b / 2, s - 1); }
    }
  }

  lemma {:induction false} BitAnd(a: nat, b: nat, s: nat)
    ensures Bit(And(a, b), s) == (Bit(a, s) && Bit(b, s))
  {
    if a == 0 {
      BitZero(s);
    } else {
      assert And(a, b) / 2 == And(a / 2, b / 2);
      if s > 0 { BitAnd(a / 2, b / 2, s - 1); }
    }
  }

  lemma {:induction false} BitLow(v: nat, n: nat, s: nat)
    ensures Bit(Low(v, n), s) == (s < n && Bit(v, s))
  {
    if n == 0 {
      BitZero(s);
    } else {
      assert Low(v, n) / 2 == Low(v / 2, n - 1);
      if s > 0 { BitLow(v / 2, n - 1, s - 1); }
    }
  }

  lemma {:induction false} BitOnes(n: nat, s: nat)
    ensures Bit(Ones(n), s) == (s < n)
  {
    if n == 0 {
      BitZero(s);
    } else {
      assert Ones(n) / 2 == Ones(n - 1);
      if s > 0 { BitOnes(n - 1, s - 1); }
    }
  }

  /** A number is its bits. */
  lemma {:induction false} SameBits(a: nat, b: nat)
    requires forall s: nat :: Bit(a, s) == Bit(b, s)
    ensures a == b
    decreases a + b
  {
    if a != 0 || b != 0 {
      assert Bit(a, 0) == Bit(b, 0);
      forall s: nat ensures Bit(a / 2, s) == Bit(b / 2, s) {
        assert Bit(a, s + 1) == Bit(b, s + 1);
      }
      SameBits(a / 2, b / 2);
    }
  }

  /** A number below 2^n has no bit from `n` up. */
  lemma {:induction false} HighBitsClear(v: nat, n: nat, s: nat)
    requires v < Shl(1, n) && s >= n
    ensures !Bit(v, s)
  {
    if n == 0 {
      BitZero(s);
    } else {
      HighBitsClear(v / 2, n - 1, s - 1);
    }
  }
}
