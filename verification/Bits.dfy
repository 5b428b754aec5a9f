/**
 Integers as unbounded two's-complement bit strings: the meaning Python gives to
 `>>`, `<<`, `&`, `|` and `~` on `int`, negative values included.  Every operator is
 characterised by the bits of its result, and an integer is determined by its bits.
 */
module Bits {

  function Pow2(n: nat): (p: int)
    ensures p >= 1
  {
    if n == 0 then 1 else 2 * Pow2(n - 1)
  }

  /** Bit `i` of `x`; every bit from some point on repeats the sign. */
  predicate Bit(x: int, i: nat)
    decreases i
  {
    if i == 0 then x % 2 == 1 else Bit(x / 2, i - 1)
  }

  function Shr(x: int, n: nat): int
    decreases n
  {
    if n == 0 then x else Shr(x / 2, n - 1)
  }

  function Shl(x: int, n: nat): int
    decreases n
  {
    if n == 0 then x else 2 * Shl(x, n - 1)
  }

  function Not(x: int): int {
    -1 - x
  }

  function Abs(x: int): nat {
    if x < 0 then -x else x
  }

  function And(x: int, y: int): int
    decreases Abs(x) + Abs(y)
  {
    if x == 0 || y == 0 then 0
    else if x == -1 then y
    else if y == -1 then x
    else 2 * And(x / 2, y / 2) + (if x % 2 == 1 && y % 2 == 1 then 1 else 0)
  }

  function Or(x: int, y: int): int {
    Not(And(Not(x), Not(y)))
  }

  function Xor(x: int, y: int): int
    decreases Abs(x) + Abs(y)
  {
    if x == 0 then y
    else if y == 0 then x
    else if x == -1 then Not(y)
    else if y == -1 then Not(x)
    else 2 * Xor(x / 2, y / 2) + (if x % 2 == y % 2 then 0 else 1)
  }

  /** The `n` lowest bits set. */
  function LowMask(n: nat): int {
    Shl(1, n) - 1
  }

  // ----- bits of the operators

  lemma {:induction false} NotBit(x: int, i: nat)
    ensures Bit(Not(x), i) == !Bit(x, i)
    decreases i
  {
    if i > 0 {
      assert Not(x) / 2 == Not(x / 2);
      NotBit(x / 2, i - 1);
    }
  }

  lemma {:induction false} AndHalves(x: int, y: int)
    ensures And(x, y) / 2 == And(x / 2, y / 2)
    ensures And(x, y) % 2 == 1 <==> x % 2 == 1 && y % 2 == 1
  {
  }

  lemma {:induction false} AndBit(x: int, y: int, i: nat)
    ensures Bit(And(x, y), i) == (Bit(x, i) && Bit(y, i))
    decreases i
  {
    AndHalves(x, y);
    if i > 0 {
      AndBit(x / 2, y / 2, i - 1);
    }
  }

  lemma {:induction false} OrBit(x: int, y: int, i: nat)
    ensures Bit(Or(x, y), i) == (Bit(x, i) || Bit(y, i))
  {
    NotBit(And(Not(x), Not(y)), i);
    AndBit(Not(x), Not(y), i);
    NotBit(x, i);
    NotBit(y, i);
  }

  lemma {:induction false} XorHalves(x: int, y: int)
    ensures Xor(x, y) / 2 == Xor(x / 2, y / 2)
    ensures Xor(x, y) % 2 == 1 <==> (x % 2 == 1) != (y % 2 == 1)
  {
  }

  lemma {:induction false} XorBit(x: int, y: int, i: nat)
    ensures Bit(Xor(x, y), i) == (Bit(x, i) != Bit(y, i))
    decreases i
  {
    XorHalves(x, y);
    if i > 0 {
      XorBit(x / 2, y / 2, i - 1);
    }
  }

  lemma {:induction false} ShrBit(x: int, n: nat, i: nat)
    ensures Bit(Shr(x, n), i) == Bit(x, i + n)
    decreases n
  {
    if n > 0 {
      ShrBit(x / 2, n - 1, i);
    }
  }

  lemma {:induction false} ShlBit(x: int, n: nat, i: nat)
    ensures Bit(Shl(x, n), i) == (i >= n && Bit(x, i - n))
  {
    if n > 0 && i > 0 {
      assert Shl(x, n) / 2 == Shl(x, n - 1);
      ShlBit(x, n - 1, i - 1);
    }
  }

  lemma {:induction false} ConstantBits(i: nat)
    ensures !Bit(0, i) && Bit(-1, i) && Bit(1, i) == (i == 0)
  {
    if i > 0 {
      ConstantBits(i - 1);
    }
  }

  lemma {:induction false} OneShlBit(n: nat, i: nat)
    ensures Bit(Shl(1, n), i) == (i == n)
  {
    ShlBit(1, n, i);
    if i >= n {
      ConstantBits(i - n);
    }
  }

  lemma {:induction false} LowMaskBit(n: nat, i: nat)
    ensures Bit(LowMask(n), i) == (i < n)
  {
    if n == 0 {
      ConstantBits(i);
    } else if i > 0 {
      assert LowMask(n) / 2 == LowMask(n - 1);
      LowMaskBit(n - 1, i - 1);
    }
  }

  lemma {:induction false} ShlIsTimes(x: int, n: nat)
    ensures Shl(x, n) == x * Pow2(n)
  {
    if n > 0 {
      ShlIsTimes(x, n - 1);
      assert x * Pow2(n) == 2 * (x * Pow2(n - 1));
    }
  }

  lemma {:induction false} Pow2Adds(m: nat, n: nat)
    ensures Pow2(m + n) == Pow2(m) * Pow2(n)
  {
    if m > 0 {
      Pow2Adds(m - 1, n);
      assert Pow2(m) * Pow2(n) == 2 * (Pow2(m - 1) * Pow2(n));
    }
  }

  lemma {:induction false} Pow2Monotone(m: nat, n: nat)
    requires m <= n
    ensures Pow2(m) <= Pow2(n)
  {
    if m < n {
      Pow2Monotone(m, n - 1);
    }
  }

  // ----- an integer is its bits

  lemma {:induction false} BitsDetermine(x: int, y: int)
    requires forall i: nat :: Bit(x, i) == Bit(y, i)
    ensures x == y
    decreases Abs(x) + Abs(y)
  {
    assert Bit(x, 0) == Bit(y, 0);
    if (x == 0 || x == -1) && (y == 0 || y == -1) {
    } else {
      forall i: nat ensures Bit(x / 2, i) == Bit(y / 2, i) {
        assert Bit(x, i + 1) == Bit(y, i + 1);
      }
      BitsDetermine(x / 2, y / 2);
    }
  }

  /** From bit `n` on, `x` only repeats its sign. */
  ghost predicate SignFrom(x: int, n: nat) {
    forall i: nat :: i >= n ==> Bit(x, i) == (x < 0)
  }

  lemma {:induction false} SignFromHalves(x: int, n: nat)
    requires n > 0
    ensures SignFrom(x, n) <==> SignFrom(x / 2, n - 1)
  {
    if SignFrom(x, n) {
      forall i: nat | i >= n - 1 ensures Bit(x / 2, i) == (x / 2 < 0) {
        assert Bit(x, i + 1) == (x < 0);
      }
    }
    if SignFrom(x / 2, n - 1) {
      forall i: nat | i >= n ensures Bit(x, i) == (x < 0) {
        assert Bit(x / 2, i - 1) == (x / 2 < 0);
      }
    }
  }

  /** `x` fits in `n` bits besides the sign exactly when bits `n` and up all repeat the sign. */
  lemma {:induction false} RangeIsSignBits(x: int, n: nat)
    ensures SignFrom(x, n) <==> -Pow2(n) <= x < Pow2(n)
    decreases n
  {
    if n > 0 {
      SignFromHalves(x, n);
      RangeIsSignBits(x / 2, n - 1);
    } else {
      var sign := if x < 0 then -1 else 0;
      forall i: nat ensures Bit(sign, i) == (x < 0) {
        ConstantBits(i);
      }
      if SignFrom(x, 0) {
        BitsDetermine(x, sign);
      }
    }
  }

  lemma {:induction false} NonNegativeRange(x: int, n: nat)
    requires x >= 0
    ensures x < Pow2(n) ==> forall i: nat :: i >= n ==> !Bit(x, i)
    ensures (forall i: nat :: i >= n ==> !Bit(x, i)) ==> x < Pow2(n)
  {
    RangeIsSignBits(x, n);
    if SignFrom(x, n) {
      forall i: nat | i >= n ensures !Bit(x, i) {
        assert Bit(x, i) == (x < 0);
      }
    } else {
      var i: nat :| i >= n && Bit(x, i) != (x < 0);
      assert i >= n && Bit(x, i);
    }
  }

  /** The bits of `lo + x * 2^n` are those of `lo` followed by those of `x`. */
  lemma {:induction false} ConcatBit(lo: int, x: int, n: nat, i: nat)
    requires 0 <= lo < Pow2(n)
    ensures Bit(lo + Shl(x, n), i) == if i < n then Bit(lo, i) else Bit(x, i - n)
    decreases n
  {
    if n > 0 {
      assert (lo + Shl(x, n)) / 2 == lo / 2 + Shl(x, n - 1);
      assert (lo + Shl(x, n)) % 2 == lo % 2;
      if i > 0 {
        ConcatBit(lo / 2, x, n - 1, i - 1);
      }
    }
  }

  // ----- the sign survives

  lemma {:induction false} AndSign(x: int, y: int)
    ensures And(x, y) < 0 <==> x < 0 && y < 0
    decreases Abs(x) + Abs(y)
  {
    if x == 0 || y == 0 || x == -1 || y == -1 {
    } else {
      AndSign(x / 2, y / 2);
    }
  }

  lemma {:induction false} OrSign(x: int, y: int)
    ensures Or(x, y) < 0 <==> x < 0 || y < 0
  {
    AndSign(Not(x), Not(y));
  }

  lemma {:induction false} XorSign(x: int, y: int)
    ensures Xor(x, y) < 0 <==> (x < 0) != (y < 0)
    decreases Abs(x) + Abs(y)
  {
    if x == 0 || y == 0 || x == -1 || y == -1 {
    } else {
      XorSign(x / 2, y / 2);
    }
  }

  lemma {:induction false} XorRange(x: int, y: int, n: nat)
    requires 0 <= x < Pow2(n) && 0 <= y < Pow2(n)
    ensures 0 <= Xor(x, y) < Pow2(n)
  {
    XorSign(x, y);
    NonNegativeRange(x, n);
    NonNegativeRange(y, n);
    forall i: nat | i >= n ensures !Bit(Xor(x, y), i) {
      XorBit(x, y, i);
    }
    NonNegativeRange(Xor(x, y), n);
  }
}
