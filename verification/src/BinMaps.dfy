/**
 The 32-bit bin maps of dlmalloc: one bit per bin, set exactly when the bin is non-empty.

 A word is a natural number below 2^32 and `Bit(x, i)` is the meaning of its bit `i`. The macros
 are written with the same operators as in C (two's complement negation, shifts that lose the
 bits leaving the word); the lemmas at the end say what they compute in terms of the bits.
 */
module BinMaps {

  const NBINS: nat := 32
  const WORD: nat := 0x1_0000_0000

  function Pow2(n: nat): (p: nat)
    ensures p > 0
  {
    if n == 0 then 1 else 2 * Pow2(n - 1)
  }

  // ---------------------------------------------------------------- machine operators

  /** Bit `i` of `x`, least significant first. */
  predicate Bit(x: nat, i: nat) {
    if i == 0 then x % 2 == 1 else Bit(x / 2, i - 1)
  }

  function And(x: nat, y: nat): nat {
    if x == 0 || y == 0 then 0
    else 2 * And(x / 2, y / 2) + (if x % 2 == 1 && y % 2 == 1 then 1 else 0)
  }

  function Or(x: nat, y: nat): nat {
    if x == 0 then y else if y == 0 then x
    else 2 * Or(x / 2, y / 2) + (if x % 2 == 1 || y % 2 == 1 then 1 else 0)
  }

  function Not(x: nat): nat
    requires x < WORD
  {
    WORD - 1 - x
  }

  function Neg(x: nat): nat
    requires x < WORD
  {
    if x == 0 then 0 else WORD - x
  }

  function ShiftLeft(x: nat, n: nat): (y: nat)
    requires x < WORD
    ensures y < WORD
    decreases n
  {
    if n == 0 then x else ShiftLeft((2 * x) % WORD, n - 1)
  }

  function ShiftRight(x: nat, n: nat): (y: nat)
    ensures y <= x
    decreases n
  {
    if n == 0 then x else ShiftRight(x / 2, n - 1)
  }

  // ---------------------------------------------------------------- macros on bin maps

  /** `(binmap_t)(1) << i` */
  function Idx2Bit(i: nat): nat { ShiftLeft(1, i) }

  function LeastBit(x: nat): nat
    requires x < WORD
  {
    And(x, Neg(x))
  }

  function LeftBits(x: nat): nat
    requires x < WORD
  {
    Or(ShiftLeft(x, 1), Neg(ShiftLeft(x, 1)))
  }

  /** `compute_bit2idx`: the number of trailing zero bits. */
  function Bit2Idx(x: nat): nat
    requires x != 0
  {
    if x % 2 == 1 then 0 else 1 + Bit2Idx(x / 2)
  }

  // ---------------------------------------------------------------- bits of the operators

  lemma {:induction false} BitAnd(x: nat, y: nat, i: nat)
    ensures Bit(And(x, y), i) == (Bit(x, i) && Bit(y, i))
  {
    if x == 0 || y == 0 {
      BitZero(i);
    } else if i > 0 {
      BitAnd(x / 2, y / 2, i - 1);
    }
  }

  lemma {:induction false} BitOr(x: nat, y: nat, i: nat)
    ensures Bit(Or(x, y), i) == (Bit(x, i) || Bit(y, i))
  {
    if x == 0 || y == 0 {
      BitZero(i);
    } else if i > 0 {
      BitOr(x / 2, y / 2, i - 1);
    }
  }

  lemma {:induction false} BitZero(i: nat)
    ensures !Bit(0, i)
  {
    if i > 0 {
      BitZero(i - 1);
    }
  }

  /** Complement and negation within `n` bits, stated for every width so that they can be proved bit by bit. */
  lemma {:induction false} BitNot(n: nat, x: nat, i: nat)
    requires x < Pow2(n) && i < n
    ensures Bit(Pow2(n) - 1 - x, i) == !Bit(x, i)
  {
    if i > 0 {
      assert (Pow2(n) - 1 - x) / 2 == Pow2(n - 1) - 1 - x / 2;
      BitNot(n - 1, x / 2, i - 1);
    }
  }

  lemma {:induction false} BitNeg(n: nat, x: nat, i: nat)
    requires 0 < x < Pow2(n) && i < n
    ensures Bit(Pow2(n) - x, i) == (Bit2Idx(x) == i || (Bit2Idx(x) < i && !Bit(x, i)))
  {
    if x % 2 == 1 {
      if i > 0 {
        assert (Pow2(n) - x) / 2 == Pow2(n - 1) - 1 - x / 2;
        BitNot(n - 1, x / 2, i - 1);
      }
    } else if i > 0 {
      assert (Pow2(n) - x) / 2 == Pow2(n - 1) - x / 2;
      BitNeg(n - 1, x / 2, i - 1);
    }
  }

  lemma {:induction false} BitPow2(i: nat, k: nat)
    ensures Bit(Pow2(i), k) == (i == k)
  {
    if i == 0 {
      if k > 0 { BitZero(k - 1); }
    } else if k > 0 {
      BitPow2(i - 1, k - 1);
    }
  }

  lemma {:induction false} Bit2IdxPow2(i: nat)
    ensures Bit2Idx(Pow2(i)) == i
  {
    if i > 0 {
      Bit2IdxPow2(i - 1);
    }
  }

  /** The scan finds the least set bit. */
  lemma {:induction false} Bit2IdxLeast(x: nat, n: nat)
    requires 0 < x < Pow2(n)
    ensures Bit2Idx(x) < n && Bit(x, Bit2Idx(x))
    ensures forall k :: 0 <= k < Bit2Idx(x) ==> !Bit(x, k)
  {
    if x % 2 == 0 {
      Bit2IdxLeast(x / 2, n - 1);
    }
  }

  lemma {:induction false} Pow2Below(i: nat, n: nat)
    requires i < n
    ensures Pow2(i) < Pow2(n)
  {
    if i < n - 1 {
      Pow2Below(i, n - 1);
    }
  }

  lemma Pow2Word()
    ensures Pow2(NBINS) == WORD
  {
    assert Pow2(8) == 256;
    assert Pow2(16) == 0x1_0000 by { assert Pow2(12) == 0x1000; }
    assert Pow2(24) == 0x100_0000 by { assert Pow2(20) == 0x10_0000; }
    assert Pow2(28) == 0x1000_0000;
  }

  lemma {:induction false} ShiftLeftPow2(j: nat, i: nat)
    requires i + j < NBINS && Pow2(j) < WORD
    ensures ShiftLeft(Pow2(j), i) == Pow2(i + j)
    decreases i
  {
    if i > 0 {
      Pow2Word();
      Pow2Below(j + 1, NBINS);
      ShiftLeftPow2(j + 1, i - 1);
    }
  }

  lemma Idx2BitIsPow2(i: nat)
    requires i < NBINS
    ensures Idx2Bit(i) == Pow2(i) < WORD
  {
    ShiftLeftPow2(0, i);
    Pow2Word();
    Pow2Below(i, NBINS);
  }

  lemma {:induction false} OrBound(n: nat, x: nat, y: nat)
    requires x < Pow2(n) && y < Pow2(n)
    ensures Or(x, y) < Pow2(n)
  {
    if x != 0 && y != 0 {
      OrBound(n - 1, x / 2, y / 2);
    }
  }

  lemma {:induction false} AndBound(x: nat, y: nat)
    ensures And(x, y) <= x && And(x, y) <= y
  {
    if x != 0 && y != 0 {
      AndBound(x / 2, y / 2);
    }
  }

  lemma {:induction false} LeastBitIsPow2(n: nat, x: nat)
    requires 0 < x < Pow2(n)
    ensures And(x, Pow2(n) - x) == Pow2(Bit2Idx(x))
  {
    if x % 2 == 1 {
      assert (Pow2(n) - x) / 2 == Pow2(n - 1) - 1 - x / 2;
      AndNot(n - 1, x / 2);
    } else {
      assert (Pow2(n) - x) / 2 == Pow2(n - 1) - x / 2;
      LeastBitIsPow2(n - 1, x / 2);
    }
  }

  lemma {:induction false} AndNot(n: nat, x: nat)
    requires x < Pow2(n)
    ensures And(x, Pow2(n) - 1 - x) == 0
  {
    if x != 0 {
      assert (Pow2(n) - 1 - x) / 2 == Pow2(n - 1) - 1 - x / 2;
      AndNot(n - 1, x / 2);
    }
  }

  lemma {:induction false} BitShiftRight(x: nat, n: nat, k: nat)
    ensures Bit(ShiftRight(x, n), k) == Bit(x, n + k)
    decreases n
  {
    if n > 0 {
      BitShiftRight(x / 2, n - 1, k);
    }
  }

  /** Bits at or above `m` do not show below `m`. */
  lemma {:induction false} BitAddPow2(m: nat, x: nat, k: nat)
    requires k < m
    ensures Bit(x + Pow2(m), k) == Bit(x, k)
  {
    if k > 0 {
      assert (x + Pow2(m)) / 2 == x / 2 + Pow2(m - 1);
      BitAddPow2(m - 1, x / 2, k - 1);
    }
  }

  /** Shifting left by one moves every bit up and drops the top one. */
  lemma BitDouble(x: nat, k: nat)
    requires x < WORD && k < NBINS
    ensures Bit((2 * x) % WORD, k) == (k > 0 && Bit(x, k - 1))
  {
    var y := (2 * x) % WORD;
    if 2 * x >= WORD {
      Pow2Word();
      BitAddPow2(NBINS, y, k);
      assert y + WORD == 2 * x;
    }
  }

  lemma {:induction false} BitShiftLeft(x: nat, n: nat, k: nat)
    requires x < WORD && k < NBINS
    ensures Bit(ShiftLeft(x, n), k) == (n <= k && Bit(x, k - n))
    decreases n
  {
    if n > 0 {
      BitShiftLeft((2 * x) % WORD, n - 1, k);
      if n - 1 <= k {
        BitDouble(x, k - (n - 1));
      }
    }
  }

  // ---------------------------------------------------------------- what the macros compute

  /** `M->map |= idx2bit(i)` sets bit `i` and no other. */
  lemma MarkSetsOneBit(x: nat, i: nat, k: nat)
    requires x < WORD && i < NBINS && k < NBINS
    ensures Or(x, Idx2Bit(i)) < WORD
    ensures Bit(Or(x, Idx2Bit(i)), k) == (k == i || Bit(x, k))
  {
    Idx2BitIsPow2(i);
    Pow2Word();
    OrBound(NBINS, x, Pow2(i));
    BitOr(x, Pow2(i), k);
    BitPow2(i, k);
  }

  /** `M->map &= ~idx2bit(i)` clears bit `i` and no other. */
  lemma ClearClearsOneBit(x: nat, i: nat, k: nat)
    requires x < WORD && i < NBINS && k < NBINS
    ensures Idx2Bit(i) < WORD && And(x, Not(Idx2Bit(i))) < WORD
    ensures Bit(And(x, Not(Idx2Bit(i))), k) == (k != i && Bit(x, k))
  {
    Idx2BitIsPow2(i);
    Pow2Word();
    AndBound(x, Not(Pow2(i)));
    BitAnd(x, Not(Pow2(i)), k);
    BitNot(NBINS, Pow2(i), k);
    BitPow2(i, k);
  }

  /** `x & idx2bit(i)` tests bit `i`. */
  lemma {:induction false} AndPow2(x: nat, i: nat)
    ensures And(x, Pow2(i)) != 0 <==> Bit(x, i)
  {
    if x == 0 {
      BitZero(i);
    } else if i == 0 {
    } else {
      AndPow2(x / 2, i - 1);
    }
  }

  lemma TestBit(x: nat, i: nat)
    requires i < NBINS
    ensures And(x, Idx2Bit(i)) != 0 <==> Bit(x, i)
  {
    Idx2BitIsPow2(i);
    AndPow2(x, i);
  }

  /** `compute_bit2idx(least_bit(x), i)` names the least set bit of `x`. */
  lemma LeastBitIndex(x: nat)
    requires 0 < x < WORD
    ensures LeastBit(x) != 0
    ensures var i := Bit2Idx(LeastBit(x)); i < NBINS && Bit(x, i) && forall k :: 0 <= k < i ==> !Bit(x, k)
  {
    Pow2Word();
    LeastBitIsPow2(NBINS, x);
    Bit2IdxPow2(Bit2Idx(x));
    Bit2IdxLeast(x, NBINS);
  }

  /** `left_bits(idx2bit(i)) & x` keeps exactly the bits of `x` above bit `i`. */
  lemma LeftBitsAbove(x: nat, i: nat, k: nat)
    requires x < WORD && i < NBINS && k < NBINS
    ensures Idx2Bit(i) < WORD && And(LeftBits(Idx2Bit(i)), x) < WORD
    ensures Bit(And(LeftBits(Idx2Bit(i)), x), k) == (i < k && Bit(x, k))
  {
    Idx2BitIsPow2(i);
    AndBound(LeftBits(Pow2(i)), x);
    BitAnd(LeftBits(Pow2(i)), x, k);
    LeftBitsBit(i, k);
  }

  lemma LeftBitsBit(i: nat, k: nat)
    requires i < NBINS && k < NBINS && Pow2(i) < WORD
    ensures Bit(LeftBits(Pow2(i)), k) == (i < k)
  {
    var y := ShiftLeft(Pow2(i), 1);
    BitOr(y, Neg(y), k);
    if i + 1 < NBINS {
      ShiftLeftPow2(i, 1);
      Pow2Word();
      Bit2IdxPow2(i + 1);
      BitNeg(NBINS, y, k);
      BitPow2(i + 1, k);
    } else {
      Pow2Word();
      assert y == 0;
      BitZero(k);
    }
  }

  /** A map is zero exactly when no bit is set. */
  lemma ZeroMap(x: nat)
    requires x < WORD
    ensures x == 0 ==> forall k :: 0 <= k < NBINS ==> !Bit(x, k)
    ensures x != 0 ==> exists k :: 0 <= k < NBINS && Bit(x, k)
  {
    if x == 0 {
      forall k | 0 <= k < NBINS
        ensures !Bit(x, k)
      {
        BitZero(k);
      }
    } else {
      Pow2Word();
      Bit2IdxLeast(x, NBINS);
      var k := Bit2Idx(x);
      assert 0 <= k < NBINS && Bit(x, k);
    }
  }

  /** `x & 3`: bits 0 and 1. */
  lemma AndThree(x: nat)
    ensures And(x, 3) != 0 <==> Bit(x, 0) || Bit(x, 1)
  {
    assert Bit(x, 1) == ((x / 2) % 2 == 1);
    if x != 0 && x / 2 != 0 {
      assert And(x / 2, 1) == 2 * And(x / 4, 0) + (if (x / 2) % 2 == 1 then 1 else 0);
    }
  }

  /** `~x & 1` */
  lemma NotAndOne(x: nat)
    requires x < WORD
    ensures And(Not(x), 1) == (if Bit(x, 0) then 0 else 1)
  {
    var y := Not(x);
    assert y % 2 == 1 - x % 2;
    if y != 0 {
      assert And(y, 1) == 2 * And(y / 2, 0) + (if y % 2 == 1 then 1 else 0);
    }
  }

  /** `(x >> i << i) & left_bits(idx2bit(i))` keeps exactly the bits of `x` above bit `i`. */
  lemma ShiftedLeftBits(x: nat, i: nat, k: nat)
    requires x < WORD && i < NBINS && k < NBINS
    ensures Idx2Bit(i) < WORD && And(ShiftLeft(ShiftRight(x, i), i), LeftBits(Idx2Bit(i))) < WORD
    ensures Bit(And(ShiftLeft(ShiftRight(x, i), i), LeftBits(Idx2Bit(i))), k) == (i < k && Bit(x, k))
  {
    var y := ShiftRight(x, i);
    Idx2BitIsPow2(i);
    AndBound(ShiftLeft(y, i), LeftBits(Pow2(i)));
    BitAnd(ShiftLeft(y, i), LeftBits(Pow2(i)), k);
    LeftBitsBit(i, k);
    BitShiftLeft(y, i, k);
    if i <= k {
      BitShiftRight(x, i, k - i);
    }
  }
}
