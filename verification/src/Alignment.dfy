/**
 The bit arithmetic of `internal_memalign`: masks with a power of two, and the loop that finds one.
 */
module Alignment {
  import opened BinMaps
  import T = TreeIndex

  const SIZE_T: nat := T.SIZE_T

  ghost predicate IsPower(x: nat) { exists k: nat :: x == Pow2(k) }

  lemma {:induction false} AndSelf(x: nat)
    ensures And(x, x) == x
  {
    if x > 0 {
      AndSelf(x / 2);
    }
  }

  /** `(alignment & (alignment - 1)) == 0` tests for a power of two. */
  lemma {:induction false} PowerTest(x: nat)
    requires x > 0
    ensures And(x, x - 1) == 0 <==> IsPower(x)
  {
    if x == 1 {
      assert x == Pow2(0);
    } else if x % 2 == 1 {
      AndSelf(x / 2);
      assert (x - 1) / 2 == x / 2;
      forall k: nat
        ensures x != Pow2(k)
      {
        assert k > 0 ==> Pow2(k) == 2 * Pow2(k - 1);
      }
    } else {
      PowerTest(x / 2);
      assert (x - 1) / 2 == x / 2 - 1;
      if IsPower(x / 2) {
        var k: nat :| x / 2 == Pow2(k);
        assert x == Pow2(k + 1);
      }
      if IsPower(x) {
        var k: nat :| x == Pow2(k);
        assert k > 0 && x / 2 == Pow2(k - 1);
      }
    }
  }

  /** `x & (2^k - 1)` is the remainder. */
  lemma {:induction false} AndMask(x: nat, k: nat)
    ensures And(x, Pow2(k) - 1) == x % Pow2(k)
  {
    if k > 0 {
      var h := Pow2(k - 1);
      AndMask(x / 2, k - 1);
      assert (Pow2(k) - 1) / 2 == h - 1 && (Pow2(k) - 1) % 2 == 1;
      HalfRemainder(x, h);
    }
  }

  lemma HalfRemainder(x: nat, h: nat)
    requires h > 0
    ensures x % (2 * h) == 2 * (x / 2 % h) + x % 2
  {
    var q, r := x / 2 / h, x / 2 % h;
    assert x / 2 == q * h + r;
    assert x == q * (2 * h) + (2 * r + x % 2);
    RemainderIs(x, 2 * h, q, 2 * r + x % 2);
  }

  lemma RemainderIs(x: nat, n: nat, q: nat, r: nat)
    requires n > 0 && x == q * n + r && r < n
    ensures x % n == r && x / n == q
  {
    var d := x / n;
    assert x == d * n + x % n;
    T.MulCompare(d, q, n);
    T.MulCompare(d + 1, q, n);
    T.MulCompare(q + 1, d, n);
    assert (d + 1) * n == d * n + n && (q + 1) * n == q * n + n;
  }

  /** A power of two from 32 on is twice its half, and no other power lies between. */
  lemma EvenFrom32(a: nat)
    requires IsPower(a)
    ensures a > 16 ==> a >= 32 && a % 2 == 0
    ensures a > 32 ==> a / 2 >= 32
  {
    var k: nat :| a == Pow2(k);
    if k <= 5 {
      PowLe(k, 5);
      PowLe(if k < 5 then k else 4, 4);
    } else {
      PowLe(6, k);
    }
    assert Pow2(4) == 16 && Pow2(5) == 32 && Pow2(6) == 64;
    assert k > 0 ==> Pow2(k) == 2 * Pow2(k - 1);
  }

  lemma AndEven(x: nat, y: nat)
    ensures And(x, 2 * y) == 2 * And(x / 2, y)
  {
    assert 2 * y / 2 == y && 2 * y % 2 == 0;
    if x == 0 || y == 0 {
      assert And(x / 2, y) == 0;
    }
  }

  lemma NegativeStep(x: nat, y: nat, p: nat)
    requires p > 0 && And(x / 2, y) == x / 2 - x / 2 % p
    ensures And(x, 2 * y) == x - x % (2 * p)
  {
    AndEven(x, y);
    HalfRemainder(x, p);
    var r := x / 2 % p;
    assert And(x, 2 * y) == 2 * (x / 2 - r);
  }

  lemma WholeWord(x: nat, n: nat)
    requires x < Pow2(n)
    ensures And(x, Pow2(n) - 1) == x
  {
    AndMask(x, n);
    RemainderIs(x, Pow2(n), 0, x);
  }

  /** `x & -2^k`, in words of `n` bits, clears the remainder. */
  lemma {:induction false} AndNegative(x: nat, k: nat, n: nat)
    requires k <= n && x < Pow2(n)
    ensures Pow2(k) <= Pow2(n) && And(x, Pow2(n) - Pow2(k)) == x - x % Pow2(k)
    decreases k
  {
    hide And;
    PowLe(k, n);
    if k == 0 {
      WholeWord(x, n);
      assert x % Pow2(0) == 0;
    } else {
      var y := Pow2(n - 1) - Pow2(k - 1);
      AndNegative(x / 2, k - 1, n - 1);
      NegativeStep(x, y, Pow2(k - 1));
      assert Pow2(n) - Pow2(k) == 2 * y;
    }
  }

  lemma {:induction false} PowLe(k: nat, n: nat)
    requires k <= n
    ensures Pow2(k) <= Pow2(n)
  {
    if k < n {
      PowLe(k, n - 1);
    }
  }

  lemma SizeTIsPower()
    ensures Pow2(64) == SIZE_T && Pow2(63) == SIZE_T / 2 && Pow2(5) == 32
  {
    Pow2Word();
    assert Pow2(64) == Pow2(32) * Pow2(32) by { T.Pow2Add(32, 32); }
    assert Pow2(64) == 2 * Pow2(63);
  }

  /** One round of the loop `while (a < alignment) a <<= 1`, in `size_t`. */
  function Doubled(a: nat): nat { 2 * a % SIZE_T }

  /** What the loop variable is after `i` rounds. */
  function After(i: nat): nat { if i == 0 then 32 else Doubled(After(i - 1)) }

  lemma {:induction false} AfterIs(i: nat)
    ensures After(i) == if i <= 58 then Pow2(i + 5) else 0
    ensures i <= 58 ==> Pow2(i + 5) <= SIZE_T / 2
  {
    SizeTIsPower();
    if i <= 58 {
      PowLe(i + 5, 63);
    }
    if i > 0 {
      AfterIs(i - 1);
      if i <= 59 {
        DoubledPower(i + 4);
      }
    }
  }

  /** Shifting a power of two below 2^63 loses no bit, and 2^63 leaves the word. */
  lemma DoubledPower(j: nat)
    requires j <= 63
    ensures Doubled(Pow2(j)) == if j < 63 then Pow2(j + 1) else 0
  {
    SizeTIsPower();
    assert Pow2(j + 1) == 2 * Pow2(j);
    if j < 63 {
      PowLe(j + 1, 63);
    }
  }

  /** The loop comes to an end exactly if the alignment is at most 2^63; otherwise it runs forever. */
  lemma LoopEnds(alignment: nat)
    requires alignment < SIZE_T
    ensures (exists i :: After(i) >= alignment) <==> alignment <= SIZE_T / 2
  {
    SizeTIsPower();
    if alignment <= SIZE_T / 2 {
      AfterIs(58);
      assert After(58) >= alignment;
    } else {
      forall i
        ensures After(i) < alignment
      {
        AfterIs(i);
      }
    }
  }

  /** "Ensure a power of 2": the least one that is not below the alignment. */
  method PowerFor(alignment: nat) returns (a: nat, ghost k: nat)
    requires 32 <= alignment <= SIZE_T / 2
    ensures a == Pow2(k) && 5 <= k <= 63 && alignment <= a <= SIZE_T / 2
    ensures a / 2 < alignment && (IsPower(alignment) ==> a == alignment)
  {
    SizeTIsPower();
    PowerTest(alignment);
    a := alignment;
    if And(alignment, alignment - 1) != 0 {
      a, k := 32, 5;
      while a < alignment
        invariant a == Pow2(k) && 5 <= k <= 63 && a / 2 < alignment
        decreases 63 - k
      {
        assert k < 63;
        PowLe(k + 1, 63);
        a := 2 * a % SIZE_T;
        k := k + 1;
      }
      PowLe(k, 63);
    } else {
      var j: nat :| alignment == Pow2(j);
      k := j;
      PowerRange(k);
    }
  }

  /** There is only one power of two from `x` to less than twice `x`. */
  lemma OneRoundedUp(x: nat, a: nat, b: nat)
    requires IsPower(a) && x <= a && a / 2 < x && IsPower(b) && x <= b && b / 2 < x
    ensures a == b
  {
    var j: nat :| a == Pow2(j);
    var k: nat :| b == Pow2(k);
    if j < k {
      PowLe(j, k - 1);
    } else if k < j {
      PowLe(k, j - 1);
    }
  }

  lemma PowerRange(k: nat)
    requires 32 <= Pow2(k) <= SIZE_T / 2
    ensures 5 <= k <= 63
  {
    SizeTIsPower();
    if k < 5 {
      Pow2Below(k, 5);
    }
    if k > 63 {
      Pow2Below(63, k);
    }
  }

  // ---------------------------------------------------------------- the aligned spot

  lemma MultipleOf(q: nat, a: nat)
    requires a > 0
    ensures q * a % a == 0
  {
    RemainderIs(q * a, a, q, 0);
  }

  lemma SixteenDivides(q: nat, k: nat)
    requires k >= 5
    ensures Pow2(k) % 16 == 0 && q * Pow2(k) % 16 == 0 && Pow2(k) >= 32
  {
    PowLe(5, k);
    assert Pow2(5) == 32;
    T.Pow2Add(4, k - 4);
    assert Pow2(4) == 16;
    Multiples(q, Pow2(k - 4));
  }

  lemma Multiples(q: nat, b: nat)
    ensures 16 * b % 16 == 0 && q * (16 * b) % 16 == 0
  {
    var m := q * b;
    assert q * (16 * b) == 16 * m;
  }

  lemma NextMultiple(mem: nat, a: nat, q: nat)
    requires a > 0 && mem % a != 0 && q == (mem + a - 1) / a
    ensures (mem + a - 1) - (mem + a - 1) % a == q * a && q * a % a == 0 && (q * a + a) % a == 0 && mem < q * a < mem + a
  {
    var x := mem + a - 1;
    assert x == q * a + x % a;
    MultipleOf(q, a);
    MultipleOf(q + 1, a);
    assert (q + 1) * a == q * a + a;
    assert q * a != mem;
  }

  /** Rounding an address that is not aligned up to the next one that is. */
  lemma RoundsUp(mem: nat, k: nat)
    requires k >= 5 && mem % 16 == 0 && mem % Pow2(k) != 0
    ensures var a := Pow2(k); var x := mem + a - 1; var r := x - x % a;
            r % a == 0 && (r + a) % a == 0 && mem + 16 <= r < mem + a && r % 16 == 0 && a % 16 == 0 && a >= 32
  {
    hide Pow2;
    var a := Pow2(k);
    var x := mem + a - 1;
    var q := x / a;
    NextMultiple(mem, a, q);
    SixteenDivides(q, k);
    SixteenApart(mem, q * a);
  }

  lemma SixteenApart(x: nat, y: nat)
    requires x % 16 == 0 && y % 16 == 0 && x < y
    ensures x + 16 <= y
  {
  }

  lemma MaskedUp(mem: nat, k: nat, a: nat)
    requires a == Pow2(k) && 5 <= k <= 63 && mem % 16 == 0 && mem % a != 0 && mem + a <= SIZE_T
    ensures a <= SIZE_T
    ensures var r := And(mem + a - 1, SIZE_T - a);
            r % a == 0 && (r + a) % a == 0 && mem + 16 <= r < mem + a && r % 16 == 0 && a % 16 == 0 && a >= 32
  {
    hide And, Pow2;
    SizeTIsPower();
    RoundsUp(mem, k);
    AndNegative(mem + a - 1, k, 64);
  }

  /** Where the aligned chunk starts, with room for a chunk before it. */
  method AlignedSpot(p: nat, alignment: nat, ghost k: nat) returns (pos: nat)
    requires alignment == Pow2(k) && 5 <= k <= 63 && p % 16 == 0 && (p + 16) % alignment != 0 && p + 16 + alignment <= SIZE_T
    ensures (pos + 16) % alignment == 0 && (pos - p) % 16 == 0 && 32 <= pos - p <= alignment + 16
  {
    hide And, Pow2;
    MaskedUp(p + 16, k, alignment);
    var r := And(p + 16 + alignment - 1, SIZE_T - alignment);
    var br := r - 16;
    if br - p >= 32 {
      pos := br;
    } else {
      pos := br + alignment;
      SixteenApart(p + 16, r);
    }
    SixteenthsOf(p, r, alignment);
  }

  lemma SixteenthsOf(p: nat, r: nat, a: nat)
    requires p % 16 == 0 && r % 16 == 0 && a % 16 == 0
    ensures (r - 16 - p) % 16 == 0 && (r - 16 + a - p) % 16 == 0 && (r - p < 48 ==> r - p <= 32)
  {
  }

  lemma ThirtyTwo()
    ensures IsPower(32)
  {
    assert Pow2(5) == 32;
  }

  /** A power of two below 32 divides 32. */
  lemma PowerDivides(x: nat, a: nat, mem: nat)
    requires IsPower(x) && (if x >= 32 then a == x else a == 32) && mem % a == 0
    ensures mem % x == 0
  {
    if x < 32 {
      var k: nat :| x == Pow2(k);
      if k >= 5 {
        PowLe(5, k);
      }
      assert Pow2(5) == 32;
      assert x == 1 || x == 2 || x == 4 || x == 8 || x == 16;
      DividesThirtyTwo(x, mem / 32);
      assert mem == 32 * (mem / 32);
    }
  }

  lemma DividesThirtyTwo(x: nat, q: nat)
    requires x == 1 || x == 2 || x == 4 || x == 8 || x == 16
    ensures 32 * q % x == 0
  {
    if x == 1 {
      assert 32 * q % 1 == 0;
    } else if x == 2 {
      assert 32 * q % 2 == 0;
    } else if x == 4 {
      assert 32 * q % 4 == 0;
    } else if x == 8 {
      assert 32 * q % 8 == 0;
    } else {
      assert 32 * q % 16 == 0;
    }
  }
}
