/**
 How dlmalloc assigns a chunk size to one of its 32 tree bins, and how the key that steers a
 walk down a tree is shifted out of the size.

 Sizes are 64-bit. The bin computation goes through an `unsigned int`, so it is only right for
 sizes below 2^40.
 */
module TreeIndex {
  import opened BinMaps

  const NTREEBINS: nat := 32
  const MIN_LARGE: nat := 256
  /** One past the largest chunk size for which the bins are ordered by size. */
  const SIZE_LIMIT: nat := 0x100_0000_0000
  const SIZE_T: nat := 0x1_0000_0000_0000_0000

  function Log2(x: nat): (k: nat)
    requires x > 0
    ensures Pow2(k) <= x < Pow2(k + 1)
  {
    if x == 1 then 0 else 1 + Log2(x / 2)
  }

  /** `compute_tree_index(S, I)`: `X` is the low 32 bits of `S >> 8`. */
  function TreeIndexOf(s: nat): nat {
    var x := (s / 256) % WORD;
    if x == 0 then 0
    else if x > 0xFFFF then NTREEBINS - 1
    else 2 * Log2(x) + BitAt(s, Log2(x) + 7)
  }

  /** `S >> n & 1` */
  function BitAt(s: nat, n: nat): nat {
    (s / Pow2(n)) % 2
  }

  /** `minsize_for_tree_index(i)` */
  function MinSize(i: nat): nat {
    Pow2(i / 2 + 8) + (if i % 2 == 1 then Pow2(i / 2 + 7) else 0)
  }

  /** `leftshift_for_tree_index(i)` */
  function LeftShift(i: nat): nat
    requires i < NTREEBINS
  {
    if i == NTREEBINS - 1 then 0 else 63 - (i / 2 + 6)
  }

  /** Sizes of bin `i` lie in `[BinLow(i), BinLow(i) + 2^Width(i))`, and `Width(i)` bits tell them apart. */
  function Width(i: nat): nat
    requires i < NTREEBINS
  {
    64 - LeftShift(i)
  }

  function BinLow(i: nat): nat
    requires i < NTREEBINS
  {
    if i == NTREEBINS - 1 then 0 else MinSize(i)
  }

  lemma {:induction false} Pow2Add(a: nat, b: nat)
    ensures Pow2(a + b) == Pow2(a) * Pow2(b)
  {
    if a > 0 {
      Pow2Add(a - 1, b);
      assert Pow2(a) * Pow2(b) == 2 * (Pow2(a - 1) * Pow2(b));
    }
  }

  lemma Pow2SizeT()
    ensures Pow2(63) == SIZE_T / 2 && Pow2(64) == SIZE_T
    ensures Pow2(8) == 256 && Pow2(16) == 0x1_0000 && Pow2(24) == 0x100_0000
  {
    Pow2Word();
    Pow2Add(32, 32);
    assert Pow2(24) == 0x100_0000 by { assert Pow2(16) == 0x1_0000 by { assert Pow2(8) == 256; } assert Pow2(20) == 0x10_0000; }
  }

  lemma MulLe(a: nat, b: nat, h: nat)
    requires a <= b
    ensures a * h <= b * h
  {
    assert b * h == a * h + (b - a) * h;
  }

  lemma MulCompare(a: nat, b: nat, h: nat)
    requires h > 0
    ensures a <= b <==> a * h <= b * h
  {
    if a <= b {
      MulLe(a, b, h);
    } else {
      MulLe(b + 1, a, h);
      assert (b + 1) * h == b * h + h;
    }
  }

  /** With `h` half the bin's power of two, the remaining quotient is 2 or 3. */
  lemma QuotientBit(s: nat, h: nat)
    requires h > 0 && 2 * h <= s < 4 * h
    ensures (s / h) % 2 == (if s < 3 * h then 0 else 1)
  {
    var q := s / h;
    assert s == q * h + s % h;
    MulCompare(q + 1, 2, h);
    MulCompare(q + 1, 3, h);
    MulCompare(3, q, h);
    MulCompare(4, q, h);
  }

  /** Whatever the size, the index names a bin. */
  lemma IndexInRange(s: nat)
    ensures TreeIndexOf(s) < NTREEBINS
  {
    var x := (s / 256) % WORD;
    if 0 < x <= 0xFFFF {
      LargeExponent(Log2(x));
    }
  }

  /** A size lies between the least size of its bin and the least size of the next one. */
  lemma IndexBrackets(s: nat)
    requires MIN_LARGE <= s < SIZE_LIMIT
    ensures TreeIndexOf(s) < NTREEBINS
    ensures MinSize(TreeIndexOf(s)) <= s
    ensures TreeIndexOf(s) < NTREEBINS - 1 ==> s < MinSize(TreeIndexOf(s) + 1)
  {
    hide TreeIndexOf, MinSize, Pow2, Log2;
    var x := s / 256;
    if x > 0xFFFF {
      LastIndex(s);
      LastBin();
    } else {
      var k := Log2(x);
      var h := Pow2(k + 7);
      MiddleBin(s, k, h);
      MinSizeAt(k, h);
    }
  }

  lemma LastIndex(s: nat)
    requires s < SIZE_LIMIT && s / 256 > 0xFFFF
    ensures TreeIndexOf(s) == NTREEBINS - 1 && s >= 0x100_0000
  {
    assert s / 256 < WORD;
    assert (s / 256) % WORD == s / 256;
  }

  lemma MiddleIndex(s: nat, k: nat)
    requires 0 < s / 256 <= 0xFFFF && k == Log2(s / 256)
    ensures TreeIndexOf(s) == 2 * k + BitAt(s, k + 7)
    ensures k <= 15
  {
    assert (s / 256) % WORD == s / 256;
    LargeExponent(k);
  }

  lemma MiddleBin(s: nat, k: nat, h: nat)
    requires 0 < s / 256 <= 0xFFFF && k == Log2(s / 256) && h == Pow2(k + 7)
    ensures k <= 15 && 2 * h <= s < 4 * h
    ensures TreeIndexOf(s) == (if s < 3 * h then 2 * k else 2 * k + 1)
  {
    MiddleIndex(s, k);
    LogScaled(s, s / 256, k, h);
    BitAtHalf(s, k + 7, h);
  }

  lemma BitAtHalf(s: nat, n: nat, h: nat)
    requires h == Pow2(n) && 2 * h <= s < 4 * h
    ensures BitAt(s, n) == (if s < 3 * h then 0 else 1)
  {
    QuotientBit(s, h);
  }

  lemma LastBin()
    ensures MinSize(31) == 0xC0_0000
  {
    Pow2SizeT();
    assert Pow2(24) == 2 * Pow2(23) && Pow2(23) == 2 * Pow2(22);
  }

  lemma LogScaled(s: nat, x: nat, k: nat, h: nat)
    requires x == s / 256 && Pow2(k) <= x < Pow2(k + 1) && h == Pow2(k + 7)
    ensures 2 * h <= s < 4 * h
  {
    Pow2Add(k, 7);
    assert Pow2(7) == 128;
  }

  lemma MinSizeAt(k: nat, h: nat)
    requires h == Pow2(k + 7)
    ensures MinSize(2 * k) == 2 * h && MinSize(2 * k + 1) == 3 * h && MinSize(2 * k + 2) == 4 * h
  {
    assert (2 * k + 1) / 2 == k && (2 * k + 2) / 2 == k + 1;
    assert Pow2(k + 8) == 2 * h && Pow2(k + 9) == 4 * h;
  }

  /** The least sizes of the bins, in numbers: two bins for every power of two, from 256 and from 384 on. */
  lemma MinSizeMeans(k: nat)
    ensures MinSize(2 * k) == 256 * Pow2(k) && MinSize(2 * k + 1) == 384 * Pow2(k)
  {
    hide MinSize;
    MinSizeAt(k, Pow2(k + 7));
    assert Pow2(k + 7) == 128 * Pow2(k) by {
      assert Pow2(k + 7) == 2 * Pow2(k + 6) && Pow2(k + 6) == 2 * Pow2(k + 5) && Pow2(k + 5) == 2 * Pow2(k + 4);
      assert Pow2(k + 4) == 2 * Pow2(k + 3) && Pow2(k + 3) == 2 * Pow2(k + 2) && Pow2(k + 2) == 2 * Pow2(k + 1) && Pow2(k + 1) == 2 * Pow2(k);
    }
  }

  lemma LargeExponent(k: nat)
    ensures k >= 16 ==> Pow2(k) >= 0x1_0000
  {
    Pow2SizeT();
    if k > 16 {
      Pow2Below(16, k);
    }
  }

  lemma {:induction false} MinSizeMonotone(i: nat, j: nat)
    requires i < j
    ensures MinSize(i) < MinSize(j)
  {
    assert MinSize(j - 1) < MinSize(j) by {
      if j % 2 == 0 {
        assert (j - 1) / 2 == j / 2 - 1;
        assert Pow2(j / 2 + 8) == 2 * Pow2(j / 2 + 7) && Pow2(j / 2 + 7) == 2 * Pow2(j / 2 + 6);
      } else {
        assert (j - 1) / 2 == j / 2;
      }
    }
    if i < j - 1 {
      MinSizeMonotone(i, j - 1);
    }
  }

  // ---------------------------------------------------------------- sizes that do not fit the `unsigned int`

  /** The size lies between the least size of its bin and the least size of the next one. */
  ghost predicate Bracketed(s: nat) {
    && MinSize(TreeIndexOf(s)) <= s
    && (TreeIndexOf(s) < NTREEBINS - 1 ==> s < MinSize(TreeIndexOf(s) + 1))
  }

  lemma EvenPlus(a: nat, d: nat)
    ensures (a + 2 * d) % 2 == a % 2
  {
  }

  lemma BitPlus(t: nat, c: nat, p: nat, q: nat, w: nat)
    requires p > 0 && w == 2 * q * p
    ensures (t + c * w) / p % 2 == t / p % 2
  {
    var d := c * q;
    assert c * w == (2 * d) * p;
    QuotientPlus(t, 2 * d, p);
    EvenPlus(t / p, d);
  }

  /** Adding a multiple of a higher power does not change a bit. */
  lemma BitAtBelow(t: nat, c: nat, n: nat, w: nat)
    requires n < w
    ensures BitAt(t + c * Pow2(w), n) == BitAt(t, n)
  {
    Pow2Add(n, w - n);
    HigherPower(n, w);
    BitPlus(t, c, Pow2(n), Pow2(w - n - 1), Pow2(w));
  }

  lemma HigherPower(n: nat, w: nat)
    requires n < w
    ensures Pow2(w) == 2 * Pow2(w - n - 1) * Pow2(n)
  {
    Pow2Add(n, w - n);
    var a, b := Pow2(n), Pow2(w - n - 1);
    assert Pow2(w - n) == 2 * b;
    assert a * (2 * b) == 2 * b * a;
  }

  lemma QuotientPlus(t: nat, m: nat, p: nat)
    requires p > 0
    ensures (t + m * p) / p == t / p + m
  {
    var d := (t + m * p) / p;
    assert t == t / p * p + t % p;
    assert t + m * p == (t / p + m) * p + t % p;
    MulCompare(d, t / p + m, p);
    MulCompare(t / p + m + 1, d, p);
    MulCompare(d + 1, t / p + m, p);
    assert (t / p + m + 1) * p == (t / p + m) * p + p && (d + 1) * p == d * p + p;
  }

  /** What the index says of a size above the limit is what it says of the size without its high bits. */
  lemma IndexOfRest(s: nat)
    requires s >= SIZE_LIMIT
    ensures var t := s % SIZE_LIMIT; (s / 256) % WORD == t / 256 && TreeIndexOf(s) == TreeIndexOf(t)
  {
    var c, t := s / SIZE_LIMIT, s % SIZE_LIMIT;
    LowBits(s, c, t);
    var x := t / 256;
    if 0 < x <= 0xFFFF {
      LargeExponent(Log2(x));
      LimitIsPower();
      BitAtBelow(t, c, Log2(x) + 7, 40);
    }
  }

  lemma LowBits(s: nat, c: nat, t: nat)
    requires c == s / SIZE_LIMIT && t == s % SIZE_LIMIT
    ensures s == t + c * SIZE_LIMIT && (s / 256) % WORD == t / 256 && (t / 256) % WORD == t / 256
  {
    var x, r := t / 256, t % 256;
    assert t == x * 256 + r && x < WORD;
    assert s == (c * WORD + x) * 256 + r;
    assert s / 256 == c * WORD + x;
    ModPlus(x, c);
  }

  lemma ModPlus(x: nat, c: nat)
    requires x < WORD
    ensures (c * WORD + x) % WORD == x && x % WORD == x
  {
  }

  lemma LimitIsPower()
    ensures SIZE_LIMIT == Pow2(40)
  {
    Pow2Add(32, 8);
    Pow2Word();
    assert Pow2(8) == 256;
  }

  /** Exactly these sizes from 2^40 on get a bin that fits them: it is the last one, and they get it by accident. */
  lemma BracketsExactly(s: nat)
    requires s >= SIZE_LIMIT
    ensures Bracketed(s) <==> (s / 256) % WORD >= 0xC000
  {
    hide TreeIndexOf, MinSize;
    var t := s % SIZE_LIMIT;
    IndexOfRest(s);
    LastBin();
    IndexInRange(t);
    if TreeIndexOf(t) < NTREEBINS - 2 {
      MinSizeMonotone(TreeIndexOf(t) + 1, NTREEBINS - 1);
    }
    LastBinOf(t);
  }

  /** The sizes below the limit that get the last bin. */
  lemma LastBinOf(t: nat)
    requires t < SIZE_LIMIT
    ensures TreeIndexOf(t) == NTREEBINS - 1 <==> t / 256 >= 0xC000
  {
    hide TreeIndexOf, Pow2, Log2;
    var x := t / 256;
    if x > 0xFFFF {
      LastIndex(t);
    } else if x == 0 {
      FirstIndex(t);
    } else {
      var k := Log2(x);
      var h := Pow2(k + 7);
      MiddleBin(t, k, h);
      if k == 15 {
        TopPower();
        ThreeQuarters(t, x);
      } else {
        LogBelow(x, k);
      }
    }
  }

  lemma FirstIndex(t: nat)
    requires t / 256 == 0
    ensures TreeIndexOf(t) == 0
  {
  }

  lemma TopPower()
    ensures Pow2(22) == 0x40_0000
  {
    Pow2SizeT();
  }

  lemma ThreeQuarters(t: nat, x: nat)
    requires x == t / 256
    ensures t < 0xC0_0000 <==> x < 0xC000
  {
  }

  lemma LogBelow(x: nat, k: nat)
    requires x > 0 && k == Log2(x) && k < 15
    ensures x < 0x8000
  {
    Pow2SizeT();
    assert Pow2(15) == 0x8000;
    if k + 1 < 15 {
      Pow2Below(k + 1, 15);
    }
  }

  /** 2^40 itself gets the first bin, whose chunks should be smaller than 384 bytes. */
  lemma FirstMisplaced()
    ensures TreeIndexOf(SIZE_LIMIT) == 0 && !Bracketed(SIZE_LIMIT)
  {
    BracketsExactly(SIZE_LIMIT);
  }

  // ---------------------------------------------------------------- the order of the bins

  /** Bins are ordered by size: every size in a lower bin is below every size in a higher bin. */
  lemma BinsOrdered(a: nat, b: nat)
    requires MIN_LARGE <= a < SIZE_LIMIT && MIN_LARGE <= b < SIZE_LIMIT
    requires TreeIndexOf(a) < TreeIndexOf(b)
    ensures a < b
  {
    IndexBrackets(a);
    IndexBrackets(b);
    if TreeIndexOf(a) + 1 < TreeIndexOf(b) {
      MinSizeMonotone(TreeIndexOf(a) + 1, TreeIndexOf(b));
    }
  }

  /** The bin's interval is as wide as the number of bits the walk can inspect. */
  lemma BinWidth(i: nat)
    requires i < NTREEBINS - 1
    ensures MinSize(i + 1) == MinSize(i) + Pow2(Width(i))
    ensures MinSize(i) == (if i % 2 == 1 then 3 else 2) * Pow2(Width(i))
  {
    assert Width(i) == i / 2 + 7;
    assert Pow2(i / 2 + 8) == 2 * Pow2(i / 2 + 7);
    if i % 2 == 1 {
      assert (i + 1) / 2 == i / 2 + 1;
    }
  }

  lemma InBin(s: nat)
    requires MIN_LARGE <= s < SIZE_LIMIT
    ensures var i := TreeIndexOf(s); i < NTREEBINS && BinLow(i) <= s < BinLow(i) + Pow2(Width(i))
  {
    IndexBrackets(s);
    var i := TreeIndexOf(s);
    if i == NTREEBINS - 1 {
      Pow2SizeT();
    } else {
      BinWidth(i);
    }
  }

  // ---------------------------------------------------------------- the walk key

  /** `S << leftshift_for_tree_index(I)` */
  function Key(s: nat, i: nat): nat
    requires i < NTREEBINS
  {
    (s * Pow2(LeftShift(i))) % SIZE_T
  }

  /** `d << n`, without loss. */
  function Scaled(d: nat, n: nat): nat {
    if n == 0 then d else 2 * Scaled(d, n - 1)
  }

  lemma {:induction false} ScaledIsProduct(d: nat, n: nat)
    ensures Scaled(d, n) == d * Pow2(n)
  {
    if n > 0 {
      ScaledIsProduct(d, n - 1);
      assert d * (2 * Pow2(n - 1)) == 2 * (d * Pow2(n - 1));
    }
  }

  /** The key holds the offset of `s` inside the interval `[lo, lo + 2^w)`, left-aligned in 64 bits. */
  ghost predicate KeyFor(key: nat, s: nat, lo: nat, w: nat) {
    && w <= 64
    && lo <= s < lo + Pow2(w)
    && key == Scaled(s - lo, 64 - w)
  }

  /** Whole multiples of the interval width are shifted out. */
  lemma ShiftedOut(s: nat, c: nat, p: nat, q: nat, d: nat)
    requires s == c * p + d && d < p && p * q == SIZE_T && q > 0
    ensures (s * q) % SIZE_T == d * q
  {
    assert s * q == c * SIZE_T + d * q by {
      assert s * q == c * p * q + d * q;
      assert c * p * q == c * (p * q);
    }
    MulLe(d + 1, p, q);
  }

  lemma KeyStartIn(s: nat, i: nat)
    requires i < NTREEBINS && BinLow(i) <= s < BinLow(i) + Pow2(Width(i)) && s < SIZE_T
    ensures KeyFor(Key(s, i), s, BinLow(i), Width(i))
  {
    var w, l := Width(i), LeftShift(i);
    ScaledIsProduct(s - BinLow(i), l);
    if i < NTREEBINS - 1 {
      var p, q := Pow2(w), Pow2(l);
      assert p * q == SIZE_T by {
        Pow2SizeT();
        Pow2Add(w, l);
      }
      BinWidth(i);
      ShiftedOut(s, if i % 2 == 1 then 3 else 2, p, q, s - MinSize(i));
    } else {
      assert Pow2(l) == 1;
    }
  }

  lemma KeyStart(s: nat)
    requires MIN_LARGE <= s < SIZE_LIMIT
    ensures var i := TreeIndexOf(s); i < NTREEBINS && KeyFor(Key(s, i), s, BinLow(i), Width(i))
  {
    InBin(s);
    KeyStartIn(s, TreeIndexOf(s));
  }

  lemma TopHalf(d: nat, h: nat, q: nat)
    requires h * q == SIZE_T / 2 && d < 2 * h && q > 0
    ensures d * q < SIZE_T
    ensures (d * q) / (SIZE_T / 2) == (if d < h then 0 else 1)
    ensures (2 * (d * q)) % SIZE_T == (if d < h then d else d - h) * (2 * q)
  {
    MulCompare(h, d, q);
    MulCompare(2 * h, d, q);
    assert 2 * h * q == SIZE_T;
    var e := if d < h then d else d - h;
    assert e * (2 * q) == 2 * (d * q) - (if d < h then 0 else 2 * (h * q));
  }

  /** `(K >> 63) & 1`: the top bit of the key says in which half of the interval `s` lies. */
  lemma KeyTopBit(key: nat, s: nat, lo: nat, w: nat)
    requires KeyFor(key, s, lo, w) && w > 0
    ensures key < SIZE_T
    ensures key / (SIZE_T / 2) == (if s < lo + Pow2(w - 1) then 0 else 1)
  {
    Pow2SizeT();
    Pow2Add(w - 1, 64 - w);
    ScaledIsProduct(s - lo, 64 - w);
    TopHalf(s - lo, Pow2(w - 1), Pow2(64 - w));
  }

  /** `K <<= 1` moves on to the half that holds `s`. */
  lemma KeyShift(key: nat, s: nat, lo: nat, w: nat)
    requires KeyFor(key, s, lo, w) && w > 0
    ensures KeyFor((2 * key) % SIZE_T, s, if s < lo + Pow2(w - 1) then lo else lo + Pow2(w - 1), w - 1)
  {
    Pow2SizeT();
    Pow2Add(w - 1, 64 - w);
    ScaledIsProduct(s - lo, 64 - w);
    TopHalf(s - lo, Pow2(w - 1), Pow2(64 - w));
    assert Pow2(64 - (w - 1)) == 2 * Pow2(64 - w);
    ScaledIsProduct(if s < lo + Pow2(w - 1) then s - lo else s - lo - Pow2(w - 1), 64 - (w - 1));
  }
}
