/**
 Page-table entries: the 64-bit words of `paging.c` and the fields they consist of.
 */
module PageEntries {
  import opened BinMaps
  import T = TreeIndex
  import A = Alignment

  const PRESENT: nat := 0
  const WRITABLE: nat := 1
  const FLAGS: nat := 0x1000
  const FRAMES: nat := 0x100_0000_0000

  /** Twelve flag bits, the forty bits of a frame number, and twelve more bits. */
  datatype Entry = Entry(flags: nat, frame: nat, high: nat)

  ghost predicate EntryOk(e: Entry) { e.flags < FLAGS && e.frame < FRAMES && e.high < FLAGS }

  const EMPTY: Entry := Entry(0, 0, 0)

  predicate Present(e: Entry) { Bit(e.flags, PRESENT) }

  predicate Writable(e: Entry) { Bit(e.flags, WRITABLE) }

  /** Bit 0 of the word says that an entry is present, and bit 1 that it allows writing. */
  lemma FlagsInWord(e: Entry)
    ensures Present(e) <==> Word(e) % 2 == 1
    ensures Writable(e) <==> Word(e) / 2 % 2 == 1
  {
    EvenPlus(e.flags, e.frame, e.high);
    assert Bit(e.flags, 0) <==> e.flags % 2 == 1;
    assert Bit(e.flags, 1) <==> Bit(e.flags / 2, 0);
    assert Bit(e.flags / 2, 0) <==> e.flags / 2 % 2 == 1;
  }

  lemma EvenPlus(flags: nat, frame: nat, high: nat)
    ensures var w := flags + 0x1000 * frame + 0x1000 * 0x100_0000_0000 * high; w % 2 == flags % 2 && w / 2 % 2 == flags / 2 % 2
  {
    var k := 0x400 * frame + 0x400 * 0x100_0000_0000 * high;
    assert flags + 0x1000 * frame + 0x1000 * 0x100_0000_0000 * high == flags + 4 * k;
  }

  // ---------------------------------------------------------------- flags

  /** What `SET_BIT(n, bit, value)` means (`SetsBit`). */
  function SetBit(n: nat, b: nat, value: bool): nat {
    if Bit(n, b) == value then n else if value then n + Pow2(b) else if n >= Pow2(b) then n - Pow2(b) else 0
  }

  /** Only the one bit changes. */
  lemma {:induction false} SetBitSets(n: nat, b: nat, value: bool, k: nat)
    ensures Bit(SetBit(n, b, value), k) == if k == b then value else Bit(n, k)
    decreases b
  {
    if Bit(n, b) != value {
      if b == 0 {
        if k > 0 {
          assert SetBit(n, b, value) / 2 == n / 2;
        }
      } else {
        BitIsThere(n, b);
        HalfSet(n, b, value);
        if k > 0 {
          SetBitSets(n / 2, b - 1, value, k - 1);
        }
      }
    }
  }

  lemma HalfSet(n: nat, b: nat, value: bool)
    requires b > 0 && Bit(n, b) != value && (Bit(n, b) ==> n >= Pow2(b) && n / 2 >= Pow2(b - 1))
    ensures SetBit(n, b, value) / 2 == SetBit(n / 2, b - 1, value) && SetBit(n, b, value) % 2 == n % 2
  {
    assert Pow2(b) == 2 * Pow2(b - 1);
  }

  lemma {:induction false} BitIsThere(n: nat, b: nat)
    ensures Bit(n, b) ==> n >= Pow2(b)
    ensures b > 0 && Bit(n, b) ==> n / 2 >= Pow2(b - 1)
  {
    if b > 0 {
      BitIsThere(n / 2, b - 1);
      assert Pow2(b) == 2 * Pow2(b - 1);
    }
  }

  lemma HalfBelow(n: nat, w: nat)
    requires w > 0
    ensures n < Pow2(w) <==> n / 2 < Pow2(w - 1)
  {
    assert Pow2(w) == 2 * Pow2(w - 1);
  }

  lemma EvenPlusOne(n: nat)
    requires !Bit(n, 0)
    ensures SetBit(n, 0, true) / 2 == n / 2
  {
    assert Pow2(0) == 1;
  }

  lemma {:induction false} SetBitBound(n: nat, b: nat, value: bool, w: nat)
    requires n < Pow2(w) && b < w
    ensures SetBit(n, b, value) < Pow2(w)
  {
    hide Pow2;
    HalfBelow(n, w);
    if value && !Bit(n, b) {
      if b == 0 {
        EvenPlusOne(n);
      } else {
        SetBitBound(n / 2, b - 1, value, w - 1);
        HalfSet(n, b, value);
      }
      HalfBelow(SetBit(n, b, value), w);
    }
  }

  function WithBit(e: Entry, b: nat, value: bool): Entry { e.(flags := SetBit(e.flags, b, value)) }

  lemma WithBitOk(e: Entry, b: nat, value: bool)
    requires EntryOk(e) && b < 12
    ensures EntryOk(WithBit(e, b, value))
    ensures forall k :: 0 <= k ==> Bit(WithBit(e, b, value).flags, k) == if k == b then value else Bit(e.flags, k)
  {
    assert Pow2(12) == FLAGS;
    SetBitBound(e.flags, b, value, 12);
    forall k | 0 <= k
      ensures Bit(WithBit(e, b, value).flags, k) == if k == b then value else Bit(e.flags, k)
    {
      SetBitSets(e.flags, b, value, k);
    }
  }

  // ---------------------------------------------------------------- the macros of `kernel.h`

  const ALL_ONES: nat := 0xffff_ffff_ffff_ffff

  function Xor(x: nat, y: nat): nat {
    if x == 0 then y else if y == 0 then x
    else 2 * Xor(x / 2, y / 2) + if x % 2 != y % 2 then 1 else 0
  }

  /** `SET_BIT(n, bit, value)` as the source computes it, for a bit at which `1 << bit` does not overflow. */
  function SetBitMacro(n: nat, b: nat, value: bool): nat {
    Xor(n, And(Xor(if value then ALL_ONES else 0, n), Pow2(b)))
  }

  /** `GET_BIT(n, bit)` */
  predicate GetBitMacro(n: nat, b: nat) { And(Pow2(b), n) > 0 }

  lemma {:induction false} BitXor(x: nat, y: nat, i: nat)
    ensures Bit(Xor(x, y), i) == (Bit(x, i) != Bit(y, i))
    decreases i
  {
    BitZero(i);
    if x > 0 && y > 0 && i > 0 {
      BitXor(x / 2, y / 2, i - 1);
    }
  }

  lemma XorHalves(x: nat, y: nat)
    ensures Xor(x, y) == 2 * Xor(x / 2, y / 2) + if x % 2 != y % 2 then 1 else 0
  {
    if x == 0 {
      assert Xor(x / 2, y / 2) == y / 2;
    } else if y == 0 {
      assert Xor(x / 2, y / 2) == x / 2;
    }
  }

  lemma {:induction false} XorPow2(n: nat, b: nat)
    ensures Xor(n, Pow2(b)) == if Bit(n, b) then (if n >= Pow2(b) then n - Pow2(b) else 0) else n + Pow2(b)
    decreases b
  {
    hide Xor;
    BitIsThere(n, b);
    XorHalves(n, Pow2(b));
    if b > 0 {
      assert Pow2(b) == 2 * Pow2(b - 1);
      XorPow2(n / 2, b - 1);
    } else {
      XorZero(n / 2);
    }
  }

  lemma {:induction false} MaskOne(x: nat, b: nat)
    ensures And(x, Pow2(b)) == (if Bit(x, b) then Pow2(b) else 0) == And(Pow2(b), x)
    decreases b
  {
    BitZero(b);
    if x > 0 && b > 0 {
      assert Pow2(b) == 2 * Pow2(b - 1);
      MaskOne(x / 2, b - 1);
    } else if b == 0 && x > 0 {
      assert And(x / 2, 0) == 0 && And(0, x / 2) == 0;
    }
  }

  lemma {:induction false} OnesAre(k: nat, b: nat)
    requires b < k
    ensures Bit(Pow2(k) - 1, b)
  {
    BitZero(b);
    BitNot(k, 0, b);
  }

  lemma SetsBitOf(n: nat, b: nat, value: bool)
    requires b < 64
    ensures SetBitMacro(n, b, value) == SetBit(n, b, value)
  {
    hide Xor, And, Bit, Pow2;
    var ones := if value then ALL_ONES else 0;
    assert Bit(ones, b) == value by {
      BitZero(b);
      OnesAre(64, b);
      T.Pow2SizeT();
    }
    var y := Xor(ones, n);
    BitXor(ones, n, b);
    MaskOne(y, b);
    XorPow2(n, b);
    assert And(y, Pow2(b)) == if Bit(n, b) != value then Pow2(b) else 0;
    XorZero(n);
  }

  lemma XorZero(n: nat)
    ensures Xor(n, 0) == n
  {
  }

  // ---------------------------------------------------------------- words

  /** The 64-bit word of an entry. */
  function Word(e: Entry): nat { e.flags + FLAGS * e.frame + FLAGS * FRAMES * e.high }

  /** `paging_set_entry_address` as the source computes it. */
  function SetEntryAddress(entry: nat, address: nat): nat {
    Or(And(entry, 0xfff0_0000_0000_0fff), And(address, 0xff_ffff_ffff) * FLAGS)
  }

  /** `paging_get_entry_address` as the source computes it. */
  function GetEntryAddress(entry: nat): nat { And(entry, 0x000f_ffff_ffff_f000) / FLAGS }

  lemma AndStep(h: nat, x: nat, x': nat, y: nat, y': nat)
    requires And(x / 2 + h * x', y / 2 + h * y') == And(x / 2, y / 2) + h * And(x', y')
    ensures And(x + 2 * h * x', y + 2 * h * y') == And(x, y) + 2 * h * And(x', y')
  {
    hide And;
    var u, v := x + 2 * h * x', y + 2 * h * y';
    Halves(x, x', h);
    Halves(y, y', h);
    AndHalves(u, v);
    AndHalves(x, y);
    Distribute(h, And(x / 2, y / 2), And(x', y'));
  }

  /** `&` and `|` work on the low bits and on the high bits separately. */
  lemma {:induction false} AndSplits(k: nat, x: nat, x': nat, y: nat, y': nat)
    requires x < Pow2(k) && y < Pow2(k)
    ensures And(x + Pow2(k) * x', y + Pow2(k) * y') == And(x, y) + Pow2(k) * And(x', y')
  {
    if k > 0 {
      assert Pow2(k) == 2 * Pow2(k - 1);
      AndSplits(k - 1, x / 2, x', y / 2, y');
      AndStep(Pow2(k - 1), x, x', y, y');
    } else {
      assert x == 0 && y == 0;
      assert And(x, y) == 0;
    }
  }

  lemma Halves(x: nat, x': nat, h: nat)
    ensures (x + 2 * h * x') / 2 == x / 2 + h * x' && (x + 2 * h * x') % 2 == x % 2
  {
    var z := h * x';
    assert 2 * h * x' == 2 * z;
  }

  lemma Distribute(h: nat, a: nat, b: nat)
    ensures 2 * (a + h * b) == 2 * a + 2 * h * b
  {
  }

  lemma AndHalves(x: nat, y: nat)
    ensures And(x, y) == 2 * And(x / 2, y / 2) + (if x % 2 == 1 && y % 2 == 1 then 1 else 0)
  {
    if x == 0 || y == 0 {
      assert x / 2 == 0 || y / 2 == 0;
    }
  }

  lemma {:induction false} OrSplits(k: nat, x: nat, y': nat)
    requires x < Pow2(k)
    ensures Or(x, Pow2(k) * y') == x + Pow2(k) * y'
  {
    if k == 0 {
      assert x == 0;
    } else {
      var h := Pow2(k - 1);
      assert Pow2(k) == 2 * h;
      OrSplits(k - 1, x / 2, y');
      Halves(0, y', h);
      Halves(x, y', h);
      OrHalves(x, Pow2(k) * y');
      Distribute(h, x / 2, y');
    }
  }

  lemma OrHalves(x: nat, y: nat)
    ensures Or(x, y) == 2 * Or(x / 2, y / 2) + (if x % 2 == 1 || y % 2 == 1 then 1 else 0)
  {
    if x == 0 {
      assert Or(x / 2, y / 2) == y / 2;
    } else if y == 0 {
      assert Or(x / 2, y / 2) == x / 2;
    }
  }

  /** The low bits are not affected by what is above them. */
  lemma {:induction false} LowBits(k: nat, x: nat, z: nat, b: nat)
    requires b < k
    ensures Bit(x + Pow2(k) * z, b) == Bit(x, b)
    decreases b
  {
    var h := Pow2(k - 1);
    assert Pow2(k) == 2 * h;
    Halves(x, z, h);
    if b > 0 {
      LowBits(k - 1, x / 2, z, b - 1);
    }
  }

  lemma FlagOfWord(e: Entry, b: nat)
    requires b < 12
    ensures Bit(Word(e), b) == Bit(e.flags, b)
  {
    hide Bit, Pow2;
    Powers();
    WordSplits(e);
    LowBits(12, e.flags, e.frame + FRAMES * e.high, b);
  }

  /** `SET_BIT` changes one flag of an entry, and nothing else. */
  lemma SetsBit(e: Entry, b: nat, value: bool)
    requires EntryOk(e) && b < 12
    ensures SetBitMacro(Word(e), b, value) == Word(WithBit(e, b, value))
  {
    hide SetBitMacro, Bit, Pow2;
    SetsBitOf(Word(e), b, value);
    FlagOfWord(e, b);
    BitIsThere(e.flags, b);
    WordSplits(e);
    WordSplits(WithBit(e, b, value));
  }

  /** `GET_BIT` reads one flag. */
  lemma GetsBit(e: Entry, b: nat)
    requires b < 12
    ensures GetBitMacro(Word(e), b) == Bit(e.flags, b)
  {
    hide Bit;
    MaskOne(Word(e), b);
    FlagOfWord(e, b);
  }

  /** `entry |= 1 << PRESENT` sets one flag. */
  lemma SetsPresent(e: Entry)
    ensures Or(Word(e), 1) == Word(WithBit(e, PRESENT, true))
  {
    var x := Word(e);
    OrHalves(x, 1);
    assert Or(x / 2, 0) == x / 2;
    FlagOfWord(e, PRESENT);
    WordSplits(e);
    WordSplits(WithBit(e, PRESENT, true));
  }

  // ---------------------------------------------------------------- the masks of the source

  lemma WordSplits(e: Entry)
    ensures Word(e) == e.flags + FLAGS * (e.frame + FRAMES * e.high)
  {
    assert FLAGS * (FRAMES * e.high) == FLAGS * FRAMES * e.high;
  }

  lemma Powers()
    ensures Pow2(12) == FLAGS && Pow2(40) == FRAMES
  {
    assert Pow2(12) == 4096;
    assert Pow2(40) == FRAMES by {
      T.Pow2Add(12, 28);
      T.Pow2Add(12, 16);
      assert Pow2(16) == 0x1_0000;
    }
  }

  lemma MaskAll(x: nat, k: nat)
    requires x < Pow2(k)
    ensures And(x, Pow2(k) - 1) == x && And(x, 0) == 0
  {
    A.WholeWord(x, k);
  }

  /** `&` with a mask that keeps or drops whole fields keeps or drops these fields. */
  lemma AndFields(e: Entry, a: bool, b: bool, c: bool)
    requires EntryOk(e)
    ensures var mask := Entry(if a then FLAGS - 1 else 0, if b then FRAMES - 1 else 0, if c then FLAGS - 1 else 0);
            And(Word(e), Word(mask)) == Word(Entry(if a then e.flags else 0, if b then e.frame else 0, if c then e.high else 0))
  {
    hide And, Pow2;
    Powers();
    var mask := Entry(if a then FLAGS - 1 else 0, if b then FRAMES - 1 else 0, if c then FLAGS - 1 else 0);
    WordSplits(e);
    WordSplits(mask);
    AndSplits(40, e.frame, e.high, mask.frame, mask.high);
    AndSplits(12, e.flags, e.frame + FRAMES * e.high, mask.flags, mask.frame + FRAMES * mask.high);
    MaskAll(e.flags, 12);
    MaskAll(e.frame, 40);
    MaskAll(e.high, 12);
    WordSplits(Entry(if a then e.flags else 0, if b then e.frame else 0, if c then e.high else 0));
  }

  /** `paging_get_entry_address` reads the frame number. */
  lemma GetsFrame(e: Entry)
    requires EntryOk(e)
    ensures GetEntryAddress(Word(e)) == e.frame
  {
    AndFields(e, false, true, false);
    assert Word(Entry(0, FRAMES - 1, 0)) == 0x000f_ffff_ffff_f000;
    assert Word(Entry(0, e.frame, 0)) == FLAGS * e.frame;
  }

  /** `paging_set_entry_address` writes the low forty bits of the address to the frame number, and nothing else. */
  lemma SetsFrame(e: Entry, address: nat)
    requires EntryOk(e)
    ensures SetEntryAddress(Word(e), address) == Word(e.(frame := address % FRAMES))
  {
    hide And, Or, Pow2;
    Powers();
    AndFields(e, true, false, true);
    assert Word(Entry(FLAGS - 1, 0, FLAGS - 1)) == 0xfff0_0000_0000_0fff;
    A.AndMask(address, 40);
    OrFields(e.flags, address % FRAMES, e.high);
  }

  lemma OrFields(flags: nat, frame: nat, high: nat)
    requires flags < FLAGS && frame < FRAMES && high < FLAGS
    ensures Or(Word(Entry(flags, 0, high)), frame * FLAGS) == Word(Entry(flags, frame, high))
  {
    hide Or, Pow2;
    Powers();
    var u := FRAMES * high;
    WordSplits(Entry(flags, 0, high));
    WordSplits(Entry(flags, frame, high));
    OrSplitsMore(12, flags, u, frame);
    OrSplits(40, frame, high);
    OrCommutes(u, frame);
  }

  lemma {:induction false} OrCommutes(x: nat, y: nat)
    ensures Or(x, y) == Or(y, x)
  {
    if x > 0 && y > 0 {
      OrCommutes(x / 2, y / 2);
    }
  }

  lemma {:induction false} OrSplitsMore(k: nat, x: nat, x': nat, y': nat)
    requires x < Pow2(k)
    ensures Or(x + Pow2(k) * x', Pow2(k) * y') == x + Pow2(k) * Or(x', y')
  {
    if k == 0 {
      assert x == 0;
    } else {
      assert Pow2(k) == 2 * Pow2(k - 1);
      OrSplitsMore(k - 1, x / 2, x', y');
      OrStep(Pow2(k - 1), x, x', y');
    }
  }

  lemma OrStep(h: nat, x: nat, x': nat, y': nat)
    requires Or(x / 2 + h * x', h * y') == x / 2 + h * Or(x', y')
    ensures Or(x + 2 * h * x', 2 * h * y') == x + 2 * h * Or(x', y')
  {
    hide Or;
    var u, v := x + 2 * h * x', 2 * h * y';
    Halves(x, x', h);
    Halves(0, y', h);
    OrHalves(u, v);
    Distribute(h, x / 2, Or(x', y'));
  }

  /** `paging_map_page`: `entry = paging_set_entry_address(entry, frame); entry |= 1 << PAGE_DIRECTORY_PRESENT;` */
  function StoredWord(entry: nat, frame: nat): nat { Or(SetEntryAddress(entry, frame), 1) }

  /** An entry that leads to a frame, with its other flags. */
  function PresentEntry(e: Entry, frame: nat): Entry { WithBit(e.(frame := frame % FRAMES), PRESENT, true) }

  /** The word that is stored has the frame and the present flag, and all else as it was. */
  lemma StoresPresent(e: Entry, frame: nat)
    requires EntryOk(e)
    ensures StoredWord(Word(e), frame) == Word(PresentEntry(e, frame))
  {
    hide Or, Word, SetEntryAddress, WithBit;
    SetsFrame(e, frame);
    SetsPresent(e.(frame := frame % FRAMES));
  }
}
