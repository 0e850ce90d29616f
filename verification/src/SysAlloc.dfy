/**
 `sys_alloc` and `mmap_alloc`: more memory from the system.
 */
module SysAlloc {
  import opened TreeIndex
  import opened Chunks
  import opened Tiling
  import opened Recuts
  import opened HeapState
  import opened Release
  import opened Allocate
  import opened Regions
  import opened Retire

  const MFAIL: int := -1
  const GRANULARITY: nat := 0x1_0000
  const MMAP_THRESHOLD: nat := 0x4_0000
  const SYS_ALLOC_PADDING: nat := 96
  const SIX_SIZE_T_SIZES: nat := 48
  const CHUNK_ALIGN_MASK: nat := 15

  // ---------------------------------------------------------------- sizes, with the wrap-around of `size_t`

  function GranularityAlign(s: nat): nat { (s + (GRANULARITY - 1)) % SIZE_T / GRANULARITY * GRANULARITY }

  function MmapAlign(s: nat): nat { (s + (PAGE_SIZE - 1)) % SIZE_T / PAGE_SIZE * PAGE_SIZE }

  /** The size that `sys_alloc` asks for. */
  function SegmentSize(nb: nat): nat { GranularityAlign((nb + SYS_ALLOC_PADDING) % SIZE_T) }

  /** The size that `mmap_alloc` asks for. */
  function MappingSize(nb: nat): nat { MmapAlign((nb + SIX_SIZE_T_SIZES + CHUNK_ALIGN_MASK) % SIZE_T) }

  /** The test for wrap-around lets a request through exactly if none of the additions wrapped. */
  lemma SegmentSizeChecked(nb: nat)
    requires nb < SIZE_T
    ensures SegmentSize(nb) > nb <==> nb + SYS_ALLOC_PADDING + (GRANULARITY - 1) < SIZE_T
    ensures SegmentSize(nb) > nb ==> SegmentSize(nb) >= nb + SYS_ALLOC_PADDING && SegmentSize(nb) % GRANULARITY == 0
  {
    if nb + SYS_ALLOC_PADDING >= SIZE_T {
      assert (nb + SYS_ALLOC_PADDING) % SIZE_T == nb + SYS_ALLOC_PADDING - SIZE_T;
    } else if nb + SYS_ALLOC_PADDING + (GRANULARITY - 1) >= SIZE_T {
      assert (nb + SYS_ALLOC_PADDING + (GRANULARITY - 1)) % SIZE_T == nb + SYS_ALLOC_PADDING + (GRANULARITY - 1) - SIZE_T;
    }
  }

  lemma MappingSizeChecked(nb: nat)
    requires nb < SIZE_T
    ensures MappingSize(nb) > nb <==> nb + SIX_SIZE_T_SIZES + CHUNK_ALIGN_MASK + (PAGE_SIZE - 1) < SIZE_T
    ensures MappingSize(nb) > nb ==> MappingSize(nb) >= nb + SIX_SIZE_T_SIZES + CHUNK_ALIGN_MASK && MappingSize(nb) % PAGE_SIZE == 0
  {
    var s := nb + SIX_SIZE_T_SIZES + CHUNK_ALIGN_MASK;
    if s >= SIZE_T {
      assert s % SIZE_T == s - SIZE_T;
    } else if s + (PAGE_SIZE - 1) >= SIZE_T {
      assert (s + (PAGE_SIZE - 1)) % SIZE_T == s + (PAGE_SIZE - 1) - SIZE_T;
    }
  }

  /** The sizes asked for, in numbers: 64 KiB granules with room for 96 bytes more, and pages with room for 63 bytes more. */
  lemma SizesAskedFor(nb: nat)
    requires nb < 0x1_0000_0000_0000_0000
    ensures SegmentSize(nb) <= nb <==> nb + 96 + 0xffff >= 0x1_0000_0000_0000_0000
    ensures SegmentSize(nb) > nb ==> SegmentSize(nb) == (nb + 96 + 0xffff) / 0x1_0000 * 0x1_0000
    ensures MappingSize(nb) <= nb <==> nb + 63 + 0xfff >= 0x1_0000_0000_0000_0000
    ensures MappingSize(nb) > nb ==> MappingSize(nb) == (nb + 63 + 0xfff) / 0x1000 * 0x1000
  {
    SegmentSizeChecked(nb);
    MappingSizeChecked(nb);
  }

  // ---------------------------------------------------------------- the system

  /**
   What `mmap` answers: the address for the length, and 0 or 1 for the first or the second call within one
   `sys_alloc`. It fails, or returns memory that is not in use.
   */
  ghost predicate Honest(segs: seq<Segment>, mapped: map<int, Mapping>, mmap: (nat, nat) -> int) {
    forall k, n :: mmap(k, n) == MFAIL || Fresh(segs, mapped, mmap(k, n), n)
  }

  lemma FreshFacts(segs: seq<Segment>, mapped: map<int, Mapping>, a: int, n: nat)
    requires Fresh(segs, mapped, a, n)
    ensures a > 0 && a % 16 == 0
  {
    PageIsAligned(a);
  }

  // ---------------------------------------------------------------- the least address

  /** `if (m->least_addr == 0 || tbase < m->least_addr) m->least_addr = tbase` */
  function Lowered(least: int, a: int): int { if least == 0 || a < least then a else least }

  lemma LowerForMapping(least: int, segs: seq<Segment>, mapped: map<int, Mapping>, p: int, size: nat)
    requires LeastOk(least, segs, mapped) && p > 0
    ensures LeastOk(Lowered(least, p), segs, mapped[p := Mapping(0, size)])
  {
  }

  lemma LowerForFirst(least: int, mapped: map<int, Mapping>, segs: seq<Segment>, a: int, n: nat)
    requires LeastOk(least, segs, mapped) && a > 0
    ensures LeastOk(Lowered(least, a), [Segment(a, n)] + segs, mapped) && OkAddress(Lowered(least, a), a)
  {
  }

  /** Lowering it further does no harm. */
  lemma LowerStill(least: int, segs: seq<Segment>, mapped: map<int, Mapping>, a: int)
    requires LeastOk(least, segs, mapped) && a > 0
    ensures LeastOk(if a < least then a else least, segs, mapped)
  {
  }

  lemma LeastWith(least: int, segs: seq<Segment>, mapped: map<int, Mapping>, s: Segment)
    requires LeastOk(least, segs, mapped) && OkAddress(least, s.base) && segs != []
    ensures LeastOk(least, [s] + segs, mapped)
  {
  }

  lemma LeastAt(least: int, segs: seq<Segment>, mapped: map<int, Mapping>, i: nat, s: Segment)
    requires LeastOk(least, segs, mapped) && OkAddress(least, s.base) && i < |segs|
    ensures LeastOk(least, segs[i := s], mapped)
  {
  }

  lemma SegmentsThere(m: MallocState)
    requires Sound(m, {}) && m.top != 0
    ensures m.segs != []
  {
    BlockFacts(m, {}, m.top);
    assert HasSeg(m.segs, m.top, m.c[m.top]);
  }

  lemma AlignedFeet(m: MallocState)
    requires Sound(m, {})
    ensures FeetAligned(m.foot)
  {
  }

  // ---------------------------------------------------------------- directly mapped chunks

  /** The words of a directly mapped chunk and of the fake chunk behind it; what is between them is handed over. */
  function MappingHeads(head: map<int, Head>, p: int, psize: nat): map<int, Head> {
    HandOverHeads(head[p := Head(psize, false, false)][p + psize := FENCEPOST][p + psize + 8 := Head(0, false, false)], p + 1, p + psize)
  }

  function MappingFeet(foot: map<int, nat>, p: int, psize: nat): map<int, nat> { HandOverFeet(foot, p + 1, p + psize)[p := 0] }

  lemma MappingWritten(head: map<int, Head>, foot: map<int, nat>, p: int, psize: nat)
    requires p % 16 == 0 && psize > 0 && FeetAligned(foot)
    ensures WrittenIn(head, foot, MappingHeads(head, p, psize), MappingFeet(foot, p, psize), p, p + psize + MMAP_FOOT_PAD)
    ensures MappingTagged(MappingHeads(head, p, psize), MappingFeet(foot, p, psize), p, Mapping(0, psize))
    ensures FeetAligned(MappingFeet(foot, p, psize))
  {
    hide FeetAligned;
    MappingFeetAligned(foot, p, psize);
  }

  lemma MappingFeetAligned(foot: map<int, nat>, p: int, psize: nat)
    requires p % 16 == 0 && FeetAligned(foot)
    ensures FeetAligned(MappingFeet(foot, p, psize))
  {
    SumAligned(p, 0);
  }

  /** `mmap_alloc` */
  method DirectMap(m: MallocState, nb: nat, mmap: (nat, nat) -> int) returns (p: int)
    requires Sound(m, {}) && MIN_CHUNK_SIZE <= nb < SIZE_T && Honest(m.segs, m.mapped, mmap)
    modifies m`head, m`foot, m`mapped, m`least
    ensures Sound(m, {})
    ensures p == 0 ==> unchanged(m) && (MappingSize(nb) <= nb || mmap(0, MappingSize(nb)) == MFAIL)
    ensures p != 0 ==> p > 0 && p == mmap(0, MappingSize(nb)) && Fresh(old(m.segs), old(m.mapped), p, MappingSize(nb)) && MappingSize(nb) > nb
    ensures p != 0 ==> m.mapped == old(m.mapped)[p := Mapping(0, MappingSize(nb) - MMAP_FOOT_PAD)]
    ensures p != 0 ==> m.least == if old(m.least) == 0 || p < old(m.least) then p else old(m.least)
  {
    hide BooksOk, HeapOk, MappingTagged, WrittenIn, HandOverHeads, HandOverFeet, LeastOk, Fresh;
    MappingSizeChecked(nb);
    var mmsize := MappingSize(nb);
    p := 0;
    if mmsize > nb {
      var mm := mmap(0, mmsize);
      if mm != MFAIL {
        p := mm;
        var psize := mmsize - MMAP_FOOT_PAD;
        FreshFacts(m.segs, m.mapped, p, mmsize);
        AlignedFeet(m);
        MappingWritten(m.head, m.foot, p, psize);
        var head := MappingHeads(m.head, p, psize);
        var foot := MappingFeet(m.foot, p, psize);
        MapHeap(m.c, m.head, m.foot, m.segs, m.mapped, p, mmsize, head, foot);
        LowerForMapping(m.least, m.segs, m.mapped, p, psize);
        m.head, m.foot := head, foot;
        m.mapped := m.mapped[p := Mapping(0, psize)];
        m.least := Lowered(m.least, mm);
      }
    }
  }

  // ---------------------------------------------------------------- the segment list

  /** The segment that ends at `a`. */
  method SegmentEndingAt(segs: seq<Segment>, a: int) returns (i: nat)
    ensures i <= |segs| && (i < |segs| ==> End(segs[i]) == a)
    ensures i == |segs| ==> forall s :: s in segs ==> End(s) != a
  {
    i := 0;
    while i < |segs| && a != segs[i].base + segs[i].size
      invariant i <= |segs| && forall j :: 0 <= j < i ==> End(segs[j]) != a
    {
      i := i + 1;
    }
  }

  /** The segment that starts at `a`. */
  method SegmentStartingAt(segs: seq<Segment>, a: int) returns (i: nat)
    ensures i <= |segs| && (i < |segs| ==> segs[i].base == a)
    ensures i == |segs| ==> forall s :: s in segs ==> s.base != a
  {
    i := 0;
    while i < |segs| && segs[i].base != a
      invariant i <= |segs| && forall j :: 0 <= j < i ==> segs[j].base != a
    {
      i := i + 1;
    }
  }

  /** `segment_holding` */
  method SegmentHolding(segs: seq<Segment>, a: int) returns (i: nat)
    requires exists s :: s in segs && s.base <= a < End(s)
    ensures i < |segs| && segs[i].base <= a < End(segs[i])
  {
    ghost var s :| s in segs && s.base <= a < End(s);
    ghost var k :| 0 <= k < |segs| && segs[k] == s;
    i := 0;
    while !(segs[i].base <= a < segs[i].base + segs[i].size)
      invariant i <= k
      decreases k - i
    {
      i := i + 1;
    }
  }

  /** The top chunk and its trailing overhead reach to the end of the segment that holds it. */
  lemma TopEnds(m: MallocState, i: nat)
    requires Sound(m, {}) && m.top != 0 && i < |m.segs| && m.segs[i].base <= m.top < End(m.segs[i])
    ensures End(m.segs[i]) == m.top + m.topsize + TOP_FOOT_SIZE
  {
    BlockFacts(m, {}, m.top);
    assert HasSeg(m.segs, m.top, m.c[m.top]);
    var s :| s in m.segs && InSeg(s, m.top, m.c[m.top]);
    assert m.segs[i] in m.segs;
    assert s == m.segs[i] || Disjoint(s.base, End(s), m.segs[i].base, End(m.segs[i]));
  }

  lemma TopIsHeld(m: MallocState)
    requires Sound(m, {}) && m.top != 0
    ensures exists s :: s in m.segs && s.base <= m.top < End(s)
  {
    BlockFacts(m, {}, m.top);
    assert HasSeg(m.segs, m.top, m.c[m.top]);
    var s :| s in m.segs && InSeg(s, m.top, m.c[m.top]);
  }

  // ---------------------------------------------------------------- the top chunk grows, or moves to a new segment

  /** `init_top`, for an aligned chunk. */
  function InitTop(head: map<int, Head>, p: int, psize: nat): map<int, Head> {
    head[p := Head(psize, false, true)][p + psize := Head(TOP_FOOT_SIZE, false, false)]
  }

  lemma TopInitialised(head: map<int, Head>, foot: map<int, nat>, a: int, n: nat)
    requires n > TOP_FOOT_SIZE
    ensures var head' := InitTop(head, a, n - TOP_FOOT_SIZE);
            && WrittenIn(head, foot, head', foot, a, a + n) && a in head' && head'[a] == Head(n - TOP_FOOT_SIZE, false, true)
            && a + n - TOP_FOOT_SIZE in head' && !head'[a + n - TOP_FOOT_SIZE].pinuse
  {
  }

  lemma WholeGranules(n: nat)
    requires n % GRANULARITY == 0 && n > 0
    ensures n % 16 == 0 && n > TOP_FOOT_SIZE
  {
    var k := n / GRANULARITY;
    assert n == k * GRANULARITY;
    assert n == k * 4096 * 16;
  }

  /** The chunks that the program holds are the same. */
  ghost predicate SameHeld(c: Blocks, records: set<int>, c': Blocks, records': set<int>) {
    && (forall p :: p in c && c[p].kind.Used? && p !in records ==> p in c' && c'[p] == c[p] && p !in records')
    && (forall p :: p in c' && c'[p].kind.Used? && p !in records' ==> p in c && c[p] == c'[p] && p !in records)
  }

  lemma FirstBooks(c: Blocks, k: Books, a: int, n: nat)
    requires BooksOk(c, k, {}) && k.top == 0 && a > 0 && n > TOP_FOOT_SIZE
    ensures c == map[]
    ensures BooksOk(c[a := Block(n, Top)], k.(top := a, topsize := n - TOP_FOOT_SIZE, segs := [Segment(a, n)] + k.segs), {})
  {
  }

  lemma NoSegments(m: MallocState)
    requires Sound(m, {}) && m.top == 0
    ensures m.segs == []
  {
  }

  /** "first-time initialization" */
  method FirstSegment(m: MallocState, tbase: int, tsize: nat)
    requires Sound(m, {}) && m.top == 0 && Fresh(m.segs, m.mapped, tbase, tsize) && tsize % GRANULARITY == 0 && tsize > 0
    modifies m`top, m`topsize, m`segs, m`head, m`c, m`least
    ensures Sound(m, {}) && m.topsize == tsize - TOP_FOOT_SIZE && SameHeld(old(m.c), m.records, m.c, m.records)
    ensures m.c == map[tbase := Block(tsize, Top)] && m.segs == [Segment(tbase, tsize)] && m.top == tbase
    ensures m.least == if old(m.least) == 0 || tbase < old(m.least) then tbase else old(m.least)
  {
    hide HeapOk, BooksOk, InitTop, WrittenIn, Fresh, LeastOk;
    WholeGranules(tsize);
    assert tbase > 0 by { FreshFacts(m.segs, m.mapped, tbase, tsize); }
    NoSegments(m);
    LowerForFirst(m.least, m.mapped, m.segs, tbase, tsize);
    m.least := Lowered(m.least, tbase);
    FirstBooks(m.c, BooksOf(m), tbase, tsize);
    TopInitialised(m.head, m.foot, tbase, tsize);
    var head := InitTop(m.head, tbase, tsize - TOP_FOOT_SIZE);
    NewSegHeap(m.c, m.head, m.foot, m.segs, m.mapped, tbase, tsize, head);
    m.head := head;
    m.segs := [Segment(tbase, tsize)] + m.segs;
    m.top, m.topsize := tbase, tsize - TOP_FOOT_SIZE;
    m.c := m.c[tbase := Block(tsize, Top)];
  }

  lemma AppendBooks(c: Blocks, k: Books, i: nat, n: nat)
    requires BooksOk(c, k, {}) && k.top != 0 && i < |k.segs| && Tiled(c)
    ensures k.top in c
    ensures BooksOk(c[k.top := Block(c[k.top].size + n, Top)],
                    k.(topsize := k.topsize + n, segs := k.segs[i := Segment(k.segs[i].base, k.segs[i].size + n)]), {})
  {
    var c' := c[k.top := Block(c[k.top].size + n, Top)];
    forall p
      ensures p in k.records <==> BeforeFence(c', p)
    {
      assert BeforeFence(c', p) <==> BeforeFence(c, p);
    }
  }

  lemma AppendedHeads(head: map<int, Head>, top: int, topsize: nat, a: int, n: nat)
    requires top + topsize + TOP_FOOT_SIZE == a && n > TOP_FOOT_SIZE
    ensures var head' := InitTop(head, top, topsize + n);
            && SameHeadsBut(head, head', top, a, n)
            && top in head' && head'[top] == Head(topsize + n, false, true)
            && a + n - TOP_FOOT_SIZE in head' && !head'[a + n - TOP_FOOT_SIZE].pinuse
  {
  }

  lemma OnlyTop(m: MallocState)
    requires Sound(m, {}) && m.top != 0
    ensures forall p :: p in m.c && m.c[p].kind.Top? ==> p == m.top
  {
  }

  lemma LeastBase(m: MallocState, i: nat)
    requires Sound(m, {}) && i < |m.segs|
    ensures OkAddress(m.least, m.segs[i].base)
  {
  }

  method Append(m: MallocState, i: nat, tbase: int, tsize: nat)
    requires Sound(m, {}) && m.top != 0 && Fresh(m.segs, m.mapped, tbase, tsize) && tsize % GRANULARITY == 0 && tsize > 0
    requires i < |m.segs| && End(m.segs[i]) == tbase && m.segs[i].base <= m.top < tbase
    modifies m`topsize, m`segs, m`head, m`c
    ensures Sound(m, {}) && m.topsize == old(m.topsize) + tsize && SameHeld(old(m.c), m.records, m.c, m.records)
    ensures m.segs == old(m.segs)[i := Segment(old(m.segs)[i].base, old(m.segs)[i].size + tsize)]
  {
    hide HeapOk, BooksOk, LeastOk, InitTop, Fresh, SameHeadsBut;
    WholeGranules(tsize);
    TopEnds(m, i);
    TopFacts(m, {});
    OnlyTop(m);
    AppendedHeads(m.head, m.top, m.topsize, tbase, tsize);
    var head := InitTop(m.head, m.top, m.topsize + tsize);
    AppendHeap(m.c, m.head, m.foot, m.segs, m.mapped, i, m.top, tbase, tsize, head);
    AppendBooks(m.c, BooksOf(m), i, tsize);
    LeastBase(m, i);
    LeastAt(m.least, m.segs, m.mapped, i, Segment(m.segs[i].base, m.segs[i].size + tsize));
    m.segs := m.segs[i := Segment(m.segs[i].base, m.segs[i].size + tsize)];
    m.topsize := m.topsize + tsize;
    m.head := head;
    m.c := m.c[m.top := Block(m.c[m.top].size + tsize, Top)];
  }

  lemma RecordSame(c: Blocks, records: set<int>, top: int, topsize: nat, a: int, n: nat)
    requires Tiled(c) && top in c && c[top] == Block(topsize + TOP_FOOT_SIZE, Top) && topsize > 0
    requires RecordsOk(c, records) && a !in c && !(top <= a < top + topsize + TOP_FOOT_SIZE)
    ensures SameHeld(c, records, (c + Retired(top, topsize))[a := Block(n, Top)], records + {RecordAt(top, topsize)})
  {
    OnlyItself(c, top);
    var ins, csp := Retired(top, topsize), RecordAt(top, topsize);
    assert forall p :: p in ins <==> p == top || p == csp || p == csp + RECORD_SIZE;
  }

  /** What `AddSegment` needs to know about the old top chunk. */
  lemma OldTop(m: MallocState, a: int, n: nat)
    requires Sound(m, {}) && m.top != 0 && Fresh(m.segs, m.mapped, a, n) && n > 0
    ensures Tiled(m.c) && RecordsOk(m.c, m.records)
    ensures a !in m.c && !(m.top <= a < m.top + m.topsize + TOP_FOOT_SIZE)
  {
    BlockFacts(m, {}, m.top);
    NoBlockIn(m.c, m.segs, a, a + n, m.top);
    if a in m.c {
      NoBlockIn(m.c, m.segs, a, a + n, a);
    }
  }

  /** `csp` as `add_segment` computes it from the end of the old segment. */
  function RecordPlace(end: int, top: int): int {
    var rawsp := end - (RECORD_SIZE + 32 + CHUNK_ALIGN_MASK);
    var asp := rawsp + AlignOffset(rawsp + 16);
    if asp < top + MIN_CHUNK_SIZE then top else asp
  }

  function AlignOffset(a: int): int { if a % 16 == 0 then 0 else 16 - a % 16 }

  lemma RecordPlaced(top: int, topsize: nat)
    requires top % 16 == 0 && topsize % 16 == 0
    ensures RecordPlace(top + topsize + TOP_FOOT_SIZE, top) == RecordAt(top, topsize)
  {
    SumAligned(top, topsize);
    assert (top + topsize + TOP_FOOT_SIZE - 95 + 16) % 16 == 1;
  }

  lemma MovedTop(m: MallocState, a: int, n: nat, head: map<int, Head>, foot: map<int, nat>)
    requires Sound(m, {}) && m.top != 0 && Fresh(m.segs, m.mapped, a, n) && n % 16 == 0 && n > TOP_FOOT_SIZE
    requires RetiredWords(m.head, m.foot, head, foot, m.top, m.topsize)
    ensures var c := (m.c + Retired(m.top, m.topsize))[a := Block(n, Top)];
            var csp := RecordAt(m.top, m.topsize);
            && HeapOk(c, InitTop(head, a, n - TOP_FOOT_SIZE), foot, [Segment(a, n)] + m.segs, m.mapped)
            && BooksOk(c, BooksOf(m).(top := a, topsize := n - TOP_FOOT_SIZE, segs := [Segment(a, n)] + m.segs, records := m.records + {csp}),
                       if csp == m.top then {} else {m.top})
            && SameHeld(m.c, m.records, c, m.records + {csp})
  {
    hide HeapOk, BooksOk, InitTop, WrittenIn, Fresh, Retired, RetiredWords, RecordsOk, SameHeld;
    FreshFacts(m.segs, m.mapped, a, n);
    TopFacts(m, {});
    OldTop(m, a, n);
    RetiredHeap(m.c, m.head, m.foot, m.segs, m.mapped, m.top, m.topsize, head, foot);
    TopInitialised(head, foot, a, n);
    NewSegHeap(m.c + Retired(m.top, m.topsize), head, foot, m.segs, m.mapped, a, n, InitTop(head, a, n - TOP_FOOT_SIZE));
    RetiredBooks(m.c, BooksOf(m), a, n);
    RecordSame(m.c, m.records, m.top, m.topsize, a, n);
  }

  /** The words of the record, the fenceposts and the rest of the old top chunk. */
  method RetireTop(m: MallocState) returns (csp: int, head: map<int, Head>, foot: map<int, nat>)
    requires Sound(m, {}) && m.top != 0
    ensures csp == RecordAt(m.top, m.topsize) && RetiredWords(m.head, m.foot, head, foot, m.top, m.topsize)
  {
    hide HeapOk, BooksOk, RetiredWords, LeastOk;
    TopFacts(m, {});
    TopIsHeld(m);
    var i := SegmentHolding(m.segs, m.top);
    TopEnds(m, i);
    var oldEnd := End(m.segs[i]);
    csp := RecordPlace(oldEnd, m.top);
    RecordPlaced(m.top, m.topsize);
    head, foot := WriteRetired(m.head, m.foot, m.top, m.topsize, csp, oldEnd);
  }

  /**
   In place of the old top chunk there are the record of its segment, the fenceposts and, if there is room, a free
   chunk; the region is a segment that consists of the top chunk.
   */
  ghost predicate MovedOn(c: Blocks, records: set<int>, segs: seq<Segment>, top: int, topsize: nat,
                          c': Blocks, records': set<int>, segs': seq<Segment>, a: int, n: nat) {
    && c' == (c + Retired(top, topsize))[a := Block(n, Top)] && records' == records + {RecordAt(top, topsize)}
    && segs' == [Segment(a, n)] + segs
  }

  /** The old top chunk makes way for the record of its segment, and the region becomes the top chunk. */
  method MoveTop(m: MallocState, tbase: int, tsize: nat) returns (q: int)
    requires Sound(m, {}) && m.top != 0 && Fresh(m.segs, m.mapped, tbase, tsize) && tsize % GRANULARITY == 0 && tsize > 0
    requires OkAddress(m.least, tbase)
    modifies m`top, m`topsize, m`segs, m`records, m`head, m`foot, m`c
    ensures Sound(m, if q == 0 then {} else {q}) && m.top == tbase && m.topsize == tsize - TOP_FOOT_SIZE
    ensures SameHeld(old(m.c), old(m.records), m.c, m.records)
    ensures q == if RecordAt(old(m.top), old(m.topsize)) == old(m.top) then 0 else old(m.top)
    ensures MovedOn(old(m.c), old(m.records), old(m.segs), old(m.top), old(m.topsize), m.c, m.records, m.segs, tbase, tsize)
  {
    hide HeapOk, BooksOk, InitTop, Fresh, Retired, RetiredWords, SameHeld, RecordAt, LeastOk;
    WholeGranules(tsize);
    SegmentsThere(m);
    LeastWith(m.least, m.segs, m.mapped, Segment(tbase, tsize));
    var csp, head, foot := RetireTop(m);
    MovedTop(m, tbase, tsize, head, foot);
    q := if csp == m.top then 0 else m.top;
    ghost var c := (m.c + Retired(m.top, m.topsize))[tbase := Block(tsize, Top)];
    m.head, m.foot := InitTop(head, tbase, tsize - TOP_FOOT_SIZE), foot;
    m.top, m.topsize := tbase, tsize - TOP_FOOT_SIZE;
    m.segs := [Segment(tbase, tsize)] + m.segs;
    m.c, m.records := c, m.records + {csp};
  }

  /** `add_segment` */
  method AddSegment(m: MallocState, tbase: int, tsize: nat)
    requires Sound(m, {}) && m.top != 0 && Fresh(m.segs, m.mapped, tbase, tsize) && tsize % GRANULARITY == 0 && tsize > 0
    requires OkAddress(m.least, tbase)
    modifies m`top, m`topsize, m`segs, m`records, m`head, m`foot, m`bins, m`view, m`c
    ensures Sound(m, {}) && m.top == tbase && m.topsize == tsize - TOP_FOOT_SIZE && SameHeld(old(m.c), old(m.records), m.c, m.records)
    ensures MovedOn(old(m.c), old(m.records), old(m.segs), old(m.top), old(m.topsize), m.c, m.records, m.segs, tbase, tsize)
    ensures m.view.size == if old(m.topsize) < 32 then old(m.view.size) else old(m.view.size)[old(m.top) := old(m.topsize)]
    ensures m.records == old(m.records) + {if old(m.topsize) < 32 then old(m.top) else old(m.top + m.topsize)}
  {
    hide HeapOk, BooksOk, LeastOk, SameHeld;
    TopFacts(m, {});
    OldTop(m, tbase, tsize);
    var q := MoveTop(m, tbase, tsize);
    if q != 0 {
      RetiredRest(old(m.c), old(m.top), old(m.topsize), tbase, tsize);
      Insert(m, q, {q});
      assert {q} - {q} == {};
    }
  }

  lemma RetiredRest(c: Blocks, top: int, topsize: nat, a: int, n: nat)
    requires RecordAt(top, topsize) != top
    ensures var c' := (c + Retired(top, topsize))[a := Block(n, Top)]; a != top ==> top in c' && c'[top] == Block(topsize, Free)
  {
  }

  // ---------------------------------------------------------------- before an existing segment

  lemma PrependBooks(c: Blocks, k: Books, i: nat, a: int, n: nat)
    requires BooksOk(c, k, {}) && Tiled(c) && SegsOk(c, k.segs) && i < |k.segs| && k.segs[i].base == a + n && a !in c && a > 0
    ensures BooksOk(c[a := Block(n, Used)], k.(segs := k.segs[i := Segment(a, k.segs[i].size + n)]), {})
    ensures a !in k.records
  {
    var c' := c[a := Block(n, Used)];
    assert k.segs[i] in k.segs;
    forall p
      ensures p in k.records <==> BeforeFence(c', p)
    {
      if BeforeFence(c', p) {
        assert p != a;
        assert BlockOk(c, p);
      }
      assert BeforeFence(c', p) <==> BeforeFence(c, p);
    }
  }

  lemma PrependAllocated(c: Blocks, a: int, n: nat, nb: nat, c': Blocks)
    requires a !in c && a + nb !in c && 0 < nb < n
    requires LessUsed(c[a := Block(n, Used)] + TwoPieces(a, a + nb, a + n, Used), c', a + nb)
    ensures Allocated(c, c', a, nb)
  {
    var c2 := c[a := Block(n, Used)] + TwoPieces(a, a + nb, a + n, Used);
    assert forall q :: q in c2 <==> q in c || q == a || q == a + nb;
    assert c2[a] == Block(nb, Used);
  }

  lemma GrewAt(segs: seq<Segment>, i: nat, t: Segment, a: int, n: nat)
    requires Grown(segs, i, t, a, n)
    ensures Grew(segs, segs[i := t], a, n)
  {
  }

  lemma GrewInFront(segs: seq<Segment>, a: int, n: nat)
    ensures Grew(segs, [Segment(a, n)] + segs, a, n)
  {
  }

  /** The region joins the segment behind it as one chunk in use. */
  method GrowDown(m: MallocState, i: nat, tbase: int, tsize: nat)
    requires Sound(m, {}) && Fresh(m.segs, m.mapped, tbase, tsize) && tsize % GRANULARITY == 0 && tsize > 0
    requires i < |m.segs| && m.segs[i].base == tbase + tsize && OkAddress(m.least, tbase)
    modifies m`segs, m`head, m`foot, m`c
    ensures Sound(m, {}) && tbase !in old(m.c) && m.c == old(m.c)[tbase := Block(tsize, Used)] && tbase !in m.records
    ensures Grew(old(m.segs), m.segs, tbase, tsize)
    ensures forall q :: q in old(m.c) ==> !(tbase <= q < tbase + tsize)
  {
    hide HeapOk, BooksOk, LeastOk, HandOverHeads, HandOverFeet, ClearBlock, WrittenIn, Grew;
    WholeGranules(tsize);
    GrewAt(m.segs, i, Segment(tbase, m.segs[i].size + tsize), tbase, tsize);
    EmptyBefore(m, tbase, tsize);
    AlignedFeet(m);
    RegionWritten(m.head, m.foot, tbase, tsize);
    FirstFoot(m.c, m.head, m.foot, m.segs, m.mapped, m.segs[i]);
    var head := HandOverHeads(m.head[tbase := Head(tsize, true, true)], tbase + 1, tbase + tsize);
    var foot := HandOverFeet(m.foot, tbase + 1, tbase + tsize);
    PrependHeap(m.c, m.head, m.foot - {tbase + tsize}, m.segs, m.mapped, i, tbase, tsize, head, foot);
    PrependBooks(m.c, BooksOf(m), i, tbase, tsize);
    LeastAt(m.least, m.segs, m.mapped, i, Segment(tbase, m.segs[i].size + tsize));
    m.segs := m.segs[i := Segment(tbase, m.segs[i].size + tsize)];
    m.head, m.foot := head, foot;
    m.c := m.c[tbase := Block(tsize, Used)];
  }

  lemma RegionWritten(head: map<int, Head>, foot: map<int, nat>, a: int, n: nat)
    requires n > 0 && FeetAligned(foot)
    ensures var head', foot' := HandOverHeads(head[a := Head(n, true, true)], a + 1, a + n), HandOverFeet(foot, a + 1, a + n);
            && WrittenIn(head, foot - {a + n}, head', foot', a, a + n) && FeetAligned(foot')
            && a in head' && head'[a] == Head(n, true, true) && ClearBlock(head', foot', a, Block(n, Used))
  {
  }

  lemma EmptyBefore(m: MallocState, a: int, n: nat)
    requires Sound(m, {}) && Fresh(m.segs, m.mapped, a, n)
    ensures forall q :: q in m.c ==> !(a <= q < a + n)
    ensures Tiled(m.c) && SegsOk(m.c, m.segs)
  {
    forall q | q in m.c
      ensures !(a <= q < a + n)
    {
      NoBlockIn(m.c, m.segs, a, a + n, q);
    }
  }

  /** The designated victim lies outside a fresh region. */
  lemma RestNotDv(m: MallocState, a: int, n: nat, nb: nat)
    requires Sound(m, {}) && Fresh(m.segs, m.mapped, a, n) && 0 < nb < n
    ensures m.dv != a + nb
  {
    hide LeastOk, HeapOk, BooksOk, Fresh;
    EmptyBefore(m, a, n);
    FreshFacts(m.segs, m.mapped, a, n);
    DvIsThere(m);
  }

  /**
   `prepend_alloc`: the request is served from the front of the region, and the rest is merged with the first chunk
   of the segment behind it.
   */
  method Prepend(m: MallocState, i: nat, tbase: int, tsize: nat, nb: nat) returns (p: int)
    requires Sound(m, {}) && Fresh(m.segs, m.mapped, tbase, tsize) && tsize % GRANULARITY == 0 && tsize > 0
    requires i < |m.segs| && m.segs[i].base == tbase + tsize && OkAddress(m.least, tbase)
    requires nb % 16 == 0 && MIN_CHUNK_SIZE <= nb && nb + MIN_CHUNK_SIZE <= tsize
    modifies m
    ensures Sound(m, {}) && p > 0 && Allocated(old(m.c), m.c, p, nb)
    ensures m.records == old(m.records) && m.mapped == old(m.mapped) && Grew(old(m.segs), m.segs, tbase, tsize)
    ensures p == tbase
    ensures var rest, n := tbase + nb, tbase + tsize;
            if n == old(m.top) then m.top == rest && m.topsize == old(m.topsize) + (tsize - nb) && m.dv == old(m.dv) && m.dvsize == old(m.dvsize)
            else
              && m.top == old(m.top) && m.topsize == old(m.topsize)
              && if n == old(m.dv) then m.dv == rest && m.dvsize == old(m.dvsize) + (tsize - nb) else m.dv == old(m.dv) && m.dvsize == old(m.dvsize)
  {
    hide HeapOk, BooksOk, Fresh, LessUsed, Allocated, LeastOk, Grew;
    FreshFacts(m.segs, m.mapped, tbase, tsize);
    ghost var c := m.c;
    RestNotDv(m, tbase, tsize, nb);
    GrowDown(m, i, tbase, tsize);
    p := tbase;
    var q := SplitUsed(m, p, nb);
    RestBehind(m, p, q);
    Dispose(m, q);
    PrependAllocated(c, p, tsize, nb, m.c);
  }

  // ---------------------------------------------------------------- the operation

  /** The program gains the chunk `p`, of the size it asked for, and keeps all that it held. */
  ghost predicate Gained(c: Blocks, records: set<int>, c': Blocks, records': set<int>, p: int, nb: nat) {
    && p in c' && c'[p].kind.Used? && p !in records' && nb <= c'[p].size < nb + MIN_CHUNK_SIZE
    && (forall q :: q in c && c[q].kind.Used? && q !in records ==> q != p && q in c' && c'[q] == c[q] && q !in records')
    && (forall q :: q in c' && c'[q].kind.Used? && q !in records' && q != p ==> q in c && c[q] == c'[q] && q !in records)
  }

  lemma AllocatedGains(c: Blocks, records: set<int>, c1: Blocks, records1: set<int>, c2: Blocks, p: int, nb: nat)
    requires SameHeld(c, records, c1, records1) && Allocated(c1, c2, p, nb)
    requires forall q :: q in records1 ==> q in c1 && c1[q].kind.Used?
    ensures Gained(c, records, c2, records1, p, nb)
  {
  }

  /** A segment that ends at `a` holds the top chunk exactly if the top chunk and its trailing overhead end there. */
  lemma EndOfTop(m: MallocState, a: int)
    requires Sound(m, {}) && m.top != 0
    ensures forall s :: s in m.segs && End(s) == a ==> (s.base <= m.top < End(s) <==> m.top + m.topsize + TOP_FOOT_SIZE == a)
    ensures m.top + m.topsize + TOP_FOOT_SIZE == a ==> exists s :: s in m.segs && End(s) == a
  {
    hide HeapOk, BooksOk, LeastOk;
    TopIsHeld(m);
    var t :| t in m.segs && t.base <= m.top < End(t);
    var j :| 0 <= j < |m.segs| && m.segs[j] == t;
    TopEnds(m, j);
    SegmentsApart(m);
  }

  lemma SegmentsApart(m: MallocState)
    requires Sound(m, {})
    ensures forall s, t :: s in m.segs && t in m.segs && s != t ==> Disjoint(s.base, End(s), t.base, End(t))
    ensures forall s :: s in m.segs ==> s.size > 0
  {
    hide BooksOk, LeastOk, Tiled, Tagged, MappedOk, Clear;
  }

  /** The top chunk takes in the region, wherever it lies, unless the region ends where a segment starts. */
  method Extend(m: MallocState, tbase: int, tsize: nat) returns (done: bool, i: nat)
    requires Sound(m, {}) && Fresh(m.segs, m.mapped, tbase, tsize) && tsize % GRANULARITY == 0 && tsize > 0
    modifies m`top, m`topsize, m`segs, m`records, m`head, m`foot, m`bins, m`view, m`c, m`least
    ensures Sound(m, {})
    ensures done ==> m.topsize >= tsize - TOP_FOOT_SIZE && SameHeld(old(m.c), old(m.records), m.c, m.records)
    ensures !done ==> unchanged(m`top, m`topsize, m`segs, m`records, m`head, m`foot, m`bins, m`view, m`c)
    ensures !done ==> i < |m.segs| && m.segs[i].base == tbase + tsize && OkAddress(m.least, tbase)
    ensures old(m.top) == 0 ==> done && m.segs == [Segment(tbase, tsize)]
    ensures done ==> Grew(old(m.segs), m.segs, tbase, tsize)
    ensures var above := old(m.top) != 0 && old(m.top + m.topsize) + TOP_FOOT_SIZE == tbase;
            && (done <==> old(m.top) == 0 || above || forall s :: s in old(m.segs) ==> s.base != tbase + tsize)
            && (above ==> m.top == old(m.top) && m.topsize == old(m.topsize) + tsize && |m.segs| == |old(m.segs)| && m.least == old(m.least))
            && (done && !above ==> m.top == tbase && m.topsize == tsize - TOP_FOOT_SIZE && m.segs == [Segment(tbase, tsize)] + old(m.segs))
            && (!above ==> m.least == if (old(m.top) == 0 && old(m.least) == 0) || tbase < old(m.least) then tbase else old(m.least))
  {
    hide HeapOk, BooksOk, Fresh, LeastOk, SameHeld, Grew;
    if m.top != 0 {
      EndOfTop(m, tbase);
    }
    GrewInFront(m.segs, tbase, tsize);
    done, i := true, 0;
    if m.top == 0 {
      NoSegments(m);
      FirstSegment(m, tbase, tsize);
      assert [Segment(tbase, tsize)] + [] == [Segment(tbase, tsize)];
      return;
    }
    i := SegmentEndingAt(m.segs, tbase);
    if i < |m.segs| && m.segs[i].base <= m.top < m.segs[i].base + m.segs[i].size {
      GrewAt(m.segs, i, Segment(m.segs[i].base, m.segs[i].size + tsize), tbase, tsize);
      Append(m, i, tbase, tsize);
      return;
    }
    FreshFacts(m.segs, m.mapped, tbase, tsize);
    LowerStill(m.least, m.segs, m.mapped, tbase);
    if tbase < m.least {
      m.least := tbase;
    }
    i := SegmentStartingAt(m.segs, tbase + tsize);
    if i < |m.segs| {
      done := false;
    } else {
      AddSegment(m, tbase, tsize);
    }
  }

  /** The region is used for the request, which always succeeds. */
  method UseRegion(m: MallocState, tbase: int, tsize: nat, nb: nat) returns (p: int)
    requires Sound(m, {}) && Fresh(m.segs, m.mapped, tbase, tsize) && tsize % GRANULARITY == 0
    requires nb % 16 == 0 && MIN_CHUNK_SIZE <= nb && nb + SYS_ALLOC_PADDING <= tsize
    modifies m
    ensures Sound(m, {}) && p > 0 && m.mapped == old(m.mapped)
    ensures Gained(old(m.c), old(m.records), m.c, m.records, p, nb)
    ensures old(m.top) == 0 ==> m.segs == [Segment(tbase, tsize)]
    ensures Grew(old(m.segs), m.segs, tbase, tsize)
    ensures p == if old(m.top) != 0 && old(m.top + m.topsize) + TOP_FOOT_SIZE == tbase then old(m.top) else tbase
    ensures (exists s :: s in old(m.segs) && s.base == tbase + tsize) || (m.dv == old(m.dv) && m.dvsize == old(m.dvsize) && m.top == p + nb)
  {
    hide HeapOk, BooksOk, Fresh, Allocated, SameHeld, Gained, LeastOk, Grew;
    ghost var c, records := m.c, m.records;
    var done, i := Extend(m, tbase, tsize);
    if done {
      RecordsInUse(m, {});
      TopFacts(m, {});
      assert nb < m.topsize;
      ghost var c1 := m.c;
      p := SplitTop(m, nb, {});
      SplitAllocated(c1, p, nb, Top);
      AllocatedGains(c, records, c1, m.records, m.c, p, nb);
    } else {
      RecordsInUse(m, {});
      SameAsBefore(c, records);
      p := Prepend(m, i, tbase, tsize, nb);
      AllocatedGains(c, records, c, records, m.c, p, nb);
    }
  }

  lemma SameAsBefore(c: Blocks, records: set<int>)
    ensures SameHeld(c, records, c, records)
  {
  }

  /** A chunk with a mapping of its own. */
  ghost predicate Mapped(segs: seq<Segment>, mapped: map<int, Mapping>, mapped': map<int, Mapping>, p: int, nb: nat) {
    && MappingSize(nb) > nb && Fresh(segs, mapped, p, MappingSize(nb))
    && mapped' == mapped[p := Mapping(0, MappingSize(nb) - MMAP_FOOT_PAD)]
  }

  /** The request gets a mapping of its own. */
  ghost predicate Direct(topsize: nat, nb: nat, mmap: (nat, nat) -> int) {
    nb >= MMAP_THRESHOLD && topsize != 0 && MappingSize(nb) > nb && mmap(0, MappingSize(nb)) != MFAIL
  }

  /**
   `sys_alloc`: either the request is served, from a mapping of its own or from new memory that joins the heap, or
   nothing has changed because the size wrapped around or the system gave no memory.
   */
  method SysAlloc(m: MallocState, nb: nat, mmap: (nat, nat) -> int) returns (p: int)
    requires Sound(m, {}) && MIN_CHUNK_SIZE <= nb < SIZE_T && (nb % 16 == 0 || nb == SIZE_T - 1)
    requires Honest(m.segs, m.mapped, mmap)
    modifies m
    ensures Sound(m, {})
    ensures p == 0 <==> (SegmentSize(nb) <= nb || mmap(1, SegmentSize(nb)) == MFAIL) &&
                        (nb < MMAP_THRESHOLD || old(m.topsize) == 0 || MappingSize(nb) <= nb || mmap(0, MappingSize(nb)) == MFAIL)
    ensures p == 0 ==> unchanged(m)
    ensures m.mapped != old(m.mapped) <==> Direct(old(m.topsize), nb, mmap)
    ensures p != 0 ==> p > 0 && nb % 16 == 0 &&
                       if m.mapped == old(m.mapped) then Gained(old(m.c), old(m.records), m.c, m.records, p, nb) &&
                            mmap(1, SegmentSize(nb)) != MFAIL && Grew(old(m.segs), m.segs, mmap(1, SegmentSize(nb)), SegmentSize(nb)) &&
                            (old(m.top) == 0 ==> m.segs == [Segment(mmap(1, SegmentSize(nb)), SegmentSize(nb))]) &&
                            p == (if old(m.top) != 0 && old(m.top + m.topsize) + TOP_FOOT_SIZE == mmap(1, SegmentSize(nb)) then old(m.top)
                                  else mmap(1, SegmentSize(nb)))
                       else unchanged(m`c, m`records, m`segs, m`bins, m`dv, m`dvsize, m`top, m`topsize) && Mapped(old(m.segs), old(m.mapped), m.mapped, p, nb) &&
                            p == mmap(0, MappingSize(nb))
  {
    hide HeapOk, BooksOk, Gained, LeastOk, Grew;
    SegmentSizeChecked(nb);
    MappingSizeChecked(nb);
    if nb >= MMAP_THRESHOLD && m.topsize != 0 {
      p := DirectMap(m, nb, mmap);
      if p != 0 {
        MappedAnew(m.segs, old(m.mapped), p, nb);
        return;
      }
    }
    var asize := SegmentSize(nb);
    if asize <= nb {
      return 0;
    }
    var tbase := mmap(1, asize);
    if tbase == MFAIL {
      return 0;
    }
    p := UseRegion(m, tbase, asize, nb);
  }

  lemma MappedAnew(segs: seq<Segment>, mapped: map<int, Mapping>, p: int, nb: nat)
    requires Fresh(segs, mapped, p, MappingSize(nb)) && MappingSize(nb) > nb && nb >= MMAP_THRESHOLD
    ensures p !in mapped
  {
  }
}
