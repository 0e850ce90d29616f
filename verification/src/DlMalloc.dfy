/**
 The interface of the allocator: what `dlmalloc`, `dlfree`, `dlcalloc`, `dlrealloc` and `internal_memalign` do to the
 blocks that the program holds.
 */
module DlMalloc {
  import opened TreeIndex
  import opened Chunks
  import opened Tiling
  import opened HeapState
  import opened Release
  import opened Allocate
  import opened Regions
  import opened SysAlloc

  /** `TWO_SIZE_T_SIZES`: from the start of a chunk to the memory it provides. */
  const MEM_OFFSET: nat := 16
  const MMAP_CHUNK_OVERHEAD: nat := 16

  /** The blocks that the program holds: where each chunk starts, and its size. */
  ghost function HeldBy(m: MallocState): map<int, nat>
    reads m
  {
    Held(m.c, m.records, m.mapped)
  }

  /** The bytes that a held chunk provides. */
  ghost function Provides(held: map<int, nat>, mapped: map<int, Mapping>, p: int): int
    requires p in held
  {
    held[p] - if p in mapped then MMAP_CHUNK_OVERHEAD else CHUNK_OVERHEAD
  }

  ghost function Usable(m: MallocState, p: int): int
    requires p in HeldBy(m)
    reads m
  {
    Provides(HeldBy(m), m.mapped, p)
  }

  // ---------------------------------------------------------------- held blocks do not overlap

  lemma InUseApart(m: MallocState, p: int, q: int)
    requires Sound(m, {}) && p in m.c && q in m.c && p < q
    ensures p + m.c[p].size <= q
  {
    assert Apart(m.c, p, q);
  }

  lemma MappedApart(m: MallocState, p: int, q: int)
    requires Sound(m, {}) && p in m.mapped && q in m.c
    ensures Disjoint(p - m.mapped[p].lead, p + m.mapped[p].size + MMAP_FOOT_PAD, q, q + m.c[q].size) && m.c[q].size > 0
  {
    BlockFacts(m, {}, q);
    assert HasSeg(m.segs, q, m.c[q]);
    assert MappingOk(m.head, m.foot, m.segs, p, m.mapped[p]);
  }

  /** A block in a segment has no mapping of its own. */
  lemma NotMapped(m: MallocState, p: int)
    requires Sound(m, {}) && p in m.c
    ensures p !in m.mapped
  {
    if p in m.mapped {
      MappedApart(m, p, p);
    }
  }

  lemma MappingsApart(m: MallocState, p: int, q: int)
    requires Sound(m, {}) && p in m.mapped && q in m.mapped && p < q
    ensures p + m.mapped[p].size <= q
  {
  }

  /** The bytes that the blocks provide do not overlap: those of `p` end before the head word of `q`. */
  lemma HeldApart(m: MallocState, p: int, q: int)
    requires Sound(m, {}) && p in HeldBy(m) && q in HeldBy(m) && p < q
    ensures p + MEM_OFFSET + Usable(m, p) <= q + CHUNK_OVERHEAD
  {
    hide HeapOk, BooksOk, Sound, LeastOk;
    if p in m.mapped {
      if q in m.mapped {
        MappingsApart(m, p, q);
      } else {
        MappedApart(m, p, q);
      }
    } else if q in m.mapped {
      MappedApart(m, q, p);
    } else {
      InUseApart(m, p, q);
    }
  }

  lemma HeldAligned(m: MallocState, p: int)
    requires Sound(m, {}) && p in HeldBy(m)
    ensures p > 0 && p % MALLOC_ALIGNMENT == 0 && (p + MEM_OFFSET) % MALLOC_ALIGNMENT == 0
  {
    hide HeapOk, BooksOk, LeastOk;
    if p in m.mapped {
      MappingAligned(m, p);
    } else {
      BlockFacts(m, {}, p);
    }
  }

  lemma MappingAligned(m: MallocState, p: int)
    requires Sound(m, {}) && p in m.mapped
    ensures p > 0 && p % 16 == 0
  {
    assert MappingOk(m.head, m.foot, m.segs, p, m.mapped[p]);
  }

  // ---------------------------------------------------------------- where the memory comes from

  /** The byte at `x` belongs to a segment or to a mapping. */
  ghost predicate Has(segs: seq<Segment>, mapped: map<int, Mapping>, x: int) { InSegs(segs, x) || InMapped(mapped, x) }

  /** The call of `mmap` for `n` bytes was answered with memory that contains `x`. */
  ghost predicate GivenBy(mmap: (nat, nat) -> int, k: nat, n: nat, x: int) { mmap(k, n) != MFAIL && mmap(k, n) <= x < mmap(k, n) + n }

  /**
   The segments are the same, or grew by the answer to the call of `mmap` for a segment; and the mappings have no memory
   that they did not have before, apart from the answer to the call of `mmap` for a mapping.
   */
  ghost predicate Supplied(segs: seq<Segment>, mapped: map<int, Mapping>, segs': seq<Segment>, mapped': map<int, Mapping>,
                           mmap: (nat, nat) -> int, nb: nat) {
    && (segs' == segs || SegmentGiven(segs, segs', mmap, nb))
    && (forall x :: InMapped(mapped', x) ==> InMapped(mapped, x) || GivenBy(mmap, 0, MappingSize(nb), x))
  }

  ghost predicate SegmentGiven(segs: seq<Segment>, segs': seq<Segment>, mmap: (nat, nat) -> int, nb: nat) {
    mmap(1, SegmentSize(nb)) != MFAIL && Grew(segs, segs', mmap(1, SegmentSize(nb)), SegmentSize(nb))
  }

  lemma NothingGiven(segs: seq<Segment>, mapped: map<int, Mapping>, mmap: (nat, nat) -> int, nb: nat)
    ensures Supplied(segs, mapped, segs, mapped, mmap, nb)
  {
  }

  lemma GrownSupplied(segs: seq<Segment>, mapped: map<int, Mapping>, segs': seq<Segment>, mmap: (nat, nat) -> int, nb: nat)
    requires SegmentGiven(segs, segs', mmap, nb)
    ensures Supplied(segs, mapped, segs', mapped, mmap, nb)
  {
  }

  lemma MappingGiven(segs: seq<Segment>, mapped: map<int, Mapping>, p: int, size: nat, mmap: (nat, nat) -> int, nb: nat)
    requires p == mmap(0, MappingSize(nb)) != MFAIL && size + MMAP_FOOT_PAD == MappingSize(nb) && p !in mapped
    ensures Supplied(segs, mapped, segs, mapped[p := Mapping(0, size)], mmap, nb)
  {
    hide SegmentSize, MappingSize;
    var mapped' := mapped[p := Mapping(0, size)];
    forall x | InMapped(mapped', x)
      ensures InMapped(mapped, x) || GivenBy(mmap, 0, MappingSize(nb), x)
    {
      var q :| MappingHas(mapped', q, x);
      if q != p {
        assert MappingHas(mapped, q, x);
      }
    }
  }

  lemma FewerMappings(segs: seq<Segment>, mapped: map<int, Mapping>, segs': seq<Segment>, mapped': map<int, Mapping>,
                      mmap: (nat, nat) -> int, nb: nat, p: int)
    requires Supplied(segs, mapped, segs', mapped', mmap, nb)
    ensures Supplied(segs, mapped, segs', mapped' - {p}, mmap, nb)
  {
    forall x | InMapped(mapped' - {p}, x)
      ensures InMapped(mapped', x)
    {
      var q :| MappingHas(mapped' - {p}, q, x);
      assert MappingHas(mapped', q, x);
    }
  }

  /** A block that the program holds lies in memory that the allocator has. */
  lemma HeldInMemory(m: MallocState, p: int, x: int)
    requires Sound(m, {}) && p in HeldBy(m) && p + MEM_OFFSET <= x < p + MEM_OFFSET + Usable(m, p)
    ensures Has(m.segs, m.mapped, x)
  {
    hide BooksOk, LeastOk;
    if p in m.mapped {
      assert MappingOk(m.head, m.foot, m.segs, p, m.mapped[p]);
      assert MappingHas(m.mapped, p, x);
    } else {
      BlockFacts(m, {}, p);
      assert HasSeg(m.segs, p, m.c[p]);
      var s :| s in m.segs && InSeg(s, p, m.c[p]);
      NextInSegment(m, p, s);
    }
  }

  /** The word behind a chunk in use belongs to the same segment. */
  lemma NextInSegment(m: MallocState, p: int, s: Segment)
    requires Sound(m, {}) && p in m.c && m.c[p].kind.Used? && s in m.segs && InSeg(s, p, m.c[p])
    ensures p + m.c[p].size + 8 <= End(s)
  {
    hide BooksOk, LeastOk;
    BlockFacts(m, {}, p);
    var n := p + m.c[p].size;
    BlockFacts(m, {}, n);
    assert HasSeg(m.segs, n, m.c[n]);
    var t :| t in m.segs && InSeg(t, n, m.c[n]);
    assert t == s || Disjoint(s.base, End(s), t.base, End(t));
  }

  // ---------------------------------------------------------------- malloc

  lemma GainedHeld(c: Blocks, records: set<int>, c': Blocks, records': set<int>, mapped: map<int, Mapping>, p: int, nb: nat)
    requires Gained(c, records, c', records', p, nb) && p !in mapped
    ensures p !in Held(c, records, mapped)
    ensures Held(c', records', mapped) == Held(c, records, mapped)[p := c'[p].size]
  {
    var held, held' := Held(c, records, mapped)[p := c'[p].size], Held(c', records', mapped);
    assert forall q :: q in held <==> q in held';
    assert forall q :: q in held ==> held[q] == held'[q];
  }

  lemma MappedHeld(c: Blocks, records: set<int>, mapped: map<int, Mapping>, p: int, k: Mapping)
    requires p !in c && p !in mapped
    ensures p !in Held(c, records, mapped)
    ensures Held(c, records, mapped[p := k]) == Held(c, records, mapped)[p := k.size]
  {
  }

  /** A fresh mapping is neither a block nor a mapping that exists. */
  lemma FreshIsNew(m: MallocState, p: int, n: nat)
    requires Sound(m, {}) && Fresh(m.segs, m.mapped, p, n) && n > 0
    ensures p !in m.c && p !in m.mapped
  {
    if p in m.c {
      NoBlockIn(m.c, m.segs, p, p + n, p);
    }
  }

  /** `p` is newly held and provides at least `bytes`; a chunk in a segment is less than a minimal chunk too large. */
  ghost predicate Serves(held: map<int, nat>, held': map<int, nat>, mapped': map<int, Mapping>, p: int, bytes: nat) {
    && p > 0 && p % MALLOC_ALIGNMENT == 0 && p !in held && p in held' && held' == held[p := held'[p]]
    && if p in mapped' then bytes + MMAP_CHUNK_OVERHEAD <= held'[p]
       else Padded(bytes) <= held'[p] < Padded(bytes) + MIN_CHUNK_SIZE
  }

  /** The chunk is what `mmap` returned, but for the words of the fake chunk at its end. */
  ghost predicate InMapping(mapped: map<int, Mapping>, p: int, nb: nat, mmap: (nat, nat) -> int)
    requires p in mapped
  {
    p == mmap(0, MappingSize(nb)) && mapped[p].lead == 0 && mapped[p].size + MMAP_FOOT_PAD == MappingSize(nb)
  }

  /** The system gives no memory for the request. */
  ghost predicate NoMemory(topsize: nat, nb: nat, mmap: (nat, nat) -> int) {
    && (SegmentSize(nb) <= nb || mmap(1, SegmentSize(nb)) == MFAIL)
    && (nb < MMAP_THRESHOLD || topsize == 0 || MappingSize(nb) <= nb || mmap(0, MappingSize(nb)) == MFAIL)
  }

  /** Nothing that is free has room for the request, and the system gives no memory for it. */
  ghost predicate Refuses(c: Blocks, topsize: nat, bytes: nat, mmap: (nat, nat) -> int) {
    NothingFits(c, topsize, Wanted(bytes)) && NoMemory(topsize, Wanted(bytes), mmap)
  }

  /** Nothing that is free has room for the request, and the system gives a mapping for it. */
  ghost predicate ServedDirectly(c: Blocks, topsize: nat, bytes: nat, mmap: (nat, nat) -> int) {
    NothingFits(c, topsize, Wanted(bytes)) && Direct(topsize, Wanted(bytes), mmap)
  }

  lemma FreeSizes(m: MallocState)
    requires Sound(m, {})
    ensures m.topsize < SIZE_LIMIT && forall q :: q in m.c && m.c[q].kind.Free? ==> m.c[q].size < SIZE_LIMIT
  {
    SizesBounded(m);
    forall q | q in m.c && m.c[q].kind.Free?
      ensures m.c[q].size < SIZE_LIMIT
    {
      FreeBelow(m, q);
    }
  }

  /**
   When a request is refused, in numbers: it is too large for any size, or no free chunk has the padded size, the top
   chunk is not larger, and neither the call of `mmap` for a segment nor the one for a mapping gives memory.
   */
  lemma RefusesMeans(c: Blocks, topsize: nat, bytes: nat, mmap: (nat, nat) -> int)
    requires bytes < SIZE_T && topsize < SIZE_LIMIT && forall q :: q in c && c[q].kind.Free? ==> c[q].size < SIZE_LIMIT
    ensures Refuses(c, topsize, bytes, mmap) <==>
              || bytes >= 0xffff_ffff_ffff_ff80
              || (var nb := Padded(bytes);
                  && (forall q :: q in c && c[q].kind.Free? ==> c[q].size < nb) && topsize <= nb
                  && (nb + 96 + 0xffff >= 0x1_0000_0000_0000_0000 || mmap(1, (nb + 96 + 0xffff) / 0x1_0000 * 0x1_0000) == -1)
                  && (nb < 0x4_0000 || topsize == 0 || nb + 63 + 0xfff >= 0x1_0000_0000_0000_0000 ||
                      mmap(0, (nb + 63 + 0xfff) / 0x1000 * 0x1000) == -1))
    ensures bytes < 0xffff_ffff_ffff_ff80 ==> Wanted(bytes) == Padded(bytes)
  {
    hide SegmentSize, MappingSize, Padded;
    SizesAskedFor(Wanted(bytes));
  }

  /** When a request gets a mapping of its own, in numbers, and what it gets. */
  lemma DirectMeans(c: Blocks, topsize: nat, bytes: nat, mmap: (nat, nat) -> int)
    requires bytes < 0x1_0000_0000_0000_0000
    ensures bytes < 0xffff_ffff_ffff_ff80 ==>
              (ServedDirectly(c, topsize, bytes, mmap) <==>
                 var nb := Padded(bytes);
                 && (forall q :: q in c && c[q].kind.Free? ==> c[q].size < nb) && topsize <= nb
                 && nb >= 0x4_0000 && topsize != 0 && nb + 63 + 0xfff < 0x1_0000_0000_0000_0000
                 && mmap(0, (nb + 63 + 0xfff) / 0x1000 * 0x1000) != -1)
    ensures ServedDirectly(c, topsize, bytes, mmap) ==> bytes < 0xffff_ffff_ffff_ff80
  {
    hide SegmentSize, MappingSize, Padded;
    SizesAskedFor(Wanted(bytes));
  }

  /** What a request gets that has a mapping of its own, in numbers. */
  lemma MappingMeans(topsize: nat, bytes: nat, mmap: (nat, nat) -> int, mapped: map<int, Mapping>, p: int)
    requires bytes < 0xffff_ffff_ffff_ff80 && Direct(topsize, Wanted(bytes), mmap)
    requires p in mapped && InMapping(mapped, p, Wanted(bytes), mmap)
    ensures var size := (Padded(bytes) + 63 + 0xfff) / 0x1000 * 0x1000; p == mmap(0, size) && mapped[p] == Mapping(0, size - 32)
  {
    hide SegmentSize, MappingSize, Padded;
    SizesAskedFor(Wanted(bytes));
  }

  lemma GainedServes(m: MallocState, c: Blocks, records: set<int>, p: int, bytes: nat)
    requires Sound(m, {}) && Gained(c, records, m.c, m.records, p, Padded(bytes))
    ensures Serves(Held(c, records, m.mapped), HeldBy(m), m.mapped, p, bytes)
  {
    NotMapped(m, p);
    BlockFacts(m, {}, p);
    GainedHeld(c, records, m.c, m.records, m.mapped, p, Padded(bytes));
  }

  lemma MappedServes(c: Blocks, records: set<int>, segs: seq<Segment>, mapped: map<int, Mapping>, mapped': map<int, Mapping>, p: int, bytes: nat)
    requires Mapped(segs, mapped, mapped', p, Padded(bytes)) && p !in c && p !in mapped && Padded(bytes) < SIZE_T
    ensures Serves(Held(c, records, mapped), Held(c, records, mapped'), mapped', p, bytes)
  {
    hide Fresh, MappingSize, Held, Padded;
    MappingSizeChecked(Padded(bytes));
    MappedHeld(c, records, mapped, p, mapped'[p]);
    FreshFacts(segs, mapped, p, MappingSize(Padded(bytes)));
  }

  /** The last resort of `dlmalloc`: memory from the system. */
  method FromSystem(m: MallocState, bytes: nat, mmap: (nat, nat) -> int) returns (p: int)
    requires Sound(m, {}) && bytes < SIZE_T && Honest(m.segs, m.mapped, mmap)
    modifies m
    ensures Sound(m, {})
    ensures p == 0 <==> old(NoMemory(m.topsize, Wanted(bytes), mmap))
    ensures p == 0 ==> unchanged(m)
    ensures p != 0 ==> bytes < MAX_REQUEST && Serves(old(HeldBy(m)), HeldBy(m), m.mapped, p, bytes)
    ensures forall q :: q != p ==> (q in m.mapped <==> q in old(m.mapped))
    ensures p != 0 && p in m.mapped ==> InMapping(m.mapped, p, Wanted(bytes), mmap)
    ensures p != 0 ==> (p in m.mapped <==> Direct(old(m.topsize), Wanted(bytes), mmap))
    ensures p != 0 && old(m.top) == 0 ==> m.segs == [Segment(mmap(1, SegmentSize(Wanted(bytes))), SegmentSize(Wanted(bytes)))]
    ensures Direct(old(m.topsize), Wanted(bytes), mmap) ==> m.segs == old(m.segs)
    ensures p != 0 && p !in m.mapped ==>
              p == if old(m.top) != 0 && old(m.top + m.topsize) + TOP_FOOT_SIZE == mmap(1, SegmentSize(Wanted(bytes))) then old(m.top)
                   else mmap(1, SegmentSize(Wanted(bytes)))
    ensures Supplied(old(m.segs), old(m.mapped), m.segs, m.mapped, mmap, Wanted(bytes))
  {
    hide HeapOk, BooksOk, Gained, Fresh, Mapped, Serves, LeastOk, Direct, Supplied, Grew;
    NothingGiven(m.segs, m.mapped, mmap, Wanted(bytes));
    var nb := Wanted(bytes);
    ghost var c, records := m.c, m.records;
    EmptyHeap(m, nb, mmap);
    NewIfFresh(m, MappingSize(nb));
    p := SysAlloc.SysAlloc(m, nb, mmap);
    if p == 0 {
      return 0;
    }
    if m.mapped == old(m.mapped) {
      GainedServes(m, c, records, p, bytes);
      GainedNotMapped(m, c, records, p, nb);
      GrownSupplied(old(m.segs), m.mapped, m.segs, mmap, nb);
    } else {
      MappedFresh(m.segs, old(m.mapped), m.mapped, p, nb);
      MappedGiven(m.segs, old(m.mapped), m.mapped, p, nb, mmap);
      MappedServes(c, records, m.segs, old(m.mapped), m.mapped, p, bytes);
    }
  }

  /**
   The chunk for a request: from what is free, or else from the system. There is none exactly if nothing that is free
   has room and the system gives no memory, and then nothing changes.
   */
  method TakeChunk(m: MallocState, bytes: nat, mmap: (nat, nat) -> int) returns (p: int)
    requires Sound(m, {}) && bytes < SIZE_T && Honest(m.segs, m.mapped, mmap)
    modifies m
    ensures Sound(m, {})
    ensures p == 0 <==> old(Refuses(m.c, m.topsize, bytes, mmap))
    ensures p == 0 ==> unchanged(m)
    ensures p != 0 ==> p > 0 && bytes < MAX_REQUEST && Serves(old(HeldBy(m)), HeldBy(m), m.mapped, p, bytes)
    ensures forall q :: q != p ==> (q in m.mapped <==> q in old(m.mapped))
    ensures p != 0 && p in m.mapped ==> InMapping(m.mapped, p, Wanted(bytes), mmap)
    ensures p != 0 ==> (p in m.mapped <==> old(ServedDirectly(m.c, m.topsize, bytes, mmap)))
    ensures p != 0 && old(m.top) == 0 ==> m.segs == [Segment(mmap(1, SegmentSize(Wanted(bytes))), SegmentSize(Wanted(bytes)))]
    ensures old(ServedDirectly(m.c, m.topsize, bytes, mmap)) ==> m.segs == old(m.segs)
    ensures Supplied(old(m.segs), old(m.mapped), m.segs, m.mapped, mmap, Wanted(bytes))
    ensures p != 0 && p !in m.mapped && old(NothingFits(m.c, m.topsize, Wanted(bytes))) ==>
              p == if old(m.top) != 0 && old(m.top + m.topsize) + TOP_FOOT_SIZE == mmap(1, SegmentSize(Wanted(bytes))) then old(m.top)
                   else mmap(1, SegmentSize(Wanted(bytes)))
    ensures p != 0 && !old(NothingFits(m.c, m.topsize, Wanted(bytes))) ==>
              && Victim(old(m.c), old(m.dv), old(m.dvsize), old(m.top), p, Padded(bytes), m.dv, m.dvsize)
              && WellChosen(old(m.c), old(m.dv), old(m.top), p, Padded(bytes))
  {
    hide HeapOk, BooksOk, Gained, Allocated, NothingFits, NoMemory, Serves, LeastOk, Direct, InMapping, Held, Supplied, Victim, WellChosen, Padded;
    NothingGiven(m.segs, m.mapped, mmap, Wanted(bytes));
    RecordsInUse(m, {});
    ghost var c, records := m.c, m.records;
    EmptyHeap(m, Wanted(bytes), mmap);
    var nb;
    p, nb := FromFree(m, bytes);
    if p != 0 {
      SameAsBefore(c, records);
      AllocatedGains(c, records, c, records, m.c, p, nb);
      GainedServes(m, c, records, p, bytes);
      GainedNotMapped(m, c, records, p, nb);
      return;
    }
    p := FromSystem(m, bytes, mmap);
    if p != 0 {
      ServedAbove(old(HeldBy(m)), HeldBy(m), m.mapped, p, bytes);
    }
  }

  /**
   `dlmalloc`: fails exactly if nothing that is free has room and the system gives no memory, and then changes
   nothing; otherwise exactly one block is newly held, and it is as large as asked for and hardly larger. The last
   clauses say the same in numbers.
   */
  method Malloc(m: MallocState, bytes: nat, mmap: (nat, nat) -> int) returns (mem: int)
    requires Sound(m, {}) && bytes < SIZE_T && Honest(m.segs, m.mapped, mmap)
    modifies m
    ensures Sound(m, {})
    ensures mem == 0 <==> old(Refuses(m.c, m.topsize, bytes, mmap))
    ensures mem == 0 ==> unchanged(m)
    ensures mem != 0 ==> bytes < MAX_REQUEST && Serves(old(HeldBy(m)), HeldBy(m), m.mapped, mem - MEM_OFFSET, bytes)
    ensures forall q :: q != mem - MEM_OFFSET ==> (q in m.mapped <==> q in old(m.mapped))
    ensures mem != 0 && mem - MEM_OFFSET in m.mapped ==> InMapping(m.mapped, mem - MEM_OFFSET, Wanted(bytes), mmap)
    ensures mem != 0 ==> (mem - MEM_OFFSET in m.mapped <==> old(ServedDirectly(m.c, m.topsize, bytes, mmap)))
    ensures mem != 0 && old(m.top) == 0 ==> m.segs == [Segment(mmap(1, SegmentSize(Wanted(bytes))), SegmentSize(Wanted(bytes)))]
    ensures old(ServedDirectly(m.c, m.topsize, bytes, mmap)) ==> m.segs == old(m.segs)
    ensures Supplied(old(m.segs), old(m.mapped), m.segs, m.mapped, mmap, Wanted(bytes))
    ensures mem == 0 <==>
              || bytes >= 0xffff_ffff_ffff_ff80
              || (var nb := Padded(bytes);
                  && (forall q :: q in old(m.c) && old(m.c)[q].kind.Free? ==> old(m.c)[q].size < nb) && old(m.topsize) <= nb
                  && (nb + 96 + 0xffff >= 0x1_0000_0000_0000_0000 || mmap(1, (nb + 96 + 0xffff) / 0x1_0000 * 0x1_0000) == -1)
                  && (nb < 0x4_0000 || old(m.topsize) == 0 || nb + 63 + 0xfff >= 0x1_0000_0000_0000_0000 ||
                      mmap(0, (nb + 63 + 0xfff) / 0x1000 * 0x1000) == -1))
    ensures mem != 0 ==>
              (mem - 16 in m.mapped <==>
                 var nb := Padded(bytes);
                 && (forall q :: q in old(m.c) && old(m.c)[q].kind.Free? ==> old(m.c)[q].size < nb) && old(m.topsize) <= nb
                 && nb >= 0x4_0000 && old(m.topsize) != 0 && nb + 63 + 0xfff < 0x1_0000_0000_0000_0000
                 && mmap(0, (nb + 63 + 0xfff) / 0x1000 * 0x1000) != -1)
    ensures mem != 0 && mem - 16 in m.mapped ==>
              var size := (Padded(bytes) + 63 + 0xfff) / 0x1000 * 0x1000;
              mem - 16 == mmap(0, size) && m.mapped[mem - 16] == Mapping(0, size - 32)
    ensures mem != 0 && mem - 16 !in m.mapped && old(NothingFits(m.c, m.topsize, Wanted(bytes))) ==>
              var base := mmap(1, (Padded(bytes) + 96 + 0xffff) / 0x1_0000 * 0x1_0000);
              mem - 16 == if old(m.top) != 0 && old(m.top + m.topsize) + 80 == base then old(m.top) else base
    ensures mem != 0 && !old(NothingFits(m.c, m.topsize, Wanted(bytes))) ==>
              && Victim(old(m.c), old(m.dv), old(m.dvsize), old(m.top), mem - MEM_OFFSET, Padded(bytes), m.dv, m.dvsize)
              && WellChosen(old(m.c), old(m.dv), old(m.top), mem - MEM_OFFSET, Padded(bytes))
  {
    hide HeapOk, BooksOk, NothingFits, NoMemory, Serves, LeastOk, Direct, InMapping, Held, Supplied, Victim, WellChosen, Padded, Wanted, Refuses, ServedDirectly;
    FreeSizes(m);
    RefusesMeans(m.c, m.topsize, bytes, mmap);
    DirectMeans(m.c, m.topsize, bytes, mmap);
    MemoryMeans(m.c, m.topsize, bytes, mmap);
    var p := TakeChunk(m, bytes, mmap);
    if p == 0 {
      return 0;
    }
    if p in m.mapped {
      MappingMeans(old(m.topsize), bytes, mmap, m.mapped, p);
    }
    mem := p + MEM_OFFSET;
  }

  lemma MemoryMeans(c: Blocks, topsize: nat, bytes: nat, mmap: (nat, nat) -> int)
    requires bytes < SIZE_T
    ensures ServedDirectly(c, topsize, bytes, mmap) ==> Direct(topsize, Wanted(bytes), mmap)
    ensures NothingFits(c, topsize, Wanted(bytes)) && !Refuses(c, topsize, bytes, mmap) && !ServedDirectly(c, topsize, bytes, mmap) &&
            bytes < 0xffff_ffff_ffff_ff80 ==>
              SegmentSize(Wanted(bytes)) == (Padded(bytes) + 96 + 0xffff) / 0x1_0000 * 0x1_0000
  {
    hide SegmentSize, MappingSize, Padded, NothingFits;
    SizesAskedFor(Wanted(bytes));
  }

  lemma ServedAbove(held: map<int, nat>, held': map<int, nat>, mapped': map<int, Mapping>, p: int, bytes: nat)
    requires Serves(held, held', mapped', p, bytes)
    ensures p > 0
  {
  }

  /** Before the first allocation nothing fits. */
  lemma EmptyHeap(m: MallocState, nb: nat, mmap: (nat, nat) -> int)
    requires Sound(m, {})
    ensures m.top == 0 ==> NothingFits(m.c, m.topsize, nb) && !Direct(m.topsize, nb, mmap)
  {
  }

  lemma MappedGiven(segs: seq<Segment>, mapped: map<int, Mapping>, mapped': map<int, Mapping>, p: int, nb: nat, mmap: (nat, nat) -> int)
    requires Mapped(segs, mapped, mapped', p, nb) && p == mmap(0, MappingSize(nb)) && p > 0 && p !in mapped && nb < SIZE_T
    ensures Supplied(segs, mapped, segs, mapped', mmap, nb)
  {
    hide Supplied, MappingSize, Fresh;
    MappingSizeChecked(nb);
    MappingGiven(segs, mapped, p, MappingSize(nb) - MMAP_FOOT_PAD, mmap, nb);
  }

  lemma MappedFresh(segs: seq<Segment>, mapped: map<int, Mapping>, mapped': map<int, Mapping>, p: int, nb: nat)
    requires Mapped(segs, mapped, mapped', p, nb)
    ensures forall q :: q != p ==> (q in mapped' <==> q in mapped)
    ensures Fresh(segs, mapped, p, MappingSize(nb)) && p in mapped' && mapped'[p].lead == 0 && mapped'[p].size + MMAP_FOOT_PAD == MappingSize(nb)
  {
  }

  lemma GainedNotMapped(m: MallocState, c: Blocks, records: set<int>, p: int, nb: nat)
    requires Sound(m, {}) && Gained(c, records, m.c, m.records, p, nb)
    ensures p !in m.mapped
  {
    NotMapped(m, p);
  }

  lemma NewIfFresh(m: MallocState, n: nat)
    requires Sound(m, {})
    ensures forall p :: Fresh(m.segs, m.mapped, p, n) && n > 0 ==> p !in m.c && p !in m.mapped
  {
    forall p | Fresh(m.segs, m.mapped, p, n) && n > 0
      ensures p !in m.c && p !in m.mapped
    {
      FreshIsNew(m, p, n);
    }
  }

  // ---------------------------------------------------------------- free

  lemma LessUsedHeld(c: Blocks, records: set<int>, c': Blocks, mapped: map<int, Mapping>, p: int)
    requires LessUsed(c, c', p) && p in c && c[p].kind.Used? && p !in records && p !in mapped
    ensures Held(c', records, mapped) == Held(c, records, mapped) - {p}
  {
    var held, held' := Held(c, records, mapped) - {p}, Held(c', records, mapped);
    assert forall q :: q in held <==> q in held';
    assert forall q :: q in held ==> held[q] == held'[q];
  }

  /** What the head of a held chunk says about where it comes from. */
  lemma HeldHead(m: MallocState, p: int)
    requires Sound(m, {}) && p in HeldBy(m)
    ensures p in m.head && m.head[p].size == HeldBy(m)[p] >= MIN_CHUNK_SIZE
    ensures p in m.mapped <==> !m.head[p].pinuse && !m.head[p].cinuse
    ensures p !in m.mapped ==> p in m.c && m.c[p].kind.Used? && p !in m.records
  {
    hide HeapOk, BooksOk, LeastOk;
    if p in m.mapped {
      MappingFacts(m, {}, p);
    } else {
      BlockFacts(m, {}, p);
    }
  }

  lemma FewerMapped(least: int, segs: seq<Segment>, mapped: map<int, Mapping>, p: int)
    requires LeastOk(least, segs, mapped)
    ensures LeastOk(least, segs, mapped - {p})
  {
  }

  /** A directly mapped chunk goes back to the system. */
  method Unmap(m: MallocState, p: int)
    requires Sound(m, {}) && p in m.mapped
    modifies m`mapped
    ensures Sound(m, {}) && HeldBy(m) == old(HeldBy(m)) - {p} && m.mapped == old(m.mapped) - {p}
  {
    hide HeapOk, BooksOk, LeastOk;
    if p in m.c {
      NotMapped(m, p);
    }
    UnmapHeap(m.c, m.head, m.foot, m.segs, m.mapped, p);
    FewerMapped(m.least, m.segs, m.mapped, p);
    m.mapped := m.mapped - {p};
    assert HeldBy(m) == old(HeldBy(m)) - {p};
  }

  /** What `dlfree` and `try_realloc_chunk` test before they touch a chunk holds of every chunk that the program holds. */
  ghost predicate TestsPass(m: MallocState, p: int)
    reads m
  {
    && OkAddress(m.least, p) && p in m.head && OkInuse(m.head[p])
    && OkNext(p, p + m.head[p].size) && p + m.head[p].size in m.head && OkPinuse(m.head[p + m.head[p].size])
  }

  lemma HeldPasses(m: MallocState, p: int)
    requires Sound(m, {}) && p in HeldBy(m)
    ensures TestsPass(m, p)
  {
    hide HeapOk, BooksOk, LeastOk, Held;
    HeldHead(m, p);
    if p in m.mapped {
      MappingFacts(m, {}, p);
    } else {
      BlockFacts(m, {}, p);
      BlockAddress(m, {}, p);
    }
  }

  /**
   `dlfree`: exactly the block that is given back is no longer held. In a segment it is merged with what is free around
   it; the designated victim stays the victim with what it is merged with, unless that is the top chunk.
   */
  method Free(m: MallocState, mem: int)
    requires Sound(m, {}) && (mem != 0 ==> mem - MEM_OFFSET in HeldBy(m))
    modifies m
    ensures Sound(m, {})
    ensures mem == 0 ==> unchanged(m)
    ensures mem != 0 ==> HeldBy(m) == old(HeldBy(m)) - {mem - MEM_OFFSET}
    ensures m.segs == old(m.segs) && m.records == old(m.records)
    ensures mem != 0 ==> m.mapped == old(m.mapped) - {mem - MEM_OFFSET}
    ensures forall q :: q != mem - MEM_OFFSET ==> (q in m.mapped <==> q in old(m.mapped))
    ensures mem != 0 && mem - MEM_OFFSET in old(m.mapped) ==> unchanged(m`c, m`bins, m`dv, m`dvsize, m`top, m`topsize)
    ensures mem != 0 && mem - MEM_OFFSET !in old(m.mapped) ==> var p := mem - MEM_OFFSET;
              && p in old(m.c) && p in old(m.head) && (!old(m.head[p].pinuse) ==> p in old(m.foot)) && p + old(m.c[p].size) in old(m.c)
              && var a, n := if old(m.head[p].pinuse) then p else p - old(m.foot[p]), p + old(m.c[p].size);
                 var wasDv := old(m.dv) == a || old(m.dv) == n;
                 if n == old(m.top) then
                   && m.top == a && m.topsize == old(m.top + m.topsize) - a
                   && m.dv == (if wasDv then 0 else old(m.dv)) && m.dvsize == (if wasDv then 0 else old(m.dvsize))
                 else
                   var b := if old(m.c)[n].kind.Free? then n + old(m.c)[n].size else n;
                   && a in m.c && m.c[a] == Block(b - a, Kind.Free) && m.top == old(m.top) && m.topsize == old(m.topsize)
                   && m.dv == (if wasDv then a else old(m.dv)) && m.dvsize == (if wasDv then b - a else old(m.dvsize))
  {
    hide HeapOk, BooksOk, LessUsed, LeastOk, Held;
    if mem == 0 {
      return;
    }
    var p := mem - MEM_OFFSET;
    HeldHead(m, p);
    HeldPasses(m, p);
    assert OkAddress(m.least, p) && OkInuse(m.head[p]);
    if !m.head[p].pinuse && !m.head[p].cinuse {
      Unmap(m, p);
    } else {
      assert OkNext(p, p + m.head[p].size) && OkPinuse(m.head[p + m.head[p].size]);
      ghost var c := m.c;
      Dispose(m, p);
      LessUsedHeld(c, m.records, m.c, m.mapped, p);
    }
  }
}
