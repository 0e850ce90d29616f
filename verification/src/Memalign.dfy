/**
 `internal_memalign`: a block at an aligned address, with the spare room before and behind it given back.
 */
module Memalign {
  import opened T = TreeIndex
  import opened BinMaps
  import opened Chunks
  import opened Tiling
  import opened Recuts
  import opened HeapState
  import opened Release
  import opened Allocate
  import opened Regions
  import opened SysAlloc
  import opened Resize
  import opened DlMalloc
  import opened BlockContents
  import A = Alignment

  // ---------------------------------------------------------------- giving back the room before

  lemma LeadHeld(m: MallocState, c: Blocks, p: int, lead: nat)
    requires p in c && c[p].kind.Used? && p !in m.records && 0 < lead < c[p].size && p + lead !in c
    requires LessUsed(c + TwoPieces(p, p + lead, p + c[p].size, Used), m.c, p)
    requires p + lead !in m.records && p !in m.mapped && p + lead !in m.mapped
    ensures p + lead in m.c && m.c[p + lead] == Block(c[p].size - lead, Used)
    ensures HeldBy(m) == (Held(c, m.records, m.mapped) - {p})[p + lead := c[p].size - lead]
  {
    var c1 := c + TwoPieces(p, p + lead, p + c[p].size, Used);
    assert forall q :: q in c1 <==> q in c || q == p || q == p + lead;
    var held, held' := (Held(c, m.records, m.mapped) - {p})[p + lead := c[p].size - lead], HeldBy(m);
    assert forall q :: q in held <==> q in held';
    assert forall q :: q in held ==> held[q] == held'[q];
  }

  /** "give back leader, use the rest" */
  method GiveLead(m: MallocState, p: int, lead: nat) returns (newp: int)
    requires Sound(m, {}) && p in m.c && m.c[p].kind.Used? && p !in m.records
    requires lead % 16 == 0 && MIN_CHUNK_SIZE <= lead && lead + MIN_CHUNK_SIZE <= m.c[p].size
    modifies m`bins, m`view, m`dv, m`dvsize, m`head, m`foot, m`c, m`top, m`topsize
    ensures Sound(m, {}) && newp == p + lead && newp !in old(HeldBy(m))
    ensures newp in m.c && m.c[newp] == Block(old(m.c[p].size) - lead, Used) && newp !in m.records && newp !in m.mapped
    ensures HeldBy(m) == (old(HeldBy(m)) - {p})[newp := old(m.c[p].size) - lead]
  {
    hide HeapOk, BooksOk, LeastOk, LessUsed;
    NotMapped(m, p);
    ghost var c := m.c;
    newp := SplitUsed(m, p, lead);
    NotMapped(m, newp);
    Dispose(m, p);
    LeadHeld(m, c, p, lead);
  }

  // ---------------------------------------------------------------- a mapped chunk starts later

  /** A chunk that starts later in its mapping. */
  lemma LaterTagged(head: map<int, Head>, foot: map<int, nat>, p: int, k: Mapping, lead: nat)
    requires MappingTagged(head, foot, p, k) && MappingFits(p, k) && lead % 16 == 0 && lead + MIN_LARGE <= k.size
    ensures MappingTagged(head[p + lead := Head(k.size - lead, false, false)], foot[p + lead := k.lead + lead], p + lead,
                          Mapping(k.lead + lead, k.size - lead))
    ensures MappingFits(p + lead, Mapping(k.lead + lead, k.size - lead))
  {
    SumAligned(p, lead);
    assert p + lead - (k.lead + lead) == p - k.lead;
    assert k.lead + lead + (k.size - lead) == k.lead + k.size;
  }

  lemma MappingAt(head: map<int, Head>, foot: map<int, nat>, segs: seq<Segment>, mapped: map<int, Mapping>, p: int)
    requires MappedOk(head, foot, segs, mapped) && p in mapped
    ensures MappingOk(head, foot, segs, p, mapped[p])
  {
  }

  lemma LaterHeap(c: Blocks, head: map<int, Head>, foot: map<int, nat>, segs: seq<Segment>, mapped: map<int, Mapping>, p: int, lead: nat)
    requires HeapOk(c, head, foot, segs, mapped) && p in mapped
    requires lead % 16 == 0 && lead + MIN_LARGE <= mapped[p].size
    ensures p + lead !in c && (lead > 0 ==> p + lead !in mapped)
    ensures HeapOk(c, head[p + lead := Head(mapped[p].size - lead, false, false)], foot[p + lead := mapped[p].lead + lead], segs,
                   (mapped - {p})[p + lead := Mapping(mapped[p].lead + lead, mapped[p].size - lead)])
  {
    hide Clear, Tagged, SegsOk, MappedOk, Tiled, MappingTagged, FeetAligned;
    var a, e := p - mapped[p].lead, p + mapped[p].size + MMAP_FOOT_PAD;
    var head' := head[p + lead := Head(mapped[p].size - lead, false, false)];
    var foot' := foot[p + lead := mapped[p].lead + lead];
    MappingAt(head, foot, segs, mapped, p);
    if p + lead in c {
      NoBlockIn(c, segs, a, e, p + lead);
    }
    ElsewhereTagged(c, head, foot, segs, head', foot', a, e);
    ElsewhereClear(c, head, foot, segs, head', foot', a, e);
    LaterMapped(head, foot, segs, mapped, p, lead);
    LaterFeet(foot, p, lead, mapped[p].lead);
  }

  lemma LaterFeet(foot: map<int, nat>, p: int, lead: nat, n: nat)
    requires FeetAligned(foot) && p % 16 == 0 && lead % 16 == 0
    ensures FeetAligned(foot[p + lead := n + lead])
  {
    SumAligned(p, lead);
  }

  lemma LaterMapped(head: map<int, Head>, foot: map<int, nat>, segs: seq<Segment>, mapped: map<int, Mapping>, p: int, lead: nat)
    requires MappedOk(head, foot, segs, mapped) && p in mapped
    requires lead % 16 == 0 && lead + MIN_LARGE <= mapped[p].size
    ensures lead > 0 ==> p + lead !in mapped
    ensures MappedOk(head[p + lead := Head(mapped[p].size - lead, false, false)], foot[p + lead := mapped[p].lead + lead], segs,
                     (mapped - {p})[p + lead := Mapping(mapped[p].lead + lead, mapped[p].size - lead)])
  {
    hide MappingTagged, MappingFits;
    var head' := head[p + lead := Head(mapped[p].size - lead, false, false)];
    var foot' := foot[p + lead := mapped[p].lead + lead];
    var mapped' := (mapped - {p})[p + lead := Mapping(mapped[p].lead + lead, mapped[p].size - lead)];
    assert MappingOk(head, foot, segs, p, mapped[p]);
    forall q | q in mapped'
      ensures MappingOk(head', foot', segs, q, mapped'[q])
    {
      if q != p + lead {
        assert MappingOk(head, foot, segs, q, mapped[q]);
        OtherMapping(head, foot, segs, mapped, p, q, p + lead, head', foot');
      } else {
        LaterTagged(head, foot, p, mapped[p], lead);
      }
    }
  }

  /** Other mappings are not affected by words that are written inside this one. */
  lemma OtherMapping(head: map<int, Head>, foot: map<int, nat>, segs: seq<Segment>, mapped: map<int, Mapping>, p: int, q: int, x: int,
                     head': map<int, Head>, foot': map<int, nat>)
    requires MappedOk(head, foot, segs, mapped) && p in mapped && q in mapped && q != p && p <= x < p + mapped[p].size
    requires forall y :: y != x ==> (y in head <==> y in head') && (y in head ==> head'[y] == head[y])
    requires forall y :: y != x ==> (y in foot <==> y in foot') && (y in foot ==> foot'[y] == foot[y])
    ensures MappingTagged(head', foot', q, mapped[q])
  {
    assert MappingOk(head, foot, segs, q, mapped[q]) && MappingOk(head, foot, segs, p, mapped[p]);
  }

  lemma LaterHeld(c: Blocks, records: set<int>, mapped: map<int, Mapping>, p: int, newp: int, k: Mapping)
    requires p in mapped && p !in c && newp !in c && newp !in mapped
    ensures newp !in Held(c, records, mapped)
    ensures Held(c, records, (mapped - {p})[newp := k]) == (Held(c, records, mapped) - {p})[newp := k.size]
  {
    var held, held' := (Held(c, records, mapped) - {p})[newp := k.size], Held(c, records, (mapped - {p})[newp := k]);
    assert forall q :: q in held <==> q in held';
    assert forall q :: q in held ==> held[q] == held'[q];
  }

  /** "For mmapped chunks, just adjust offset" */
  method StartLater(m: MallocState, p: int, lead: nat) returns (newp: int)
    requires Sound(m, {}) && p in m.mapped && lead % 16 == 0 && 0 < lead && lead + MIN_LARGE <= m.mapped[p].size
    modifies m`head, m`foot, m`mapped
    ensures Sound(m, {}) && newp == p + lead && newp !in old(HeldBy(m)) && newp in m.mapped
    ensures forall q :: q != p && q != newp ==> (q in m.mapped <==> q in old(m.mapped))
    ensures HeldBy(m) == (old(HeldBy(m)) - {p})[newp := old(m.mapped[p].size) - lead]
    ensures m.mapped == (old(m.mapped) - {p})[newp := Mapping(old(m.mapped[p].lead) + lead, old(m.mapped[p].size) - lead)]
    ensures NoMoreMapped(old(m.mapped), m.mapped)
  {
    hide HeapOk, BooksOk, LeastOk, NoMoreMapped;
    newp := p + lead;
    if p in m.c {
      NotMapped(m, p);
    }
    MappingWords(m, p);
    LaterHeap(m.c, m.head, m.foot, m.segs, m.mapped, p, lead);
    LaterHeld(m.c, m.records, m.mapped, p, newp, Mapping(m.mapped[p].lead + lead, m.mapped[p].size - lead));
    var k := Mapping(m.mapped[p].lead + lead, m.mapped[p].size - lead);
    m.head, m.foot := m.head[newp := Head(m.head[p].size - lead, false, false)], m.foot[newp := m.foot[p] + lead];
    LaterSame(m.mapped, p, newp, k);
    LaterLeast(m.least, m.segs, m.mapped, p, newp, k);
    m.mapped := (m.mapped - {p})[newp := k];
  }

  /** The mappings cover no more than they covered. */
  ghost predicate NoMoreMapped(mapped: map<int, Mapping>, mapped': map<int, Mapping>) {
    forall x :: InMapped(mapped', x) ==> InMapped(mapped, x)
  }

  lemma LaterSame(mapped: map<int, Mapping>, p: int, newp: int, k: Mapping)
    requires p in mapped && newp - k.lead == p - mapped[p].lead && newp + k.size == p + mapped[p].size
    ensures NoMoreMapped(mapped, (mapped - {p})[newp := k])
  {
    var mapped' := (mapped - {p})[newp := k];
    forall x | InMapped(mapped', x)
      ensures InMapped(mapped, x)
    {
      var q :| MappingHas(mapped', q, x);
      if q == newp {
        assert MappingHas(mapped, p, x);
      } else {
        assert MappingHas(mapped, q, x);
      }
    }
  }

  lemma NoMoreSame(mapped: map<int, Mapping>)
    ensures NoMoreMapped(mapped, mapped)
  {
  }

  lemma StillSupplied(segs: seq<Segment>, mapped: map<int, Mapping>, segs': seq<Segment>, mapped1: map<int, Mapping>, mapped2: map<int, Mapping>,
                       mmap: (nat, nat) -> int, nb: nat)
    requires Supplied(segs, mapped, segs', mapped1, mmap, nb) && NoMoreMapped(mapped1, mapped2)
    ensures Supplied(segs, mapped, segs', mapped2, mmap, nb)
  {
  }

  lemma LaterLeast(least: int, segs: seq<Segment>, mapped: map<int, Mapping>, p: int, newp: int, k: Mapping)
    requires LeastOk(least, segs, mapped) && p in mapped && newp - k.lead == p - mapped[p].lead
    ensures LeastOk(least, segs, (mapped - {p})[newp := k])
  {
  }

  lemma MappingWords(m: MallocState, p: int)
    requires Sound(m, {}) && p in m.mapped
    ensures p in m.head && m.head[p].size == m.mapped[p].size && p in m.foot && m.foot[p] == m.mapped[p].lead
  {
    hide HeapOk, BooksOk, LeastOk;
    MappingFacts(m, {}, p);
  }

  // ---------------------------------------------------------------- the operation

  lemma HeldBelow(m: MallocState, p: int)
    requires Sound(m, {}) && p in HeldBy(m)
    ensures 0 < p && p + HeldBy(m)[p] <= SIZE_T && p % 16 == 0
  {
    if p in m.mapped {
      assert MappingOk(m.head, m.foot, m.segs, p, m.mapped[p]);
    } else {
      BlockFacts(m, {}, p);
    }
  }

  /** What is left of a mapped chunk is not small: it is large anyway, or it starts behind a whole page. */
  lemma StaysLarge(m: MallocState, p: int, a: nat, k: nat, nb: nat, lead: nat)
    requires Sound(m, {}) && p in m.mapped && m.mapped[p].size + 16 >= MMAP_THRESHOLD
    requires a == Pow2(k) && 5 <= k <= 63 && m.mapped[p].size >= nb + a + MIN_CHUNK_SIZE && nb >= MIN_CHUNK_SIZE
    requires 0 < lead <= a + 16 && (p + lead + MEM_OFFSET) % a == 0
    ensures lead + MIN_LARGE <= m.mapped[p].size
  {
    hide HeapOk, BooksOk, LeastOk, Pow2;
    if k < 12 {
      A.PowLe(k, 12);
      assert Pow2(12) == 4096 by { TwelveBits(); }
    } else {
      MappingPages(m, p);
      WholePages(p + lead + MEM_OFFSET, k);
      PagesLeft(p + m.mapped[p].size + MMAP_FOOT_PAD, p + lead + MEM_OFFSET);
    }
  }

  lemma TwelveBits()
    ensures Pow2(12) == 4096
  {
  }

  lemma MappingPages(m: MallocState, p: int)
    requires Sound(m, {}) && p in m.mapped
    ensures (p + m.mapped[p].size + MMAP_FOOT_PAD) % PAGE_SIZE == 0
  {
    assert MappingOk(m.head, m.foot, m.segs, p, m.mapped[p]);
    var k := m.mapped[p];
    SumOfPages(p - k.lead, k.lead + k.size + MMAP_FOOT_PAD);
  }

  lemma SumOfPages(x: int, y: int)
    requires x % PAGE_SIZE == 0 && y % PAGE_SIZE == 0
    ensures (x + y) % PAGE_SIZE == 0
  {
  }

  lemma WholePages(x: int, k: nat)
    requires k >= 12 && x % Pow2(k) == 0
    ensures x % PAGE_SIZE == 0
  {
    hide Pow2;
    T.Pow2Add(12, k - 12);
    TwelveBits();
    var q := x / Pow2(k);
    assert x == q * Pow2(k) by { Quotient(x, Pow2(k)); }
    Reassociate(q, PAGE_SIZE, Pow2(k - 12));
    ManyPages(q * Pow2(k - 12));
  }

  lemma Quotient(x: int, d: nat)
    requires d > 0 && x % d == 0
    ensures x == x / d * d
  {
  }

  lemma Reassociate(a: int, b: int, c: int)
    ensures a * (b * c) == b * (a * c)
  {
  }

  lemma ManyPages(n: int)
    ensures (PAGE_SIZE * n) % PAGE_SIZE == 0
  {
  }

  lemma PagesLeft(x: int, y: int)
    requires x % PAGE_SIZE == 0 && y % PAGE_SIZE == 0 && y < x
    ensures x - y >= PAGE_SIZE
  {
  }

  /** The chunk, or the part of it from the aligned spot on. */
  method AlignChunk(m: MallocState, p: int, a: nat, ghost k: nat, nb: nat) returns (newp: int)
    requires Sound(m, {}) && p in HeldBy(m) && HeldBy(m)[p] >= nb + a + MIN_CHUNK_SIZE && nb >= MIN_CHUNK_SIZE
    requires a == Pow2(k) && 5 <= k <= 63 && a <= SIZE_T / 2
    requires p in m.mapped ==> m.mapped[p].size + 16 >= MMAP_THRESHOLD
    modifies m`bins, m`view, m`dv, m`dvsize, m`head, m`foot, m`c, m`top, m`topsize, m`mapped
    ensures Sound(m, {}) && newp in HeldBy(m) && (newp + MEM_OFFSET) % a == 0
    ensures HeldBy(m) == (old(HeldBy(m)) - {p})[newp := HeldBy(m)[newp]] && HeldBy(m)[newp] >= nb + 16
    ensures (newp == p || newp !in old(HeldBy(m))) && (newp in m.mapped <==> p in old(m.mapped))
    ensures if (p + 16) % a == 0 then newp == p else 32 <= newp - p <= a + 16
    ensures HeldBy(m)[newp] == old(HeldBy(m))[p] - (newp - p)
    ensures forall q :: q != p && q != newp ==> (q in m.mapped <==> q in old(m.mapped))
    ensures NoMoreMapped(old(m.mapped), m.mapped)
  {
    hide HeapOk, BooksOk, LeastOk, Pow2, And, NoMoreMapped;
    NoMoreSame(m.mapped);
    newp := p;
    HeldHead(m, p);
    HeldBelow(m, p);
    A.AndMask(p + MEM_OFFSET, k);
    assert HeldBy(m) == (HeldBy(m) - {p})[p := HeldBy(m)[p]];
    if And(p + MEM_OFFSET, a - 1) != 0 {
      var pos := A.AlignedSpot(p, a, k);
      var lead := pos - p;
      if !m.head[p].pinuse && !m.head[p].cinuse {
        StaysLarge(m, p, a, k, nb, lead);
        newp := StartLater(m, p, lead);
      } else {
        newp := GiveLead(m, p, lead);
      }
    }
  }

  /** "Give back spare room at the end" */
  method Trim(m: MallocState, p: int, nb: nat)
    requires Sound(m, {}) && p in HeldBy(m) && nb % 16 == 0 && MIN_CHUNK_SIZE <= nb <= HeldBy(m)[p]
    modifies m`bins, m`view, m`dv, m`dvsize, m`head, m`foot, m`c, m`top, m`topsize
    ensures Sound(m, {}) && p in HeldBy(m) && HeldBy(m) == old(HeldBy(m))[p := HeldBy(m)[p]]
    ensures if p in m.mapped then HeldBy(m)[p] == old(HeldBy(m))[p] else nb <= HeldBy(m)[p] <= nb + MIN_CHUNK_SIZE
    ensures HeldBy(m)[p] == if p !in m.mapped && old(HeldBy(m))[p] > nb + 32 then nb else old(HeldBy(m))[p]
  {
    hide HeapOk, BooksOk, LeastOk, Resized;
    HeldHead(m, p);
    if m.head[p].pinuse || m.head[p].cinuse {
      var size := m.head[p].size;
      if size > nb + MIN_CHUNK_SIZE {
        ghost var c := m.c;
        Shrink(m, p, nb, false);
        ResizedFacts(c, m.c, p);
        ResizedHeld(m, c, p);
      }
    }
  }

  /** The alignment that is used: the least power of two that is neither below the one asked for nor below a minimal chunk. */
  ghost predicate Rounded(alignment: nat, a: nat) {
    var x := if alignment < MIN_CHUNK_SIZE then MIN_CHUNK_SIZE else alignment;
    A.IsPower(a) && x <= a && a / 2 < x
  }

  /** What is asked of `dlmalloc`, so that an aligned spot can be found. */
  function WithSlack(bytes: nat, a: nat): nat { Padded(bytes) + a + MIN_CHUNK_SIZE - CHUNK_OVERHEAD }

  /** When `internal_memalign` fails, for the alignment `a` that is used. */
  ghost predicate MemalignRefuses(c: Blocks, topsize: nat, a: nat, bytes: nat, mmap: (nat, nat) -> int) {
    bytes + a >= MAX_REQUEST || Refuses(c, topsize, WithSlack(bytes, a), mmap)
  }

  /**
   `internal_memalign`: a new block of at least `bytes` bytes, at a multiple of the alignment rounded up to a power
   of two. What was allocated in excess to find the aligned spot is given back. Fails exactly if the request is too
   large, or if `dlmalloc` fails for the request with its slack.
   */
  method Memalign(m: MallocState, alignment: nat, bytes: nat, mmap: (nat, nat) -> int) returns (mem: int, ghost a: nat)
    requires Sound(m, {}) && alignment <= SIZE_T / 2 && bytes < SIZE_T && Honest(m.segs, m.mapped, mmap)
    modifies m
    ensures Sound(m, {})
    ensures Rounded(alignment, a) && (alignment >= MIN_CHUNK_SIZE && A.IsPower(alignment) ==> a == alignment)
    ensures (exists j: nat :: 5 <= j <= 63 && a == Pow2(j)) && alignment <= a && (a == 32 || a / 2 < alignment)
    ensures mem == 0 <==> old(MemalignRefuses(m.c, m.topsize, a, bytes, mmap))
    ensures mem == 0 <==> bytes + a >= 0xffff_ffff_ffff_ff80 || old(Refuses(m.c, m.topsize, Padded(bytes) + a + 24, mmap))
    ensures mem == 0 ==> unchanged(m)
    ensures mem != 0 ==> mem % a == 0 && (A.IsPower(alignment) ==> mem % alignment == 0)
    ensures mem != 0 ==> var p := mem - MEM_OFFSET;
              && p in HeldBy(m) && p !in old(HeldBy(m)) && HeldBy(m) == old(HeldBy(m))[p := HeldBy(m)[p]]
              && bytes <= Usable(m, p) && (forall q :: q in old(HeldBy(m)) ==> (q in m.mapped <==> q in old(m.mapped)))
              && (p !in m.mapped ==> Padded(bytes) <= HeldBy(m)[p] <= Padded(bytes) + MIN_CHUNK_SIZE)
    ensures Supplied(old(m.segs), old(m.mapped), m.segs, m.mapped, mmap, Wanted(WithSlack(bytes, a)))
  {
    hide HeapOk, BooksOk, LeastOk, Pow2, And, Serves, Held, Refuses, InMapping, Supplied, NoMoreMapped;
    var power;
    ghost var k;
    power, k := A.PowerFor(if alignment < MIN_CHUNK_SIZE then MIN_CHUNK_SIZE else alignment);
    a, mem := power, 0;
    NothingGiven(m.segs, m.mapped, mmap, Wanted(WithSlack(bytes, a)));
    assert alignment < MIN_CHUNK_SIZE ==> a == 32 by { A.ThirtyTwo(); }
    if bytes >= MAX_REQUEST - power {
      return;
    }
    var nb := Padded(bytes);
    var req := nb + power + MIN_CHUNK_SIZE - CHUNK_OVERHEAD;
    mem := Malloc(m, req, mmap);
    if mem == 0 {
      return;
    }
    ghost var segs, mapped := m.segs, m.mapped;
    mem := AlignAndTrim(m, mem - MEM_OFFSET, power, k, nb, req, old(HeldBy(m)), old(m.mapped));
    StillSupplied(old(m.segs), old(m.mapped), segs, mapped, m.mapped, mmap, Wanted(WithSlack(bytes, a)));
    if A.IsPower(alignment) {
      A.PowerDivides(alignment, a, mem);
    }
  }

  /** "find an aligned spot inside chunk", and give back what is before and behind it. */
  method AlignAndTrim(m: MallocState, p: int, power: nat, ghost k: nat, nb: nat, ghost req: nat,
                      ghost held: map<int, nat>, ghost mapped: map<int, Mapping>) returns (mem: int)
    requires Sound(m, {}) && Serves(held, HeldBy(m), m.mapped, p, req) && req == nb + power + MIN_CHUNK_SIZE - CHUNK_OVERHEAD
    requires power == Pow2(k) && 5 <= k <= 63 && power <= SIZE_T / 2 && nb % 16 == 0 && nb >= MIN_CHUNK_SIZE
    requires p in m.mapped ==> Padded(req) >= MMAP_THRESHOLD
    requires forall q :: q != p ==> (q in m.mapped <==> q in mapped)
    modifies m
    ensures Sound(m, {}) && mem != 0 && mem >= 0 && mem % power == 0
    ensures var newp := mem - MEM_OFFSET;
            && newp in HeldBy(m) && newp !in held && HeldBy(m) == held[newp := HeldBy(m)[newp]]
            && (forall q :: q in held ==> (q in m.mapped <==> q in mapped))
            && if newp in m.mapped then HeldBy(m)[newp] >= nb + 16 else nb <= HeldBy(m)[newp] <= nb + MIN_CHUNK_SIZE
    ensures m.segs == old(m.segs) && NoMoreMapped(old(m.mapped), m.mapped)
  {
    hide HeapOk, BooksOk, LeastOk, Pow2, Serves, Held, NoMoreMapped;
    ServesHeld(m, held, p, req);
    ServesRoom(m, held, p, req);
    var newp := AlignChunk(m, p, power, k, nb);
    Trim(m, newp, nb);
    HeldBelow(m, newp);
    mem := newp + MEM_OFFSET;
  }

  lemma ServesRoom(m: MallocState, held: map<int, nat>, p: int, req: nat)
    requires Serves(held, HeldBy(m), m.mapped, p, req) && (p in m.mapped ==> Padded(req) >= MMAP_THRESHOLD)
    ensures HeldBy(m)[p] >= req + CHUNK_OVERHEAD && HeldBy(m) - {p} == held
    ensures p in m.mapped ==> m.mapped[p].size + 16 >= MMAP_THRESHOLD
  {
    var a := HeldBy(m) - {p};
    assert forall q :: q in a <==> q in held;
    assert forall q :: q in a ==> a[q] == held[q];
  }
}
