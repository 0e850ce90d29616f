/**
 The allocator state: `malloc_state`, the words of memory that hold chunk headers and links, and, as ghosts,
 what they mean.
 */
module HeapState {
  import opened TreeIndex
  import opened Chunks
  import opened Bins
  import opened Tiling
  import opened Recuts

  class MallocState {
    // malloc_state
    var bins: BinState
    var dv: int
    var dvsize: nat
    var top: int
    var topsize: nat
    var segs: seq<Segment>
    /** `least_addr` */
    var least: int
    // memory
    var head: map<int, Head>
    var foot: map<int, nat>
    // what the system has mapped for single chunks
    var mapped: map<int, Mapping>
    // meaning
    ghost var view: BinView
    ghost var c: Blocks
    ghost var records: set<int>

    /** The zeroed `malloc_state`, before the first allocation. */
    constructor ()
      ensures Sound(this, {}) && c == map[] && mapped == map[] && segs == [] && top == 0 && topsize == 0
    {
      bins := EMPTY_BINS;
      dv, dvsize, top, topsize, segs, least := 0, 0, 0, 0, [], 0;
      head, foot, mapped := map[], map[], map[];
      view, c, records := EMPTY_VIEW, map[], {};
      EmptyBins();
    }
  }

  ghost predicate TopOk(c: Blocks, top: int, topsize: nat, segs: seq<Segment>) {
    && (forall p :: p in c && c[p].kind.Top? ==> p == top)
    && if top == 0 then c == map[] && topsize == 0 && segs == []
       else top in c && c[top] == Block(topsize + TOP_FOOT_SIZE, Top)
  }

  /**
   Every free chunk is the designated victim, or in its bin, or one of the `loose` ones that an operation has
   taken out and not yet put back.
   */
  ghost predicate IndexOk(c: Blocks, bins: BinState, view: BinView, dv: int, dvsize: nat, loose: set<int>) {
    match view
    case BinView(_, _, size) =>
      && BinsOk(bins, view)
      && (dv == 0 <==> dvsize == 0)
      && (dv != 0 ==> dv in c && c[dv] == Block(dvsize, Free) && dv !in loose)
      && (forall p :: p in size ==> p in c && c[p] == Block(size[p], Free) && p != dv && p !in loose)
      && (forall p :: p in c && c[p].kind.Free? && p != dv && p !in loose ==> p in size)
      && (forall p :: p in loose ==> p in c && c[p].kind.Free?)
  }

  /** The chunks in use that hold the records of older segments are exactly those that are followed by fenceposts. */
  ghost predicate RecordsOk(c: Blocks, records: set<int>) {
    && (forall p {:trigger BeforeFence(c, p)} {:trigger p in records} :: p in records <==> BeforeFence(c, p))
    && (forall p :: p in records ==> p in c && c[p].size == RECORD_SIZE)
  }

  ghost predicate BeforeFence(c: Blocks, p: int) {
    p in c && c[p].kind.Used? && p + c[p].size in c && c[p + c[p].size].kind.Fence?
  }

  /** Where the allocator keeps track of its chunks. */
  datatype Books = Books(bins: BinState, view: BinView, dv: int, dvsize: nat,
                         top: int, topsize: nat, segs: seq<Segment>, records: set<int>)

  ghost predicate BooksOk(c: Blocks, k: Books, loose: set<int>) {
    match k
    case Books(bins, view, dv, dvsize, top, topsize, segs, records) =>
      && TopOk(c, top, topsize, segs)
      && IndexOk(c, bins, view, dv, dvsize, loose)
      && RecordsOk(c, records)
  }

  ghost function BooksOf(m: MallocState): Books
    reads m
  {
    Books(m.bins, m.view, m.dv, m.dvsize, m.top, m.topsize, m.segs, m.records)
  }

  /** No memory that the allocator has lies below the least address. */
  ghost predicate LeastOk(least: int, segs: seq<Segment>, mapped: map<int, Mapping>) {
    && (forall s :: s in segs ==> OkAddress(least, s.base))
    && (forall p :: p in mapped ==> OkAddress(least, p - mapped[p].lead))
    && (least == 0 ==> segs == [] && mapped == map[])
  }

  ghost predicate Sound(m: MallocState, loose: set<int>)
    reads m
  {
    match m.view
    case BinView(_, _, _) =>
      && HeapOk(m.c, m.head, m.foot, m.segs, m.mapped)
      && BooksOk(m.c, BooksOf(m), loose)
      && LeastOk(m.least, m.segs, m.mapped)
  }

  /** The blocks that the program holds: chunks in use other than segment records, and directly mapped chunks. */
  ghost function Held(c: Blocks, records: set<int>, mapped: map<int, Mapping>): map<int, nat> {
    (map p | p in c && c[p].kind.Used? && p !in records :: c[p].size) + (map p | p in mapped :: mapped[p].size)
  }

  // ---------------------------------------------------------------- head and foot macros

  /** A head word as it is read: whatever is there, if nothing was written yet. */
  function HeadAt(head: map<int, Head>, p: int): Head {
    if p in head then head[p] else Head(0, false, false)
  }

  function SetPinuse(head: map<int, Head>, p: int): map<int, Head> { head[p := HeadAt(head, p).(pinuse := true)] }

  function ClearPinuse(head: map<int, Head>, p: int): map<int, Head> { head[p := HeadAt(head, p).(pinuse := false)] }

  function SetInuse(head: map<int, Head>, p: int, s: nat): map<int, Head> {
    SetPinuse(head[p := Head(s, true, HeadAt(head, p).pinuse)], p + s)
  }

  function SetInuseAndPinuse(head: map<int, Head>, p: int, s: nat): map<int, Head> {
    SetPinuse(head[p := Head(s, true, true)], p + s)
  }

  function SetSizeAndPinuseOfInuse(head: map<int, Head>, p: int, s: nat): map<int, Head> { head[p := Head(s, true, true)] }

  function SetSizeAndPinuseOfFree(head: map<int, Head>, p: int, s: nat): map<int, Head> { head[p := Head(s, false, true)] }

  function SetFoot(foot: map<int, nat>, p: int, s: nat): map<int, nat> { foot[p + s := s] }

  /**
   Memory is handed over to the program: what the allocator left there as heads or feet is not its own any more, and
   a read or a write of it by the allocator would be a mistake.
   */
  function HandOverHeads(head: map<int, Head>, lo: int, hi: int): map<int, Head> {
    map q | q in head && !(lo <= q < hi) :: head[q]
  }

  function HandOverFeet(foot: map<int, nat>, lo: int, hi: int): map<int, nat> {
    map q | q in foot && !(lo <= q <= hi) :: foot[q]
  }

  lemma HandedOver(head: map<int, Head>, foot: map<int, nat>, p: int, s: nat)
    ensures ClearBlock(HandOverHeads(head, p + 1, p + s), HandOverFeet(foot, p + 1, p + s), p, Block(s, Used))
    ensures FeetAligned(foot) ==> FeetAligned(HandOverFeet(foot, p + 1, p + s))
  {
  }

  // ---------------------------------------------------------------- reading a block

  /** Every block lies at or above the least address. */
  lemma BlockAddress(m: MallocState, loose: set<int>, p: int)
    requires Sound(m, loose) && p in m.c
    ensures OkAddress(m.least, p)
  {
    hide BooksOk, Tiled, Tagged, MappedOk, Clear;
    assert HasSeg(m.segs, p, m.c[p]);
  }

  lemma BinnedAddresses(m: MallocState, loose: set<int>)
    requires Sound(m, loose)
    ensures BinnedAbove(m.view, m.least)
  {
    forall x | x in m.view.size
      ensures OkAddress(m.least, x)
    {
      BlockAddress(m, loose, x);
    }
  }

  lemma MappingFacts(m: MallocState, loose: set<int>, p: int)
    requires Sound(m, loose) && p in m.mapped
    ensures MappingOk(m.head, m.foot, m.segs, p, m.mapped[p]) && OkAddress(m.least, p)
  {
    hide BooksOk, Tiled, Tagged, SegsOk, Clear, MappingTagged;
    assert MappingOk(m.head, m.foot, m.segs, p, m.mapped[p]);
  }

  lemma BlockFacts(m: MallocState, loose: set<int>, p: int)
    requires Sound(m, loose) && p in m.c
    ensures BlockOk(m.c, p) && TaggedAt(m.c, m.head, m.foot, p)
  {
    hide BooksOk, SegsOk, MappedOk, Clear, LeastOk;
  }

  lemma LooseFacts(m: MallocState, loose: set<int>, p: int)
    requires Sound(m, loose) && p in loose
    ensures Tiled(m.c) && p in m.c && m.c[p].kind.Free? && p in m.head && m.head[p].size == m.c[p].size
    ensures p > 0 && m.c[p].size % 16 == 0 && m.c[p].size >= MIN_CHUNK_SIZE
    ensures var n := p + m.c[p].size; n in m.c && m.c[n].kind.Used? && n in m.head && !m.head[n].pinuse
  {
    BlockFacts(m, loose, p);
  }

  lemma LooseSize(m: MallocState, loose: set<int>, p: int)
    requires Sound(m, loose) && p in loose
    ensures p in m.c && m.c[p].size < SIZE_LIMIT
  {
    BlockFacts(m, loose, p);
    BlockFacts(m, loose, p + m.c[p].size);
  }

  lemma BinnedBlock(m: MallocState, loose: set<int>, p: int)
    requires Sound(m, loose) && p in m.view.size
    ensures p in m.c && p in m.head && m.head[p].size == m.view.size[p]
  {
    BlockFacts(m, loose, p);
  }

  lemma TopFacts(m: MallocState, loose: set<int>)
    requires Sound(m, loose) && (m.topsize > 0 || m.top != 0 || m.top in m.c)
    ensures Tiled(m.c) && m.top in m.c && m.c[m.top] == Block(m.topsize + TOP_FOOT_SIZE, Top) && m.topsize > 0 && m.topsize % 16 == 0
    ensures m.top > 0 && m.top % 16 == 0
  {
    BlockFacts(m, loose, m.top);
  }

  lemma RecordsInUse(m: MallocState, loose: set<int>)
    requires Sound(m, loose)
    ensures forall p :: p in m.records ==> p in m.c && m.c[p].kind.Used?
  {
  }

  /** Binned chunks carry their size in their head. */
  lemma BinnedHeads(m: MallocState, loose: set<int>)
    requires Sound(m, loose)
    ensures HeadersAgree(m.head, m.view.size)
  {
    forall p | p in m.view.size
      ensures p in m.head && m.head[p].size == m.view.size[p]
    {
      assert TaggedAt(m.c, m.head, m.foot, p);
    }
  }

  /** Cutting a block that is the only one in its stretch. */
  lemma RecutSingle(c: Blocks, p: int, ins: Blocks)
    requires Tiled(c) && p in c && p in ins && (forall q :: q in ins ==> p <= q < p + c[p].size)
    ensures Recut(c, p, p + c[p].size, ins) == c + ins
  {
    forall q | q in c && p <= q < p + c[p].size
      ensures q == p
    {
      assert Apart(c, p, q);
    }
    assert BlockOk(c, p);
  }

  // ---------------------------------------------------------------- the books after a recut

  /** The blocks that start in `[a, b)` are loose free chunks and chunks in use that the program holds. */
  ghost predicate Disposable(c: Blocks, a: int, b: int, loose: set<int>, records: set<int>) {
    forall q :: q in c && a <= q < b ==> q in loose || (c[q].kind.Used? && q !in records)
  }

  ghost function Outside(loose: set<int>, a: int, b: int): set<int> {
    set q | q in loose && !(a <= q < b)
  }

  ghost function FreeIn(ins: Blocks): set<int> {
    set q | q in ins && ins[q].kind.Free?
  }

  /** New blocks that are free are loose; everything else is recorded as before. */
  lemma RecutIndex(c: Blocks, bins: BinState, view: BinView, dv: int, dvsize: nat, loose: set<int>, records: set<int>,
                   a: int, b: int, ins: Blocks)
    requires IndexOk(c, bins, view, dv, dvsize, loose) && Disposable(c, a, b, loose, records)
    requires forall q :: q in ins ==> a <= q < b
    ensures IndexOk(Recut(c, a, b, ins), bins, view, dv, dvsize, Outside(loose, a, b) + FreeIn(ins))
  {
  }

  lemma RecutRecords(c: Blocks, loose: set<int>, records: set<int>, a: int, b: int, ins: Blocks)
    requires RecordsOk(c, records) && Disposable(c, a, b, loose, records) && Tiled(c) && a in c
    requires forall q :: q in loose ==> q in c && c[q].kind.Free?
    requires a in ins && forall q :: q in ins ==> a <= q < b && !ins[q].kind.Fence? && q + ins[q].size <= b
    requires b in c ==> !c[b].kind.Fence?
    ensures RecordsOk(Recut(c, a, b, ins), records)
  {
    var c' := Recut(c, a, b, ins);
    forall p
      ensures p in records <==> BeforeFence(c', p)
    {
      if BeforeFence(c', p) {
        assert p !in ins;
        assert Apart(c, p, a);
        assert BeforeFence(c, p);
      }
      if p in records {
        assert BeforeFence(c, p);
      }
    }
  }

  /** The same, when the stretch ends with the top chunk. */
  lemma RecutRecordsTop(c: Blocks, k: Books, loose: set<int>, a: int, b: int, ins: Blocks, t: int)
    requires RecordsOk(c, k.records) && Tiled(c) && a in c && k.top in c && c[k.top].kind.Top? && a <= k.top
    requires Disposable(c, a, k.top, loose, k.records) && forall q :: q in loose ==> q in c && c[q].kind.Free?
    requires forall q :: q in c && k.top <= q < b ==> q == k.top
    requires a in ins && t in ins && ins[t].kind.Top?
    requires forall q :: q in ins ==> a <= q < b && (q == t || ins[q].kind.Used?)
    requires forall q :: q in ins && q != t ==> q + ins[q].size in ins
    ensures RecordsOk(Recut(c, a, b, ins), k.records)
  {
    var c' := Recut(c, a, b, ins);
    forall p
      ensures p in k.records <==> BeforeFence(c', p)
    {
      if BeforeFence(c', p) {
        assert p !in ins;
        assert Apart(c, p, a) && BlockOk(c, p);
        assert BeforeFence(c, p);
      }
      if p in k.records {
        assert BeforeFence(c, p);
      }
    }
  }

  lemma RecutTop(c: Blocks, top: int, topsize: nat, segs: seq<Segment>, loose: set<int>, records: set<int>, a: int, b: int, ins: Blocks)
    requires TopOk(c, top, topsize, segs) && Disposable(c, a, b, loose, records) && a in c
    requires forall q :: q in loose ==> q in c && c[q].kind.Free?
    requires forall q :: q in ins ==> a <= q < b && !ins[q].kind.Top?
    ensures TopOk(Recut(c, a, b, ins), top, topsize, segs)
  {
  }


  lemma RecutBooks(c: Blocks, k: Books, loose: set<int>, a: int, b: int, ins: Blocks)
    requires BooksOk(c, k, loose) && Tiled(c) && a in c
    requires Disposable(c, a, b, loose, k.records) && (b in c ==> !c[b].kind.Fence?)
    requires a in ins && forall q :: q in ins ==> a <= q < b && Inner(ins[q].kind) && q + ins[q].size <= b
    ensures BooksOk(Recut(c, a, b, ins), k, Outside(loose, a, b) + FreeIn(ins))
  {
    RecutIndex(c, k.bins, k.view, k.dv, k.dvsize, loose, k.records, a, b, ins);
    RecutRecords(c, loose, k.records, a, b, ins);
    RecutTop(c, k.top, k.topsize, k.segs, loose, k.records, a, b, ins);
  }

  /** The stretch ends with the top chunk, and the new top is the one at `t`. */
  lemma RecutIndexTop(c: Blocks, k: Books, loose: set<int>, a: int, b: int, ins: Blocks, t: int)
    requires IndexOk(c, k.bins, k.view, k.dv, k.dvsize, loose) && Disposable(c, a, k.top, loose, k.records)
    requires k.top in c && c[k.top].kind.Top? && forall q :: q in c && k.top <= q < b ==> q == k.top
    requires forall q :: q in ins ==> a <= q < b && !ins[q].kind.Free?
    ensures IndexOk(Recut(c, a, b, ins), k.bins, k.view, k.dv, k.dvsize, Outside(loose, a, b))
  {
    hide BinsOk;
  }

  lemma RecutTopTop(c: Blocks, k: Books, loose: set<int>, a: int, b: int, ins: Blocks, t: int)
    requires TopOk(c, k.top, k.topsize, k.segs) && a <= k.top < b && t > 0
    requires t in ins && ins[t].kind.Top? && ins[t].size > TOP_FOOT_SIZE && forall q :: q in ins ==> q == t || ins[q].kind.Used?
    ensures TopOk(Recut(c, a, b, ins), t, ins[t].size - TOP_FOOT_SIZE, k.segs)
  {
  }

  lemma RecutBooksTop(c: Blocks, k: Books, loose: set<int>, a: int, b: int, ins: Blocks, t: int)
    requires BooksOk(c, k, loose) && Tiled(c) && a in c
    requires a <= k.top < b && k.top + k.topsize + TOP_FOOT_SIZE == b && Disposable(c, a, k.top, loose, k.records)
    requires forall q :: q in c && k.top <= q < b ==> q == k.top
    requires a in ins && t in ins && t > 0 && ins[t].kind.Top? && ins[t].size > TOP_FOOT_SIZE
    requires forall q :: q in ins ==> a <= q < b && (q == t || ins[q].kind.Used?) && q + ins[q].size <= b
    requires forall q :: q in ins && q != t ==> q + ins[q].size in ins
    ensures BooksOk(Recut(c, a, b, ins), k.(top := t, topsize := ins[t].size - TOP_FOOT_SIZE), Outside(loose, a, b))
  {
    hide RecordsOk, BinsOk, IndexOk, Recut, Disposable;
    assert BlockOk(c, a);
    LooseAreFree(c, k, loose);
    RecutRecordsTop(c, k, loose, a, b, ins, t);
    RecutIndexTop(c, k, loose, a, b, ins, t);
    RecutTopTop(c, k, loose, a, b, ins, t);
  }

  // ---------------------------------------------------------------- moving chunks in and out of the index

  method Unlink(m: MallocState, p: int, ghost loose: set<int>)
    requires Sound(m, loose) && p in m.view.size
    modifies m`bins, m`view
    ensures Sound(m, loose + {p}) && m.view.size == old(m.view.size) - {p}
  {
    hide HeapOk, LeastOk, TopOk, RecordsOk, BinsOk;
    BinnedBlock(m, loose, p);
    BinnedAddresses(m, loose);
    m.bins, m.view := UnlinkChunk(m.bins, p, m.head[p].size, m.view, m.least);
  }

  method Insert(m: MallocState, p: int, ghost loose: set<int>)
    requires Sound(m, loose) && p in loose
    modifies m`bins, m`view
    ensures Sound(m, loose - {p}) && m.view.size == old(m.view.size)[p := m.c[p].size]
  {
    hide HeapOk, LeastOk, TopOk, RecordsOk, BinsOk;
    LooseFacts(m, loose, p);
    LooseSize(m, loose, p);
    BinnedHeads(m, loose);
    BinnedAddresses(m, loose);
    m.bins, m.view := InsertChunk(m.bins, m.head, p, m.head[p].size, m.view, m.least);
  }

  // ---------------------------------------------------------------- taking a free chunk into use

  lemma TakenWhole(c: Blocks, head: map<int, Head>, foot: map<int, nat>, segs: seq<Segment>, mapped: map<int, Mapping>, p: int)
    requires HeapOk(c, head, foot, segs, mapped) && p in c && c[p].kind.Free?
    ensures var s := c[p].size;
            HeapOk(c[p := Block(s, Used)], HandOverHeads(SetInuseAndPinuse(head, p, s), p + 1, p + s),
                   HandOverFeet(foot, p + 1, p + s), segs, mapped)
  {
    hide ClearBlock, Clear;
    var s := c[p].size;
    assert BlockOk(c, p) && TaggedAt(c, head, foot, p) && TaggedAt(c, head, foot, p + s);
    var seg := OneBlock(c, segs, p);
    HandedOver(SetInuseAndPinuse(head, p, s), foot, p, s);
    CutOne(c, head, foot, segs, mapped, p, p + s, Used, HandOverHeads(SetInuseAndPinuse(head, p, s), p + 1, p + s),
           HandOverFeet(foot, p + 1, p + s), seg);
    RecutSingle(c, p, map[p := Block(s, Used)]);
    assert c[p := Block(s, Used)] == c + map[p := Block(s, Used)];
  }

  lemma TakenBooks(c: Blocks, k: Books, loose: set<int>, p: int)
    requires BooksOk(c, k, loose) && Tiled(c) && p in loose && p in c && p + c[p].size in c && c[p + c[p].size].kind.Used?
    ensures BooksOk(c[p := Block(c[p].size, Used)], k, loose - {p})
  {
    var s := c[p].size;
    var ins := map[p := Block(s, Used)];
    RecutSingle(c, p, ins);
    OnlyItself(c, p);
    RecutBooks(c, k, loose, p, p + s, ins);
    assert c[p := Block(s, Used)] == c + ins;
    assert Outside(loose, p, p + s) + FreeIn(ins) == loose - {p};
  }

  lemma OnlyItself(c: Blocks, p: int)
    requires Tiled(c) && p in c
    ensures forall q :: q in c && p <= q < p + c[p].size ==> q == p
    ensures p > 0 && c[p].size >= MIN_CHUNK_SIZE
  {
    assert BlockOk(c, p);
    forall q | q in c && p <= q < p + c[p].size
      ensures q == p
    {
      assert Apart(c, p, q);
    }
  }

  /** `set_inuse_and_pinuse(M, p, size)` for a whole free chunk. */
  method TakeWhole(m: MallocState, p: int, ghost loose: set<int>)
    requires Sound(m, loose) && p in loose
    modifies m`head, m`foot, m`c
    ensures Sound(m, loose - {p}) && m.c == old(m.c)[p := Block(old(m.c)[p].size, Used)]
  {
    hide HeapOk, BooksOk, LeastOk, HandOverHeads, HandOverFeet;
    LooseFacts(m, loose, p);
    var s := m.head[p].size;
    TakenWhole(m.c, m.head, m.foot, m.segs, m.mapped, p);
    TakenBooks(m.c, BooksOf(m), loose, p);
    m.head := HandOverHeads(SetInuseAndPinuse(m.head, p, s), p + 1, p + s);
    m.foot := HandOverFeet(m.foot, p + 1, p + s);
    m.c := m.c[p := Block(s, Used)];
  }

  /** The words after a free chunk was split, and its first `nb` bytes were handed over. */
  function SplitHeads(head: map<int, Head>, p: int, nb: nat, rsize: nat): map<int, Head> {
    HandOverHeads(SetSizeAndPinuseOfFree(SetSizeAndPinuseOfInuse(head, p, nb), p + nb, rsize), p + 1, p + nb)
  }

  function SplitFeet(foot: map<int, nat>, p: int, nb: nat, rsize: nat): map<int, nat> {
    HandOverFeet(SetFoot(foot, p + nb, rsize), p + 1, p + nb)
  }

  /** What is known of a free block and of the block behind it. */
  lemma FreeBlock(c: Blocks, head: map<int, Head>, foot: map<int, nat>, segs: seq<Segment>, mapped: map<int, Mapping>, p: int)
    requires HeapOk(c, head, foot, segs, mapped) && p in c && c[p].kind.Free?
    ensures Tiled(c) && SegsOk(c, segs) && FeetAligned(foot)
    ensures BlockOk(c, p) && TaggedAt(c, head, foot, p) && TaggedAt(c, head, foot, p + c[p].size)
    ensures (p + c[p].size) % 8 == 0
  {
    assert BlockOk(c, p) && TaggedAt(c, head, foot, p);
    assert BlockOk(c, p + c[p].size);
  }

  lemma SplitWords(head: map<int, Head>, foot: map<int, nat>, p: int, nb: nat, s: nat)
    requires 0 < nb < s && FeetAligned(foot) && (p + s) % 8 == 0 && p + s in head
    ensures var head', foot' := SplitHeads(head, p, nb, s - nb), SplitFeet(foot, p, nb, s - nb);
            && ChangedWithin(head, foot, head', foot', p, p + s)
            && p in head' && head'[p] == Head(nb, true, true)
            && p + nb in head' && head'[p + nb] == Head(s - nb, false, true)
            && p + s in head' && head'[p + s] == head[p + s] && p + s in foot' && foot'[p + s] == s - nb
            && FeetAligned(foot') && ClearBlock(head', foot', p, Block(nb, Used))
  {
    HandedOver(SetSizeAndPinuseOfFree(SetSizeAndPinuseOfInuse(head, p, nb), p + nb, s - nb), SetFoot(foot, p + nb, s - nb), p, nb);
  }

  lemma SplitHeap(c: Blocks, head: map<int, Head>, foot: map<int, nat>, segs: seq<Segment>, mapped: map<int, Mapping>,
                  p: int, nb: nat)
    requires HeapOk(c, head, foot, segs, mapped) && p in c && c[p].kind.Free?
    requires nb % 16 == 0 && MIN_CHUNK_SIZE <= nb && nb + MIN_CHUNK_SIZE <= c[p].size
    ensures var r, rsize := p + nb, c[p].size - nb;
            && r !in c
            && HeapOk(c + TwoPieces(p, r, p + c[p].size, Free), SplitHeads(head, p, nb, rsize), SplitFeet(foot, p, nb, rsize),
                      segs, mapped)
  {
    hide HeapOk, ClearBlock, Clear, SegsOk, Tiled, SplitHeads, SplitFeet, ChangedWithin, FeetAligned, Interval;
    var s, r, b := c[p].size, p + nb, p + c[p].size;
    FreeBlock(c, head, foot, segs, mapped, p);
    var seg := OneBlock(c, segs, p);
    SplitWords(head, foot, p, nb, s);
    DifferenceAligned(s, nb);
    NotUsedClear(SplitHeads(head, p, nb, s - nb), SplitFeet(foot, p, nb, s - nb), r, Block(s - nb, Free));
    CutTwo(c, head, foot, segs, mapped, p, r, b, Free, SplitHeads(head, p, nb, s - nb), SplitFeet(foot, p, nb, s - nb), seg);
    RecutSingle(c, p, TwoPieces(p, r, b, Free));
    NotABlock(c, p, r);
  }

  /** No block starts inside another. */
  lemma NotABlock(c: Blocks, p: int, r: int)
    requires Tiled(c) && p in c && p < r < p + c[p].size
    ensures r !in c
  {
    assert r in c ==> Apart(c, p, r);
  }

  /** The remainder is loose in place of the chunk that was split. */
  lemma SplitLoose(c: Blocks, loose: set<int>, p: int, nb: nat)
    requires Tiled(c) && p in c && p in loose && 0 < nb < c[p].size && forall q :: q in loose ==> q in c
    ensures Outside(loose, p, p + c[p].size) + FreeIn(TwoPieces(p, p + nb, p + c[p].size, Free)) == loose - {p} + {p + nb}
  {
    OnlyItself(c, p);
  }

  lemma LooseAreFree(c: Blocks, k: Books, loose: set<int>)
    requires BooksOk(c, k, loose)
    ensures forall q :: q in loose ==> q in c && c[q].kind.Free?
  {
  }

  lemma SplitBooks(c: Blocks, k: Books, loose: set<int>, p: int, nb: nat)
    requires BooksOk(c, k, loose) && Tiled(c) && p in loose && p in c && p + c[p].size in c && c[p + c[p].size].kind.Used?
    requires 0 < nb < c[p].size
    ensures BooksOk(c + TwoPieces(p, p + nb, p + c[p].size, Free), k, loose - {p} + {p + nb})
  {
    hide Recut, IndexOk, RecordsOk, TopOk;
    var ins := TwoPieces(p, p + nb, p + c[p].size, Free);
    RecutSingle(c, p, ins);
    OnlyItself(c, p);
    LooseAreFree(c, k, loose);
    SplitLoose(c, loose, p, nb);
    RecutBooks(c, k, loose, p, p + c[p].size, ins);
  }

  /** A free chunk is split: its first `nb` bytes are taken into use and the remainder `r` stays free. */
  method Split(m: MallocState, p: int, nb: nat, ghost loose: set<int>) returns (r: int)
    requires Sound(m, loose) && p in loose
    requires nb % 16 == 0 && MIN_CHUNK_SIZE <= nb && nb + MIN_CHUNK_SIZE <= m.c[p].size
    modifies m`head, m`foot, m`c
    ensures r == p + nb && r !in old(m.c)
    ensures m.c == old(m.c) + TwoPieces(p, r, p + old(m.c)[p].size, Free)
    ensures Sound(m, loose - {p} + {r})
  {
    hide HeapOk, BooksOk, LeastOk, HandOverHeads, HandOverFeet;
    LooseFacts(m, loose, p);
    SplitHeap(m.c, m.head, m.foot, m.segs, m.mapped, p, nb);
    SplitBooks(m.c, BooksOf(m), loose, p, nb);
    r := p + nb;
    var rsize := m.head[p].size - nb;
    m.head := HandOverHeads(SetSizeAndPinuseOfFree(SetSizeAndPinuseOfInuse(m.head, p, nb), r, rsize), p + 1, p + nb);
    m.foot := HandOverFeet(SetFoot(m.foot, r, rsize), p + 1, p + nb);
    m.c := m.c + TwoPieces(p, r, p + m.c[p].size, Free);
    assert BooksOf(m) == old(BooksOf(m));
  }

  // ---------------------------------------------------------------- the designated victim

  /** `dv` leaves its place and becomes an ordinary free chunk. */
  method DropDv(m: MallocState, ghost loose: set<int>) returns (p: int)
    requires Sound(m, loose) && m.dv != 0
    modifies m`dv, m`dvsize
    ensures p == old(m.dv) && m.dv == 0 && m.dvsize == 0 && Sound(m, loose + {p})
    ensures p in m.c && m.c[p].size == old(m.dvsize)
  {
    p := m.dv;
    m.dv, m.dvsize := 0, 0;
  }

  method SetDv(m: MallocState, p: int, ghost loose: set<int>)
    requires Sound(m, loose) && p in loose && m.dv == 0
    modifies m`dv, m`dvsize
    ensures m.dv == p && m.dvsize == m.c[p].size && Sound(m, loose - {p})
  {
    BlockFacts(m, loose, p);
    assert 0 !in m.c by { assert 0 in m.c ==> BlockOk(m.c, 0); }
    m.dv, m.dvsize := p, m.head[p].size;
  }

  /** `replace_dv`, which is used only if the old victim is small: it goes to its small bin. */
  method ReplaceDv(m: MallocState, p: int)
    requires Sound(m, {p}) && IsSmall(m.dvsize)
    modifies m`dv, m`dvsize, m`bins, m`view
    ensures m.dv == p && m.dvsize == m.c[p].size && Sound(m, {})
    ensures m.view.size == if old(m.dvsize) == 0 then old(m.view.size) else old(m.view.size)[old(m.dv) := old(m.dvsize)]
  {
    hide HeapOk, BooksOk, LeastOk;
    var dvs := m.dvsize;
    DvNull(m, {p});
    assert IsSmall(dvs);
    if dvs != 0 {
      var d := DropDv(m, {p});
      assert {p} + {d} == {p, d};
      InsertSmallChunk(m, d, dvs, {p, d});
      assert {p, d} - {d} == {p};
    }
    SetDv(m, p, {p});
    assert {p} - {p} == {};
  }

  lemma DvNull(m: MallocState, loose: set<int>)
    requires Sound(m, loose)
    ensures m.dv == 0 <==> m.dvsize == 0
    ensures m.dv != 0 ==> m.dv !in loose
  {
  }

  /** `insert_small_chunk` */
  method InsertSmallChunk(m: MallocState, p: int, s: nat, ghost loose: set<int>)
    requires Sound(m, loose) && p in loose && p in m.c && m.c[p].size == s && IsSmall(s)
    modifies m`bins, m`view
    ensures Sound(m, loose - {p}) && m.view.size == old(m.view.size)[p := s]
  {
    hide HeapOk, LeastOk, TopOk, RecordsOk, BinsOk;
    LooseFacts(m, loose, p);
    BinnedAddresses(m, loose);
    assert s >= MIN_CHUNK_SIZE;
    m.bins, m.view := InsertSmall(m.bins, p, s, m.view, m.least);
  }

  // ---------------------------------------------------------------- the top chunk

  lemma TopBlock(c: Blocks, head: map<int, Head>, foot: map<int, nat>, segs: seq<Segment>, mapped: map<int, Mapping>, p: int)
    requires HeapOk(c, head, foot, segs, mapped) && p in c && c[p].kind.Top?
    ensures Tiled(c) && SegsOk(c, segs) && FeetAligned(foot) && BlockOk(c, p) && TaggedAt(c, head, foot, p)
  {
    assert BlockOk(c, p) && TaggedAt(c, head, foot, p);
  }

  lemma SplitTopHeap(c: Blocks, head: map<int, Head>, foot: map<int, nat>, segs: seq<Segment>, mapped: map<int, Mapping>,
                     p: int, nb: nat, topsize: nat)
    requires HeapOk(c, head, foot, segs, mapped) && p in c && c[p] == Block(topsize + TOP_FOOT_SIZE, Top)
    requires nb % 16 == 0 && MIN_CHUNK_SIZE <= nb < topsize
    ensures var r, rsize := p + nb, topsize - nb;
            && r !in c
            && HeapOk(c + TwoPieces(p, r, p + c[p].size, Top),
                      HandOverHeads(SetSizeAndPinuseOfInuse(head[r := Head(rsize, false, true)], p, nb), p + 1, r),
                      HandOverFeet(foot, p + 1, r), segs, mapped)
  {
    hide HeapOk, ClearBlock, Clear, SegsOk, Tiled;
    var r, b := p + nb, p + c[p].size;
    TopBlock(c, head, foot, segs, mapped, p);
    var seg := LastBlock(c, segs, p);
    var head' := HandOverHeads(SetSizeAndPinuseOfInuse(head[r := Head(topsize - nb, false, true)], p, nb), p + 1, r);
    HandedOver(SetSizeAndPinuseOfInuse(head[r := Head(topsize - nb, false, true)], p, nb), foot, p, nb);
    CutUsedAndTop(c, head, foot, segs, mapped, p, r, b, head', HandOverFeet(foot, p + 1, r), seg);
    RecutSingle(c, p, TwoPieces(p, r, b, Top));
    NotABlock(c, p, r);
  }

  lemma TopInBooks(c: Blocks, k: Books, loose: set<int>)
    requires BooksOk(c, k, loose) && Tiled(c) && k.topsize > 0
    ensures k.top > 0 && k.top in c && c[k.top] == Block(k.topsize + TOP_FOOT_SIZE, Top)
    ensures Outside(loose, k.top, k.top + c[k.top].size) == loose
  {
    OnlyItself(c, k.top);
  }

  lemma SplitTopBooks(c: Blocks, k: Books, loose: set<int>, nb: nat)
    requires BooksOk(c, k, loose) && Tiled(c) && 0 < nb < k.topsize
    ensures k.top > 0
    ensures BooksOk(c + TwoPieces(k.top, k.top + nb, k.top + c[k.top].size, Top),
                    k.(top := k.top + nb, topsize := k.topsize - nb), loose)
  {
    hide BooksOk;
    TopInBooks(c, k, loose);
    var p := k.top;
    var r, b := p + nb, p + c[p].size;
    var ins := TwoPieces(p, r, b, Top);
    RecutSingle(c, p, ins);
    OnlyItself(c, p);
    RecutBooksTop(c, k, loose, p, b, ins, r);
  }

  /** The first `nb` bytes of the top chunk are taken into use. */
  method SplitTop(m: MallocState, nb: nat, ghost loose: set<int>) returns (p: int)
    requires Sound(m, loose) && nb % 16 == 0 && MIN_CHUNK_SIZE <= nb < m.topsize
    modifies m`head, m`foot, m`top, m`topsize, m`c
    ensures p == old(m.top) && p > 0 && p + nb !in old(m.c)
    ensures m.top == p + nb && m.topsize == old(m.topsize) - nb
    ensures m.c == old(m.c) + TwoPieces(p, p + nb, p + old(m.topsize) + TOP_FOOT_SIZE, Top)
    ensures Sound(m, loose)
  {
    hide HeapOk, BooksOk, LeastOk, HandOverHeads, HandOverFeet;
    p := m.top;
    TopFacts(m, loose);
    SplitTopHeap(m.c, m.head, m.foot, m.segs, m.mapped, p, nb, m.topsize);
    SplitTopBooks(m.c, BooksOf(m), loose, nb);
    var rsize := m.topsize - nb;
    var r := p + nb;
    m.topsize, m.top := rsize, r;
    m.head := m.head[r := Head(rsize, false, true)];
    m.head := HandOverHeads(SetSizeAndPinuseOfInuse(m.head, p, nb), p + 1, r);
    m.foot := HandOverFeet(m.foot, p + 1, r);
    m.c := m.c + TwoPieces(p, r, p + m.c[p].size, Top);
  }
}
