/**
 `dlcalloc` and `dlrealloc`: allocation with what becomes of the bytes in the blocks.
 */
module BlockContents {
  import opened TreeIndex
  import opened Chunks
  import opened Bins
  import opened Tiling
  import opened HeapState
  import opened Allocate
  import opened SysAlloc
  import opened Resize
  import opened Bytes
  import opened DlMalloc

  // ---------------------------------------------------------------- calloc

  /** The `n` bytes at `mem` are zero. */
  ghost predicate AllZero(data: map<int, int>, mem: int, n: nat) { forall a :: mem <= a < mem + n ==> Byte(data, a) == 0 }

  /** The bytes at `mem` are zero if they were cleared, and otherwise exactly if they were before; all others are as they were. */
  ghost predicate ClearedUnless(kept: bool, data: map<int, int>, data': map<int, int>, mem: int, n: nat) {
    && (forall a :: Byte(data', a) == if mem <= a < mem + n && !kept then 0 else Byte(data, a))
    && (AllZero(data', mem, n) <==> !kept || AllZero(data, mem, n))
  }

  /**
   `dlcalloc`: fails exactly if `dlmalloc` would fail for the true product, and always if the product does not fit
   `size_t`. A chunk in a segment is cleared, but a mapped chunk is not: its bytes are zero exactly if the mapping read
   as zero (`MMAP_CLEARS`).
   */
  method Calloc(m: MallocState, n: nat, size: nat, mmap: (nat, nat) -> int, data: map<int, int>)
    returns (mem: int, data': map<int, int>)
    requires Sound(m, {}) && n < SIZE_T && size < SIZE_T && Honest(m.segs, m.mapped, mmap)
    modifies m
    ensures Sound(m, {})
    ensures mem == 0 <==> old(Refuses(m.c, m.topsize, if n * size < SIZE_T then n * size else SIZE_T - 1, mmap))
    ensures mem == 0 ==> unchanged(m) && data' == data
    ensures n * size >= SIZE_T ==> mem == 0
    ensures mem != 0 ==> Serves(old(HeldBy(m)), HeldBy(m), m.mapped, mem - MEM_OFFSET, n * size)
    ensures forall q :: q != mem - MEM_OFFSET ==> (q in m.mapped <==> q in old(m.mapped))
    ensures mem != 0 ==> (mem - MEM_OFFSET in m.mapped <==> old(ServedDirectly(m.c, m.topsize, n * size, mmap)))
    ensures mem != 0 && mem - MEM_OFFSET in m.mapped ==> InMapping(m.mapped, mem - MEM_OFFSET, Wanted(n * size), mmap)
    ensures mem != 0 ==> ClearedUnless(mem - MEM_OFFSET in m.mapped, data, data', mem, n * size)
    ensures Supplied(old(m.segs), old(m.mapped), m.segs, m.mapped, mmap, Wanted(Product(n, size)))
  {
    hide HeapOk, BooksOk, Serves, LeastOk, Refuses, ServedDirectly, InMapping, Held, Supplied;
    ProductChecked(n, size);
    var req := Product(n, size);
    mem := Malloc(m, req, mmap);
    data' := data;
    if mem != 0 {
      var p := mem - MEM_OFFSET;
      ServesHeld(m, old(HeldBy(m)), p, req);
      HeldHead(m, p);
      if m.head[p].pinuse || m.head[p].cinuse {
        data' := Bytes.Clear(data, mem, req);
      }
    }
  }

  // ---------------------------------------------------------------- memory that is given twice

  /** No chunk is larger than the one segment that there is. */
  lemma SmallHeap(m: MallocState, a: int, n: nat, bytes: nat)
    requires Sound(m, {}) && m.segs == [Segment(a, n)] && n <= bytes && bytes < MAX_REQUEST
    ensures NothingFits(m.c, m.topsize, Wanted(bytes)) && m.topsize != 0 && m.top != 0
  {
    forall q | q in m.c
      ensures m.c[q].size <= n
    {
      assert HasSeg(m.segs, q, m.c[q]);
    }
    assert m.top != 0;
    BlockFacts(m, {}, m.top);
  }

  const HERE: int := WINDOW + 0x1_0000
  const THERE: int := WINDOW + 0x100_0000

  /** A system that has one page-aligned place for small mappings, one for large ones, and gives no more than one at a time. */
  function TwoPlaces(k: nat, n: nat): int {
    if k == 1 && n == 0x1_0000 then HERE else if k == 0 && n < 0x100_0000 then THERE else MFAIL
  }

  lemma Sizes300000()
    ensures Wanted(1) == 32 && SegmentSize(32) == 0x1_0000
    ensures Wanted(300000) == 300016 && MappingSize(300016) == 303104
  {
  }

  lemma TwoPlacesHonest(mapped: map<int, Mapping>, mmap: (nat, nat) -> int)
    requires mapped == map[]
    ensures (forall k, n :: mmap(k, n) == TwoPlaces(k, n)) ==> Honest([], mapped, mmap)
    ensures (forall k, n :: mmap(k, n) == if k == 0 then TwoPlaces(k, n) else MFAIL) ==> Honest([Segment(HERE, 0x1_0000)], mapped, mmap)
  {
  }

  lemma Unmapped(mapped: map<int, Mapping>)
    requires forall p :: p !in mapped
    ensures mapped == map[]
  {
    var none: map<int, Mapping> := map[];
    assert forall p :: p in mapped <==> p in none;
    assert mapped == none;
  }

  lemma NotHeldNotMapped(m: MallocState)
    ensures forall p :: p in m.mapped ==> p in HeldBy(m)
  {
  }

  /** A heap of one segment, after a first small request. */
  method OneSegment() returns (m: MallocState)
    ensures fresh(m) && Sound(m, {}) && m.segs == [Segment(HERE, 0x1_0000)] && m.mapped == map[]
  {
    hide HeapOk, BooksOk, LeastOk, Serves, Held, NothingFits, Honest, SegmentSize, MappingSize, Padded;
    Sizes300000();
    var first: (nat, nat) -> int := (k: nat, n: nat) => TwoPlaces(k, n);
    m := new MallocState();
    TwoPlacesHonest(m.mapped, first);
    var one := Malloc(m, 1, first);
    assert one != 0 && one - MEM_OFFSET !in m.mapped;
    assert forall p :: p !in m.mapped;
    Unmapped(m.mapped);
  }

  /**
   malloc(1), p = malloc(300000), a byte of p is written, free(p), calloc(1, 300000): a system that gives the same place
   again without clearing it makes `dlcalloc` return memory that is not zero.
   */
  method CallocNotZero() returns (mem: int, data: map<int, int>)
    ensures mem != 0 && !AllZero(data, mem, 300000)
  {
    hide HeapOk, BooksOk, LeastOk, Serves, Held, NothingFits, Honest, SegmentSize, MappingSize, Padded, BooksOf, Provides, Supplied;
    Sizes300000();
    var later: (nat, nat) -> int := (k: nat, n: nat) => if k == 0 then TwoPlaces(k, n) else MFAIL;
    var m := OneSegment();
    SmallHeap(m, HERE, 0x1_0000, 300000);
    TwoPlacesHonest(m.mapped, later);
    ghost var held := HeldBy(m);
    mem := Malloc(m, 300000, later);
    assert mem == THERE + MEM_OFFSET;
    ServesHeld(m, held, mem - MEM_OFFSET, 300000);
    data := map[mem := 1];
    DlMalloc.Free(m, mem);
    NotHeldNotMapped(m);
    assert forall p :: p !in m.mapped;
    Unmapped(m.mapped);
    SmallHeap(m, HERE, 0x1_0000, 300000);
    TwoPlacesHonest(m.mapped, later);
    ghost var before := data;
    mem, data := Calloc(m, 1, 300000, later, data);
    assert Byte(before, mem) == 1;
  }

  lemma ServesHeld(m: MallocState, held: map<int, nat>, p: int, bytes: nat)
    requires Serves(held, HeldBy(m), m.mapped, p, bytes)
    ensures p in HeldBy(m) && p !in held && bytes <= Usable(m, p) && p > 0
  {
  }

  // ---------------------------------------------------------------- realloc

  lemma ResizedHeld(m: MallocState, c: Blocks, p: int)
    requires Sound(m, {}) && Resized(c, m.c, p) && p !in m.records && p !in m.mapped
    ensures HeldBy(m) == Held(c, m.records, m.mapped)[p := m.c[p].size]
  {
    var held, held' := Held(c, m.records, m.mapped)[p := m.c[p].size], HeldBy(m);
    assert forall q :: q in held <==> q in held';
    assert forall q :: q in held ==> held[q] == held'[q];
  }

  /** `mmap_resize` without `mremap`: the chunk is kept if it is large enough and not much too large. */
  predicate KeepsMapping(oldsize: nat, nb: nat) {
    !IsSmall(nb) && oldsize >= nb + 8 && oldsize - nb <= 2 * GRANULARITY
  }

  /** The chunk can get the size `nb` where it is. */
  ghost predicate CanResize(c: Blocks, mapped: map<int, Mapping>, p: int, nb: nat) {
    if p in mapped then KeepsMapping(mapped[p].size, nb) else p in c && nb <= c[p].size + Room(c, p)
  }

  /** `try_realloc_chunk` */
  method ResizeInPlace(m: MallocState, p: int, bytes: nat) returns (ok: bool)
    requires Sound(m, {}) && p in HeldBy(m)
    modifies m
    ensures Sound(m, {}) && (!ok ==> unchanged(m)) && m.segs == old(m.segs)
    ensures ok ==> p in HeldBy(m) && HeldBy(m) == old(HeldBy(m))[p := HeldBy(m)[p]]
    ensures ok ==> bytes <= Usable(m, p) && m.mapped == old(m.mapped)
    ensures ok <==> old(CanResize(m.c, m.mapped, p, Padded(bytes)))
    ensures ok && p !in m.mapped ==> Padded(bytes) <= HeldBy(m)[p] < Padded(bytes) + MIN_CHUNK_SIZE
    ensures p in old(m.mapped) ==>
              (ok <==> 256 <= Padded(bytes) && Padded(bytes) + 8 <= old(m.mapped[p].size) <= Padded(bytes) + 0x2_0000)
    ensures p !in old(m.mapped) ==>
              && p in old(m.c) && p + old(m.c[p].size) in old(m.c)
              && var nb, s, n := Padded(bytes), old(m.c[p].size), p + old(m.c[p].size);
                 (ok <==> nb <= s || (n == old(m.top) && nb < s + old(m.topsize)) || (old(m.c)[n].kind.Free? && nb <= s + old(m.c)[n].size))
  {
    hide HeapOk, BooksOk, Resized, LeastOk, Room, Padded;
    HeldHead(m, p);
    HeldPasses(m, p);
    assert OkAddress(m.least, p) && OkInuse(m.head[p]);
    assert OkNext(p, p + m.head[p].size) && OkPinuse(m.head[p + m.head[p].size]);
    var nb := Padded(bytes);
    if !m.head[p].pinuse && !m.head[p].cinuse {
      ok := KeepsMapping(m.head[p].size, nb);
    } else {
      ghost var c := m.c;
      ok := TryResize(m, p, nb);
      if ok {
        ResizedFacts(c, m.c, p);
        ResizedHeld(m, c, p);
      }
    }
  }

  /** Two blocks that are both held do not overlap, so that one can be copied to the other. */
  lemma CopyApart(m: MallocState, p: int, q: int, n: nat)
    requires Sound(m, {}) && p in HeldBy(m) && q in HeldBy(m) && p != q && n <= Usable(m, p) && n <= Usable(m, q)
    ensures Disjoint(p + MEM_OFFSET, p + MEM_OFFSET + n, q + MEM_OFFSET, q + MEM_OFFSET + n)
  {
    if p < q {
      HeldApart(m, p, q);
    } else {
      HeldApart(m, q, p);
    }
  }

  lemma StillHeld(m: MallocState, held: map<int, nat>, p: int, q: int, bytes: nat)
    requires Serves(held, HeldBy(m), m.mapped, p, bytes) && q in held
    ensures q in HeldBy(m) && HeldBy(m)[q] == held[q] && q != p
    ensures HeldBy(m) - {q} == (held - {q})[p := HeldBy(m)[p]]
  {
    var a, b := HeldBy(m) - {q}, (held - {q})[p := HeldBy(m)[p]];
    assert forall x :: x in a <==> x in b;
    assert forall x :: x in a ==> a[x] == b[x];
  }

  /** The first `n` bytes at `mem` are those that were at `oldmem`, and no byte outside them has changed. */
  ghost predicate Carried(data: map<int, int>, data': map<int, int>, oldmem: int, mem: int, n: int) {
    forall a {:trigger Byte(data', a)} :: Byte(data', a) == if mem <= a < mem + n then Byte(data, oldmem + (a - mem)) else Byte(data, a)
  }

  function Min(a: int, b: int): int { if a < b then a else b }

  /** Unless it is mapped, the chunk is less than a minimal chunk larger than needed. */
  ghost predicate NotTooLarge(held: map<int, nat>, mapped: map<int, Mapping>, p: int, bytes: nat)
    requires p in held
  {
    p !in mapped ==> held[p] < Padded(bytes) + MIN_CHUNK_SIZE
  }

  lemma ServesTight(held: map<int, nat>, held': map<int, nat>, mapped': map<int, Mapping>, p: int, bytes: nat)
    requires Serves(held, held', mapped', p, bytes)
    ensures p in held' && NotTooLarge(held', mapped', p, bytes)
  {
  }

  /** The block moves: what `dlrealloc` does when it cannot resize in place. */
  method Move(m: MallocState, oldmem: int, bytes: nat, mmap: (nat, nat) -> int, data: map<int, int>)
    returns (mem: int, data': map<int, int>)
    requires Sound(m, {}) && oldmem - MEM_OFFSET in HeldBy(m) && oldmem != 0 && bytes < SIZE_T && Honest(m.segs, m.mapped, mmap)
    modifies m
    ensures Sound(m, {})
    ensures mem == 0 <==> old(Refuses(m.c, m.topsize, bytes, mmap))
    ensures mem == 0 ==> unchanged(m) && data' == data
    ensures mem != 0 ==> var p, oldp := mem - MEM_OFFSET, oldmem - MEM_OFFSET;
              && p in HeldBy(m) && bytes <= Usable(m, p) && p !in old(HeldBy(m)) && NotTooLarge(HeldBy(m), m.mapped, p, bytes)
              && HeldBy(m) == (old(HeldBy(m)) - {oldp})[p := HeldBy(m)[p]]
              && forall q :: q != p && q != oldp ==> (q in m.mapped <==> q in old(m.mapped))
    ensures mem != 0 ==> Carried(data, data', oldmem, mem, Min(bytes, old(Usable(m, oldmem - MEM_OFFSET))))
    ensures Supplied(old(m.segs), old(m.mapped), m.segs, m.mapped, mmap, Wanted(bytes))
  {
    hide HeapOk, BooksOk, Serves, Held, LeastOk, Refuses, ServedDirectly, InMapping, Supplied, Carried;
    ghost var held := HeldBy(m);
    ghost var oldp := oldmem - MEM_OFFSET;
    data' := data;
    mem := Malloc(m, bytes, mmap);
    if mem != 0 {
      ghost var p := mem - MEM_OFFSET;
      ServesHeld(m, held, p, bytes);
      ServesTight(held, HeldBy(m), m.mapped, p, bytes);
      StillHeld(m, held, p, oldp, bytes);
      FewerMappings(old(m.segs), old(m.mapped), m.segs, m.mapped, mmap, Wanted(bytes), oldp);
      data' := CopyOver(m, oldmem, mem, bytes, data);
    }
  }

  /** The bytes are copied, and the old block is given back. */
  method CopyOver(m: MallocState, oldmem: int, mem: int, bytes: nat, data: map<int, int>) returns (data': map<int, int>)
    requires Sound(m, {}) && oldmem - MEM_OFFSET in HeldBy(m) && mem - MEM_OFFSET in HeldBy(m) && oldmem != mem && oldmem != 0
    requires bytes <= Usable(m, mem - MEM_OFFSET)
    modifies m
    ensures Sound(m, {}) && HeldBy(m) == old(HeldBy(m)) - {oldmem - MEM_OFFSET}
    ensures m.mapped == old(m.mapped) - {oldmem - MEM_OFFSET} && m.segs == old(m.segs)
    ensures Carried(data, data', oldmem, mem, Min(bytes, old(Usable(m, oldmem - MEM_OFFSET))))
  {
    hide HeapOk, BooksOk, Held, LeastOk;
    var oldp := oldmem - MEM_OFFSET;
    HeldHead(m, oldp);
    var oc := m.head[oldp].size - if m.head[oldp].pinuse || m.head[oldp].cinuse then CHUNK_OVERHEAD else MMAP_CHUNK_OVERHEAD;
    CopyApart(m, mem - MEM_OFFSET, oldp, Min(bytes, oc));
    data' := Copy(data, mem, oldmem, if oc < bytes then oc else bytes);
    DlMalloc.Free(m, oldmem);
  }

  /** The block at `oldmem` became the block at `mem`: no other block is affected, and what fits of its bytes is kept. */
  twostate predicate Reallocated(m: MallocState, oldmem: int, mem: int, bytes: nat, data: map<int, int>, data': map<int, int>)
    reads m
  {
    var p, oldp := mem - MEM_OFFSET, oldmem - MEM_OFFSET;
    && oldp in old(HeldBy(m)) && p in HeldBy(m) && bytes <= Usable(m, p) && (p == oldp || p !in old(HeldBy(m)))
    && NotTooLarge(HeldBy(m), m.mapped, p, bytes)
    && HeldBy(m) == (old(HeldBy(m)) - {oldp})[p := HeldBy(m)[p]]
    && (forall q :: q != p && q != oldp ==> (q in m.mapped <==> q in old(m.mapped)))
    && Carried(data, data', oldmem, mem, Min(bytes, old(Usable(m, oldp))))
  }

  lemma HeldNotNull(m: MallocState, p: int)
    requires Sound(m, {}) && p in HeldBy(m)
    ensures p > 0
  {
    HeldAligned(m, p);
  }

  lemma SameButOne(held: map<int, nat>, held': map<int, nat>, p: int)
    requires p in held && p in held' && held' == held[p := held'[p]]
    ensures held' == (held - {p})[p := held'[p]]
  {
  }

  /** When `dlrealloc` fails. */
  ghost predicate ReallocRefuses(c: Blocks, mapped: map<int, Mapping>, topsize: nat, oldmem: int, bytes: nat, mmap: (nat, nat) -> int) {
    if oldmem == 0 then Refuses(c, topsize, bytes, mmap)
    else bytes >= MAX_REQUEST || (!CanResize(c, mapped, oldmem - MEM_OFFSET, Padded(bytes)) && Refuses(c, topsize, bytes, mmap))
  }

  /**
   `dlrealloc`: a block that is held is resized where it is, or moves to a new block; either way its first bytes, as
   many as fit, are kept. Without a block it is `dlmalloc`. It fails exactly if the request is too large, or if the
   block cannot be resized where it is and there is no room for another; then nothing changes.
   */
  method Realloc(m: MallocState, oldmem: int, bytes: nat, mmap: (nat, nat) -> int, data: map<int, int>)
    returns (mem: int, data': map<int, int>)
    requires Sound(m, {}) && (oldmem != 0 ==> oldmem - MEM_OFFSET in HeldBy(m)) && bytes < SIZE_T && Honest(m.segs, m.mapped, mmap)
    modifies m
    ensures Sound(m, {})
    ensures mem == 0 <==> old(ReallocRefuses(m.c, m.mapped, m.topsize, oldmem, bytes, mmap))
    ensures mem == 0 <==> if oldmem == 0 then old(Refuses(m.c, m.topsize, bytes, mmap))
                          else bytes >= 0xffff_ffff_ffff_ff80 ||
                               (!old(CanResize(m.c, m.mapped, oldmem - 16, Padded(bytes))) && old(Refuses(m.c, m.topsize, bytes, mmap)))
    ensures mem != 0 && oldmem != 0 ==> (mem == oldmem <==> old(CanResize(m.c, m.mapped, oldmem - 16, Padded(bytes))))
    ensures mem == 0 ==> unchanged(m) && data' == data
    ensures mem != 0 && oldmem == 0 ==> Serves(old(HeldBy(m)), HeldBy(m), m.mapped, mem - MEM_OFFSET, bytes) && data' == data
    ensures mem != 0 && oldmem == 0 ==> forall q :: q != mem - MEM_OFFSET ==> (q in m.mapped <==> q in old(m.mapped))
    ensures mem != 0 && oldmem != 0 ==> Reallocated(m, oldmem, mem, bytes, data, data')
    ensures Supplied(old(m.segs), old(m.mapped), m.segs, m.mapped, mmap, Wanted(bytes))
  {
    hide HeapOk, BooksOk, Serves, LeastOk, Refuses, ServedDirectly, InMapping, CanResize, Held, Supplied, Padded;
    NothingGiven(m.segs, m.mapped, mmap, Wanted(bytes));
    mem, data' := 0, data;
    if oldmem == 0 {
      mem := Malloc(m, bytes, mmap);
      return;
    }
    if bytes >= MAX_REQUEST {
      return;
    }
    HeldNotNull(m, oldmem - MEM_OFFSET);
    var ok := ResizeInPlace(m, oldmem - MEM_OFFSET, bytes);
    if ok {
      SameButOne(old(HeldBy(m)), HeldBy(m), oldmem - MEM_OFFSET);
      return oldmem, data;
    }
    mem, data' := Move(m, oldmem, bytes, mmap, data);
  }
}
