/**
 Whole runs of a program that allocates, writes, reallocates and frees: its blocks behave as independent buffers.
 */
module Runs {
  import opened TreeIndex
  import opened Chunks
  import opened Tiling
  import opened HeapState
  import opened Allocate
  import opened Regions
  import opened SysAlloc
  import opened Bytes
  import opened DlMalloc
  import opened BlockContents
  import opened UserWrites
  import M = Memalign
  import A = Alignment

  // ---------------------------------------------------------------- what a program sees

  /** A block as the program sees it: where it is, the bytes that it asked for, and whether it asked for an alignment. */
  datatype Buffer = Buffer(mem: int, bytes: seq<int>, aligned: bool)

  datatype Command =
    | Malloc(n: nat)
    | Calloc(n: nat, size: nat)
    | Memalign(alignment: nat, n: nat)
    | Realloc(i: nat, n: nat)
    | Write(i: nat, k: nat, v: int)
    | Release(i: nat)

  /** Sizes fit `size_t`; buffers that do not exist are not named. */
  predicate Legal(bufs: seq<Buffer>, cmd: Command) {
    match cmd
    case Malloc(n) => n < SIZE_T
    case Calloc(n, size) => n < SIZE_T && size < SIZE_T
    case Memalign(alignment, n) => alignment <= SIZE_T / 2 && n < SIZE_T
    case Realloc(i, n) => i < |bufs| && n < SIZE_T
    case Write(i, k, v) => i < |bufs| && k < |bufs[i].bytes|
    case Release(i) => i < |bufs|
  }

  function Without(bufs: seq<Buffer>, i: nat): seq<Buffer>
    requires i < |bufs|
  {
    bufs[..i] + bufs[i + 1..]
  }

  /** `a` and `b` agree as far as both go. */
  ghost predicate SamePrefix(a: seq<int>, b: seq<int>) {
    forall k :: 0 <= k < |a| && k < |b| ==> a[k] == b[k]
  }

  /** What the allocator has: its blocks, the words of their headers, its mappings, and `malloc_state`. */
  datatype Heap = Heap(c: Blocks, head: map<int, Head>, foot: map<int, nat>, mapped: map<int, Mapping>, books: Books, least: int)

  ghost function HeapOf(m: MallocState): Heap
    reads m
  {
    Heap(m.c, m.head, m.foot, m.mapped, BooksOf(m), m.least)
  }

  /** The invariant of the allocator: what `Sound` says of the allocator itself. */
  ghost predicate WellFormed(h: Heap) {
    && HeapOk(h.c, h.head, h.foot, h.books.segs, h.mapped)
    && BooksOk(h.c, h.books, {})
    && LeastOk(h.least, h.books.segs, h.mapped)
  }

  /** The chunks that the program holds: those in use that are not followed by fenceposts, and the mapped ones. */
  ghost function HeldIn(h: Heap): map<int, nat> { Held(h.c, h.books.records, h.mapped) }

  /** A moment of a run: the program's buffers, the heap, and what is in memory. */
  datatype Moment = Moment(bufs: seq<Buffer>, heap: Heap, ram: map<int, int>)

  /** When a command fails: nothing that is free has room, and the system gives no memory. */
  ghost predicate Refused(s: Moment, cmd: Command, mmap: (nat, nat) -> int)
    requires Legal(s.bufs, cmd)
  {
    match cmd
    case Malloc(n) => Refuses(s.heap.c, s.heap.books.topsize, n, mmap)
    case Calloc(n, size) => Refuses(s.heap.c, s.heap.books.topsize, if n * size < SIZE_T then n * size else SIZE_T - 1, mmap)
    case Memalign(alignment, n) => exists a :: M.Rounded(alignment, a) && M.MemalignRefuses(s.heap.c, s.heap.books.topsize, a, n, mmap)
    case Realloc(i, n) => ReallocRefuses(s.heap.c, s.heap.mapped, s.heap.books.topsize, s.bufs[i].mem, n, mmap)
    case Write(_, _, _) => false
    case Release(_) => false
  }

  /** What a command does to a program's buffers when it does not fail: nothing but what it says. */
  ghost predicate Effect(s: Moment, cmd: Command, bufs': seq<Buffer>, heap': Heap)
    requires Legal(s.bufs, cmd)
  {
    var bufs := s.bufs;
    match cmd
    case Malloc(n) => exists b :: bufs' == bufs + [b] && |b.bytes| == n && !b.aligned && Unwritten(s.ram, b)
    case Calloc(n, size) => exists b :: bufs' == bufs + [b] && !b.aligned && Cleared(s.ram, heap'.mapped, b, n * size)
    case Memalign(alignment, n) =>
      exists b :: bufs' == bufs + [b] && |b.bytes| == n && b.aligned && Unwritten(s.ram, b) && (A.IsPower(alignment) ==> b.mem % alignment == 0)
    case Realloc(i, n) => exists b :: bufs' == bufs[i := b] && |b.bytes| == n && !b.aligned && SamePrefix(bufs[i].bytes, b.bytes)
    case Write(i, k, v) => bufs' == bufs[i := bufs[i].(bytes := bufs[i].bytes[k := v])]
    case Release(i) => bufs' == Without(bufs, i)
  }

  /** All bytes are zero, except that a mapped chunk has what was in memory. */
  ghost predicate Cleared(ram: map<int, int>, mapped: map<int, Mapping>, b: Buffer, n: nat) {
    && |b.bytes| == n
    && forall k :: 0 <= k < n ==> b.bytes[k] == if ChunkOf(b) in mapped then Byte(ram, b.mem + k) else 0
  }

  /** The buffer has what was in memory. */
  ghost predicate Unwritten(ram: map<int, int>, b: Buffer) {
    forall k :: 0 <= k < |b.bytes| ==> b.bytes[k] == Byte(ram, b.mem + k)
  }

  /** The padded size for which a command may ask the system. */
  ghost predicate AsksFor(cmd: Command, nb: nat) {
    match cmd
    case Malloc(n) => nb == Wanted(n)
    case Calloc(n, size) => nb == Wanted(if n * size < SIZE_T then n * size else SIZE_T - 1)
    case Memalign(alignment, n) => exists a :: M.Rounded(alignment, a) && nb == Wanted(M.WithSlack(n, a))
    case Realloc(_, n) => nb == Wanted(n)
    case Write(_, _, _) => false
    case Release(_) => false
  }

  /**
   The segments are the same, or grew by what the system gave for this command, and the mappings have no memory but what
   they had and what the system gave for this command.
   */
  ghost predicate UsesOnlyGiven(h: Heap, cmd: Command, mmap: (nat, nat) -> int, h': Heap) {
    && (h'.books.segs == h.books.segs || exists nb :: AsksFor(cmd, nb) && SegmentGiven(h.books.segs, h'.books.segs, mmap, nb))
    && (forall x :: InMapped(h'.mapped, x) ==> InMapped(h.mapped, x) || exists nb :: AsksFor(cmd, nb) && GivenBy(mmap, 0, MappingSize(nb), x))
  }

  /** A command has its effect unless it is refused, and then nothing changes. */
  ghost predicate Transition(s: Moment, cmd: Command, mmap: (nat, nat) -> int, bufs': seq<Buffer>, heap': Heap) {
    && (if Legal(s.bufs, cmd) && !Refused(s, cmd, mmap) then Effect(s, cmd, bufs', heap')
        else bufs' == s.bufs && heap' == s.heap)
    && UsesOnlyGiven(s.heap, cmd, mmap, heap')
  }

  lemma SuppliedFor(h: Heap, cmd: Command, mmap: (nat, nat) -> int, h': Heap, nb: nat)
    requires Supplied(h.books.segs, h.mapped, h'.books.segs, h'.mapped, mmap, nb) && AsksFor(cmd, nb)
    ensures UsesOnlyGiven(h, cmd, mmap, h')
  {
    hide GivenBy, AsksFor, InMapped, SegmentGiven;
  }

  lemma NothingNew(h: Heap, cmd: Command, mmap: (nat, nat) -> int)
    ensures UsesOnlyGiven(h, cmd, mmap, h)
  {
  }

  /** The buffers are aligned and share no byte. */
  ghost predicate Independent(bufs: seq<Buffer>) {
    && (forall i :: 0 <= i < |bufs| ==> bufs[i].mem > 0 && bufs[i].mem % MALLOC_ALIGNMENT == 0)
    && (forall i, j :: 0 <= i < j < |bufs| ==>
          Disjoint(bufs[i].mem, bufs[i].mem + |bufs[i].bytes|, bufs[j].mem, bufs[j].mem + |bufs[j].bytes|))
  }

  /**
   The chunk of a buffer has room for it, and unless it is mapped it is less than a minimal chunk larger than needed (or
   just so much, if an alignment was asked for).
   */
  ghost predicate Snug(held: map<int, nat>, mapped: map<int, Mapping>, b: Buffer) {
    var p := ChunkOf(b);
    && p in held && |b.bytes| <= Provides(held, mapped, p)
    && (p !in mapped ==> held[p] < Padded(|b.bytes|) + MIN_CHUNK_SIZE + if b.aligned then 1 else 0)
  }

  /** No head, foot or link that the allocator keeps overlaps the buffer. */
  ghost predicate OffLimits(h: Heap, b: Buffer) { KeepsOff(h.head, h.foot, h.books.bins.links, b.mem, b.mem + |b.bytes|) }

  /** The buffer lies in memory that the allocator has. */
  ghost predicate InMemory(h: Heap, b: Buffer) { forall x :: b.mem <= x < b.mem + |b.bytes| ==> Has(h.books.segs, h.mapped, x) }

  /**
   The heap is well formed, the chunks in use are those of the buffers, one each, and segment records, and the buffers
   are independent, with their bytes in memory.
   */
  ghost predicate Orderly(s: Moment) {
    && WellFormed(s.heap) && Independent(s.bufs)
    && (forall p :: p in HeldIn(s.heap) ==> Names(s.bufs, p))
    && (forall i, j :: 0 <= i < j < |s.bufs| ==> s.bufs[i].mem != s.bufs[j].mem)
    && (forall i :: 0 <= i < |s.bufs| ==>
          Snug(HeldIn(s.heap), s.heap.mapped, s.bufs[i]) && OffLimits(s.heap, s.bufs[i]) && InMemory(s.heap, s.bufs[i]))
    && (forall i, k :: 0 <= i < |s.bufs| && 0 <= k < |s.bufs[i].bytes| ==> Byte(s.ram, s.bufs[i].mem + k) == s.bufs[i].bytes[k])
  }

  // ---------------------------------------------------------------- how the allocator keeps it

  function ChunkOf(b: Buffer): int { b.mem - MEM_OFFSET }

  ghost predicate Backed(held: map<int, nat>, mapped: map<int, Mapping>, data: map<int, int>, b: Buffer) {
    && Snug(held, mapped, b)
    && forall k :: 0 <= k < |b.bytes| ==> Byte(data, b.mem + k) == b.bytes[k]
  }

  ghost predicate Names(bufs: seq<Buffer>, p: int) { exists i :: 0 <= i < |bufs| && ChunkOf(bufs[i]) == p }

  /** Every buffer is a held chunk of its own, every held chunk is a buffer, and the bytes are there. */
  ghost predicate Backing(held: map<int, nat>, mapped: map<int, Mapping>, data: map<int, int>, bufs: seq<Buffer>) {
    && (forall i :: 0 <= i < |bufs| ==> Backed(held, mapped, data, bufs[i]))
    && (forall i, j :: 0 <= i < j < |bufs| ==> bufs[i].mem != bufs[j].mem)
    && (forall p :: p in held ==> Names(bufs, p))
  }

  ghost predicate Valid(m: MallocState, bufs: seq<Buffer>, data: map<int, int>)
    reads m
  {
    Sound(m, {}) && Backing(HeldBy(m), m.mapped, data, bufs)
  }

  lemma ChunksApart(m: MallocState, p: int, n: nat, q: int, k: nat)
    requires Sound(m, {}) && p in HeldBy(m) && q in HeldBy(m) && p != q && n <= Usable(m, p) && k <= Usable(m, q)
    ensures Disjoint(p + MEM_OFFSET, p + MEM_OFFSET + n, q + MEM_OFFSET, q + MEM_OFFSET + k)
  {
    hide HeapOk, BooksOk, LeastOk, Held;
    if p < q {
      HeldApart(m, p, q);
    } else {
      HeldApart(m, q, p);
    }
  }

  lemma ValidIndependent(m: MallocState, bufs: seq<Buffer>, data: map<int, int>)
    requires Valid(m, bufs, data)
    ensures Independent(bufs)
  {
    hide HeapOk, BooksOk, LeastOk, Held;
    forall i | 0 <= i < |bufs|
      ensures bufs[i].mem > 0 && bufs[i].mem % MALLOC_ALIGNMENT == 0
    {
      assert Backed(HeldBy(m), m.mapped, data, bufs[i]);
      HeldAligned(m, ChunkOf(bufs[i]));
    }
    forall i, j | 0 <= i < j < |bufs|
      ensures Disjoint(bufs[i].mem, bufs[i].mem + |bufs[i].bytes|, bufs[j].mem, bufs[j].mem + |bufs[j].bytes|)
    {
      assert Backed(HeldBy(m), m.mapped, data, bufs[i]) && Backed(HeldBy(m), m.mapped, data, bufs[j]);
      ChunksApart(m, ChunkOf(bufs[i]), |bufs[i].bytes|, ChunkOf(bufs[j]), |bufs[j].bytes|);
    }
  }

  /** What the allocator keeps about its chunks makes every moment an orderly one. */
  lemma ValidOrderly(m: MallocState, bufs: seq<Buffer>, data: map<int, int>)
    requires Valid(m, bufs, data)
    ensures Orderly(Moment(bufs, HeapOf(m), data))
  {
    hide HeapOk, BooksOk, LeastOk, Held, KeepsOff;
    assert HeldIn(HeapOf(m)) == HeldBy(m);
    ValidIndependent(m, bufs, data);
    forall i | 0 <= i < |bufs|
      ensures Snug(HeldBy(m), m.mapped, bufs[i]) && OffLimits(HeapOf(m), bufs[i]) && InMemory(HeapOf(m), bufs[i])
    {
      assert Backed(HeldBy(m), m.mapped, data, bufs[i]);
      BufferOff(m, bufs[i]);
      BufferInMemory(m, bufs[i]);
    }
    forall i, k | 0 <= i < |bufs| && 0 <= k < |bufs[i].bytes|
      ensures Byte(data, bufs[i].mem + k) == bufs[i].bytes[k]
    {
      assert Backed(HeldBy(m), m.mapped, data, bufs[i]);
    }
  }

  lemma BufferInMemory(m: MallocState, b: Buffer)
    requires Sound(m, {}) && Snug(HeldBy(m), m.mapped, b)
    ensures InMemory(HeapOf(m), b)
  {
    hide HeapOk, BooksOk, LeastOk, Held, Has;
    forall x | b.mem <= x < b.mem + |b.bytes|
      ensures Has(m.segs, m.mapped, x)
    {
      HeldInMemory(m, ChunkOf(b), x);
    }
  }

  lemma BufferOff(m: MallocState, b: Buffer)
    requires Sound(m, {}) && Snug(HeldBy(m), m.mapped, b)
    ensures OffLimits(HeapOf(m), b)
  {
    hide HeapOk, BooksOk, LeastOk, Held, KeepsOff;
    var q := ChunkOf(b);
    HeldIsPrivate(m, q);
    PartIsPrivate(m.head, m.foot, m.bins.links, q + MEM_OFFSET, q + MEM_OFFSET + Usable(m, q), b.mem, b.mem + |b.bytes|);
  }

  // ---------------------------------------------------------------- buffers that are not concerned

  /** The chunk at `q` is as it was, and so are its first `n` bytes. */
  ghost predicate Untouched(held: map<int, nat>, mapped: map<int, Mapping>, data: map<int, int>,
                            held': map<int, nat>, mapped': map<int, Mapping>, data': map<int, int>, b: Buffer) {
    var q := ChunkOf(b);
    && q in held && q in held' && held'[q] == held[q] && (q in mapped' <==> q in mapped)
    && forall a :: b.mem <= a < b.mem + |b.bytes| ==> Byte(data', a) == Byte(data, a)
  }

  lemma StillBacked(held: map<int, nat>, mapped: map<int, Mapping>, data: map<int, int>,
                    held': map<int, nat>, mapped': map<int, Mapping>, data': map<int, int>, b: Buffer)
    requires Backed(held, mapped, data, b) && Untouched(held, mapped, data, held', mapped', data', b)
    ensures Backed(held', mapped', data', b)
  {
    forall k | 0 <= k < |b.bytes|
      ensures Byte(data', b.mem + k) == b.bytes[k]
    {
    }
  }

  /** A buffer is added. */
  lemma Added(held: map<int, nat>, mapped: map<int, Mapping>, data: map<int, int>,
              held': map<int, nat>, mapped': map<int, Mapping>, data': map<int, int>, bufs: seq<Buffer>, b: Buffer)
    requires Backing(held, mapped, data, bufs) && Backed(held', mapped', data', b)
    requires ChunkOf(b) !in held && held' == held[ChunkOf(b) := held'[ChunkOf(b)]]
    requires forall i :: 0 <= i < |bufs| ==> Untouched(held, mapped, data, held', mapped', data', bufs[i])
    ensures Backing(held', mapped', data', bufs + [b])
  {
    var bufs' := bufs + [b];
    forall i | 0 <= i < |bufs'|
      ensures Backed(held', mapped', data', bufs'[i])
    {
      if i < |bufs| {
        StillBacked(held, mapped, data, held', mapped', data', bufs[i]);
      }
    }
    forall i | 0 <= i < |bufs|
      ensures bufs[i].mem != b.mem
    {
      assert Backed(held, mapped, data, bufs[i]);
    }
    forall p | p in held'
      ensures Names(bufs', p)
    {
      if p in held {
        assert Names(bufs, p);
        var i :| 0 <= i < |bufs| && ChunkOf(bufs[i]) == p;
        assert ChunkOf(bufs'[i]) == p;
      } else {
        assert ChunkOf(bufs'[|bufs|]) == p;
      }
    }
  }

  /** A buffer is replaced by one that may lie elsewhere. */
  lemma Replaced(held: map<int, nat>, mapped: map<int, Mapping>, data: map<int, int>,
                 held': map<int, nat>, mapped': map<int, Mapping>, data': map<int, int>, bufs: seq<Buffer>, i: nat, b: Buffer)
    requires Backing(held, mapped, data, bufs) && i < |bufs| && Backed(held', mapped', data', b)
    requires ChunkOf(b) !in held || b.mem == bufs[i].mem
    requires held' == (held - {ChunkOf(bufs[i])})[ChunkOf(b) := held'[ChunkOf(b)]]
    requires forall j :: 0 <= j < |bufs| && j != i ==> Untouched(held, mapped, data, held', mapped', data', bufs[j])
    ensures Backing(held', mapped', data', bufs[i := b])
  {
    var bufs' := bufs[i := b];
    forall j | 0 <= j < |bufs'|
      ensures Backed(held', mapped', data', bufs'[j])
    {
      if j != i {
        StillBacked(held, mapped, data, held', mapped', data', bufs[j]);
      }
    }
    forall j | 0 <= j < |bufs| && j != i
      ensures bufs[j].mem != b.mem
    {
      assert Backed(held, mapped, data, bufs[j]);
    }
    forall p | p in held'
      ensures Names(bufs', p)
    {
      if p == ChunkOf(b) {
        assert ChunkOf(bufs'[i]) == p;
      } else {
        assert Names(bufs, p);
        var j :| 0 <= j < |bufs| && ChunkOf(bufs[j]) == p;
        assert ChunkOf(bufs'[j]) == p;
      }
    }
  }

  /** A buffer is given back. */
  lemma Removed(held: map<int, nat>, mapped: map<int, Mapping>, data: map<int, int>,
                held': map<int, nat>, mapped': map<int, Mapping>, bufs: seq<Buffer>, i: nat)
    requires Backing(held, mapped, data, bufs) && i < |bufs| && held' == held - {ChunkOf(bufs[i])}
    requires forall j :: 0 <= j < |bufs| && j != i ==> Untouched(held, mapped, data, held', mapped', data, bufs[j])
    ensures Backing(held', mapped', data, Without(bufs, i))
  {
    hide Backed, Untouched;
    var bufs' := Without(bufs, i);
    forall j | 0 <= j < |bufs'|
      ensures Backed(held', mapped', data, bufs'[j])
    {
      var o := if j < i then j else j + 1;
      assert bufs'[j] == bufs[o];
      StillBacked(held, mapped, data, held', mapped', data, bufs[o]);
    }
    forall p | p in held'
      ensures Names(bufs', p)
    {
      assert Names(bufs, p);
      var j :| 0 <= j < |bufs| && ChunkOf(bufs[j]) == p;
      assert ChunkOf(bufs'[if j < i then j else j - 1]) == p;
    }
  }

  // ---------------------------------------------------------------- commands

  /** The bytes that are at `mem`. */
  function Snapshot(data: map<int, int>, mem: int, n: nat): (s: seq<int>)
    ensures |s| == n && forall k :: 0 <= k < n ==> s[k] == Byte(data, mem + k)
  {
    seq(n, k => Byte(data, mem + k))
  }

  /** Only bytes in `[mem, mem + n)` were written. */
  ghost predicate WroteOnly(data: map<int, int>, data': map<int, int>, mem: int, n: nat) {
    forall a {:trigger Byte(data', a)} :: !(mem <= a < mem + n) ==> Byte(data', a) == Byte(data, a)
  }

  predicate Occupied(bufs: seq<Buffer>, a: int) {
    exists i :: 0 <= i < |bufs| && bufs[i].mem <= a < bufs[i].mem + |bufs[i].bytes|
  }

  /** No byte has changed that is in no buffer. */
  ghost predicate SameOutsideBuffers(data: map<int, int>, data': map<int, int>, bufs: seq<Buffer>) {
    forall a :: !Occupied(bufs, a) ==> Byte(data', a) == Byte(data, a)
  }

  lemma InsideBuffer(bufs: seq<Buffer>, i: nat, data: map<int, int>, data': map<int, int>, mem: int, n: nat)
    requires i < |bufs| && bufs[i].mem == mem && |bufs[i].bytes| == n && WroteOnly(data, data', mem, n)
    ensures SameOutsideBuffers(data, data', bufs)
  {
  }

  lemma CarriedInside(data: map<int, int>, data': map<int, int>, oldmem: int, mem: int, k: int, n: nat)
    requires Carried(data, data', oldmem, mem, k) && k <= n
    ensures WroteOnly(data, data', mem, n)
  {
  }

  /** A buffer whose chunk was kept is not affected by what was written to another chunk. */
  lemma Unaffected(m: MallocState, held: map<int, nat>, mapped: map<int, Mapping>, data: map<int, int>, data': map<int, int>,
                   b: Buffer, mem: int, n: nat)
    requires Sound(m, {}) && Backed(held, mapped, data, b) && WroteOnly(data, data', mem, n) && b.mem != mem
    requires mem - MEM_OFFSET in HeldBy(m) && n <= Usable(m, mem - MEM_OFFSET)
    requires var q := ChunkOf(b); q in HeldBy(m) && HeldBy(m)[q] == held[q] && (q in m.mapped <==> q in mapped)
    ensures Untouched(held, mapped, data, HeldBy(m), m.mapped, data', b)
  {
    hide HeapOk, BooksOk, LeastOk, Held, Sound;
    ChunksApart(m, mem - MEM_OFFSET, n, ChunkOf(b), |b.bytes|);
  }

  lemma AllUnaffected(m: MallocState, held: map<int, nat>, mapped: map<int, Mapping>, data: map<int, int>, data': map<int, int>,
                      bufs: seq<Buffer>, mem: int, n: nat)
    requires Sound(m, {}) && Backing(held, mapped, data, bufs) && WroteOnly(data, data', mem, n)
    requires var p := mem - MEM_OFFSET;
             p in HeldBy(m) && p !in held && HeldBy(m) == held[p := HeldBy(m)[p]] && n <= Usable(m, p)
    requires forall q :: q in held ==> (q in m.mapped <==> q in mapped)
    ensures forall i :: 0 <= i < |bufs| ==> Untouched(held, mapped, data, HeldBy(m), m.mapped, data', bufs[i])
  {
    hide HeapOk, BooksOk, LeastOk, Held, Sound;
    forall i | 0 <= i < |bufs|
      ensures Untouched(held, mapped, data, HeldBy(m), m.mapped, data', bufs[i])
    {
      assert Backed(held, mapped, data, bufs[i]);
      Unaffected(m, held, mapped, data, data', bufs[i], mem, n);
    }
  }

  /** What a new block adds to the program's buffers. */
  lemma NewBuffer(m: MallocState, held: map<int, nat>, mapped: map<int, Mapping>, data: map<int, int>, data': map<int, int>,
                  bufs: seq<Buffer>, mem: int, n: nat, aligned: bool)
    requires Sound(m, {}) && Backing(held, mapped, data, bufs) && WroteOnly(data, data', mem, n)
    requires var p := mem - MEM_OFFSET;
             p in HeldBy(m) && p !in held && HeldBy(m) == held[p := HeldBy(m)[p]] && n <= Usable(m, p)
    requires forall q :: q in held ==> (q in m.mapped <==> q in mapped)
    requires Snug(HeldBy(m), m.mapped, Buffer(mem, Snapshot(data', mem, n), aligned))
    ensures Valid(m, bufs + [Buffer(mem, Snapshot(data', mem, n), aligned)], data')
  {
    hide HeapOk, BooksOk, LeastOk, Held;
    AllUnaffected(m, held, mapped, data, data', bufs, mem, n);
    Added(held, mapped, data, HeldBy(m), m.mapped, data', bufs, Buffer(mem, Snapshot(data', mem, n), aligned));
  }

  lemma ServesSnug(m: MallocState, held: map<int, nat>, p: int, n: nat, bytes: seq<int>)
    requires Serves(held, HeldBy(m), m.mapped, p, n) && |bytes| == n
    ensures Snug(HeldBy(m), m.mapped, Buffer(p + MEM_OFFSET, bytes, false))
  {
  }

  method DoMalloc(m: MallocState, bufs: seq<Buffer>, data: map<int, int>, n: nat, mmap: (nat, nat) -> int)
    returns (bufs': seq<Buffer>)
    requires Valid(m, bufs, data) && Legal(bufs, Malloc(n)) && Honest(m.segs, m.mapped, mmap)
    modifies m
    ensures Valid(m, bufs', data)
    ensures Transition(Moment(bufs, old(HeapOf(m)), data), Malloc(n), mmap, bufs', HeapOf(m))
  {
    hide HeapOk, BooksOk, LeastOk, Held, Backing, Serves, Refuses, ServedDirectly, InMapping, Supplied, Snug;
    ghost var held, mapped := HeldBy(m), m.mapped;
    var mem := DlMalloc.Malloc(m, n, mmap);
    SuppliedFor(old(HeapOf(m)), Malloc(n), mmap, HeapOf(m), Wanted(n));
    bufs' := bufs;
    if mem != 0 {
      ServesHeld(m, held, mem - MEM_OFFSET, n);
      ServesOnly(held, HeldBy(m), m.mapped, mem - MEM_OFFSET, n);
      ServesSnug(m, held, mem - MEM_OFFSET, n, Snapshot(data, mem, n));
      NewBuffer(m, held, mapped, data, data, bufs, mem, n, false);
      var b := Buffer(mem, Snapshot(data, mem, n), false);
      bufs' := bufs + [b];
    }
  }

  lemma ServesOnly(held: map<int, nat>, held': map<int, nat>, mapped': map<int, Mapping>, p: int, n: nat)
    requires Serves(held, held', mapped', p, n)
    ensures p in held' && held' == held[p := held'[p]]
  {
  }

  method DoCalloc(m: MallocState, bufs: seq<Buffer>, data: map<int, int>, n: nat, size: nat, mmap: (nat, nat) -> int)
    returns (bufs': seq<Buffer>, data': map<int, int>)
    requires Valid(m, bufs, data) && Legal(bufs, Calloc(n, size)) && Honest(m.segs, m.mapped, mmap)
    modifies m
    ensures Valid(m, bufs', data')
    ensures Transition(Moment(bufs, old(HeapOf(m)), data), Calloc(n, size), mmap, bufs', HeapOf(m))
    ensures SameOutsideBuffers(data, data', bufs')
  {
    hide HeapOk, BooksOk, LeastOk, Held, Backing, Serves, Refuses, ServedDirectly, InMapping, Supplied, Snug, AllZero;
    ghost var held, mapped := HeldBy(m), m.mapped;
    var mem;
    mem, data' := BlockContents.Calloc(m, n, size, mmap, data);
    ProductChecked(n, size);
    SuppliedFor(old(HeapOf(m)), Calloc(n, size), mmap, HeapOf(m), Wanted(Product(n, size)));
    bufs' := bufs;
    if mem != 0 {
      ServesHeld(m, held, mem - MEM_OFFSET, n * size);
      ServesOnly(held, HeldBy(m), m.mapped, mem - MEM_OFFSET, n * size);
      ServesSnug(m, held, mem - MEM_OFFSET, n * size, Snapshot(data', mem, n * size));
      NewBuffer(m, held, mapped, data, data', bufs, mem, n * size, false);
      var b := Buffer(mem, Snapshot(data', mem, n * size), false);
      assert Cleared(data, m.mapped, b, n * size);
      bufs' := bufs + [b];
      InsideBuffer(bufs', |bufs|, data, data', mem, n * size);
    }
  }

  lemma AlignedSnug(m: MallocState, p: int, n: nat, bytes: seq<int>)
    requires p in HeldBy(m) && n <= Usable(m, p) && (p !in m.mapped ==> HeldBy(m)[p] <= Padded(n) + MIN_CHUNK_SIZE) && |bytes| == n
    ensures Snug(HeldBy(m), m.mapped, Buffer(p + MEM_OFFSET, bytes, true))
  {
  }

  /** The alignment that is used is determined by the one that was asked for. */
  lemma RoundedOnce(alignment: nat, a: nat, b: nat)
    requires M.Rounded(alignment, a) && M.Rounded(alignment, b)
    ensures a == b
  {
    A.OneRoundedUp(if alignment < MIN_CHUNK_SIZE then MIN_CHUNK_SIZE else alignment, a, b);
  }

  lemma MemalignRefused(s: Moment, alignment: nat, n: nat, a: nat, mmap: (nat, nat) -> int)
    requires M.Rounded(alignment, a) && Legal(s.bufs, Memalign(alignment, n))
    ensures Refused(s, Memalign(alignment, n), mmap) <==> M.MemalignRefuses(s.heap.c, s.heap.books.topsize, a, n, mmap)
  {
    hide M.Rounded, M.MemalignRefuses;
    forall b | M.Rounded(alignment, b)
      ensures b == a
    {
      RoundedOnce(alignment, a, b);
    }
  }

  lemma MemalignAsks(alignment: nat, n: nat, a: nat)
    requires M.Rounded(alignment, a)
    ensures AsksFor(Memalign(alignment, n), Wanted(M.WithSlack(n, a)))
  {
    hide M.Rounded;
  }

  method DoMemalign(m: MallocState, bufs: seq<Buffer>, data: map<int, int>, alignment: nat, n: nat, mmap: (nat, nat) -> int)
    returns (bufs': seq<Buffer>)
    requires Valid(m, bufs, data) && Legal(bufs, Memalign(alignment, n)) && Honest(m.segs, m.mapped, mmap)
    modifies m
    ensures Valid(m, bufs', data)
    ensures Transition(Moment(bufs, old(HeapOf(m)), data), Memalign(alignment, n), mmap, bufs', HeapOf(m))
  {
    hide HeapOk, BooksOk, LeastOk, Held, Backing, Snug, M.Rounded, M.MemalignRefuses, A.IsPower, Refused, Supplied;
    ghost var held, mapped := HeldBy(m), m.mapped;
    var mem;
    ghost var a;
    mem, a := M.Memalign(m, alignment, n, mmap);
    MemalignRefused(Moment(bufs, old(HeapOf(m)), data), alignment, n, a, mmap);
    MemalignAsks(alignment, n, a);
    SuppliedFor(old(HeapOf(m)), Memalign(alignment, n), mmap, HeapOf(m), Wanted(M.WithSlack(n, a)));
    bufs' := bufs;
    if mem != 0 {
      AlignedSnug(m, mem - MEM_OFFSET, n, Snapshot(data, mem, n));
      NewBuffer(m, held, mapped, data, data, bufs, mem, n, true);
      var b := Buffer(mem, Snapshot(data, mem, n), true);
      bufs' := bufs + [b];
    }
  }

  /** What a block that was resized or moved means for the program's buffers. */
  lemma MovedBuffer(m: MallocState, held: map<int, nat>, mapped: map<int, Mapping>, data: map<int, int>, data': map<int, int>,
                    bufs: seq<Buffer>, i: nat, mem: int, n: nat)
    requires Sound(m, {}) && Backing(held, mapped, data, bufs) && i < |bufs| && ChunkOf(bufs[i]) in held
    requires var p, oldp := mem - MEM_OFFSET, ChunkOf(bufs[i]);
             && p in HeldBy(m) && n <= Usable(m, p) && (p == oldp || p !in held)
             && HeldBy(m) == (held - {oldp})[p := HeldBy(m)[p]]
             && forall q :: q != p && q != oldp ==> (q in m.mapped <==> q in mapped)
    requires Carried(data, data', bufs[i].mem, mem, Min(n, Provides(held, mapped, ChunkOf(bufs[i]))))
    requires NotTooLarge(HeldBy(m), m.mapped, mem - MEM_OFFSET, n)
    ensures Valid(m, bufs[i := Buffer(mem, Snapshot(data', mem, n), false)], data')
    ensures SamePrefix(bufs[i].bytes, Snapshot(data', mem, n))
  {
    hide HeapOk, BooksOk, LeastOk, Held;
    assert Backed(held, mapped, data, bufs[i]);
    RestUnaffected(m, held, mapped, data, data', bufs, i, mem, n);
    Replaced(held, mapped, data, HeldBy(m), m.mapped, data', bufs, i, Buffer(mem, Snapshot(data', mem, n), false));
    PrefixKept(data, data', bufs[i], mem, n, Provides(held, mapped, ChunkOf(bufs[i])));
  }

  lemma BufferHeld(m: MallocState, bufs: seq<Buffer>, data: map<int, int>, i: nat)
    requires Valid(m, bufs, data) && i < |bufs|
    ensures ChunkOf(bufs[i]) in HeldBy(m) && bufs[i].mem > 0
  {
    hide HeapOk, BooksOk, LeastOk, Held;
    assert Backed(HeldBy(m), m.mapped, data, bufs[i]);
    HeldAligned(m, ChunkOf(bufs[i]));
  }

  method DoRealloc(m: MallocState, bufs: seq<Buffer>, data: map<int, int>, i: nat, n: nat, mmap: (nat, nat) -> int)
    returns (bufs': seq<Buffer>, data': map<int, int>)
    requires Valid(m, bufs, data) && Legal(bufs, Realloc(i, n)) && Honest(m.segs, m.mapped, mmap)
    modifies m
    ensures Valid(m, bufs', data')
    ensures Transition(Moment(bufs, old(HeapOf(m)), data), Realloc(i, n), mmap, bufs', HeapOf(m))
    ensures SameOutsideBuffers(data, data', bufs')
  {
    hide HeapOk, BooksOk, LeastOk, Held, Backing, Carried, SamePrefix, ReallocRefuses, NotTooLarge, Supplied;
    ghost var held, mapped := HeldBy(m), m.mapped;
    BufferHeld(m, bufs, data, i);
    var mem;
    mem, data' := BlockContents.Realloc(m, bufs[i].mem, n, mmap, data);
    SuppliedFor(old(HeapOf(m)), Realloc(i, n), mmap, HeapOf(m), Wanted(n));
    bufs' := bufs;
    if mem != 0 {
      var b := Buffer(mem, Snapshot(data', mem, n), false);
      MovedBuffer(m, held, mapped, data, data', bufs, i, mem, n);
      bufs' := bufs[i := b];
      CarriedInside(data, data', bufs[i].mem, mem, Min(n, Provides(held, mapped, ChunkOf(bufs[i]))), n);
      InsideBuffer(bufs', i, data, data', mem, n);
    }
  }

  lemma PrefixKept(data: map<int, int>, data': map<int, int>, old_: Buffer, mem: int, n: nat, u: int)
    requires Carried(data, data', old_.mem, mem, Min(n, u)) && |old_.bytes| <= u
    requires forall k :: 0 <= k < |old_.bytes| ==> Byte(data, old_.mem + k) == old_.bytes[k]
    ensures SamePrefix(old_.bytes, Snapshot(data', mem, n))
  {
  }

  lemma RestUnaffected(m: MallocState, held: map<int, nat>, mapped: map<int, Mapping>, data: map<int, int>, data': map<int, int>,
                       bufs: seq<Buffer>, i: nat, mem: int, n: nat)
    requires Sound(m, {}) && Backing(held, mapped, data, bufs) && i < |bufs| && WroteOnly(data, data', mem, n)
    requires var p, oldp := mem - MEM_OFFSET, ChunkOf(bufs[i]);
             && p in HeldBy(m) && n <= Usable(m, p) && (p == oldp || p !in held)
             && HeldBy(m) == (held - {oldp})[p := HeldBy(m)[p]]
             && forall q :: q != p && q != oldp ==> (q in m.mapped <==> q in mapped)
    ensures forall j :: 0 <= j < |bufs| && j != i ==> Untouched(held, mapped, data, HeldBy(m), m.mapped, data', bufs[j])
  {
    hide HeapOk, BooksOk, LeastOk, Held, Sound;
    forall j | 0 <= j < |bufs| && j != i
      ensures Untouched(held, mapped, data, HeldBy(m), m.mapped, data', bufs[j])
    {
      assert Backed(held, mapped, data, bufs[j]) && bufs[j].mem != bufs[i].mem;
      Unaffected(m, held, mapped, data, data', bufs[j], mem, n);
    }
  }

  lemma LessMapped(h: Heap, cmd: Command, mmap: (nat, nat) -> int, h': Heap, p: int)
    requires h'.books.segs == h.books.segs && h'.mapped == h.mapped - {p}
    ensures UsesOnlyGiven(h, cmd, mmap, h')
  {
    forall x | InMapped(h'.mapped, x)
      ensures InMapped(h.mapped, x)
    {
      var q :| MappingHas(h'.mapped, q, x);
      assert MappingHas(h.mapped, q, x);
    }
  }

  method DoRelease(m: MallocState, bufs: seq<Buffer>, data: map<int, int>, i: nat, ghost mmap: (nat, nat) -> int) returns (bufs': seq<Buffer>)
    requires Valid(m, bufs, data) && Legal(bufs, Release(i))
    modifies m
    ensures Valid(m, bufs', data)
    ensures Transition(Moment(bufs, old(HeapOf(m)), data), Release(i), mmap, bufs', HeapOf(m))
  {
    hide HeapOk, BooksOk, LeastOk, Held;
    ghost var held, mapped := HeldBy(m), m.mapped;
    ValidIndependent(m, bufs, data);
    DlMalloc.Free(m, bufs[i].mem);
    forall j | 0 <= j < |bufs| && j != i
      ensures Untouched(held, mapped, data, HeldBy(m), m.mapped, data, bufs[j])
    {
      assert Backed(held, mapped, data, bufs[j]) && bufs[j].mem != bufs[i].mem;
    }
    Removed(held, mapped, data, HeldBy(m), m.mapped, bufs, i);
    LessMapped(old(HeapOf(m)), Release(i), mmap, HeapOf(m), ChunkOf(bufs[i]));
    bufs' := Without(bufs, i);
  }

  /** The program writes to one of its buffers. */
  method DoWrite(m: MallocState, bufs: seq<Buffer>, data: map<int, int>, i: nat, k: nat, v: int, ghost mmap: (nat, nat) -> int)
    returns (bufs': seq<Buffer>, data': map<int, int>)
    requires Valid(m, bufs, data) && Legal(bufs, Write(i, k, v))
    ensures Valid(m, bufs', data')
    ensures Transition(Moment(bufs, HeapOf(m), data), Write(i, k, v), mmap, bufs', HeapOf(m))
    ensures SameOutsideBuffers(data, data', bufs')
  {
    hide HeapOk, BooksOk, LeastOk, Held;
    ghost var held, mapped := HeldBy(m), m.mapped;
    var b := bufs[i].(bytes := bufs[i].bytes[k := v]);
    data' := data[bufs[i].mem + k := v];
    bufs' := bufs[i := b];
    assert WroteOnly(data, data', b.mem, |b.bytes|);
    assert held == (held - {ChunkOf(b)})[ChunkOf(b) := held[ChunkOf(b)]];
    RestUnaffected(m, held, mapped, data, data', bufs, i, b.mem, |b.bytes|);
    Replaced(held, mapped, data, held, mapped, data', bufs, i, b);
    NothingNew(HeapOf(m), Write(i, k, v), mmap);
    InsideBuffer(bufs', i, data, data', b.mem, |b.bytes|);
  }

  // ---------------------------------------------------------------- what the system does with memory that no buffer occupies

  /** Memory that no buffer occupies may have any contents: pages that were given back and given again need not be clear. */
  function Dirtied(data: map<int, int>, bufs: seq<Buffer>, noise: map<int, int>): map<int, int> {
    data + (map a | a in noise && !Occupied(bufs, a) :: noise[a])
  }

  /** What `noise` leaves in memory. */
  ghost predicate Left(data: map<int, int>, bufs: seq<Buffer>, noise: map<int, int>, data': map<int, int>) {
    forall a :: !Occupied(bufs, a) ==> Byte(data', a) == if a in noise then noise[a] else Byte(data, a)
  }

  lemma DirtiedLeft(data0: map<int, int>, data: map<int, int>, bufs: seq<Buffer>, noise: map<int, int>)
    requires SameOutsideBuffers(data0, data, bufs)
    ensures Left(data0, bufs, noise, Dirtied(data, bufs, noise))
  {
  }

  lemma StillValid(m: MallocState, bufs: seq<Buffer>, data: map<int, int>, noise: map<int, int>)
    requires Valid(m, bufs, data)
    ensures Valid(m, bufs, Dirtied(data, bufs, noise))
  {
    hide HeapOk, BooksOk, LeastOk, Held, Snug;
    var data' := Dirtied(data, bufs, noise);
    forall i | 0 <= i < |bufs|
      ensures Backed(HeldBy(m), m.mapped, data', bufs[i])
    {
      assert Backed(HeldBy(m), m.mapped, data, bufs[i]);
      forall k | 0 <= k < |bufs[i].bytes|
        ensures Byte(data', bufs[i].mem + k) == bufs[i].bytes[k]
      {
        assert Occupied(bufs, bufs[i].mem + k);
      }
    }
  }

  // ---------------------------------------------------------------- runs

  /**
   Any system whatever that answers `mmap` honestly. Its answers may depend on how many commands have been executed,
   on the memory that the allocator has and on what is in it.
   */
  type System = (nat, seq<Segment>, map<int, Mapping>, map<int, int>, nat, nat) -> int

  ghost predicate HonestSystem(os: System) {
    forall i, segs, mapped, data, k, n ::
      var a := os(i, segs, mapped, data, k, n); a == MFAIL || Fresh(segs, mapped, a, n)
  }

  /** The answers of the system to the `i`th command. */
  ghost function AnswersAt(os: System, i: nat, s: Moment): (nat, nat) -> int {
    (k: nat, n: nat) => os(i, s.heap.books.segs, s.heap.mapped, s.ram, k, n)
  }

  lemma Answers(os: System, i: nat, segs: seq<Segment>, mapped: map<int, Mapping>, data: map<int, int>, mmap: (nat, nat) -> int)
    requires HonestSystem(os) && forall k, n :: mmap(k, n) == os(i, segs, mapped, data, k, n)
    ensures Honest(segs, mapped, mmap)
  {
  }

  method Step(m: MallocState, bufs: seq<Buffer>, data: map<int, int>, cmd: Command, mmap: (nat, nat) -> int)
    returns (bufs': seq<Buffer>, data': map<int, int>)
    requires Valid(m, bufs, data) && Honest(m.segs, m.mapped, mmap)
    modifies m
    ensures Valid(m, bufs', data')
    ensures Transition(Moment(bufs, old(HeapOf(m)), data), cmd, mmap, bufs', HeapOf(m))
    ensures SameOutsideBuffers(data, data', bufs')
  {
    hide Valid, Honest, Transition, HeapOf;
    bufs', data' := bufs, data;
    if !Legal(bufs, cmd) {
      NoTransition(Moment(bufs, HeapOf(m), data), cmd, mmap);
      return;
    }
    match cmd
    case Malloc(n) => bufs' := DoMalloc(m, bufs, data, n, mmap);
    case Calloc(n, size) => bufs', data' := DoCalloc(m, bufs, data, n, size, mmap);
    case Memalign(alignment, n) => bufs' := DoMemalign(m, bufs, data, alignment, n, mmap);
    case Realloc(i, n) => bufs', data' := DoRealloc(m, bufs, data, i, n, mmap);
    case Write(i, k, v) => bufs', data' := DoWrite(m, bufs, data, i, k, v, mmap);
    case Release(i) => bufs' := DoRelease(m, bufs, data, i, mmap);
  }

  lemma NoTransition(s: Moment, cmd: Command, mmap: (nat, nat) -> int)
    requires !Legal(s.bufs, cmd)
    ensures Transition(s, cmd, mmap, s.bufs, s.heap)
  {
    NothingNew(s.heap, cmd, mmap);
  }

  /** The moments of a run: every one is orderly, and every command does what it should to the next. */
  ghost predicate IsTrace(trace: seq<Moment>, cmds: seq<Command>, os: System, noise: nat -> map<int, int>) {
    && |trace| == |cmds| + 1
    && trace[0].bufs == [] && trace[0].heap.books.segs == [] && trace[0].heap.mapped == map[] && Left(map[], [], noise(0), trace[0].ram)
    && (forall i :: 0 <= i < |cmds| ==> Happened(trace[i], cmds[i], os, i, noise(i + 1), trace[i + 1]))
    && (forall i :: 0 <= i < |trace| ==> Orderly(trace[i]))
  }

  /** The `i`th command, and then what the system does with memory that no buffer occupies. */
  ghost predicate Happened(s: Moment, cmd: Command, os: System, i: nat, noise: map<int, int>, s': Moment) {
    Transition(s, cmd, AnswersAt(os, i, s), s'.bufs, s'.heap) && Left(s.ram, s'.bufs, noise, s'.ram)
  }

  lemma SameAnswers(s: Moment, cmd: Command, os: System, i: nat, mmap: (nat, nat) -> int, noise: map<int, int>, s': Moment)
    requires Transition(s, cmd, mmap, s'.bufs, s'.heap) && Left(s.ram, s'.bufs, noise, s'.ram)
    requires forall k, n :: mmap(k, n) == os(i, s.heap.books.segs, s.heap.mapped, s.ram, k, n)
    ensures Happened(s, cmd, os, i, noise, s')
  {
    hide Effect, Left, Refused, UsesOnlyGiven;
    var answers := AnswersAt(os, i, s);
    assert forall k, n :: answers(k, n) == mmap(k, n);
    SameGiven(s.heap, cmd, s'.heap, mmap, answers);
    if Legal(s.bufs, cmd) {
      SameRefusal(s, cmd, mmap, answers);
    }
  }

  lemma SameGiven(h: Heap, cmd: Command, h': Heap, mmap: (nat, nat) -> int, answers: (nat, nat) -> int)
    requires UsesOnlyGiven(h, cmd, mmap, h') && forall k, n :: answers(k, n) == mmap(k, n)
    ensures UsesOnlyGiven(h, cmd, answers, h')
  {
    hide InMapped, SegmentSize, MappingSize, AsksFor, Grew;
    forall nb
      ensures SegmentGiven(h.books.segs, h'.books.segs, mmap, nb) <==> SegmentGiven(h.books.segs, h'.books.segs, answers, nb)
    {
    }
    forall nb, x
      ensures GivenBy(mmap, 0, MappingSize(nb), x) <==> GivenBy(answers, 0, MappingSize(nb), x)
    {
    }
  }

  lemma SameRefusal(s: Moment, cmd: Command, mmap: (nat, nat) -> int, answers: (nat, nat) -> int)
    requires Legal(s.bufs, cmd) && forall k, n :: answers(k, n) == mmap(k, n)
    ensures Refused(s, cmd, mmap) <==> Refused(s, cmd, answers)
  {
    hide SegmentSize, MappingSize, Padded, NothingFits, M.Rounded, CanResize, NoMemory;
    forall nb: nat
      ensures NoMemory(s.heap.books.topsize, nb, mmap) <==> NoMemory(s.heap.books.topsize, nb, answers)
    {
      SameMemory(s.heap.books.topsize, nb, mmap, answers);
    }
  }

  lemma SameMemory(topsize: nat, nb: nat, mmap: (nat, nat) -> int, answers: (nat, nat) -> int)
    requires forall k, n :: answers(k, n) == mmap(k, n)
    ensures NoMemory(topsize, nb, mmap) <==> NoMemory(topsize, nb, answers)
  {
  }

  /**
   Every run, whatever the program, whatever memory the system gives and whatever is in it: at every moment the heap is
   well formed, and the blocks that were returned and not yet given back are aligned, lie in memory that the system gave,
   share no byte with one another or with a word of the allocator, and fit snugly; every command affects them as if they
   were separate buffers; and a request is refused only if nothing that is free has room and the system gives no memory.
   */
  method Run(cmds: seq<Command>, os: System, noise: nat -> map<int, int>)
    returns (m: MallocState, seen: seq<seq<Buffer>>, ghost trace: seq<Moment>)
    requires HonestSystem(os)
    ensures |seen| == |cmds| + 1 && forall i :: 0 <= i < |seen| ==> Independent(seen[i])
    ensures IsTrace(trace, cmds, os, noise) && forall i :: 0 <= i < |seen| ==> seen[i] == trace[i].bufs
    ensures fresh(m) && Sound(m, {}) && trace[|cmds|].heap == HeapOf(m)
  {
    hide HonestSystem, Transition, Orderly, Valid, HeapOf, Honest, Dirtied, Independent, Happened, AnswersAt, Sound, HeldBy, Fresh, Left, SameOutsideBuffers;
    m := new MallocState();
    var data: map<int, int> := Dirtied(map[], [], noise(0));
    StartsValid(m, data);
    StartsLeft(noise(0));
    HeapParts(m);
    ValidOrderly(m, [], data);
    var bufs: seq<Buffer> := [];
    seen, trace := [bufs], [Moment(bufs, HeapOf(m), data)];
    OrderlyIndependent(trace[0]);
    for i := 0 to |cmds|
      invariant fresh(m) && Valid(m, bufs, data) && |trace| == |seen| == i + 1 && trace[i] == Moment(bufs, HeapOf(m), data)
      invariant trace[0].bufs == [] && trace[0].heap.books.segs == [] && trace[0].heap.mapped == map[] && Left(map[], [], noise(0), trace[0].ram)
      invariant forall j :: 0 <= j < i ==> Happened(trace[j], cmds[j], os, j, noise(j + 1), trace[j + 1])
      invariant forall j :: 0 <= j <= i ==> Orderly(trace[j]) && seen[j] == trace[j].bufs && Independent(seen[j])
    {
      ghost var s := trace[i];
      var segs, mapped, bytes := m.segs, m.mapped, data;
      var mmap: (nat, nat) -> int := (k: nat, n: nat) => os(i, segs, mapped, bytes, k, n);
      Answers(os, i, segs, mapped, bytes, mmap);
      HeapParts(m);
      bufs, data := Step(m, bufs, data, cmds[i], mmap);
      StillValid(m, bufs, data, noise(i + 1));
      DirtiedLeft(s.ram, data, bufs, noise(i + 1));
      data := Dirtied(data, bufs, noise(i + 1));
      ValidOrderly(m, bufs, data);
      OrderlyIndependent(Moment(bufs, HeapOf(m), data));
      SameAnswers(s, cmds[i], os, i, mmap, noise(i + 1), Moment(bufs, HeapOf(m), data));
      seen, trace := seen + [bufs], trace + [Moment(bufs, HeapOf(m), data)];
    }
    ValidSound(m, bufs, data);
  }

  lemma ValidSound(m: MallocState, bufs: seq<Buffer>, data: map<int, int>)
    requires Valid(m, bufs, data)
    ensures Sound(m, {})
  {
  }

  lemma StartsLeft(noise: map<int, int>)
    ensures Left(map[], [], noise, Dirtied(map[], [], noise))
  {
  }

  lemma OrderlyIndependent(s: Moment)
    requires Orderly(s)
    ensures Independent(s.bufs)
  {
  }

  lemma HeapParts(m: MallocState)
    ensures HeapOf(m).books.segs == m.segs && HeapOf(m).mapped == m.mapped
  {
  }

  lemma StartsValid(m: MallocState, data: map<int, int>)
    requires Sound(m, {}) && m.c == map[] && m.mapped == map[]
    ensures Valid(m, [], data)
  {
  }

  // ---------------------------------------------------------------- what a run says, command by command

  /** Every command of a run meets the system's answers for the moment before it. */
  lemma TraceStep(trace: seq<Moment>, cmds: seq<Command>, os: System, noise: nat -> map<int, int>, i: nat)
    requires IsTrace(trace, cmds, os, noise) && i < |cmds|
    ensures |trace| == |cmds| + 1 && Orderly(trace[i]) && Orderly(trace[i + 1])
    ensures Transition(trace[i], cmds[i], AnswersAt(os, i, trace[i]), trace[i + 1].bufs, trace[i + 1].heap)
    ensures forall k, n :: AnswersAt(os, i, trace[i])(k, n) == os(i, trace[i].heap.books.segs, trace[i].heap.mapped, trace[i].ram, k, n)
    ensures forall a :: !Occupied(trace[i + 1].bufs, a) ==>
              Byte(trace[i + 1].ram, a) == if a in noise(i + 1) then noise(i + 1)[a] else Byte(trace[i].ram, a)
  {
    hide Orderly, Transition, Occupied;
    assert Happened(trace[i], cmds[i], os, i, noise(i + 1), trace[i + 1]);
  }

  lemma SizesInHeap(h: Heap)
    requires WellFormed(h)
    ensures h.books.topsize < SIZE_LIMIT && forall q :: q in h.c && h.c[q].kind.Free? ==> h.c[q].size < SIZE_LIMIT
  {
    hide Tiling.Clear, SegsOk, MappedOk, LeastOk, IndexOk, RecordsOk;
    forall q | q in h.c && h.c[q].kind.Free?
      ensures h.c[q].size < SIZE_LIMIT
    {
      assert BlockOk(h.c, q) && BlockOk(h.c, q + h.c[q].size);
    }
    if h.books.top != 0 {
      assert BlockOk(h.c, h.books.top);
    }
  }

  /** A request for any size that fits `size_t` is served or refused, and this says when, in numbers. */
  lemma MallocMeans(s: Moment, n: nat, mmap: (nat, nat) -> int, bufs': seq<Buffer>, heap': Heap)
    requires Transition(s, Malloc(n), mmap, bufs', heap') && WellFormed(s.heap) && n < 0x1_0000_0000_0000_0000
    ensures var topsize, nb := s.heap.books.topsize, Padded(n);
            if || n >= 0xffff_ffff_ffff_ff80
               || (&& (forall q :: q in s.heap.c && s.heap.c[q].kind.Free? ==> s.heap.c[q].size < nb) && topsize <= nb
                   && (nb + 96 + 0xffff >= 0x1_0000_0000_0000_0000 || mmap(1, (nb + 96 + 0xffff) / 0x1_0000 * 0x1_0000) == -1)
                   && (nb < 0x4_0000 || topsize == 0 || nb + 63 + 0xfff >= 0x1_0000_0000_0000_0000 ||
                       mmap(0, (nb + 63 + 0xfff) / 0x1000 * 0x1000) == -1))
            then bufs' == s.bufs && heap' == s.heap
            else
              && |bufs'| == |s.bufs| + 1 && bufs'[..|s.bufs|] == s.bufs && |bufs'[|s.bufs|].bytes| == n
              && forall k :: 0 <= k < n ==> bufs'[|s.bufs|].bytes[k] == Byte(s.ram, bufs'[|s.bufs|].mem + k)
  {
    hide WellFormed, Refuses, UsesOnlyGiven, Padded, Byte;
    SizesInHeap(s.heap);
    RefusesMeans(s.heap.c, s.heap.books.topsize, n, mmap);
  }

  lemma CallocMeans(s: Moment, n: nat, size: nat, total: nat, mmap: (nat, nat) -> int, bufs': seq<Buffer>, heap': Heap)
    requires Transition(s, Calloc(n, size), mmap, bufs', heap') && n < 0x1_0000_0000_0000_0000 && size < 0x1_0000_0000_0000_0000
    requires total == n * size
    ensures if Refuses(s.heap.c, s.heap.books.topsize, if total < 0x1_0000_0000_0000_0000 then total else 0xffff_ffff_ffff_ffff, mmap)
            then bufs' == s.bufs && heap' == s.heap
            else
              && |bufs'| == |s.bufs| + 1 && bufs'[..|s.bufs|] == s.bufs && |bufs'[|s.bufs|].bytes| == total
              && forall k :: 0 <= k < total ==>
                   bufs'[|s.bufs|].bytes[k] == if bufs'[|s.bufs|].mem - 16 in heap'.mapped then Byte(s.ram, bufs'[|s.bufs|].mem + k) else 0
  {
    hide Refuses, UsesOnlyGiven, Byte;
  }

  lemma MemalignMeans(s: Moment, alignment: nat, n: nat, mmap: (nat, nat) -> int, bufs': seq<Buffer>, heap': Heap)
    requires Transition(s, Memalign(alignment, n), mmap, bufs', heap') && alignment <= 0x8000_0000_0000_0000 && n < 0x1_0000_0000_0000_0000
    ensures if exists a: nat ::
                 && A.IsPower(a) && alignment <= a && 32 <= a && (a == 32 || a / 2 < alignment)
                 && (n + a >= 0xffff_ffff_ffff_ff80 || Refuses(s.heap.c, s.heap.books.topsize, Padded(n) + a + 24, mmap))
            then bufs' == s.bufs && heap' == s.heap
            else
              && |bufs'| == |s.bufs| + 1 && bufs'[..|s.bufs|] == s.bufs && |bufs'[|s.bufs|].bytes| == n
              && (A.IsPower(alignment) ==> bufs'[|s.bufs|].mem % alignment == 0)
  {
    hide Refuses, UsesOnlyGiven, Byte, Padded, A.IsPower;
    forall a: nat | A.IsPower(a)
      ensures M.Rounded(alignment, a) <==> alignment <= a && 32 <= a && (a == 32 || a / 2 < alignment)
    {
      A.EvenFrom32(a);
    }
  }

  lemma ReallocMeans(s: Moment, i: nat, n: nat, mmap: (nat, nat) -> int, bufs': seq<Buffer>, heap': Heap)
    requires Transition(s, Realloc(i, n), mmap, bufs', heap') && i < |s.bufs| && s.bufs[i].mem != 0 && n < 0x1_0000_0000_0000_0000
    ensures if n >= 0xffff_ffff_ffff_ff80 ||
               (!CanResize(s.heap.c, s.heap.mapped, s.bufs[i].mem - 16, Padded(n)) && Refuses(s.heap.c, s.heap.books.topsize, n, mmap))
            then bufs' == s.bufs && heap' == s.heap
            else
              && |bufs'| == |s.bufs| && |bufs'[i].bytes| == n
              && (forall j :: 0 <= j < |s.bufs| && j != i ==> bufs'[j] == s.bufs[j])
              && forall k :: 0 <= k < n && k < |s.bufs[i].bytes| ==> bufs'[i].bytes[k] == s.bufs[i].bytes[k]
  {
    hide Refuses, CanResize, UsesOnlyGiven, Padded;
  }

  lemma WriteAndReleaseMean(s: Moment, i: nat, k: nat, v: int, mmap: (nat, nat) -> int, bufs': seq<Buffer>, heap': Heap)
    requires i < |s.bufs|
    ensures Transition(s, Release(i), mmap, bufs', heap') ==> bufs' == s.bufs[..i] + s.bufs[i + 1..]
    ensures Transition(s, Write(i, k, v), mmap, bufs', heap') && k < |s.bufs[i].bytes| ==>
              && |bufs'| == |s.bufs| && bufs'[i].mem == s.bufs[i].mem && bufs'[i].bytes == s.bufs[i].bytes[k := v]
              && forall j :: 0 <= j < |s.bufs| && j != i ==> bufs'[j] == s.bufs[j]
  {
    hide UsesOnlyGiven;
  }
}
