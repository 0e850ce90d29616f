/**
 Why the words of the allocator can be kept apart from the bytes of the program: no head, no foot and no link that the
 allocator keeps lies in a block that the program holds. Whatever the program writes to its blocks, the allocator does
 not notice, and whatever the allocator writes, the program does not notice.
 */
module UserWrites {
  import opened Chunks
  import opened Trie
  import opened Bins
  import opened Tiling
  import opened HeapState
  import opened DlMalloc

  /** The `n` bytes at `a` overlap `[lo, hi)`. */
  predicate Overlaps(a: int, n: nat, lo: int, hi: int) { a < hi && lo < a + n }

  // Where the words of the chunk at `x` are: `head` and `prev_foot`, and the links of `malloc_tree_chunk`.

  predicate HeadAt8(x: int, lo: int, hi: int) { Overlaps(x + 8, 8, lo, hi) }

  predicate FootAt0(x: int, lo: int, hi: int) { Overlaps(x, 8, lo, hi) }

  /** No word that the allocator keeps in memory overlaps `[lo, hi)`; bin headers are not in the heap. */
  ghost predicate KeepsOff(head: map<int, Head>, foot: map<int, nat>, L: Links, lo: int, hi: int) {
    && (forall x :: x in head ==> !HeadAt8(x, lo, hi))
    && (forall x :: x in foot ==> !FootAt0(x, lo, hi))
    && (forall x :: x > 0 ==> LinksOff(L, x, lo, hi))
  }

  ghost predicate LinksOff(L: Links, x: int, lo: int, hi: int) {
    match L
    case Links(fd, bk, left, right, parent, index) =>
      && (x in fd ==> !Overlaps(x + 16, 8, lo, hi))
      && (x in bk ==> !Overlaps(x + 24, 8, lo, hi))
      && (x in left ==> !Overlaps(x + 32, 8, lo, hi))
      && (x in right ==> !Overlaps(x + 40, 8, lo, hi))
      && (x in parent ==> !Overlaps(x + 48, 8, lo, hi))
      && (x in index ==> !Overlaps(x + 56, 4, lo, hi))
  }

  // ---------------------------------------------------------------- blocks that the program holds

  /** Where a held chunk comes from, and what is known to be clear. */
  lemma HeldWhere(m: MallocState, q: int)
    requires Sound(m, {}) && q in HeldBy(m)
    ensures q !in m.mapped ==> UsedClear(m, q) && HeldBy(m)[q] == m.c[q].size
    ensures q in m.mapped ==> MappedClear(m, q) && HeldBy(m)[q] == m.mapped[q].size
    ensures FeetAligned(m.foot)
  {
    hide LeastOk, BooksOk, Tagged, SegsOk;
    if q in m.mapped {
      assert MappingOk(m.head, m.foot, m.segs, q, m.mapped[q]);
    } else {
      assert ClearBlock(m.head, m.foot, q, m.c[q]) && BlockOk(m.c, q);
    }
  }

  ghost predicate UsedClear(m: MallocState, q: int)
    reads m
  {
    && q in m.c && m.c[q].kind.Used? && (q + m.c[q].size) % 8 == 0
    && NoHeads(m.head, q, q + m.c[q].size) && NoFeet(m.foot, q, q + m.c[q].size)
  }

  ghost predicate MappedClear(m: MallocState, q: int)
    reads m
  {
    q in m.mapped && NoHeads(m.head, q, q + m.mapped[q].size) && NoFeet(m.foot, q, q + m.mapped[q].size)
  }

  lemma HeadsOutside(m: MallocState, q: int, x: int)
    requires Sound(m, {}) && q in HeldBy(m) && x in m.head
    ensures !HeadAt8(x, q + MEM_OFFSET, q + MEM_OFFSET + Usable(m, q))
  {
    hide HeapOk, BooksOk, LeastOk, Sound, Held;
    HeldWhere(m, q);
  }

  lemma FeetOutside(m: MallocState, q: int, x: int)
    requires Sound(m, {}) && q in HeldBy(m) && x in m.foot
    ensures !FootAt0(x, q + MEM_OFFSET, q + MEM_OFFSET + Usable(m, q))
  {
    hide HeapOk, BooksOk, LeastOk, Sound, Held;
    HeldWhere(m, q);
  }

  /** A binned chunk is a free block, and its links lie inside it. */
  lemma BinnedApart(m: MallocState, q: int, x: int)
    requires Sound(m, {}) && q in HeldBy(m) && x in m.view.size
    ensures q + MEM_OFFSET + Usable(m, q) <= x + CHUNK_OVERHEAD || x + m.view.size[x] <= q
    ensures m.view.size[x] >= MIN_CHUNK_SIZE
  {
    hide HeapOk, LeastOk, Held, BinsOk, TopOk, RecordsOk;
    HeldWhere(m, q);
    BlockFacts(m, {}, x);
    if q in m.mapped {
      MappedApart(m, q, x);
    } else if q < x {
      InUseApart(m, q, x);
    } else {
      InUseApart(m, x, q);
    }
  }

  lemma LinksBinned(m: MallocState, x: int)
    requires Sound(m, {})
    ensures KeptAt(m.bins.links, m.view.size, x)
  {
  }

  lemma LinksOutside(m: MallocState, q: int, x: int)
    requires Sound(m, {}) && q in HeldBy(m) && x > 0
    ensures LinksOff(m.bins.links, x, q + MEM_OFFSET, q + MEM_OFFSET + Usable(m, q))
  {
    hide HeapOk, BooksOk, LeastOk, Sound, Held;
    LinksBinned(m, x);
    if x in m.view.size {
      BinnedApart(m, q, x);
    }
  }

  ghost predicate Private(m: MallocState, q: int)
    requires q in HeldBy(m)
    reads m
  {
    KeepsOff(m.head, m.foot, m.bins.links, q + MEM_OFFSET, q + MEM_OFFSET + Usable(m, q))
  }

  /** The bytes of a block that the program holds are no words of the allocator. */
  lemma HeldIsPrivate(m: MallocState, q: int)
    requires Sound(m, {}) && q in HeldBy(m)
    ensures Private(m, q)
  {
    hide HeapOk, BooksOk, LeastOk, Sound, Held, HeadAt8, FootAt0, LinksOff;
    var lo, hi := q + MEM_OFFSET, q + MEM_OFFSET + Usable(m, q);
    forall x | x in m.head
      ensures !HeadAt8(x, lo, hi)
    {
      HeadsOutside(m, q, x);
    }
    forall x | x in m.foot
      ensures !FootAt0(x, lo, hi)
    {
      FeetOutside(m, q, x);
    }
    forall x | x > 0
      ensures LinksOff(m.bins.links, x, lo, hi)
    {
      LinksOutside(m, q, x);
    }
  }

  /** A part of it is private as well. */
  lemma PartIsPrivate(head: map<int, Head>, foot: map<int, nat>, L: Links, lo: int, hi: int, lo': int, hi': int)
    requires KeepsOff(head, foot, L, lo, hi) && lo <= lo' && hi' <= hi
    ensures KeepsOff(head, foot, L, lo', hi')
  {
    forall x | x > 0
      ensures LinksOff(L, x, lo', hi')
    {
      assert LinksOff(L, x, lo, hi);
    }
    forall x | x in head
      ensures !HeadAt8(x, lo', hi')
    {
      assert !HeadAt8(x, lo, hi);
    }
    forall x | x in foot
      ensures !FootAt0(x, lo', hi')
    {
      assert !FootAt0(x, lo, hi);
    }
  }

  // ---------------------------------------------------------------- what it means

  ghost predicate InBlock(m: MallocState, q: int, a: int, n: nat)
    reads m
  {
    q in HeldBy(m) && Overlaps(a, n, q + MEM_OFFSET, q + MEM_OFFSET + Usable(m, q))
  }

  ghost predicate InSomeBlock(m: MallocState, a: int, n: nat)
    reads m
  {
    exists q :: InBlock(m, q, a, n)
  }

  /** The words of `n` bytes at an offset from their chunks are the same, as far as they are in no block that the program holds. */
  ghost predicate SameOutside<T>(m: MallocState, words: map<int, T>, words': map<int, T>, off: int, n: nat)
    reads m
  {
    forall x :: x in words && x > 0 && !InSomeBlock(m, x + off, n) ==> x in words' && words'[x] == words[x]
  }

  ghost predicate AllSame<T>(words: map<int, T>, words': map<int, T>) {
    forall x :: x in words && x > 0 ==> x in words' && words'[x] == words[x]
  }

  /** The program wrote to the blocks that it holds, and nowhere else. */
  ghost predicate ProgramWrote(m: MallocState, head: map<int, Head>, foot: map<int, nat>, L: Links)
    reads m
  {
    && SameOutside(m, m.head, head, 8, 8) && SameOutside(m, m.foot, foot, 0, 8)
    && SameOutside(m, m.bins.links.fd, L.fd, 16, 8) && SameOutside(m, m.bins.links.bk, L.bk, 24, 8)
    && SameOutside(m, m.bins.links.left, L.left, 32, 8) && SameOutside(m, m.bins.links.right, L.right, 40, 8)
    && SameOutside(m, m.bins.links.parent, L.parent, 48, 8) && SameOutside(m, m.bins.links.index, L.index, 56, 4)
  }

  lemma InNoBlock(m: MallocState, x: int)
    requires Sound(m, {}) && x > 0
    ensures x in m.head ==> !InSomeBlock(m, x + 8, 8)
    ensures x in m.foot ==> !InSomeBlock(m, x + 0, 8)
    ensures x in m.bins.links.fd ==> !InSomeBlock(m, x + 16, 8)
    ensures x in m.bins.links.bk ==> !InSomeBlock(m, x + 24, 8)
    ensures x in m.bins.links.left ==> !InSomeBlock(m, x + 32, 8)
    ensures x in m.bins.links.right ==> !InSomeBlock(m, x + 40, 8)
    ensures x in m.bins.links.parent ==> !InSomeBlock(m, x + 48, 8)
    ensures x in m.bins.links.index ==> !InSomeBlock(m, x + 56, 4)
  {
    hide HeapOk, BooksOk, LeastOk, Sound, Held;
    forall q | q in HeldBy(m)
      ensures x in m.head ==> !InBlock(m, q, x + 8, 8)
      ensures x in m.foot ==> !InBlock(m, q, x + 0, 8)
      ensures LinksOff(m.bins.links, x, q + MEM_OFFSET, q + MEM_OFFSET + Usable(m, q))
    {
      if x in m.head {
        HeadsOutside(m, q, x);
      }
      if x in m.foot {
        FeetOutside(m, q, x);
      }
      LinksOutside(m, q, x);
    }
  }

  /** Whatever the program writes to the blocks it holds, every word that the allocator keeps is still there. */
  lemma WritesDoNoHarm(m: MallocState, head: map<int, Head>, foot: map<int, nat>, L: Links)
    requires Sound(m, {}) && ProgramWrote(m, head, foot, L)
    ensures AllSame(m.head, head) && AllSame(m.foot, foot)
    ensures AllSame(m.bins.links.fd, L.fd) && AllSame(m.bins.links.bk, L.bk) && AllSame(m.bins.links.left, L.left)
    ensures AllSame(m.bins.links.right, L.right) && AllSame(m.bins.links.parent, L.parent) && AllSame(m.bins.links.index, L.index)
  {
    hide HeapOk, BooksOk, LeastOk, Sound, Held, InSomeBlock;
    forall x | x > 0
      ensures x in m.head ==> !InSomeBlock(m, x + 8, 8)
      ensures x in m.foot ==> !InSomeBlock(m, x + 0, 8)
      ensures x in m.bins.links.fd ==> !InSomeBlock(m, x + 16, 8)
      ensures x in m.bins.links.bk ==> !InSomeBlock(m, x + 24, 8)
      ensures x in m.bins.links.left ==> !InSomeBlock(m, x + 32, 8)
      ensures x in m.bins.links.right ==> !InSomeBlock(m, x + 40, 8)
      ensures x in m.bins.links.parent ==> !InSomeBlock(m, x + 48, 8)
      ensures x in m.bins.links.index ==> !InSomeBlock(m, x + 56, 4)
    {
      InNoBlock(m, x);
    }
  }

  /** The word at `x` was written, changed or dropped. */
  ghost predicate Changed<T>(words: map<int, T>, words': map<int, T>, x: int) {
    (x in words <==> x !in words') || (x in words && x in words' && words[x] != words'[x])
  }

  /** Between two moments at which a block is private, no word of the allocator has changed in it. */
  lemma AllocatorWritesOutside(head: map<int, Head>, foot: map<int, nat>, L: Links, head': map<int, Head>, foot': map<int, nat>, L': Links,
                               lo: int, hi: int, x: int)
    requires KeepsOff(head, foot, L, lo, hi) && KeepsOff(head', foot', L', lo, hi)
    ensures Changed(head, head', x) ==> !HeadAt8(x, lo, hi)
    ensures Changed(foot, foot', x) ==> !FootAt0(x, lo, hi)
    ensures x > 0 ==>
              && (Changed(L.fd, L'.fd, x) ==> !Overlaps(x + 16, 8, lo, hi))
              && (Changed(L.bk, L'.bk, x) ==> !Overlaps(x + 24, 8, lo, hi))
              && (Changed(L.left, L'.left, x) ==> !Overlaps(x + 32, 8, lo, hi))
              && (Changed(L.right, L'.right, x) ==> !Overlaps(x + 40, 8, lo, hi))
              && (Changed(L.parent, L'.parent, x) ==> !Overlaps(x + 48, 8, lo, hi))
              && (Changed(L.index, L'.index, x) ==> !Overlaps(x + 56, 4, lo, hi))
  {
    if x > 0 {
      assert LinksOff(L, x, lo, hi) && LinksOff(L', x, lo, hi);
    }
  }
}
