/**
 What `do_check_malloc_state` and `traverse_and_check` test at run time holds whenever the allocator is at rest.
 */
module HeapChecks {
  import opened TreeIndex
  import opened BinMaps
  import opened Chunks
  import opened Bins
  import opened Trie
  import opened TrieUnlink
  import opened Tiling
  import opened HeapState
  import opened Regions
  import opened DlMalloc

  // ---------------------------------------------------------------- one chunk

  /** `bin_find`: the chunk is in the bin for its size. */
  ghost predicate Binned(m: MallocState, x: int)
    reads m
  {
    || (exists i :: 0 <= i < |m.view.smalls| && x in m.view.smalls[i])
    || (exists i :: 0 <= i < |m.view.trees| && x in Members(m.view.trees[i]))
  }

  lemma BinnedIff(m: MallocState, x: int)
    requires Sound(m, {})
    ensures Binned(m, x) <==> x in m.view.size
  {
    BinsFound(m.bins, m.view, x);
  }

  lemma BinsFound(b: BinState, g: BinView, x: int)
    requires BinsOk(b, g)
    ensures x in g.size <==>
              || (exists i :: 0 <= i < |g.smalls| && x in g.smalls[i])
              || (exists i :: 0 <= i < |g.trees| && x in Members(g.trees[i]))
  {
    if x in g.size {
      assert InItsBin(g, x, g.size[x]);
      if IsSmall(g.size[x]) {
        assert x in g.smalls[SmallIndex(g.size[x])];
      } else {
        assert x in Members(g.trees[TreeIndexOf(g.size[x])]);
      }
    }
    forall i | 0 <= i < |g.smalls| && x in g.smalls[i]
      ensures x in g.size
    {
      SmallMember(b, g, i, x);
    }
    forall i | 0 <= i < |g.trees| && x in Members(g.trees[i])
      ensures x in g.size
    {
      TreeMember(b, g, i, x);
    }
  }

  /** No chunk is in two bins. */
  lemma OneBin(m: MallocState, x: int)
    requires Sound(m, {})
    ensures forall i, j :: 0 <= i < |m.view.smalls| && 0 <= j < |m.view.smalls| && x in m.view.smalls[i] && x in m.view.smalls[j] ==> i == j
    ensures forall i, j :: 0 <= i < |m.view.trees| && 0 <= j < |m.view.trees| && x in Members(m.view.trees[i]) && x in Members(m.view.trees[j]) ==> i == j
    ensures forall i, j :: 0 <= i < |m.view.smalls| && 0 <= j < |m.view.trees| && x in m.view.smalls[i] ==> x !in Members(m.view.trees[j])
  {
    OneBinOf(m.bins, m.view, x);
  }

  lemma OneBinOf(b: BinState, g: BinView, x: int)
    requires BinsOk(b, g)
    ensures forall i, j :: 0 <= i < |g.smalls| && 0 <= j < |g.smalls| && x in g.smalls[i] && x in g.smalls[j] ==> i == j
    ensures forall i, j :: 0 <= i < |g.trees| && 0 <= j < |g.trees| && x in Members(g.trees[i]) && x in Members(g.trees[j]) ==> i == j
    ensures forall i, j :: 0 <= i < |g.smalls| && 0 <= j < |g.trees| && x in g.smalls[i] ==> x !in Members(g.trees[j])
  {
    forall i | 0 <= i < |g.smalls| && x in g.smalls[i]
      ensures x in g.size && g.size[x] == 8 * i
    {
      SmallMember(b, g, i, x);
    }
    forall i | 0 <= i < |g.trees| && x in Members(g.trees[i])
      ensures x in g.size && MIN_LARGE <= g.size[x] && TreeIndexOf(g.size[x]) == i
    {
      TreeMember(b, g, i, x);
    }
  }

  /** `p->fd->bk == p` and `p->bk->fd == p` */
  ghost predicate LinksBack(L: Links, x: int) {
    && x in L.fd && L.fd[x] in L.bk && L.bk[L.fd[x]] == x
    && x in L.bk && L.bk[x] in L.fd && L.fd[L.bk[x]] == x
  }

  lemma {:induction false} TreeLinksBack(L: Links, t: Tree, parent: int, i: int, x: int)
    requires Repr(L, t, parent, i) && x in Members(t)
    ensures LinksBack(L, x)
    decreases t
  {
    if x in t.ring {
      OnRing(L, t, x, parent, i);
    } else if x in Members(t.left) {
      TreeLinksBack(L, t.left, t.ring[0], i, x);
    } else {
      TreeLinksBack(L, t.right, t.ring[0], i, x);
    }
  }

  /** The neighbours of every binned chunk point back to it. */
  lemma BinnedLinksBack(b: BinState, g: BinView, x: int)
    requires BinsOk(b, g) && x in g.size
    ensures LinksBack(b.links, x)
  {
    assert InItsBin(g, x, g.size[x]);
    if IsSmall(g.size[x]) {
      var i := SmallIndex(g.size[x]);
      assert SmallBinOk(b.links, b.smallmap, g.smalls[i], i, g.size);
      var k :| 0 <= k < |g.smalls[i]| && g.smalls[i][k] == x;
      SmallPlace(b.links, g.smalls[i], SmallBinAt(i), k);
    } else {
      var i := TreeIndexOf(g.size[x]);
      assert TreeBinOk(b.links, b.treebins[i], b.treemap, g.trees[i], i, g.size);
      TreeLinksBack(b.links, g.trees[i], TreeBinAt(i), i, x);
    }
  }

  /** `do_check_free_chunk` */
  ghost predicate FreeChunkOk(m: MallocState, q: int)
    reads m
  {
    && q in m.head && !m.head[q].cinuse && m.head[q].pinuse && (q + MEM_OFFSET) % 16 == 0 && OkAddress(m.least, q)
    && (q == m.dv <==> !Binned(m, q)) && (q != m.dv ==> LinksBack(m.bins.links, q))
    && match m.head[q]
       case Head(sz, _, _) =>
         && sz >= MIN_CHUNK_SIZE && sz % 16 == 0
         && q + sz in m.foot && m.foot[q + sz] == sz
         && q + sz in m.head && !m.head[q + sz].pinuse && m.head[q + sz].cinuse
  }

  /** `do_check_inuse_chunk` */
  ghost predicate InuseChunkOk(m: MallocState, q: int)
    reads m
  {
    && q in m.head && m.head[q].cinuse && !Binned(m, q) && q != m.dv
    && (q + MEM_OFFSET) % 16 == 0 && OkAddress(m.least, q)
    && q + m.head[q].size in m.head && m.head[q + m.head[q].size].pinuse
    && (!m.head[q].pinuse ==>
          && q in m.foot && q - m.foot[q] in m.head
          && m.head[q - m.foot[q]] == Head(m.foot[q], false, true))
  }

  lemma FreeChunkChecks(m: MallocState, q: int)
    requires Sound(m, {}) && q in m.c && m.c[q].kind.Free?
    ensures FreeChunkOk(m, q)
  {
    hide HeapOk, BooksOk, Binned, BlockOk, LeastOk, LinksBack;
    FreeFacts(m, q);
    BinnedIff(m, q);
    BlockAddress(m, {}, q);
    if q != m.dv {
      LinksOfBinned(m, q);
    }
  }

  lemma LinksOfBinned(m: MallocState, q: int)
    requires Sound(m, {}) && q in m.view.size
    ensures LinksBack(m.bins.links, q)
  {
    BinnedLinksBack(m.bins, m.view, q);
  }

  /** The words of a free chunk of size `s`, and what the head behind it says. */
  ghost predicate FreeWords(head: map<int, Head>, foot: map<int, nat>, q: int, s: nat) {
    && q in head && head[q] == Head(s, false, true) && (q + MEM_OFFSET) % 16 == 0 && s >= MIN_CHUNK_SIZE && s % 16 == 0
    && q + s in foot && foot[q + s] == s && q + s in head && !head[q + s].pinuse && head[q + s].cinuse
  }

  lemma FreeFacts(m: MallocState, q: int)
    requires Sound(m, {}) && q in m.c && m.c[q].kind.Free?
    ensures FreeWords(m.head, m.foot, q, m.c[q].size) && (q == m.dv <==> q !in m.view.size)
  {
    hide BooksOk, HeapOk, LeastOk, BlockOk, FreeWords;
    BlockFacts(m, {}, q);
    BlockFacts(m, {}, q + m.c[q].size);
    FreeWordsAt(m.c, m.head, m.foot, q);
    DvOrBinned(m, q);
  }

  lemma FreeWordsAt(c: Blocks, head: map<int, Head>, foot: map<int, nat>, q: int)
    requires q in c && c[q].kind.Free? && BlockOk(c, q) && TaggedAt(c, head, foot, q)
    requires q + c[q].size in c && TaggedAt(c, head, foot, q + c[q].size)
    ensures FreeWords(head, foot, q, c[q].size)
  {
    SumAligned(q, MEM_OFFSET);
  }

  lemma DvOrBinned(m: MallocState, q: int)
    requires Sound(m, {}) && q in m.c && m.c[q].kind.Free?
    ensures q == m.dv <==> q !in m.view.size
  {
    hide HeapOk, BinsOk, TopOk, RecordsOk;
  }

  lemma InuseChunkChecks(m: MallocState, q: int)
    requires Sound(m, {}) && q in m.c && m.c[q].kind.Used?
    ensures InuseChunkOk(m, q)
  {
    hide HeapOk, BooksOk, Binned, BlockOk, Sound, LeastOk;
    UsedFacts(m, q);
    BinnedIff(m, q);
    BlockAddress(m, {}, q);
    if !m.head[q].pinuse {
      FreeFacts(m, q - m.foot[q]);
    }
  }

  lemma UsedFacts(m: MallocState, q: int)
    requires Sound(m, {}) && q in m.c && m.c[q].kind.Used?
    ensures q in m.head && m.head[q].cinuse && m.head[q].size == m.c[q].size && (q + MEM_OFFSET) % 16 == 0
    ensures q !in m.view.size && q != m.dv
    ensures q + m.c[q].size in m.head && m.head[q + m.c[q].size].pinuse
    ensures !m.head[q].pinuse ==> q in m.foot && q - m.foot[q] in m.c && m.c[q - m.foot[q]] == Block(m.foot[q], Free)
  {
    BlockFacts(m, {}, q);
  }

  /** `do_check_mmapped_chunk`, and `do_check_inuse_chunk` for a mapped chunk */
  ghost predicate MappedChunkOk(m: MallocState, p: int)
    reads m
  {
    && p in m.head && !m.head[p].cinuse && !m.head[p].pinuse && (p + MEM_OFFSET) % 16 == 0 && OkAddress(m.least, p)
    && match m.head[p]
       case Head(sz, _, _) =>
         && !IsSmall(sz) && p in m.foot && (sz + m.foot[p] + MMAP_FOOT_PAD) % PAGE_SIZE == 0
         && p + sz in m.head && m.head[p + sz] == FENCEPOST && OkPinuse(m.head[p + sz])
         && p + sz + 8 in m.head && m.head[p + sz + 8] == Head(0, false, false)
  }

  lemma MappingSizes(p: int, k: Mapping)
    requires MappingFits(p, k)
    ensures (p + MEM_OFFSET) % 16 == 0 && !IsSmall(k.size) && (k.size + k.lead + MMAP_FOOT_PAD) % PAGE_SIZE == 0
  {
    SumAligned(p, MEM_OFFSET);
    assert k.size + k.lead + MMAP_FOOT_PAD == k.lead + k.size + MMAP_FOOT_PAD;
  }

  lemma MappedChunkChecks(m: MallocState, p: int)
    requires Sound(m, {}) && p in m.mapped
    ensures MappedChunkOk(m, p)
  {
    hide HeapOk, BooksOk, LeastOk, NoHeads, NoFeet, MappingFits, IsSmall;
    MappingFacts(m, {}, p);
    MappingSizes(p, m.mapped[p]);
  }

  // ---------------------------------------------------------------- all chunks of a segment

  /** What the head at `q` says about the block that starts there. */
  lemma WhatIsAt(m: MallocState, q: int)
    requires Sound(m, {}) && q in m.c
    ensures q in m.head && m.c[q].size > 0
    ensures m.head[q] == FENCEPOST <==> m.c[q].kind.Fence?
    ensures q == m.top <==> m.c[q].kind.Top?
    ensures Inner(m.c[q].kind) ==> m.head[q].size == m.c[q].size && (m.head[q].cinuse <==> m.c[q].kind.Used?)
    ensures Inner(m.c[q].kind) ==> q + m.c[q].size in m.c
  {
    BlockFacts(m, {}, q);
    if m.top != 0 {
      BlockFacts(m, {}, m.top);
    }
  }

  /** A walk does not leave the segment before its last block. */
  lemma StaysInside(m: MallocState, s: Segment, q: int)
    requires Sound(m, {}) && s in m.segs && q in m.c && s.base <= q < End(s)
    ensures if Inner(m.c[q].kind) then q + m.c[q].size < End(s) else q + m.c[q].size == End(s)
  {
    BlockFacts(m, {}, q);
    assert HasSeg(m.segs, q, m.c[q]);
    var t :| t in m.segs && InSeg(t, q, m.c[q]);
    assert t == s || Tiling.Disjoint(s.base, End(s), t.base, End(t));
  }

  lemma SegmentBase(m: MallocState, s: Segment)
    requires Sound(m, {}) && s in m.segs
    ensures s.base in m.c && s.size > 0 && s.base in m.head && m.head[s.base].pinuse
  {
    FirstInSeg(m.c, m.head, m.foot, m.segs, s);
  }

  /**
   `traverse_and_check` on one segment: following the sizes in the heads from the start of the segment meets every
   one of its blocks, each of them passes its check, no two free chunks follow one another, and the sizes add up to
   the size of the segment.
   */
  method TraverseSegment(m: MallocState, i: nat) returns (sum: nat, ghost last: int)
    requires Sound(m, {}) && i < |m.segs|
    ensures last in m.c && !Inner(m.c[last].kind) && sum + m.c[last].size == m.segs[i].size
    ensures forall q :: q in m.c && m.segs[i].base <= q < last ==> if m.c[q].kind.Used? then InuseChunkOk(m, q) else FreeChunkOk(m, q)
  {
    hide HeapOk, BooksOk, LeastOk;
    var s := m.segs[i];
    var q := s.base;
    SegmentBase(m, s);
    var lastq := 0;
    sum := 0;
    WhatIsAt(m, q);
    while s.base <= q < s.base + s.size && q != m.top && m.head[q] != FENCEPOST
      invariant s.base <= q < End(s) && q in m.c && q in m.head && sum == q - s.base
      invariant m.head[q] == FENCEPOST <==> m.c[q].kind.Fence?
      invariant q == m.top <==> m.c[q].kind.Top?
      invariant lastq != 0 ==> lastq in m.c && lastq in m.head && lastq + m.c[lastq].size == q && (!m.head[lastq].cinuse ==> m.c[lastq].kind.Free?)
      invariant forall x :: x in m.c && s.base <= x < q ==> if m.c[x].kind.Used? then InuseChunkOk(m, x) else FreeChunkOk(m, x)
      decreases s.base + s.size - q
    {
      WhatIsAt(m, q);
      StaysInside(m, s, q);
      sum := sum + m.head[q].size;
      if m.head[q].cinuse {
        InuseChunkChecks(m, q);
      } else {
        FreeChunkChecks(m, q);
        if lastq != 0 && !m.head[lastq].cinuse {
          NotTwoFree(m, lastq);
          assert false;
        }
      }
      NothingInside(m, q);
      lastq := q;
      q := q + m.head[q].size;
      WhatIsAt(m, q);
    }
    last := q;
    StaysInside(m, s, q);
  }

  lemma NothingInside(m: MallocState, q: int)
    requires Sound(m, {}) && q in m.c
    ensures forall x :: x in m.c && q <= x < q + m.c[q].size ==> x == q
  {
    OnlyItself(m.c, q);
  }

  lemma NotTwoFree(m: MallocState, q: int)
    requires Sound(m, {}) && q in m.c && m.c[q].kind.Free?
    ensures q + m.c[q].size in m.c && m.c[q + m.c[q].size].kind.Used?
  {
    BlockFacts(m, {}, q);
  }

  /** Every byte of a segment belongs to a block of the heap, and to one only. */
  lemma {:induction false} Covered(m: MallocState, s: Segment, p: int, x: int) returns (q: int)
    requires Sound(m, {}) && s in m.segs && p in m.c && s.base <= p <= x < End(s)
    ensures q in m.c && q <= x < q + m.c[q].size
    ensures forall r :: r in m.c && r <= x < r + m.c[r].size ==> r == q
    decreases x - p
  {
    hide HeapOk, BooksOk, Sound, LeastOk;
    StaysInside(m, s, p);
    WhatIsAt(m, p);
    if x < p + m.c[p].size {
      q := p;
      forall r | r in m.c && r <= x < r + m.c[r].size
        ensures r == q
      {
        NothingInside(m, q);
        NothingInside(m, r);
      }
    } else {
      q := Covered(m, s, p + m.c[p].size, x);
    }
  }

  // ---------------------------------------------------------------- the bins, the designated victim and the top chunk

  /** `do_check_smallbin` and `do_check_treebin`: a map bit is set exactly if the bin is not empty, and every chunk in a bin is free and of the bin's size. */
  lemma BinsCheck(m: MallocState)
    requires Sound(m, {})
    ensures |m.view.smalls| == NSMALLBINS && |m.view.trees| == NTREEBINS
    ensures forall i :: 0 <= i < NSMALLBINS ==> (Bit(m.bins.smallmap, i) <==> m.view.smalls[i] != [])
    ensures forall i :: 0 <= i < NTREEBINS ==> (Bit(m.bins.treemap, i) <==> m.view.trees[i].Node?)
    ensures forall i, x :: 0 <= i < NSMALLBINS && x in m.view.smalls[i] ==> x in m.c && m.c[x] == Block(8 * i, Free)
    ensures forall i, x :: 0 <= i < NTREEBINS && x in Members(m.view.trees[i]) ==>
              x in m.c && m.c[x].kind.Free? && m.c[x].size >= MIN_LARGE && TreeIndexOf(m.c[x].size) == i
  {
    forall i | 0 <= i < NSMALLBINS
      ensures Bit(m.bins.smallmap, i) <==> m.view.smalls[i] != []
    {
      assert SmallBinOk(m.bins.links, m.bins.smallmap, m.view.smalls[i], i, m.view.size);
    }
    forall i | 0 <= i < NTREEBINS
      ensures Bit(m.bins.treemap, i) <==> m.view.trees[i].Node?
    {
      assert TreeBinOk(m.bins.links, m.bins.treebins[i], m.bins.treemap, m.view.trees[i], i, m.view.size);
    }
    forall i, x | 0 <= i < NSMALLBINS && x in m.view.smalls[i]
      ensures x in m.c && m.c[x] == Block(8 * i, Free)
    {
      SmallMember(m.bins, m.view, i, x);
    }
    forall i, x | 0 <= i < NTREEBINS && x in Members(m.view.trees[i])
      ensures x in m.c && m.c[x].kind.Free? && m.c[x].size >= MIN_LARGE && TreeIndexOf(m.c[x].size) == i
    {
      TreeMember(m.bins, m.view, i, x);
    }
  }

  // ---------------------------------------------------------------- the links of small bins and of trees

  /** `do_check_smallbin`: every chunk of a small bin is free, of the size of the bin, and followed by a chunk in use. */
  lemma SmallBinChecks(m: MallocState, i: nat, k: nat)
    requires Sound(m, {}) && i < NSMALLBINS && |m.view.smalls| == NSMALLBINS && k < |m.view.smalls[i]|
    ensures var p := m.view.smalls[i][k];
            && FreeChunkOk(m, p) && SmallIndex(m.head[p].size) == i
            && (m.bins.links.bk[p] == SmallBinAt(i) || (m.bins.links.bk[p] in m.head && m.head[m.bins.links.bk[p]].size == m.head[p].size))
            && InuseChunkOk(m, p + m.head[p].size)
  {
    hide HeapOk, Sound, LeastOk, Binned, BooksOk;
    var p := m.view.smalls[i][k];
    SmallChunk(m, i, p);
    FreeChunkChecks(m, p);
    FreeFacts(m, p);
    NotTwoFree(m, p);
    InuseChunkChecks(m, p + m.c[p].size);
    SmallNeighbour(m, i, k);
    if m.bins.links.bk[p] != SmallBinAt(i) {
      SmallChunk(m, i, m.bins.links.bk[p]);
      FreeFacts(m, m.bins.links.bk[p]);
    }
  }

  lemma SmallChunk(m: MallocState, i: nat, p: int)
    requires Sound(m, {}) && i < NSMALLBINS && |m.view.smalls| == NSMALLBINS && p in m.view.smalls[i]
    ensures p in m.view.size && p in m.c && m.c[p] == Block(8 * i, Free)
  {
    SmallMember(m.bins, m.view, i, p);
  }

  lemma SmallNeighbour(m: MallocState, i: nat, k: nat)
    requires Sound(m, {}) && i < NSMALLBINS && |m.view.smalls| == NSMALLBINS && k < |m.view.smalls[i]|
    ensures var p := m.view.smalls[i][k];
            p in m.bins.links.bk && (m.bins.links.bk[p] == SmallBinAt(i) || m.bins.links.bk[p] in m.view.smalls[i])
  {
    assert SmallBinOk(m.bins.links, m.bins.smallmap, m.view.smalls[i], i, m.view.size);
    SmallPlace(m.bins.links, m.view.smalls[i], SmallBinAt(i), k);
  }

  /** What `do_check_tree` tests of one chunk on the chain of a node. */
  ghost predicate ChainChunkOk(m: MallocState, i: nat, u: int, size: nat)
    reads m
  {
    && FreeChunkOk(m, u) && m.head[u].size == size
    && u in m.bins.links.index && m.bins.links.index[u] == i
  }

  /** `u->parent->child[0] == u`, or `child[1]`, or the slot of the bin */
  ghost predicate PointsTo(L: Links, root: int, i: nat, p: int, u: int) {
    || (p == TreeBinAt(i) && root == u)
    || (p in L.left && L.left[p] == u) || (p in L.right && L.right[p] == u)
  }

  /** What `do_check_tree` tests of the links of a node and of the chunks chained to it: exactly one of them has a parent. */
  ghost predicate NodeLinksOk(L: Links, root: int, i: nat, ring: seq<int>, parent: int, left: int, right: int) {
    && ring != [] && (forall u :: u in ring ==> u in L.parent && u in L.left && u in L.right)
    && (forall k :: 0 < k < |ring| ==> L.parent[ring[k]] == 0 && L.left[ring[k]] == 0 && L.right[ring[k]] == 0)
    && L.parent[ring[0]] == parent != 0 && parent != ring[0] && PointsTo(L, root, i, parent, ring[0])
    && L.left[ring[0]] == left && (left != 0 ==> left in L.parent && L.parent[left] == ring[0] && left != ring[0])
    && L.right[ring[0]] == right && (right != 0 ==> right in L.parent && L.parent[right] == ring[0] && right != ring[0])
  }

  /** `do_check_tree`, which calls itself for both children. */
  ghost predicate CheckTree(m: MallocState, root: int, i: nat, t: Tree, parent: int)
    reads m
  {
    match t
    case Nil => true
    case Node(ring, size, left, right) =>
      && TreeIndexOf(size) == i && MIN_LARGE <= size && MinSize(i) <= size && (i == NTREEBINS - 1 || size < MinSize(i + 1))
      && (forall u :: u in ring ==> ChainChunkOk(m, i, u, size))
      && NodeLinksOk(m.bins.links, root, i, ring, parent, Root(left), Root(right))
      && (left.Node? && right.Node? ==> left.size < right.size)
      && CheckTree(m, root, i, left, if ring == [] then 0 else ring[0]) && CheckTree(m, root, i, right, if ring == [] then 0 else ring[0])
  }

  lemma NodeLinks(L: Links, root: int, i: nat, t: Tree, parent: int)
    requires Repr(L, t, parent, i) && t.Node? && parent != 0 && parent !in Members(t) && PointsTo(L, root, i, parent, Root(t))
    ensures NodeLinksOk(L, root, i, t.ring, parent, Root(t.left), Root(t.right))
  {
    assert t.ring[0] in t.ring;
    forall k | 0 < k < |t.ring|
      ensures L.parent[t.ring[k]] == 0 && L.left[t.ring[k]] == 0 && L.right[t.ring[k]] == 0
    {
      assert Chained(L, t.ring[k]);
    }
    ChildLinks(L, t.left, t.ring[0], i);
    ChildLinks(L, t.right, t.ring[0], i);
    RootMember(t.left);
    RootMember(t.right);
  }

  lemma ChildLinks(L: Links, t: Tree, parent: int, i: int)
    requires Repr(L, t, parent, i)
    ensures Root(t) != 0 ==> Root(t) in L.parent && L.parent[Root(t)] == parent
  {
  }

  lemma ChainChunk(m: MallocState, root: int, i: nat, t: Tree, parent: int, lo: nat, w: nat, u: int)
    requires Sound(m, {}) && Checkable(m.bins.links, m.view.size, root, i, t, parent, lo, w) && t.Node? && u in t.ring
    ensures ChainChunkOk(m, i, u, t.size)
  {
    hide HeapOk, LeastOk, BinsOk, TopOk, RecordsOk, Binned, FreeChunkOk;
    assert u in Members(t);
    SizedMember(t, m.view.size, u);
    IndexOfMember(m.bins.links, t, parent, i, u);
    assert u in m.c && m.c[u] == Block(t.size, Free);
    FreeChunkChecks(m, u);
    FreeFacts(m, u);
  }

  /** What makes a subtree pass the checks. */
  ghost predicate Checkable(L: Links, size: map<int, nat>, root: int, i: nat, t: Tree, parent: int, lo: nat, w: nat) {
    && Repr(L, t, parent, i) && Sized(t, size) && TrieOk(t, lo, w)
    && parent != 0 && parent !in Members(t) && (t.Node? ==> PointsTo(L, root, i, parent, Root(t)))
    && (forall s :: s in Sizes(t) ==> MIN_LARGE <= s < SIZE_LIMIT && TreeIndexOf(s) == i)
  }

  lemma BothSides(L: Links, size: map<int, nat>, root: int, i: nat, t: Tree, parent: int, lo: nat, w: nat)
    requires Checkable(L, size, root, i, t, parent, lo, w) && t.Node?
    ensures t.ring != [] && MIN_LARGE <= t.size < SIZE_LIMIT && TreeIndexOf(t.size) == i
    ensures w == 0 ==> t.left.Nil? && t.right.Nil?
    ensures w > 0 ==> Checkable(L, size, root, i, t.left, t.ring[0], lo, w - 1)
    ensures w > 0 ==> Checkable(L, size, root, i, t.right, t.ring[0], lo + Pow2(w - 1), w - 1)
    ensures NodeLinksOk(L, root, i, t.ring, parent, Root(t.left), Root(t.right))
  {
    hide TreeIndexOf, NodeLinksOk;
    NodeLinks(L, root, i, t, parent);
    assert t.ring[0] in t.ring;
    assert t.size in Sizes(t) && Sizes(t.left) <= Sizes(t) && Sizes(t.right) <= Sizes(t);
  }

  lemma {:induction false} TreeChecks(m: MallocState, root: int, i: nat, t: Tree, parent: int, lo: nat, w: nat)
    requires Sound(m, {}) && Checkable(m.bins.links, m.view.size, root, i, t, parent, lo, w)
    ensures CheckTree(m, root, i, t, parent)
    decreases t
  {
    hide Sound, TreeIndexOf, MinSize, FreeChunkOk, ChainChunkOk, NodeLinksOk, Checkable, PointsTo;
    if t.Node? {
      BothSides(m.bins.links, m.view.size, root, i, t, parent, lo, w);
      IndexBrackets(t.size);
      forall u | u in t.ring
        ensures ChainChunkOk(m, i, u, t.size)
      {
        ChainChunk(m, root, i, t, parent, lo, w, u);
      }
      OrderedSides(m.bins.links, m.view.size, root, i, t, parent, lo, w);
      if w > 0 {
        TreeChecks(m, root, i, t.left, t.ring[0], lo, w - 1);
        TreeChecks(m, root, i, t.right, t.ring[0], lo + Pow2(w - 1), w - 1);
      }
    }
  }

  lemma OrderedSides(L: Links, size: map<int, nat>, root: int, i: nat, t: Tree, parent: int, lo: nat, w: nat)
    requires Checkable(L, size, root, i, t, parent, lo, w) && t.Node?
    ensures t.left.Node? && t.right.Node? ==> t.left.size < t.right.size
  {
    LeftBelowRight(t, lo, w);
  }

  lemma LeftBelowRight(t: Tree, lo: nat, w: nat)
    requires TrieOk(t, lo, w) && t.Node?
    ensures t.left.Node? && t.right.Node? ==> t.left.size < t.right.size
    ensures w == 0 ==> t.left.Nil? && t.right.Nil?
  {
  }

  /** `do_check_treebin` */
  lemma TreeBinChecks(m: MallocState, i: nat)
    requires Sound(m, {}) && i < NTREEBINS && |m.view.trees| == |m.bins.treebins| == NTREEBINS
    ensures m.bins.treebins[i] == Root(m.view.trees[i]) && CheckTree(m, m.bins.treebins[i], i, m.view.trees[i], TreeBinAt(i))
  {
    hide Sound, CheckTree, TreeIndexOf, Checkable;
    TreeBinFacts(m, i);
    TreeChecks(m, m.bins.treebins[i], i, m.view.trees[i], TreeBinAt(i), BinLow(i), Width(i));
  }

  lemma TreeBinFacts(m: MallocState, i: nat)
    requires Sound(m, {}) && i < NTREEBINS && |m.view.trees| == |m.bins.treebins| == NTREEBINS
    ensures var t := m.view.trees[i];
            && m.bins.treebins[i] == Root(t)
            && Checkable(m.bins.links, m.view.size, m.bins.treebins[i], i, t, TreeBinAt(i), BinLow(i), Width(i))
  {
    hide HeapOk, LeastOk, TopOk, RecordsOk;
    assert TreeBinOk(m.bins.links, m.bins.treebins[i], m.bins.treemap, m.view.trees[i], i, m.view.size);
    if TreeBinAt(i) in Members(m.view.trees[i]) {
      TreeMember(m.bins, m.view, i, TreeBinAt(i));
    }
  }

  // ---------------------------------------------------------------- the designated victim and the top chunk

  /** `do_check_top_chunk` */
  ghost predicate TopChunkOk(m: MallocState, s: Segment)
    reads m
  {
    && s in m.segs && s.base <= m.top < End(s) && OkAddress(m.least, m.top) && (m.top + MEM_OFFSET) % 16 == 0
    && m.top in m.head && m.head[m.top] == Head(m.topsize, false, true) && m.topsize > 0
    && m.topsize == End(s) - m.top - TOP_FOOT_SIZE
    && m.top + m.topsize in m.head && !m.head[m.top + m.topsize].pinuse
    && !Binned(m, m.top)
  }

  lemma DvAndTopCheck(m: MallocState)
    requires Sound(m, {})
    ensures m.dvsize != 0 ==> m.dv in m.head && m.head[m.dv].size == m.dvsize >= MIN_CHUNK_SIZE && !Binned(m, m.dv) && OkAddress(m.least, m.dv)
    ensures m.top != 0 ==> exists s :: TopChunkOk(m, s)
  {
    hide LeastOk, HeapOk, BinsOk, RecordsOk;
    BinnedIff(m, m.dv);
    BinnedIff(m, m.top);
    if m.dvsize != 0 {
      BlockFacts(m, {}, m.dv);
      BlockAddress(m, {}, m.dv);
    }
    if m.top != 0 {
      BlockFacts(m, {}, m.top);
      BlockAddress(m, {}, m.top);
      var s := TopSegment(m);
      assert TopChunkOk(m, s);
    }
  }

  lemma TopSegment(m: MallocState) returns (s: Segment)
    requires Sound(m, {}) && m.top != 0
    ensures s in m.segs && s.base <= m.top < End(s) && End(s) == m.top + m.topsize + TOP_FOOT_SIZE
  {
    BlockFacts(m, {}, m.top);
    assert HasSeg(m.segs, m.top, m.c[m.top]);
    s :| s in m.segs && InSeg(s, m.top, m.c[m.top]);
  }
}
