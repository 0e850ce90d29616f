/**
 The free-chunk index of dlmalloc: 32 small bins, each a ring of chunks of one size, and 32 tree bins.
 */
module Bins {
  import opened Rings
  import opened BinMaps
  import opened TreeIndex
  import opened Chunks
  import opened Trie
  import opened TrieInsert
  import opened TrieUnlink
  import opened TrieSearch

  /** The fields of `malloc_state` and of the chunks in memory that make up the index. */
  datatype BinState = BinState(links: Links, smallmap: nat, treemap: nat, treebins: seq<int>)

  /** What the index holds: the ring of every small bin, the tree of every tree bin, and the size of every binned chunk. */
  datatype BinView = BinView(smalls: seq<seq<int>>, trees: seq<Tree>, size: map<int, nat>)

  predicate IsSmall(s: nat) { s / 8 < NSMALLBINS }

  function SmallIndex(s: nat): nat { s / 8 }

  /** One tree bin. */
  ghost predicate TreeBinOk(L: Links, root: int, map_: nat, t: Tree, i: nat, size: map<int, nat>) {
    match L
    case Links(_, _, _, _, _, _) =>
      && BinTree(L, t, i, size)
      && root == Root(t)
      && (Bit(map_, i) <==> t.Node?)
      && forall s :: s in Sizes(t) ==> MIN_LARGE <= s < SIZE_LIMIT && TreeIndexOf(s) == i
  }

  /** One small bin: when it is empty its header links are meaningless. */
  ghost predicate SmallBinOk(L: Links, map_: nat, q: seq<int>, i: nat, size: map<int, nat>) {
    match L
    case Links(fd, bk, _, _, _, _) =>
      && (Bit(map_, i) <==> q != [])
      && (q != [] ==> Ring(fd, bk, [SmallBinAt(i)] + q))
      && forall x :: x in q ==> x > 0 && x in size && size[x] == 8 * i
  }

  /** The words at `x` that hold links belong to a binned chunk; only large chunks have room for the links of a tree. */
  ghost predicate KeptAt(L: Links, size: map<int, nat>, x: int) {
    match L
    case Links(fd, bk, left, right, parent, index) =>
      x > 0 ==>
        && (x in fd || x in bk ==> x in size)
        && (x in left || x in right || x in parent || x in index ==> x in size && size[x] >= MIN_LARGE)
  }

  /** The bin in which a chunk of size `s` is kept holds `x`. */
  ghost predicate InItsBin(g: BinView, x: int, s: nat)
    requires |g.smalls| == NSMALLBINS && |g.trees| == NTREEBINS
  {
    && MIN_CHUNK_SIZE <= s < SIZE_LIMIT && s % 16 == 0
    && if IsSmall(s) then x in g.smalls[SmallIndex(s)]
       else TreeIndexOf(s) < NTREEBINS && x in Members(g.trees[TreeIndexOf(s)])
  }

  ghost predicate BinsOk(b: BinState, g: BinView) {
    match b
    case BinState(links, smallmap, treemap, treebins) =>
      && |g.smalls| == NSMALLBINS && |g.trees| == NTREEBINS && |treebins| == NTREEBINS
      && smallmap < WORD && treemap < WORD
      && (forall i :: 0 <= i < NSMALLBINS ==> SmallBinOk(links, smallmap, g.smalls[i], i, g.size))
      && (forall i :: 0 <= i < NTREEBINS ==> TreeBinOk(links, treebins[i], treemap, g.trees[i], i, g.size))
      && (forall x :: x in g.size ==> x > 0 && InItsBin(g, x, g.size[x]))
      && (forall x {:trigger KeptAt(links, g.size, x)} :: KeptAt(links, g.size, x))
  }

  /** A chunk that has left its bin: its words no longer hold links, but belong to whoever gets the chunk. */
  function Drop(L: Links, x: int): Links {
    Links(L.fd - {x}, L.bk - {x}, L.left - {x}, L.right - {x}, L.parent - {x}, L.index - {x})
  }

  lemma DropOthers(L: Links, x: int, y: int)
    requires y != x
    ensures SameAt(L, Drop(L, x), y)
  {
  }

  lemma Dropped(L: Links, size: map<int, nat>, x: int)
    ensures KeptAt(Drop(L, x), size, x)
  {
  }

  /** Words that have not changed, and a chunk that is still binned with its size. */
  lemma KeptStill(L: Links, L': Links, size: map<int, nat>, size': map<int, nat>, y: int)
    requires KeptAt(L, size, y) && SameAt(L, L', y) && (y in size ==> y in size' && size'[y] == size[y])
    ensures KeptAt(L', size', y)
  {
  }

  /** A chunk of a tree bin may have any links. */
  lemma KeptLarge(L: Links, size: map<int, nat>, y: int)
    requires y in size && size[y] >= MIN_LARGE
    ensures KeptAt(L, size, y)
  {
  }
  /** All binned chunks have addresses that the system gave. */
  ghost predicate BinnedAbove(g: BinView, least: int) { forall x :: x in g.size ==> OkAddress(least, x) }

  // ---------------------------------------------------------------- bins do not share chunks

  lemma SmallMember(b: BinState, g: BinView, i: nat, x: int)
    requires BinsOk(b, g) && i < NSMALLBINS && x in g.smalls[i]
    ensures x > 0 && x in g.size && g.size[x] == 8 * i
  {
    assert SmallBinOk(b.links, b.smallmap, g.smalls[i], i, g.size);
  }

  lemma TreeMember(b: BinState, g: BinView, i: nat, x: int)
    requires BinsOk(b, g) && i < NTREEBINS && x in Members(g.trees[i])
    ensures x in g.size && MIN_LARGE <= g.size[x] < SIZE_LIMIT && TreeIndexOf(g.size[x]) == i
  {
    assert TreeBinOk(b.links, b.treebins[i], b.treemap, g.trees[i], i, g.size);
    SizedMember(g.trees[i], g.size, x);
  }

  // ---------------------------------------------------------------- frames

  lemma TreeBinKept(L: Links, L': Links, root: int, map_: nat, map': nat, t: Tree, i: nat,
                    size: map<int, nat>, size': map<int, nat>)
    requires TreeBinOk(L, root, map_, t, i, size) && (Bit(map', i) <==> Bit(map_, i))
    requires SameLinks(L, L', Members(t))
    requires forall x :: x in Members(t) && x in size ==> x in size' && size'[x] == size[x]
    ensures TreeBinOk(L', root, map', t, i, size')
  {
    ReprFrame(L, L', t, TreeBinAt(i), i);
    SizedFrame(t, size, size');
  }

  lemma SmallBinKept(L: Links, L': Links, map_: nat, map': nat, q: seq<int>, i: nat,
                     size: map<int, nat>, size': map<int, nat>)
    requires SmallBinOk(L, map_, q, i, size) && (Bit(map', i) <==> Bit(map_, i))
    requires SameAt(L, L', SmallBinAt(i)) && forall x :: x in q ==> SameAt(L, L', x)
    requires forall x :: x in q && x in size ==> x in size' && size'[x] == size[x]
    ensures SmallBinOk(L', map', q, i, size')
  {
    if q != [] {
      RingFrame(L.fd, L.bk, L'.fd, L'.bk, [SmallBinAt(i)] + q);
    }
  }

  /** The chunks and the header that one small bin occupies, and likewise one tree bin. */
  ghost function SmallArea(g: BinView, i: nat): set<int>
    requires i < |g.smalls|
  {
    {SmallBinAt(i)} + set x | x in g.smalls[i]
  }

  /** An operation that touches one small bin (`si`) or one tree bin (`ti`), and only addresses in `area`. */
  ghost predicate OnlyTouches(b: BinState, g: BinView, b': BinState, g': BinView, si: int, ti: int, area: set<int>)
    requires BinsOk(b, g)
  {
    && |g'.smalls| == NSMALLBINS && |g'.trees| == NTREEBINS && |b'.treebins| == NTREEBINS
    && (forall y :: y !in area ==> SameAt(b.links, b'.links, y))
    && (forall x :: x in g.size && x !in area ==> x in g'.size && g'.size[x] == g.size[x])
    && (forall j :: 0 <= j < NSMALLBINS && j != si ==>
          g'.smalls[j] == g.smalls[j] && (Bit(b'.smallmap, j) <==> Bit(b.smallmap, j)) && SmallArea(g, j) !! area)
    && (forall j :: 0 <= j < NTREEBINS && j != ti ==>
          && g'.trees[j] == g.trees[j] && b'.treebins[j] == b.treebins[j]
          && (Bit(b'.treemap, j) <==> Bit(b.treemap, j)) && Members(g.trees[j]) !! area)
  }

  /** Every other bin stays as it is. */
  lemma OtherSmallBin(b: BinState, g: BinView, b': BinState, g': BinView, si: int, ti: int, area: set<int>, j: nat)
    requires BinsOk(b, g) && OnlyTouches(b, g, b', g', si, ti, area) && j < NSMALLBINS && j != si
    ensures SmallBinOk(b'.links, b'.smallmap, g'.smalls[j], j, g'.size)
  {
    assert SmallBinOk(b.links, b.smallmap, g.smalls[j], j, g.size);
    forall y | y in SmallArea(g, j)
      ensures SameAt(b.links, b'.links, y)
    {
    }
    assert SmallBinAt(j) in SmallArea(g, j);
    assert forall x :: x in g.smalls[j] ==> x in SmallArea(g, j);
    SmallBinKept(b.links, b'.links, b.smallmap, b'.smallmap, g.smalls[j], j, g.size, g'.size);
  }

  lemma OtherTreeBin(b: BinState, g: BinView, b': BinState, g': BinView, si: int, ti: int, area: set<int>, j: nat)
    requires BinsOk(b, g) && OnlyTouches(b, g, b', g', si, ti, area) && j < NTREEBINS && j != ti
    ensures TreeBinOk(b'.links, b'.treebins[j], b'.treemap, g'.trees[j], j, g'.size)
  {
    assert TreeBinOk(b.links, b.treebins[j], b.treemap, g.trees[j], j, g.size);
    TreeBinKept(b.links, b'.links, b.treebins[j], b.treemap, b'.treemap, g.trees[j], j, g.size, g'.size);
  }

  lemma SmallAreasApart(b: BinState, g: BinView, i: nat, x: int, j: nat)
    requires BinsOk(b, g) && i < NSMALLBINS && j < NSMALLBINS && i != j && (x in g.size ==> g.size[x] == 8 * i) && x > 0
    ensures SmallArea(g, j) !! SmallArea(g, i) + {x}
  {
    forall y | y in SmallArea(g, j)
      ensures y !in SmallArea(g, i) + {x}
    {
      if y in g.smalls[j] {
        SmallMember(b, g, j, y);
      }
      if y in g.smalls[i] {
        SmallMember(b, g, i, y);
      }
    }
  }

  lemma SmallAndTreeApart(b: BinState, g: BinView, i: nat, x: int, j: nat)
    requires BinsOk(b, g) && i < NSMALLBINS && j < NTREEBINS && (x in g.size ==> g.size[x] == 8 * i) && x > 0
    ensures Members(g.trees[j]) !! SmallArea(g, i) + {x}
  {
    forall y | y in Members(g.trees[j])
      ensures y !in SmallArea(g, i) + {x}
    {
      TreeMember(b, g, j, y);
      if y in g.smalls[i] {
        SmallMember(b, g, i, y);
      }
    }
  }

  lemma TreesApart(b: BinState, g: BinView, i: nat, x: int, j: nat)
    requires BinsOk(b, g) && i < NTREEBINS && j < NTREEBINS && i != j && (x in g.size ==> x in Members(g.trees[i]))
    ensures Members(g.trees[j]) !! Members(g.trees[i]) + {x}
  {
    forall y | y in Members(g.trees[j])
      ensures y !in Members(g.trees[i]) + {x}
    {
      TreeMember(b, g, j, y);
      if y in Members(g.trees[i]) {
        TreeMember(b, g, i, y);
      }
    }
  }

  lemma TreeAndSmallApart(b: BinState, g: BinView, i: nat, x: int, j: nat)
    requires BinsOk(b, g) && i < NTREEBINS && j < NSMALLBINS && (x in g.size ==> x in Members(g.trees[i])) && x > 0
    ensures SmallArea(g, j) !! Members(g.trees[i]) + {x}
  {
    forall y | y in SmallArea(g, j)
      ensures y !in Members(g.trees[i]) + {x}
    {
      if y in g.smalls[j] {
        SmallMember(b, g, j, y);
      }
      if y in Members(g.trees[i]) {
        TreeMember(b, g, i, y);
      }
    }
  }

  lemma BinCounts(b: BinState, g: BinView)
    requires BinsOk(b, g)
    ensures |g.smalls| == NSMALLBINS && |g.trees| == NTREEBINS && |b.treebins| == NTREEBINS && b.smallmap < WORD && b.treemap < WORD
  {
  }

  lemma TreeMarked(b: BinState, g: BinView, i: nat, x: int)
    requires BinsOk(b, g) && i < NTREEBINS && x in Members(g.trees[i])
    ensures Bit(b.treemap, i)
  {
    assert TreeBinOk(b.links, b.treebins[i], b.treemap, g.trees[i], i, g.size);
  }

  /** A change at tree bin `i` and the chunk `x` touches no other bin. */
  lemma TouchesTree(b: BinState, g: BinView, b': BinState, g': BinView, i: nat, x: int, t': Tree, root: int)
    requires BinsOk(b, g) && i < NTREEBINS && x > 0 && (x in g.size ==> x in Members(g.trees[i]))
    requires forall y :: y !in Members(g.trees[i]) + {x} ==> SameAt(b.links, b'.links, y)
    requires forall y :: y in g.size && y != x ==> y in g'.size && g'.size[y] == g.size[y]
    requires g'.smalls == g.smalls && b'.smallmap == b.smallmap
    requires g'.trees == g.trees[i := t'] && b'.treebins == b.treebins[i := root]
    requires forall j :: 0 <= j < NTREEBINS && j != i ==> (Bit(b'.treemap, j) <==> Bit(b.treemap, j))
    ensures OnlyTouches(b, g, b', g', -1, i, Members(g.trees[i]) + {x})
  {
    hide SameAt, TreeBinOk, SmallBinOk, KeptAt, InItsBin;
    forall j | 0 <= j < NTREEBINS && j != i
      ensures Members(g.trees[j]) !! Members(g.trees[i]) + {x}
    {
      TreesApart(b, g, i, x, j);
    }
    forall j | 0 <= j < NSMALLBINS
      ensures SmallArea(g, j) !! Members(g.trees[i]) + {x}
    {
      TreeAndSmallApart(b, g, i, x, j);
    }
  }

  /** A change at small bin `i` and the chunk `x` touches no other bin. */
  lemma TouchesSmall(b: BinState, g: BinView, b': BinState, g': BinView, i: nat, x: int, q': seq<int>)
    requires BinsOk(b, g) && i < NSMALLBINS && x > 0 && (x in g.size ==> g.size[x] == 8 * i)
    requires forall y :: y != SmallBinAt(i) && y != x && y !in g.smalls[i] ==> SameAt(b.links, b'.links, y)
    requires forall y :: y in g.size && y != x ==> y in g'.size && g'.size[y] == g.size[y]
    requires g'.trees == g.trees && b'.treemap == b.treemap && b'.treebins == b.treebins
    requires g'.smalls == g.smalls[i := q']
    requires forall j :: 0 <= j < NSMALLBINS && j != i ==> (Bit(b'.smallmap, j) <==> Bit(b.smallmap, j))
    ensures OnlyTouches(b, g, b', g', i, -1, SmallArea(g, i) + {x})
  {
    hide SameAt, TreeBinOk, SmallBinOk, KeptAt, InItsBin;
    forall j | 0 <= j < NSMALLBINS && j != i
      ensures SmallArea(g, j) !! SmallArea(g, i) + {x}
    {
      SmallAreasApart(b, g, i, x, j);
    }
    forall j | 0 <= j < NTREEBINS
      ensures Members(g.trees[j]) !! SmallArea(g, i) + {x}
    {
      SmallAndTreeApart(b, g, i, x, j);
    }
  }

  lemma Assemble(b: BinState, g: BinView, b': BinState, g': BinView, si: int, ti: int, area: set<int>)
    requires BinsOk(b, g) && OnlyTouches(b, g, b', g', si, ti, area)
    requires b'.smallmap < WORD && b'.treemap < WORD
    requires 0 <= si < NSMALLBINS ==> SmallBinOk(b'.links, b'.smallmap, g'.smalls[si], si, g'.size)
    requires 0 <= ti < NTREEBINS ==> TreeBinOk(b'.links, b'.treebins[ti], b'.treemap, g'.trees[ti], ti, g'.size)
    requires forall x :: x in g'.size ==> x > 0 && InItsBin(g', x, g'.size[x])
    requires forall x :: KeptAt(b'.links, g'.size, x)
    ensures BinsOk(b', g')
  {
    forall j | 0 <= j < NSMALLBINS
      ensures SmallBinOk(b'.links, b'.smallmap, g'.smalls[j], j, g'.size)
    {
      if j != si {
        OtherSmallBin(b, g, b', g', si, ti, area, j);
      }
    }
    forall j | 0 <= j < NTREEBINS
      ensures TreeBinOk(b'.links, b'.treebins[j], b'.treemap, g'.trees[j], j, g'.size)
    {
      if j != ti {
        OtherTreeBin(b, g, b', g', si, ti, area, j);
      }
    }
  }

  // ---------------------------------------------------------------- small bins

  /** `B->fd = P; F->bk = P; P->fd = F; P->bk = B` */
  function SmallLinks(L: Links, B: int, F: int, x: int): Links {
    L.(fd := L.fd[B := x][x := F], bk := L.bk[F := x][x := B])
  }

  lemma SmallRing(L: Links, q: seq<int>, B: int, F: int, x: int)
    requires x != B && x !in q
    requires q != [] ==> Ring(L.fd, L.bk, [B] + q) && F == L.fd[B]
    requires q == [] ==> F == B
    ensures var L' := SmallLinks(L, B, F, x); Ring(L'.fd, L'.bk, [B] + ([x] + q))
    ensures forall y :: y != B && y != x && y !in q ==> SameAt(L, SmallLinks(L, B, F, x), y)
  {
    var L' := SmallLinks(L, B, F, x);
    if q == [] {
      var r := [B, x];
      assert [B] + ([x] + q) == r;
      assert LinkedAt(L'.fd, L'.bk, r, 0) && LinkedAt(L'.fd, L'.bk, r, 1);
    } else {
      var r := [B] + q;
      assert LinkedAt(L.fd, L.bk, r, 0);
      assert F == q[0];
      InsertAfterFirst(L.fd, L.bk, r, x);
      assert [B, x] + r[1..] == [B] + ([x] + q);
      assert L'.fd == LinkFd(L.fd, B, x);
      assert L'.bk == LinkBk(L.fd, L.bk, B, x);
    }
  }

  /** `insert_small_chunk` */
  method InsertSmall(b: BinState, x: int, s: nat, ghost g: BinView, ghost least: int) returns (b': BinState, ghost g': BinView)
    requires BinsOk(b, g) && BinnedAbove(g, least) && x > 0 && x !in g.size
    requires MIN_CHUNK_SIZE <= s && IsSmall(s) && s % 16 == 0
    ensures BinsOk(b', g') && g'.size == g.size[x := s]
    ensures s < 256 && g'.smalls == g.smalls[s / 8 := [x] + g.smalls[s / 8]] && g'.trees == g.trees
  {
    var i := SmallIndex(s);
    var B := SmallBinAt(i);
    var F := B;
    var smallmap := b.smallmap;
    ghost var q := g.smalls[i];
    assert SmallBinOk(b.links, b.smallmap, q, i, g.size);
    TestBit(b.smallmap, i);
    if And(b.smallmap, Idx2Bit(i)) == 0 {
      smallmap := Or(b.smallmap, Idx2Bit(i));
    } else {
      assert B == ([B] + q)[0];
      assert OkAddress(least, b.links.fd[B]) by { SmallPlace(b.links, q, B, 0); }
      F := b.links.fd[B];
    }
    MarkSetsOneBit(b.smallmap, i, i);
    b' := b.(links := SmallLinks(b.links, B, F, x), smallmap := smallmap);
    g' := g.(smalls := g.smalls[i := [x] + q], size := g.size[x := s]);
    SmallInserted(b, g, b', g', F, x, s, i);
  }

  lemma SmallBinFacts(b: BinState, g: BinView, i: nat)
    requires BinsOk(b, g) && i < NSMALLBINS
    ensures SmallBinOk(b.links, b.smallmap, g.smalls[i], i, g.size) && forall y :: y in g.smalls[i] ==> y in g.size
  {
    hide TreeBinOk, KeptAt, InItsBin, Ring;
  }

  lemma BinnedWithSmall(b: BinState, g: BinView, g': BinView, x: int, s: nat, i: nat)
    requires BinsOk(b, g) && x > 0 && MIN_CHUNK_SIZE <= s && IsSmall(s) && s % 16 == 0 && i == SmallIndex(s)
    requires g' == g.(smalls := g.smalls[i := [x] + g.smalls[i]], size := g.size[x := s])
    ensures forall y :: y in g'.size ==> y > 0 && InItsBin(g', y, g'.size[y])
  {
    hide TreeBinOk, SmallBinOk, KeptAt, TreeIndexOf;
    forall y | y in g'.size
      ensures y > 0 && InItsBin(g', y, g'.size[y])
    {
      assert y != x ==> InItsBin(g, y, g.size[y]);
    }
  }

  lemma SmallInsertedKept(b: BinState, g: BinView, L': Links, size': map<int, nat>, x: int, s: nat, i: nat, F: int)
    requires BinsOk(b, g) && x > 0 && x !in g.size && i < NSMALLBINS && (F == SmallBinAt(i) || F in g.smalls[i])
    requires L' == SmallLinks(b.links, SmallBinAt(i), F, x) && size' == g.size[x := s]
    ensures forall y :: KeptAt(L', size', y)
  {
    hide TreeBinOk, InItsBin, Ring;
    SmallBinFacts(b, g, i);
    forall y
      ensures KeptAt(L', size', y)
    {
      assert KeptAt(b.links, g.size, y);
    }
  }

  lemma SmallInserted(b: BinState, g: BinView, b': BinState, g': BinView, F: int, x: int, s: nat, i: nat)
    requires BinsOk(b, g) && x > 0 && x !in g.size
    requires MIN_CHUNK_SIZE <= s && IsSmall(s) && s % 16 == 0 && i == SmallIndex(s)
    requires var q, B := g.smalls[i], SmallBinAt(i);
             && (q != [] ==> B in b.links.fd && F == b.links.fd[B]) && (q == [] ==> F == B)
             && b' == b.(links := SmallLinks(b.links, B, F, x), smallmap := b'.smallmap)
             && g' == g.(smalls := g.smalls[i := [x] + q], size := g.size[x := s])
    requires b'.smallmap < WORD && b'.smallmap == if g.smalls[i] == [] then Or(b.smallmap, Idx2Bit(i)) else b.smallmap
    ensures BinsOk(b', g')
  {
    hide BinsOk, OnlyTouches, SameAt, Ring, TreeBinOk, InItsBin, KeptAt, SmallLinks;
    BinCounts(b, g);
    var q, B, area := g.smalls[i], SmallBinAt(i), SmallArea(g, i) + {x};
    SmallBinFacts(b, g, i);
    SmallRing(b.links, q, B, F, x);
    forall j | 0 <= j < NSMALLBINS
      ensures Bit(b'.smallmap, j) == (j == i || Bit(b.smallmap, j))
    {
      MarkSetsOneBit(b.smallmap, i, j);
    }
    assert SmallBinOk(b'.links, b'.smallmap, g'.smalls[i], i, g'.size);
    TouchesSmall(b, g, b', g', i, x, [x] + q);
    BinnedWithSmall(b, g, g', x, s, i);
    if q != [] {
      SmallPlace(b.links, q, B, 0);
    }
    SmallInsertedKept(b, g, b'.links, g'.size, x, s, i, F);
    Assemble(b, g, b', g', i, -1, area);
  }

  /** What the links of chunk `x`, in place `k` of its bin, tell. */
  lemma SmallPlace(L: Links, q: seq<int>, H: int, k: nat)
    requires k < |q| && Ring(L.fd, L.bk, [H] + q)
    ensures var x := q[k];
            && x in L.fd && x in L.bk && H in L.fd && H in L.bk && L.fd[H] == q[0]
            && (L.bk[x] == L.fd[x] <==> |q| == 1)
            && (k == 0 ==> L.bk[x] == H)
            && x != L.fd[x] && x != L.bk[x]
            && L.fd[x] in L.bk && L.bk[L.fd[x]] == x && (L.fd[x] == H || L.fd[x] in q)
            && L.bk[x] in L.fd && L.fd[L.bk[x]] == x && (L.bk[x] == H || L.bk[x] in q)
  {
    var r := [H] + q;
    assert r[k + 1] == q[k];
    assert LinkedAt(L.fd, L.bk, r, k + 1);
    assert LinkedAt(L.fd, L.bk, r, 0);
    assert LinkedAt(L.fd, L.bk, r, Succ(k + 1, |r|)) && LinkedAt(L.fd, L.bk, r, Pred(k + 1, |r|));
  }

  lemma SmallCut(L: Links, q: seq<int>, H: int, k: nat)
    requires k < |q| && |q| > 1 && Ring(L.fd, L.bk, [H] + q)
    ensures q[k] in L.fd && q[k] in L.bk
    ensures var L' := CutLinks(L, q[k]); Ring(L'.fd, L'.bk, [H] + Without(q, k))
    ensures forall y :: y != H && y !in q ==> SameAt(L, CutLinks(L, q[k]), y)
  {
    var r := [H] + q;
    assert r[k + 1] == q[k];
    RemoveAt(L.fd, L.bk, r, k + 1);
    assert Without(r, k + 1) == [H] + Without(q, k);
    forall y | y != H && y !in q
      ensures SameAt(L, CutLinks(L, q[k]), y)
    {
      CutOthers(L, r, k + 1, y);
    }
  }

  /** `unlink_small_chunk`: the last chunk of a bin only clears the bit. */
  method UnlinkSmall(b: BinState, x: int, s: nat, ghost g: BinView, ghost least: int) returns (b': BinState, ghost g': BinView)
    requires BinsOk(b, g) && BinnedAbove(g, least) && x in g.size && g.size[x] == s && IsSmall(s)
    ensures BinsOk(b', g') && g'.size == g.size - {x}
    ensures s < 256 && g'.trees == g.trees
    ensures exists k :: 0 <= k < |g.smalls[s / 8]| && g.smalls[s / 8][k] == x &&
              g'.smalls == g.smalls[s / 8 := g.smalls[s / 8][..k] + g.smalls[s / 8][k + 1..]]
  {
    var i := SmallIndex(s);
    ghost var q := g.smalls[i];
    assert InItsBin(g, x, s);
    assert SmallBinOk(b.links, b.smallmap, q, i, g.size);
    ghost var k :| 0 <= k < |q| && q[k] == x;
    SmallPlace(b.links, q, SmallBinAt(i), k);
    var F, B := b.links.fd[x], b.links.bk[x];
    assert x != B && x != F && s == 8 * i;
    assert F == SmallBinAt(i) || (OkAddress(least, F) && b.links.bk[F] == x);
    if B == F {
      ClearClearsOneBit(b.smallmap, i, i);
      b' := b.(links := Drop(b.links, x), smallmap := And(b.smallmap, Not(Idx2Bit(i))));
    } else {
      assert B == SmallBinAt(i) || (OkAddress(least, B) && b.links.fd[B] == x);
      b' := b.(links := Drop(CutLinks(b.links, x), x));
    }
    g' := g.(smalls := g.smalls[i := Without(q, k)], size := g.size - {x});
    SmallUnlinked(b, g, b', g', k, i);
  }

  /** `unlink_first_small_chunk` */
  method UnlinkFirstSmall(b: BinState, i: nat, ghost g: BinView, ghost least: int) returns (b': BinState, x: int, ghost g': BinView)
    requires BinsOk(b, g) && BinnedAbove(g, least) && i < NSMALLBINS && Bit(b.smallmap, i)
    ensures x in g.size && g.size[x] == 8 * i
    ensures BinsOk(b', g') && g'.size == g.size - {x}
    ensures g.smalls[i] != [] && x == g.smalls[i][0] && g'.smalls == g.smalls[i := g.smalls[i][1..]] && g'.trees == g.trees
  {
    ghost var q := g.smalls[i];
    assert SmallBinOk(b.links, b.smallmap, q, i, g.size);
    var B := SmallBinAt(i);
    SmallPlace(b.links, q, B, 0);
    x := b.links.fd[B];
    var F := b.links.fd[x];
    assert x != B && x != F;
    if B == F {
      ClearClearsOneBit(b.smallmap, i, i);
      b' := b.(links := Drop(b.links, x), smallmap := And(b.smallmap, Not(Idx2Bit(i))));
    } else {
      assert OkAddress(least, F) && b.links.bk[F] == x;
      var links := b.links.(bk := b.links.bk[F := B], fd := b.links.fd[B := F]);
      assert links == CutLinks(b.links, x);
      b' := b.(links := Drop(links, x));
    }
    g' := g.(smalls := g.smalls[i := Without(q, 0)], size := g.size - {x});
    assert x == q[0] && x in q && Without(q, 0) == q[1..];
    assert InItsBin(g, x, g.size[x]);
    SmallUnlinked(b, g, b', g', 0, i);
  }

  lemma RingDistinct(fd: map<int, int>, bk: map<int, int>, h: int, q: seq<int>)
    requires Ring(fd, bk, [h] + q)
    ensures Distinct(q)
  {
    DistinctTail(h, q);
  }

  lemma StillKept(b: BinState, g: BinView, y: int)
    requires BinsOk(b, g)
    ensures KeptAt(b.links, g.size, y)
  {
  }

  lemma BinnedWithoutSmall(b: BinState, g: BinView, g': BinView, k: nat, i: nat)
    requires BinsOk(b, g) && i < NSMALLBINS && k < |g.smalls[i]| && Distinct(g.smalls[i])
    requires g' == g.(smalls := g.smalls[i := Without(g.smalls[i], k)], size := g.size - {g.smalls[i][k]})
    ensures forall y :: y in g'.size ==> y > 0 && InItsBin(g', y, g'.size[y])
  {
    hide TreeBinOk, SmallBinOk, KeptAt, TreeIndexOf;
    WithoutMembers(g.smalls[i], k);
    forall y | y in g'.size
      ensures y > 0 && InItsBin(g', y, g'.size[y])
    {
      assert InItsBin(g, y, g.size[y]);
    }
  }

  lemma SmallUnlinked(b: BinState, g: BinView, b': BinState, g': BinView, k: nat, i: nat)
    requires BinsOk(b, g) && i < NSMALLBINS && k < |g.smalls[i]|
    requires var q := g.smalls[i];
             && q[k] in b.links.fd && q[k] in b.links.bk && Idx2Bit(i) < WORD
             && g' == g.(smalls := g.smalls[i := Without(q, k)], size := g.size - {q[k]})
             && b' == if |q| == 1 then b.(links := Drop(b.links, q[k]), smallmap := And(b.smallmap, Not(Idx2Bit(i))))
                      else b.(links := Drop(CutLinks(b.links, q[k]), q[k]))
    ensures BinsOk(b', g')
  {
    hide BinsOk, OnlyTouches, SameAt, Ring, TreeBinOk, InItsBin;
    BinCounts(b, g);
    var q, area := g.smalls[i], SmallArea(g, i);
    var x := q[k];
    SmallBinFacts(b, g, i);
    RingDistinct(b.links.fd, b.links.bk, SmallBinAt(i), q);
    WithoutMembers(q, k);
    SmallDropped(b.links, b'.links, q, SmallBinAt(i), k);
    SmallMember(b, g, i, x);
    forall j | 0 <= j < NSMALLBINS
      ensures j != i ==> (Bit(b'.smallmap, j) <==> Bit(b.smallmap, j))
      ensures |q| == 1 ==> !Bit(b'.smallmap, i)
      ensures b'.smallmap < WORD
    {
      ClearClearsOneBit(b.smallmap, i, j);
      ClearClearsOneBit(b.smallmap, i, i);
    }
    assert SmallBinOk(b'.links, b'.smallmap, g'.smalls[i], i, g'.size);
    assert area + {x} == area;
    TouchesSmall(b, g, b', g', i, x, Without(q, k));
    BinnedWithoutSmall(b, g, g', k, i);
    forall y
      ensures KeptAt(b'.links, g'.size, y)
    {
      StillKept(b, g, y);
      SmallStillKept(b.links, b'.links, q, i, k, g.size, g'.size, y);
    }
    Assemble(b, g, b', g', i, -1, area);
  }

  /** The links after the chunk in place `k` has gone. */
  lemma SmallDropped(L: Links, L': Links, q: seq<int>, H: int, k: nat)
    requires k < |q| && Ring(L.fd, L.bk, [H] + q) && Distinct(q) && H < 0 < q[k] && q[k] in L.fd && q[k] in L.bk
    requires L' == if |q| == 1 then Drop(L, q[k]) else Drop(CutLinks(L, q[k]), q[k])
    ensures |q| > 1 ==> Ring(L'.fd, L'.bk, [H] + Without(q, k))
    ensures forall y :: y != H && y !in q ==> SameAt(L, L', y)
  {
    var x := q[k];
    if |q| > 1 {
      SmallCut(L, q, H, k);
      var r := [H] + Without(q, k);
      WithoutMembers(q, k);
      assert x !in r;
      RingFrame(CutLinks(L, x).fd, CutLinks(L, x).bk, L'.fd, L'.bk, r);
    }
    assert x in q;
    forall y | y != H && y !in q
      ensures SameAt(L, L', y)
    {
      DropOthers(if |q| == 1 then L else CutLinks(L, x), x, y);
      if |q| > 1 {
        SameAtTrans(L, CutLinks(L, x), L', y);
      }
    }
  }

  lemma SmallStillKept(L: Links, L': Links, q: seq<int>, i: nat, k: nat, size: map<int, nat>, size': map<int, nat>, y: int)
    requires KeptAt(L, size, y) && k < |q| && (forall x :: x in q ==> x in size && size[x] == 8 * i) && i < NSMALLBINS
    requires L'.left == L.left - {q[k]} && L'.right == L.right - {q[k]} && L'.parent == L.parent - {q[k]} && L'.index == L.index - {q[k]}
    requires q[k] !in L'.fd && q[k] !in L'.bk && size' == size - {q[k]}
    requires y != SmallBinAt(i) && y !in q ==> SameAt(L, L', y)
    ensures KeptAt(L', size', y)
  {
  }

  lemma DistinctTail(h: int, q: seq<int>)
    requires Distinct([h] + q)
    ensures Distinct(q)
  {
    var r := [h] + q;
    assert forall i :: 0 <= i < |q| ==> q[i] == r[i + 1];
  }

  // ---------------------------------------------------------------- tree bins

  /** `X->index = I; X->child[0] = X->child[1] = 0` */
  function Prepare(L: Links, x: int, i: nat): Links {
    L.(index := L.index[x := i], left := L.left[x := 0], right := L.right[x := 0])
  }

  lemma PrepareOthers(L: Links, x: int, i: nat, y: int)
    requires y != x
    ensures SameAt(L, Prepare(L, x, i), y)
  {
  }

  /** The first chunk of a tree bin. */
  lemma OnlyChunk(L: Links, x: int, s: nat, i: nat, size: map<int, nat>)
    requires MIN_LARGE <= s < SIZE_LIMIT && i == TreeIndexOf(s) && i < NTREEBINS && x > 0
    ensures Inserted(L, LeafLinks(Prepare(L, x, i), x, TreeBinAt(i)), Nil, Node([x], s, Nil, Nil), x, s, i, size)
    ensures TrieOk(Node([x], s, Nil, Nil), BinLow(i), Width(i))
  {
    hide TreeIndexOf, BinLow, Width, Inserted;
    InBin(s);
    OnlyLinks(L, x, s, i, size);
  }

  lemma OnlyLinks(L: Links, x: int, s: nat, i: nat, size: map<int, nat>)
    requires i < NTREEBINS && x > 0
    ensures Inserted(L, LeafLinks(Prepare(L, x, i), x, TreeBinAt(i)), Nil, Node([x], s, Nil, Nil), x, s, i, size)
  {
    hide BinLow, Width, TreeIndexOf;
    var L' := LeafLinks(Prepare(L, x, i), x, TreeBinAt(i));
    LeafRepr(L', x, s, TreeBinAt(i), i);
    forall y | y != x
      ensures SameAt(L, L', y)
    {
      PrepareOthers(L, x, i, y);
    }
    var t := Node([x], s, Nil, Nil);
    assert Repr(L', t, TreeBinAt(i), i);
    assert Sized(t, size[x := s]);
    assert Members(t) == Members(Nil) + {x};
    assert t.Node?;
    assert forall y :: y !in Members(Nil) && y != x ==> SameAt(L, L', y);
  }

  /** `insert_large_chunk` */
  method InsertTree(b: BinState, head: map<int, Head>, x: int, s: nat, ghost g: BinView, ghost least: int) returns (b': BinState, ghost g': BinView)
    requires BinsOk(b, g) && BinnedAbove(g, least) && HeadersAgree(head, g.size) && x > 0 && x !in g.size
    requires MIN_LARGE <= s < SIZE_LIMIT && s % 16 == 0
    ensures BinsOk(b', g') && g'.size == g.size[x := s] && g'.smalls == g.smalls
    ensures x in b'.links.parent && x in b'.links.bk && x in b'.links.fd && TreeIndexOf(s) < NTREEBINS
    ensures if s !in Sizes(g.trees[TreeIndexOf(s)]) then b'.links.parent[x] != 0
            else var t := b'.links.bk[x];
                 && b'.links.parent[x] == 0 && t in g.size && g.size[t] == s && t in b.links.parent && b.links.parent[t] != 0
                 && t in b.links.fd && b'.links.fd[x] == b.links.fd[t]
  {
    IndexBrackets(s);
    var i := TreeIndexOf(s);
    ghost var t, t' := g.trees[i], Nil;
    assert TreeBinOk(b.links, b.treebins[i], b.treemap, t, i, g.size);
    assert x !in Members(t) by { if x in Members(t) { TreeMember(b, g, i, x); } }
    var L := Prepare(b.links, x, i);
    var treemap, root := b.treemap, b.treebins[i];
    TestBit(b.treemap, i);
    MarkSetsOneBit(b.treemap, i, i);
    if And(b.treemap, Idx2Bit(i)) == 0 {
      treemap, root := Or(b.treemap, Idx2Bit(i)), x;
      L := LeafLinks(L, x, TreeBinAt(i));
      t' := Node([x], s, Nil, Nil);
      OnlyChunk(b.links, x, s, i, g.size);
    } else {
      PreparedBin(b.links, t, x, i, g.size);
      ghost var L0 := L;
      BinAbove(b, g, i, least);
      L, t' := InsertLarge(L, head, root, x, s, i, t, g.size, least);
      InsertedInto(b.links, L0, L, t, t', x, s, i, g.size);
      assert L0.fd == b.links.fd && L0.parent == b.links.parent;
    }
    b' := b.(links := L, treemap := treemap, treebins := b.treebins[i := root]);
    g' := g.(trees := g.trees[i := t'], size := g.size[x := s]);
    TreeInserted(b, g, b', g', t', x, s, i);
  }

  lemma PreparedBin(L: Links, t: Tree, x: int, i: nat, size: map<int, nat>)
    requires BinTree(L, t, i, size) && x !in Members(t) && x > 0
    ensures BinTree(Prepare(L, x, i), t, i, size) && Fresh(Prepare(L, x, i), x, i)
  {
    forall y | y in Members(t)
      ensures SameAt(L, Prepare(L, x, i), y)
    {
      PrepareOthers(L, x, i, y);
    }
    ReprFrame(L, Prepare(L, x, i), t, TreeBinAt(i), i);
  }

  lemma InsertedInto(L: Links, L0: Links, L': Links, t: Tree, t': Tree, x: int, s: nat, i: nat, size: map<int, nat>)
    requires L0 == Prepare(L, x, i) && Inserted(L0, L', t, t', x, s, i, size)
    ensures Inserted(L, L', t, t', x, s, i, size)
  {
    forall y | y !in Members(t) && y != x
      ensures SameAt(L, L', y)
    {
      PrepareOthers(L, x, i, y);
      SameAtTrans(L, L0, L', y);
    }
  }

  lemma TreeGrown(b: BinState, g: BinView, b': BinState, t': Tree, x: int, s: nat, i: nat)
    requires BinsOk(b, g) && MIN_LARGE <= s < SIZE_LIMIT && i == TreeIndexOf(s) && i < NTREEBINS
    requires Inserted(b.links, b'.links, g.trees[i], t', x, s, i, g.size) && TrieOk(t', BinLow(i), Width(i)) && Bit(b'.treemap, i)
    ensures TreeBinOk(b'.links, Root(t'), b'.treemap, t', i, g.size[x := s])
  {
    hide BinsOk, Repr, TrieOk;
    SizesOfMembers(b, g, i, t', x, s);
  }

  lemma BinnedWithTree(b: BinState, g: BinView, g': BinView, t': Tree, x: int, s: nat, i: nat)
    requires BinsOk(b, g) && x > 0 && MIN_LARGE <= s < SIZE_LIMIT && s % 16 == 0 && i == TreeIndexOf(s) && i < NTREEBINS
    requires g' == g.(trees := g.trees[i := t'], size := g.size[x := s]) && Members(t') == Members(g.trees[i]) + {x}
    ensures forall y :: y in g'.size ==> y > 0 && InItsBin(g', y, g'.size[y])
  {
    hide TreeBinOk, SmallBinOk, KeptAt, TreeIndexOf;
    forall y | y in g'.size
      ensures y > 0 && InItsBin(g', y, g'.size[y])
    {
      assert y != x ==> InItsBin(g, y, g.size[y]);
    }
  }

  lemma BinnedWithoutTree(b: BinState, g: BinView, g': BinView, t': Tree, x: int, i: nat)
    requires BinsOk(b, g) && i < NTREEBINS
    requires g' == g.(trees := g.trees[i := t'], size := g.size - {x}) && Members(t') == Members(g.trees[i]) - {x}
    ensures forall y :: y in g'.size ==> y > 0 && InItsBin(g', y, g'.size[y])
  {
    hide TreeBinOk, SmallBinOk, KeptAt, TreeIndexOf;
    forall y | y in g'.size
      ensures y > 0 && InItsBin(g', y, g'.size[y])
    {
      assert InItsBin(g, y, g.size[y]);
    }
  }

  lemma TreeInserted(b: BinState, g: BinView, b': BinState, g': BinView, t': Tree, x: int, s: nat, i: nat)
    requires BinsOk(b, g) && x > 0 && x !in g.size
    requires MIN_LARGE <= s < SIZE_LIMIT && s % 16 == 0 && i == TreeIndexOf(s) && i < NTREEBINS
    requires Inserted(b.links, b'.links, g.trees[i], t', x, s, i, g.size) && TrieOk(t', BinLow(i), Width(i))
    requires b' == b.(links := b'.links, treemap := b'.treemap, treebins := b.treebins[i := Root(t')])
    requires g' == g.(trees := g.trees[i := t'], size := g.size[x := s])
    requires b'.treemap < WORD && (b'.treemap == Or(b.treemap, Idx2Bit(i)) || (b'.treemap == b.treemap && Bit(b.treemap, i)))
    ensures BinsOk(b', g')
  {
    hide BinsOk, OnlyTouches, SameAt, KeptAt, TreeBinOk, SmallBinOk, InItsBin;
    BinCounts(b, g);
    var area := Members(g.trees[i]) + {x};
    forall j | 0 <= j < NTREEBINS
      ensures Bit(b'.treemap, j) == (j == i || Bit(b.treemap, j))
    {
      MarkSetsOneBit(b.treemap, i, j);
    }
    TreeGrown(b, g, b', t', x, s, i);
    TouchesTree(b, g, b', g', i, x, t', Root(t'));
    BinnedWithTree(b, g, g', t', x, s, i);
    TreeInsertedKept(b, g, b'.links, g'.size, t', x, s, i);
    Assemble(b, g, b', g', -1, i, area);
  }

  lemma TreeInsertedKept(b: BinState, g: BinView, L': Links, size': map<int, nat>, t': Tree, x: int, s: nat, i: nat)
    requires BinsOk(b, g) && i < NTREEBINS && s >= MIN_LARGE && x !in g.size && Inserted(b.links, L', g.trees[i], t', x, s, i, g.size)
    requires size' == g.size[x := s]
    ensures forall y :: KeptAt(L', size', y)
  {
    forall y
      ensures KeptAt(L', size', y)
    {
      if y in Members(g.trees[i]) {
        TreeMember(b, g, i, y);
        KeptLarge(L', size', y);
      } else if y == x {
        KeptLarge(L', size', y);
      } else {
        assert KeptAt(b.links, g.size, y);
        KeptStill(b.links, L', g.size, size', y);
      }
    }
  }

  /** Every size in a tree is the size of one of its chunks. */
  lemma {:induction false} SizeHasMember(L: Links, t: Tree, parent: int, i: int, size: map<int, nat>, s: nat) returns (y: int)
    requires Repr(L, t, parent, i) && Sized(t, size) && s in Sizes(t)
    ensures y in Members(t) && y in size && size[y] == s
    decreases t
  {
    if s == t.size {
      y := t.ring[0];
      assert y in t.ring;
    } else if s in Sizes(t.left) {
      y := SizeHasMember(L, t.left, t.ring[0], i, size, s);
    } else {
      y := SizeHasMember(L, t.right, t.ring[0], i, size, s);
    }
  }

  /** The sizes in a tree of bin `i` after its members changed only by `x`. */
  lemma SizesOfMembers(b: BinState, g: BinView, i: nat, t': Tree, x: int, s: nat)
    requires BinsOk(b, g) && i < NTREEBINS && MIN_LARGE <= s < SIZE_LIMIT && TreeIndexOf(s) == i
    requires exists L :: Repr(L, t', TreeBinAt(i), i)
    requires Sized(t', g.size[x := s]) && Members(t') <= Members(g.trees[i]) + {x}
    ensures forall u :: u in Sizes(t') ==> MIN_LARGE <= u < SIZE_LIMIT && TreeIndexOf(u) == i
  {
    var L :| Repr(L, t', TreeBinAt(i), i);
    forall u | u in Sizes(t')
      ensures MIN_LARGE <= u < SIZE_LIMIT && TreeIndexOf(u) == i
    {
      var y := SizeHasMember(L, t', TreeBinAt(i), i, g.size[x := s], u);
      if y != x {
        TreeMember(b, g, i, y);
      }
    }
  }

  /** `unlink_large_chunk`: the bin is read from the chunk itself. */
  method UnlinkTree(b: BinState, x: int, ghost g: BinView, ghost least: int) returns (b': BinState, ghost g': BinView)
    requires BinsOk(b, g) && BinnedAbove(g, least) && x in g.size && !IsSmall(g.size[x])
    ensures BinsOk(b', g') && g'.size == g.size - {x}
  {
    hide BinsOk, BinTree, Unlinked, BinnedAbove, Drop;
    TreeOfChunk(b, g, x);
    var i := b.links.index[x];
    ghost var t := g.trees[i];
    var L, root;
    ghost var t';
    BinAbove(b, g, i, least);
    ghost var heir;
    L, root, t', heir := UnlinkLarge(b.links, b.treebins[i], x, i, t, g.size, least);
    TreeDropped(b.links, L, root, t, t', x, i, g.size);
    RootIs(b.links, L, root, t, t', x, i, g.size);
    Dropped(L, g.size - {x}, x);
    L := Drop(L, x);
    var treemap := b.treemap;
    ClearClearsOneBit(b.treemap, i, i);
    if root == 0 {
      treemap := And(b.treemap, Not(Idx2Bit(i)));
    }
    b' := b.(links := L, treemap := treemap, treebins := b.treebins[i := root]);
    g' := g.(trees := g.trees[i := t'], size := g.size - {x});
    TreeUnlinked(b, g, b', g', t', x, i);
  }

  /** What the index that is kept in a large chunk tells. */
  lemma TreeOfChunk(b: BinState, g: BinView, x: int)
    requires BinsOk(b, g) && x in g.size && !IsSmall(g.size[x])
    ensures x in b.links.index && 0 <= b.links.index[x] < NTREEBINS && x > 0
    ensures |g.trees| == |b.treebins| == NTREEBINS && b.treemap < WORD
    ensures var i := b.links.index[x];
            x in Members(g.trees[i]) && BinTree(b.links, g.trees[i], i, g.size) && b.treebins[i] == Root(g.trees[i])
  {
    assert InItsBin(g, x, g.size[x]);
    var k := TreeIndexOf(g.size[x]);
    assert TreeBinOk(b.links, b.treebins[k], b.treemap, g.trees[k], k, g.size);
    IndexOfMember(b.links, g.trees[k], TreeBinAt(k), k, x);
  }

  lemma RootIs(L: Links, L': Links, root: int, t: Tree, t': Tree, x: int, i: nat, size: map<int, nat>)
    requires Unlinked(L, L', root, t, t', x, i, size)
    ensures root == Root(t')
  {
  }

  /** The words of the chunk that has gone are not needed for what is left. */
  lemma TreeDropped(L: Links, L': Links, root: int, t: Tree, t': Tree, x: int, i: nat, size: map<int, nat>)
    requires Unlinked(L, L', root, t, t', x, i, size) && x in Members(t)
    ensures Unlinked(L, Drop(L', x), root, t, t', x, i, size)
  {
    forall y | y != x
      ensures SameAt(L', Drop(L', x), y)
    {
      DropOthers(L', x, y);
    }
    ReprFrame(L', Drop(L', x), t', TreeBinAt(i), i);
    forall y | y !in Members(t)
      ensures SameAt(L, Drop(L', x), y)
    {
      SameAtTrans(L, L', Drop(L', x), y);
    }
  }

  lemma BinAbove(b: BinState, g: BinView, i: nat, least: int)
    requires BinsOk(b, g) && BinnedAbove(g, least) && i < NTREEBINS
    ensures Addressable(g.trees[i], least)
  {
    forall x | x in Members(g.trees[i])
      ensures OkAddress(least, x)
    {
      TreeMember(b, g, i, x);
    }
  }

  lemma {:induction false} IndexOfMember(L: Links, t: Tree, parent: int, i: int, x: int)
    requires Repr(L, t, parent, i) && x in Members(t)
    ensures x in L.index && L.index[x] == i
    decreases t
  {
    if x !in t.ring {
      if x in Members(t.left) {
        IndexOfMember(L, t.left, t.ring[0], i, x);
      } else {
        IndexOfMember(L, t.right, t.ring[0], i, x);
      }
    }
  }

  lemma TreeUnlinked(b: BinState, g: BinView, b': BinState, g': BinView, t': Tree, x: int, i: nat)
    requires BinsOk(b, g) && i < NTREEBINS && x in Members(g.trees[i]) && x in g.size && x > 0 && Idx2Bit(i) < WORD
    requires Unlinked(b.links, b'.links, Root(t'), g.trees[i], t', x, i, g.size) && KeptAt(b'.links, g'.size, x)
    requires b' == b.(links := b'.links, treemap := if Root(t') == 0 then And(b.treemap, Not(Idx2Bit(i))) else b.treemap,
                      treebins := b.treebins[i := Root(t')])
    requires g' == g.(trees := g.trees[i := t'], size := g.size - {x})
    ensures BinsOk(b', g')
  {
    hide BinsOk, OnlyTouches, SameAt, KeptAt, TreeBinOk, SmallBinOk, InItsBin;
    BinCounts(b, g);
    var area := Members(g.trees[i]);
    assert Bit(b.treemap, i) by { TreeMarked(b, g, i, x); }
    NullIsNil(b'.links, t', TreeBinAt(i), i);
    forall j | 0 <= j < NTREEBINS
      ensures j != i ==> (Bit(b'.treemap, j) <==> Bit(b.treemap, j))
      ensures b'.treemap < WORD
    {
      ClearClearsOneBit(b.treemap, i, j);
    }
    ClearClearsOneBit(b.treemap, i, i);
    TreeShrunk(b, g, b', t', x, i);
    assert area + {x} == area;
    TouchesTree(b, g, b', g', i, x, t', Root(t'));
    BinnedWithoutTree(b, g, g', t', x, i);
    TreeUnlinkedKept(b, g, b'.links, g'.size, t', x, i);
    Assemble(b, g, b', g', -1, i, area);
  }

  lemma TreeUnlinkedKept(b: BinState, g: BinView, L': Links, size': map<int, nat>, t': Tree, x: int, i: nat)
    requires BinsOk(b, g) && i < NTREEBINS && Unlinked(b.links, L', Root(t'), g.trees[i], t', x, i, g.size)
    requires size' == g.size - {x} && KeptAt(L', size', x)
    ensures forall y :: KeptAt(L', size', y)
  {
    forall y
      ensures KeptAt(L', size', y)
    {
      if y != x {
        if y in Members(g.trees[i]) {
          TreeMember(b, g, i, y);
          KeptLarge(L', size', y);
        } else {
          assert KeptAt(b.links, g.size, y);
          KeptStill(b.links, L', g.size, size', y);
        }
      }
    }
  }

  lemma TreeShrunk(b: BinState, g: BinView, b': BinState, t': Tree, x: int, i: nat)
    requires BinsOk(b, g) && i < NTREEBINS && x in Members(g.trees[i])
    requires Unlinked(b.links, b'.links, Root(t'), g.trees[i], t', x, i, g.size)
    requires Bit(b'.treemap, i) <==> t'.Node?
    ensures TreeBinOk(b'.links, Root(t'), b'.treemap, t', i, g.size - {x})
  {
    TreeMember(b, g, i, x);
    SizedFrame(t', g.size, g.size - {x});
    assert g.size[x := g.size[x]] == g.size;
    SizesOfMembers(b, g, i, t', x, g.size[x]);
  }

  // ---------------------------------------------------------------- any bin

  /** `insert_chunk` */
  method InsertChunk(b: BinState, head: map<int, Head>, x: int, s: nat, ghost g: BinView, ghost least: int) returns (b': BinState, ghost g': BinView)
    requires BinsOk(b, g) && BinnedAbove(g, least) && HeadersAgree(head, g.size) && x > 0 && x !in g.size
    requires MIN_CHUNK_SIZE <= s < SIZE_LIMIT && s % 16 == 0
    ensures BinsOk(b', g') && g'.size == g.size[x := s]
    ensures if s < 256 then g'.smalls == g.smalls[s / 8 := [x] + g.smalls[s / 8]] && g'.trees == g.trees else g'.smalls == g.smalls
  {
    if IsSmall(s) {
      b', g' := InsertSmall(b, x, s, g, least);
    } else {
      b', g' := InsertTree(b, head, x, s, g, least);
    }
  }

  /** `unlink_chunk` */
  method UnlinkChunk(b: BinState, x: int, s: nat, ghost g: BinView, ghost least: int) returns (b': BinState, ghost g': BinView)
    requires BinsOk(b, g) && BinnedAbove(g, least) && x in g.size && g.size[x] == s
    ensures BinsOk(b', g') && g'.size == g.size - {x}
  {
    if IsSmall(s) {
      b', g' := UnlinkSmall(b, x, s, g, least);
    } else {
      b', g' := UnlinkTree(b, x, g, least);
    }
  }

  // ---------------------------------------------------------------- best fit over all bins

  ghost predicate BinDone(t: Tree, nb: nat, rsize: nat) {
    forall s :: s in Sizes(t) ==> NoBetter(s, nb, rsize)
  }

  lemma TreeSizes(b: BinState, g: BinView, j: nat)
    requires BinsOk(b, g) && j < NTREEBINS
    ensures forall s :: s in Sizes(g.trees[j]) ==> MIN_LARGE <= s < SIZE_LIMIT && TreeIndexOf(s) == j
    ensures Bit(b.treemap, j) <==> g.trees[j].Node?
    ensures BinTree(b.links, g.trees[j], j, g.size) && b.treebins[j] == Root(g.trees[j])
  {
    assert TreeBinOk(b.links, b.treebins[j], b.treemap, g.trees[j], j, g.size);
  }

  /** Lower bins are too small and higher bins too large to beat the best fit found in bin `k`. */
  lemma OtherBinsDone(b: BinState, g: BinView, k: nat, nb: nat, v: int, rsize: nat, j: nat)
    requires BinsOk(b, g) && k < NTREEBINS && j < NTREEBINS && MIN_LARGE <= nb < SIZE_LIMIT
    requires v in Members(g.trees[k]) && v in g.size && g.size[v] == nb + rsize
    requires j < TreeIndexOf(nb) || j > k
    ensures BinDone(g.trees[j], nb, rsize)
  {
    TreeMember(b, g, k, v);
    TreeSizes(b, g, j);
    forall s | s in Sizes(g.trees[j])
      ensures NoBetter(s, nb, rsize)
    {
      if j < TreeIndexOf(nb) {
        BinsOrdered(s, nb);
      } else {
        BinsOrdered(g.size[v], s);
      }
    }
  }

  /** If no tree holds a better fit, no binned chunk is a better fit. */
  lemma AllDone(b: BinState, g: BinView, nb: nat, rsize: nat)
    requires BinsOk(b, g) && nb >= MIN_LARGE
    requires forall j :: 0 <= j < NTREEBINS ==> BinDone(g.trees[j], nb, rsize)
    ensures forall x :: x in g.size ==> NoBetter(g.size[x], nb, rsize)
  {
    forall x | x in g.size
      ensures NoBetter(g.size[x], nb, rsize)
    {
      assert InItsBin(g, x, g.size[x]);
      if !IsSmall(g.size[x]) {
        var j := TreeIndexOf(g.size[x]);
        TreeSizes(b, g, j);
        SizedMember(g.trees[j], g.size, x);
        assert BinDone(g.trees[j], nb, rsize);
      }
    }
  }

  /** `left_bits(idx2bit(idx)) & treemap`, then the least bit: the next tree bin above `idx` that is not empty. */
  method NextTreeBin(b: BinState, idx: nat, ghost g: BinView) returns (i: nat)
    requires BinsOk(b, g) && idx < NTREEBINS
    ensures idx < i <= NTREEBINS
    ensures forall j :: idx < j < i ==> g.trees[j].Nil?
    ensures i < NTREEBINS ==> g.trees[i].Node?
  {
    LeftBitsAbove(b.treemap, idx, 0);
    var leftbits := And(LeftBits(Idx2Bit(idx)), b.treemap);
    forall j | 0 <= j < NTREEBINS
      ensures Bit(leftbits, j) <==> idx < j && g.trees[j].Node?
    {
      LeftBitsAbove(b.treemap, idx, j);
      TreeSizes(b, g, j);
    }
    ZeroMap(leftbits);
    if leftbits != 0 {
      LeastBitIndex(leftbits);
      i := Bit2Idx(LeastBit(leftbits));
    } else {
      i := NTREEBINS;
    }
  }

  lemma WholeTreeBelow(b: BinState, g: BinView, k: nat) returns (hi: nat)
    requires BinsOk(b, g) && k < NTREEBINS
    ensures Below(b.links, g.trees[k], g.trees[k], TreeBinAt(k), k, g.size) && Ordered(g.trees[k], hi)
  {
    TreeSizes(b, g, k);
    hi := OrderedSomehow(g.trees[k], BinLow(k), Width(k));
  }

  lemma OrderedSomehow(t: Tree, lo: nat, w: nat) returns (hi: nat)
    requires TrieOk(t, lo, w)
    ensures Ordered(t, hi)
  {
    hi := lo + Pow2(w);
  }

  /** Before the last loop of `tmalloc_large`: bins below `k` are done, and `rest` of bin `k` is still to be searched. */
  ghost predicate Narrowed(b: BinState, g: BinView, k: nat, rest: Tree, parent: int, hi: nat, nb: nat, v: int, rsize: nat)
    requires BinsOk(b, g)
  {
    && TreeIndexOf(nb) <= k < NTREEBINS
    && Candidate(v, rsize, nb, g.size) && (v == 0 || v in Members(g.trees[k]))
    && BinSearched(b.links, g.trees[k], rest, parent, k, hi, nb, rsize, g.size)
    && (forall j :: TreeIndexOf(nb) <= j < k ==> BinDone(g.trees[j], nb, rsize))
    && (v == 0 && rest.Nil? ==> forall j :: k < j < NTREEBINS ==> g.trees[j].Nil?)
  }

  /** A bin above that of the request is searched as a whole. */
  lemma WholeBinLeft(b: BinState, g: BinView, i: nat, nb: nat, rsize: nat) returns (hi: nat)
    requires BinsOk(b, g) && i < NTREEBINS && MIN_LARGE <= nb && (nb < SIZE_LIMIT ==> TreeIndexOf(nb) < i)
    ensures BinSearched(b.links, g.trees[i], g.trees[i], TreeBinAt(i), i, hi, nb, rsize, g.size)
  {
    hi := WholeTreeBelow(b, g, i);
    TreeSizes(b, g, i);
    if nb < SIZE_LIMIT {
      forall s | s in Sizes(g.trees[i])
        ensures s >= nb
      {
        BinsOrdered(nb, s);
      }
    }
  }

  lemma EmptyLeft(b: BinState, g: BinView, k: nat, nb: nat, rsize: nat)
    requires BinsOk(b, g) && k < NTREEBINS && BinDone(g.trees[k], nb, rsize)
    ensures BinSearched(b.links, g.trees[k], Nil, 0, k, 1, nb, rsize, g.size)
  {
    assert TrieOk(Nil, 0, 0) && Pow2(0) == 1;
  }

  /** The first two parts of `tmalloc_large`. */
  method NarrowDown(b: BinState, head: map<int, Head>, nb: nat, ghost g: BinView)
    returns (v: int, rsize: nat, t: int, ghost k: nat, ghost rest: Tree, ghost parent: int, ghost hi: nat)
    requires BinsOk(b, g) && HeadersAgree(head, g.size) && MIN_LARGE <= nb < SIZE_T
    ensures Narrowed(b, g, k, rest, parent, hi, nb, v, rsize) && t == Root(rest)
    ensures (v != 0 ==> v in b.links.parent && b.links.parent[v] != 0) && (rest.Node? ==> parent != 0)
  {
    IndexInRange(nb);
    var idx := TreeIndexOf(nb);
    TreeSizes(b, g, idx);
    v, rsize, t := 0, SIZE_T - nb, b.treebins[idx];
    k, rest, parent, hi := idx, Nil, 0, 1;
    if t != 0 {
      v, rsize, t, rest, parent, hi := SearchBin(b.links, head, t, nb, idx, g.trees[idx], g.size);
    } else {
      NullIsNil(b.links, g.trees[idx], TreeBinAt(idx), idx);
      EmptyLeft(b, g, idx, nb, rsize);
    }
    NullIsNil(b.links, rest, parent, idx);
    if t == 0 && v == 0 {
      var i := NextTreeBin(b, idx, g);
      if i < NTREEBINS {
        t := b.treebins[i];
        k, rest, parent := i, g.trees[i], TreeBinAt(i);
        hi := WholeBinLeft(b, g, i, nb, rsize);
        TreeSizes(b, g, i);
      }
    }
  }

  /** After the last loop, `v` is a best fit over all bins. */
  lemma BestOverall(b: BinState, g: BinView, k: nat, rest: Tree, parent: int, hi: nat, nb: nat,
                    v: int, rsize: nat, v': int, rsize': nat)
    requires BinsOk(b, g) && MIN_LARGE <= nb < SIZE_T && Narrowed(b, g, k, rest, parent, hi, nb, v, rsize)
    requires Candidate(v', rsize', nb, g.size) && rsize' <= rsize && (v' == v || v' in Members(rest))
    requires forall s :: s in Sizes(rest) ==> NoBetter(s, nb, rsize')
    ensures forall x :: x in g.size ==> NoBetter(g.size[x], nb, rsize')
  {
    TreeSizes(b, g, k);
    WholeBin(b.links, g.trees[k], rest, parent, k, hi, nb, rsize, rsize', g.size);
    assert rest.Node? ==> rest.size in Sizes(rest) && rest.size in Sizes(g.trees[k]);
    forall j | 0 <= j < NTREEBINS
      ensures BinDone(g.trees[j], nb, rsize')
    {
      TreeSizes(b, g, j);
      if nb < SIZE_LIMIT && j != k && (j < TreeIndexOf(nb) || j > k) {
        if v' != 0 {
          OtherBinsDone(b, g, k, nb, v', rsize', j);
        } else if j < TreeIndexOf(nb) {
          forall s | s in Sizes(g.trees[j]) ensures s < nb { BinsOrdered(s, nb); }
        }
      }
    }
    AllDone(b, g, nb, rsize');
  }

  /**
   The search of `tmalloc_large`. The result is a binned chunk of least size among those of size at least
   `nb`, a node of its tree, or null exactly when there is none.
   */
  method BestFit(b: BinState, head: map<int, Head>, nb: nat, ghost g: BinView) returns (v: int, rsize: nat)
    requires BinsOk(b, g) && HeadersAgree(head, g.size) && MIN_LARGE <= nb < SIZE_T
    ensures v == 0 ==> forall x :: x in g.size ==> g.size[x] < nb
    ensures v != 0 ==> v in g.size && g.size[v] == nb + rsize
    ensures v != 0 ==> forall x :: x in g.size && g.size[x] >= nb ==> g.size[v] <= g.size[x]
    ensures v != 0 ==> v in b.links.parent && b.links.parent[v] != 0
  {
    var t;
    ghost var k, rest, parent, hi;
    v, rsize, t, k, rest, parent, hi := NarrowDown(b, head, nb, g);
    TreeSizes(b, g, k);
    ghost var v0, rsize0 := v, rsize;
    v, rsize := LeastOnLeftmostPath(b.links, head, t, nb, v, rsize, rest, parent, k, hi, g.size);
    BestOverall(b, g, k, rest, parent, hi, nb, v0, rsize0, v, rsize);
    if v == 0 {
      forall x | x in g.size
        ensures g.size[x] < nb
      {
        assert NoBetter(g.size[x], nb, rsize) && InItsBin(g, x, g.size[x]);
      }
    }
  }

  /**
   The search of `tmalloc_small`: the least set bit of the tree map names the bin, and the leftmost path of
   its tree holds the smallest chunk of all tree bins.
   */
  method SmallestLarge(b: BinState, head: map<int, Head>, nb: nat, ghost g: BinView) returns (v: int, rsize: nat)
    requires BinsOk(b, g) && HeadersAgree(head, g.size) && 0 < nb <= MIN_LARGE && b.treemap != 0
    ensures v in g.size && !IsSmall(g.size[v]) && g.size[v] == nb + rsize
    ensures forall x :: x in g.size && !IsSmall(g.size[x]) ==> g.size[v] <= g.size[x]
    ensures v in b.links.parent && b.links.parent[v] != 0
  {
    LeastBitIndex(b.treemap);
    var i := Bit2Idx(LeastBit(b.treemap));
    TreeSizes(b, g, i);
    ghost var hi := WholeTreeBelow(b, g, i);
    var t := b.treebins[i];
    ReadNode(b.links, head, g.trees[i], g.trees[i], TreeBinAt(i), i, g.size);
    v, rsize := t, Minus(head[t].size, nb);
    v, rsize := LeastOnLeftmostPath(b.links, head, t, nb, v, rsize, g.trees[i], TreeBinAt(i), i, hi, g.size);
    TreeMember(b, g, i, v);
    SmallestOverall(b, g, i, nb, v, rsize);
  }

  lemma SmallestOverall(b: BinState, g: BinView, i: nat, nb: nat, v: int, rsize: nat)
    requires BinsOk(b, g) && i < NTREEBINS && nb <= MIN_LARGE && BinDone(g.trees[i], nb, rsize)
    requires forall j :: 0 <= j < i ==> !Bit(b.treemap, j)
    requires v in Members(g.trees[i]) && v in g.size && g.size[v] == nb + rsize
    ensures forall x :: x in g.size && !IsSmall(g.size[x]) ==> g.size[v] <= g.size[x]
  {
    TreeMember(b, g, i, v);
    forall x | x in g.size && !IsSmall(g.size[x])
      ensures g.size[v] <= g.size[x]
    {
      assert InItsBin(g, x, g.size[x]);
      var j := TreeIndexOf(g.size[x]);
      TreeSizes(b, g, j);
      SizedMember(g.trees[j], g.size, x);
      if j == i {
        assert NoBetter(g.size[x], nb, rsize);
      } else if j < i {
        assert false;
      } else {
        BinsOrdered(g.size[v], g.size[x]);
      }
    }
  }

  /** What a small request finds in the small bins. */
  datatype SmallFit = Remainderless(i: nat) | Larger(i: nat) | NoSmall

  /** The tests that `dlmalloc` makes on `smallmap >> idx`. */
  method FindSmall(b: BinState, idx: nat, ghost g: BinView) returns (r: SmallFit)
    requires BinsOk(b, g) && idx < NSMALLBINS - 1
    ensures r.Remainderless? ==> idx <= r.i <= idx + 1 && Bit(b.smallmap, r.i)
    ensures r.Larger? ==> idx + 1 < r.i < NSMALLBINS && Bit(b.smallmap, r.i) && forall j :: idx <= j < r.i ==> !Bit(b.smallmap, j)
    ensures r.NoSmall? ==> forall j :: idx <= j < NSMALLBINS ==> !Bit(b.smallmap, j)
  {
    hide SmallBinOk, TreeBinOk, InItsBin, And, Not, ShiftLeft, ShiftRight, LeftBits, Idx2Bit, LeastBit, Bit2Idx, Bit;
    var smallbits := ShiftRight(b.smallmap, idx);
    forall j | idx <= j < NSMALLBINS
      ensures Bit(smallbits, j - idx) == Bit(b.smallmap, j)
    {
      BitShiftRight(b.smallmap, idx, j - idx);
    }
    AndThree(smallbits);
    assert Bit(smallbits, 0) == Bit(b.smallmap, idx) && Bit(smallbits, 1) == Bit(b.smallmap, idx + 1);
    if And(smallbits, 3) != 0 {
      NotAndOne(smallbits);
      r := Remainderless(idx + And(Not(smallbits), 1));
    } else if smallbits != 0 {
      ShiftedLeftBits(b.smallmap, idx, idx);
      var leftbits := And(ShiftLeft(smallbits, idx), LeftBits(Idx2Bit(idx)));
      SomeBitAbove(b.smallmap, idx, smallbits, leftbits);
      LeastBitIndex(leftbits);
      r := Larger(Bit2Idx(LeastBit(leftbits)));
      forall j | 0 <= j < NSMALLBINS
        ensures Bit(leftbits, j) <==> idx < j && Bit(b.smallmap, j)
      {
        ShiftedLeftBits(b.smallmap, idx, j);
      }
    } else {
      r := NoSmall;
      forall j | idx <= j < NSMALLBINS
        ensures !Bit(b.smallmap, j)
      {
        BitZero(j - idx);
      }
    }
  }

  lemma SomeBitAbove(x: nat, idx: nat, smallbits: nat, leftbits: nat)
    requires x < WORD && idx < NSMALLBINS - 1 && smallbits == ShiftRight(x, idx) && smallbits != 0 && !Bit(x, idx)
    requires Idx2Bit(idx) < WORD && leftbits == And(ShiftLeft(smallbits, idx), LeftBits(Idx2Bit(idx)))
    ensures leftbits != 0
  {
    hide And, ShiftLeft, ShiftRight, LeftBits, Bit, Pow2, Bit2Idx, Idx2Bit;
    Pow2Word();
    Bit2IdxLeast(smallbits, NBINS);
    var k := Bit2Idx(smallbits);
    BitShiftRight(x, idx, k);
    HighBitsClear(x, NBINS, idx + k);
    ShiftedLeftBits(x, idx, idx + k);
    BitZero(idx + k);
  }

  lemma {:induction false} HighBitsClear(x: nat, n: nat, k: nat)
    requires x < Pow2(n)
    ensures Bit(x, k) ==> k < n
  {
    if n == 0 {
      BitZero(k);
    } else if k > 0 {
      HighBitsClear(x / 2, n - 1, k - 1);
    }
  }

  // ---------------------------------------------------------------- before the first chunk

  const EMPTY_BINS: BinState := BinState(Links(map[], map[], map[], map[], map[], map[]), 0, 0, seq(NTREEBINS, _ => 0))

  ghost const EMPTY_VIEW: BinView := BinView(seq(NSMALLBINS, _ => []), seq(NTREEBINS, _ => Nil), map[])

  lemma EmptyBins()
    ensures BinsOk(EMPTY_BINS, EMPTY_VIEW)
  {
    ZeroMap(0);
    forall i | 0 <= i < NTREEBINS
      ensures TreeBinOk(EMPTY_BINS.links, EMPTY_BINS.treebins[i], 0, EMPTY_VIEW.trees[i], i, EMPTY_VIEW.size)
    {
      assert Members(Nil) == {} && Sizes(Nil) == {};
    }
  }
}
