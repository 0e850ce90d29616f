/**
 `dlmalloc` up to the point where it asks the system for memory: the search through the small bins, the tries,
 the designated victim and the top chunk.
 */
module Allocate {
  import opened TreeIndex
  import opened BinMaps
  import opened Chunks
  import opened Bins
  import opened Tiling
  import opened Recuts
  import opened HeapState
  import opened TrieSearch
  import opened Release

  const MIN_REQUEST: nat := 23
  const MAX_SMALL_REQUEST: nat := 232
  const MAX_REQUEST: nat := SIZE_T - 128

  /** `request2size`, for requests below `MAX_REQUEST`. */
  function Padded(bytes: nat): (nb: nat)
    ensures nb % 16 == 0 && nb >= 32
    ensures bytes + 8 <= nb
    ensures nb == 32 || nb < bytes + 8 + 16
  {
    if bytes < MIN_REQUEST then MIN_CHUNK_SIZE else (bytes + CHUNK_OVERHEAD + 15) / 16 * 16
  }

  /** `p` is newly in use, with at least `nb` bytes and less than a minimal chunk to spare. */
  ghost predicate Allocated(c: Blocks, c': Blocks, p: int, nb: nat) {
    && LessUsed(c', c, p)
    && p in c' && c'[p].kind.Used? && nb <= c'[p].size < nb + MIN_CHUNK_SIZE
  }

  /** No free chunk, nor the top chunk, has room for `nb` bytes. */
  ghost predicate NothingFits(c: Blocks, topsize: nat, nb: nat) {
    && (forall q :: q in c && c[q].kind.Free? ==> c[q].size < nb)
    && topsize <= nb
  }

  ghost predicate Fits(c: Blocks, q: int, nb: nat) { q in c && c[q].kind.Free? && nb <= c[q].size }

  /** The free chunk `p` has room for `nb` bytes, and none that has room is smaller. */
  ghost predicate FitsBest(c: Blocks, p: int, nb: nat) {
    Fits(c, p, nb) && forall q :: Fits(c, q, nb) ==> c[p].size <= c[q].size
  }

  /**
   The chunk that serves the request: the best fit, except that a small request prefers the designated victim to
   splitting another chunk; the top chunk only when nothing else has room.
   */
  ghost predicate WellChosen(c: Blocks, dv: int, top: int, p: int, nb: nat) {
    || FitsBest(c, p, nb)
    || (p == dv && nb < MIN_LARGE && Fits(c, dv, nb))
    || (p == top && forall q :: !Fits(c, q, nb))
  }

  lemma WholeAllocated(c: Blocks, p: int, nb: nat)
    requires p in c && c[p].kind.Free? && nb <= c[p].size < nb + MIN_CHUNK_SIZE
    ensures Allocated(c, c[p := Block(c[p].size, Used)], p, nb)
  {
  }

  lemma SplitAllocated(c: Blocks, p: int, nb: nat, kind: Kind)
    requires p in c && !c[p].kind.Used? && 0 < nb < c[p].size && p + nb !in c && !kind.Used?
    ensures Allocated(c, c + TwoPieces(p, p + nb, p + c[p].size, kind), p, nb)
  {
    var c' := c + TwoPieces(p, p + nb, p + c[p].size, kind);
    assert forall q :: q in c' <==> q in c || q == p || q == p + nb;
    assert c'[p] == Block(nb, Used);
    assert c'[p + nb].kind == kind;
  }

  /** The loose free chunk `v` serves the request; a remainder becomes the designated victim or goes to its bin. */
  method Carve(m: MallocState, v: int, nb: nat, toDv: bool)
    requires Sound(m, {v}) && v in m.c && nb <= m.c[v].size && nb % 16 == 0 && nb >= MIN_CHUNK_SIZE
    requires toDv && m.c[v].size - nb >= MIN_CHUNK_SIZE ==> IsSmall(m.dvsize)
    modifies m`bins, m`view, m`dv, m`dvsize, m`head, m`foot, m`c
    ensures Sound(m, {}) && Allocated(old(m.c), m.c, v, nb)
    ensures var rest := old(m.c[v].size) - nb;
            if toDv && rest >= MIN_CHUNK_SIZE then m.dv == v + nb && m.dvsize == rest
            else m.dv == old(m.dv) && m.dvsize == old(m.dvsize)
  {
    hide HeapOk, BooksOk, LeastOk;
    LooseFacts(m, {v}, v);
    var rsize := m.head[v].size - nb;
    if rsize < MIN_CHUNK_SIZE {
      WholeAllocated(m.c, v, nb);
      TakeWhole(m, v, {v});
      assert {v} - {v} == {};
    } else {
      ghost var c := m.c;
      var r := Split(m, v, nb, {v});
      SplitAllocated(c, v, nb, Free);
      assert m.c[r].size == rsize;
      assert {v} - {v} + {r} == {r};
      if toDv {
        ReplaceDv(m, r);
      } else {
        Settle(m, r, false);
      }
    }
  }

  /** `unlink_first_small_chunk` */
  method TakeFirstSmall(m: MallocState, i: nat) returns (p: int)
    requires Sound(m, {}) && i < NSMALLBINS && Bit(m.bins.smallmap, i)
    modifies m`bins, m`view
    ensures p in m.c && m.c[p] == Block(8 * i, Free) && Sound(m, {p})
    ensures p in old(m.view).size && old(m.view).size[p] == 8 * i
    ensures i < |old(m.view.smalls)| && old(m.view.smalls)[i] != [] && p == old(m.view.smalls)[i][0]
  {
    hide HeapOk, LeastOk, TopOk, RecordsOk, BinsOk;
    ghost var size := m.view.size;
    BinFacts(m);
    BinnedAddresses(m, {});
    m.bins, p, m.view := UnlinkFirstSmall(m.bins, i, m.view, m.least);
  }

  /** The first chunk of a small bin serves the request; what is left of it becomes the designated victim. */
  method CarveFirstSmall(m: MallocState, i: nat, nb: nat) returns (p: int)
    requires Sound(m, {}) && i < NSMALLBINS && Bit(m.bins.smallmap, i) && nb <= 8 * i && nb % 16 == 0 && nb >= MIN_CHUNK_SIZE
    requires 8 * i >= nb + MIN_CHUNK_SIZE ==> IsSmall(m.dvsize)
    modifies m`bins, m`view, m`dv, m`dvsize, m`head, m`foot, m`c
    ensures Sound(m, {}) && p > 0 && Allocated(old(m.c), m.c, p, nb) && p in old(m.c) && old(m.c)[p] == Block(8 * i, Free) && 8 * i % 16 == 0
    ensures p in old(m.view.size) && old(m.view.size)[p] == 8 * i && p != old(m.dv)
    ensures i < |old(m.view.smalls)| && old(m.view.smalls)[i] != [] && p == old(m.view.smalls)[i][0]
    ensures if 8 * i >= nb + MIN_CHUNK_SIZE then m.dv == p + nb && m.dvsize == 8 * i - nb else m.dv == old(m.dv) && m.dvsize == old(m.dvsize)
  {
    hide HeapOk, BooksOk, LeastOk, Allocated, BinsOk;
    BinnedNotDv(m);
    p := TakeFirstSmall(m, i);
    LooseFacts(m, {p}, p);
    Carve(m, p, nb, true);
  }

  method TakeLarge(m: MallocState, v: int)
    requires Sound(m, {}) && v in m.view.size
    modifies m`bins, m`view
    ensures v in m.c && m.c[v] == Block(old(m.view.size)[v], Free) && Sound(m, {v})
  {
    Unlink(m, v, {});
    assert {} + {v} == {v};
  }

  /** A binned chunk that no binned chunk beats, when the designated victim does not beat it either. */
  lemma BestOfAll(m: MallocState, p: int, nb: nat)
    requires Sound(m, {}) && p in m.view.size && nb <= m.view.size[p]
    requires forall x :: x in m.view.size && nb <= m.view.size[x] ==> m.view.size[p] <= m.view.size[x]
    requires nb <= m.dvsize ==> m.view.size[p] <= m.dvsize
    ensures FitsBest(m.c, p, nb)
  {
    hide HeapOk, BinsOk;
    assert 0 !in m.c by { NoNullBlock(m); }
    forall q | Fits(m.c, q, nb)
      ensures m.c[p].size <= m.c[q].size
    {
      assert q == m.dv || q in m.view.size;
    }
  }

  lemma NoNullBlock(m: MallocState)
    requires Sound(m, {})
    ensures 0 !in m.c
  {
    assert 0 in m.c ==> BlockOk(m.c, 0);
  }

  /** A chunk of exactly the size that is asked for. */
  lemma ExactIsBest(c: Blocks, p: int, nb: nat)
    requires Fits(c, p, nb) && c[p].size == nb
    ensures FitsBest(c, p, nb)
  {
  }

  /** The designated victim, when no binned chunk beats it. */
  lemma DvIsBest(m: MallocState, nb: nat)
    requires Sound(m, {}) && nb <= m.dvsize && 0 < nb
    requires forall x :: x in m.view.size && nb <= m.view.size[x] ==> m.dvsize <= m.view.size[x]
    ensures FitsBest(m.c, m.dv, nb)
  {
  }

  /** What the bins have to offer is what the free chunks, apart from the designated victim, have to offer. */
  lemma BinnedOrDv(m: MallocState, nb: nat)
    requires Sound(m, {}) && forall x :: x in m.view.size ==> m.view.size[x] < nb
    requires m.dvsize < nb && m.topsize <= nb
    ensures NothingFits(m.c, m.topsize, nb)
  {
    NoNullBlock(m);
  }

  /** The designated victim has room, or no free chunk has, if no binned chunk has. */
  lemma NothingElse(m: MallocState, nb: nat)
    requires Sound(m, {}) && 0 < nb
    requires nb <= m.dvsize || forall x :: x in m.view.size ==> m.view.size[x] < nb
    ensures if nb <= m.dvsize then Fits(m.c, m.dv, nb) else forall q :: !Fits(m.c, q, nb)
  {
    NoNullBlock(m);
  }

  lemma BinFacts(m: MallocState)
    requires Sound(m, {})
    ensures BinsOk(m.bins, m.view) && HeadersAgree(m.head, m.view.size)
    ensures m.dv == 0 <==> m.dvsize == 0
  {
    BinnedHeads(m, {});
  }

  /** No bit of the small map from `idx` on, and an empty tree map: nothing binned is large enough. */
  lemma NoneBinned(m: MallocState, idx: nat, nb: nat)
    requires Sound(m, {}) && idx < NSMALLBINS && nb == 8 * idx
    requires forall j :: idx <= j < NSMALLBINS ==> !Bit(m.bins.smallmap, j)
    requires m.bins.treemap == 0
    ensures forall x :: x in m.view.size ==> m.view.size[x] < nb
  {
    BinFacts(m);
    SmallOnly(m.bins, m.view, idx, nb);
  }

  /** An empty small bin: no chunk of its size is binned. */
  lemma NoneExact(m: MallocState, idx: nat, nb: nat)
    requires Sound(m, {}) && idx < NSMALLBINS && nb == 8 * idx && !Bit(m.bins.smallmap, idx)
    ensures forall x :: x in m.view.size ==> m.view.size[x] != nb
  {
    hide HeapOk, LeastOk, TopOk, RecordsOk;
    BinFacts(m);
    forall x | x in m.view.size
      ensures m.view.size[x] != nb
    {
      assert InItsBin(m.view, x, m.view.size[x]);
      assert SmallBinOk(m.bins.links, m.bins.smallmap, m.view.smalls[idx], idx, m.view.size);
    }
  }

  lemma LargeIsMapped(b: BinState, g: BinView, x: int)
    requires BinsOk(b, g) && x in g.size && !IsSmall(g.size[x])
    ensures b.treemap != 0
  {
    assert InItsBin(g, x, g.size[x]);
    var j := TreeIndexOf(g.size[x]);
    assert TreeBinOk(b.links, b.treebins[j], b.treemap, g.trees[j], j, g.size);
    ZeroMap(b.treemap);
  }

  lemma SmallOnly(b: BinState, g: BinView, idx: nat, nb: nat)
    requires BinsOk(b, g) && idx < NSMALLBINS && nb == 8 * idx
    requires forall j :: idx <= j < NSMALLBINS ==> !Bit(b.smallmap, j)
    requires b.treemap == 0
    ensures forall x :: x in g.size ==> g.size[x] < nb
  {
    forall x | x in g.size
      ensures g.size[x] < nb
    {
      assert InItsBin(g, x, g.size[x]);
      assert IsSmall(g.size[x]) by { if !IsSmall(g.size[x]) { LargeIsMapped(b, g, x); } }
      var j := SmallIndex(g.size[x]);
      assert SmallBinOk(b.links, b.smallmap, g.smalls[j], j, g.size);
      assert Bit(b.smallmap, j);
    }
  }

  /** Without tries, only small chunks are binned. */
  lemma NoTries(b: BinState, g: BinView, nb: nat)
    requires BinsOk(b, g) && b.treemap == 0 && nb >= MIN_LARGE
    ensures forall x :: x in g.size ==> g.size[x] < nb
  {
    forall x | x in g.size
      ensures g.size[x] < nb
    {
      if !IsSmall(g.size[x]) { LargeIsMapped(b, g, x); }
    }
  }

  // ---------------------------------------------------------------- the search

  lemma NoSmallBelow(b: BinState, g: BinView, idx: nat, i: nat, nb: nat, x: int)
    requires BinsOk(b, g) && idx < i <= NSMALLBINS && nb == 8 * idx && x in g.size && nb <= g.size[x]
    requires forall j :: idx <= j < i ==> !Bit(b.smallmap, j)
    ensures 8 * i <= g.size[x] && (i == NSMALLBINS ==> !IsSmall(g.size[x]))
  {
    assert InItsBin(g, x, g.size[x]);
    if IsSmall(g.size[x]) {
      var j := SmallIndex(g.size[x]);
      assert SmallBinOk(b.links, b.smallmap, g.smalls[j], j, g.size);
      assert Bit(b.smallmap, j);
    }
  }

  /** Chunks of the first non-empty small bin fit best if the designated victim is too small. */
  lemma LeastInSmallBins(m: MallocState, idx: nat, i: nat, nb: nat)
    requires Sound(m, {}) && idx < i < NSMALLBINS && nb == 8 * idx && m.dvsize < nb
    requires forall j :: idx <= j < i ==> !Bit(m.bins.smallmap, j)
    ensures forall p :: p in m.view.size && m.view.size[p] == 8 * i ==> FitsBest(m.c, p, nb)
  {
    BinFacts(m);
    forall p | p in m.view.size && m.view.size[p] == 8 * i
      ensures FitsBest(m.c, p, nb)
    {
      forall x | x in m.view.size && nb <= m.view.size[x]
        ensures 8 * i <= m.view.size[x]
      {
        NoSmallBelow(m.bins, m.view, idx, i, nb, x);
      }
      BestOfAll(m, p, nb);
    }
  }

  /** The smallest chunk of the tries fits best if no small chunk and not the designated victim has room. */
  lemma LeastInTries(m: MallocState, idx: nat, p: int, nb: nat)
    requires Sound(m, {}) && idx < NSMALLBINS && nb == 8 * idx && m.dvsize < nb
    requires forall j :: idx <= j < NSMALLBINS ==> !Bit(m.bins.smallmap, j)
    requires p in m.view.size && !IsSmall(m.view.size[p])
    requires forall x :: x in m.view.size && !IsSmall(m.view.size[x]) ==> m.view.size[p] <= m.view.size[x]
    ensures FitsBest(m.c, p, nb)
  {
    BinFacts(m);
    forall x | x in m.view.size && nb <= m.view.size[x]
      ensures m.view.size[p] <= m.view.size[x]
    {
      NoSmallBelow(m.bins, m.view, idx, NSMALLBINS, nb, x);
    }
    BestOfAll(m, p, nb);
  }

  /** `tmalloc_small`: the smallest chunk of the tries serves the request; what is left of it becomes the designated victim. */
  method CarveSmallest(m: MallocState, idx: nat, nb: nat) returns (p: int)
    requires Sound(m, {}) && nb % 16 == 0 && MIN_CHUNK_SIZE <= nb < MIN_LARGE && nb == 8 * idx && m.dvsize < nb && m.bins.treemap != 0
    requires forall j :: idx <= j < NSMALLBINS ==> !Bit(m.bins.smallmap, j)
    modifies m`bins, m`view, m`dv, m`dvsize, m`head, m`foot, m`c
    ensures Sound(m, {}) && p > 0 && Allocated(old(m.c), m.c, p, nb) && FitsBest(old(m.c), p, nb) && p != old(m.dv)
    ensures var rest := old(m.c)[p].size - nb;
            if rest >= MIN_CHUNK_SIZE then m.dv == p + nb && m.dvsize == rest else m.dv == old(m.dv) && m.dvsize == old(m.dvsize)
  {
    hide HeapOk, BooksOk, BinsOk, LeastOk, FitsBest, Allocated, BooksOf, HeadersAgree;
    BinFacts(m);
    BinnedNotDv(m);
    var rsize;
    p, rsize := SmallestLarge(m.bins, m.head, nb, m.view);
    LeastInTries(m, idx, p, nb);
    TakeLarge(m, p);
    LooseFacts(m, {p}, p);
    assert OkAddress(m.least, p) && OkNext(p, p + nb) by { BlockAddress(m, {p}, p); }
    Carve(m, p, nb, true);
  }

  /** The small bins, and for want of one that serves, the tries (`tmalloc_small`). */
  method TrySmall(m: MallocState, nb: nat) returns (p: int)
    requires Sound(m, {}) && nb % 16 == 0 && MIN_CHUNK_SIZE <= nb < MIN_LARGE
    modifies m`bins, m`view, m`dv, m`dvsize, m`head, m`foot, m`c
    ensures Sound(m, {})
    ensures p != 0 ==> p > 0 && Allocated(old(m.c), m.c, p, nb) && FitsBest(old(m.c), p, nb)
    ensures p != 0 ==> p != old(m.dv) && var rest := old(m.c)[p].size - nb;
              if rest >= MIN_CHUNK_SIZE then old(m.dvsize) < nb && m.dv == p + nb && m.dvsize == rest
              else m.dv == old(m.dv) && m.dvsize == old(m.dvsize)
    ensures p != 0 && nb <= old(m.dvsize) ==> old(m.c)[p].size == nb
    ensures p == 0 ==> unchanged(m) && (m.dvsize >= nb || forall x :: x in m.view.size ==> m.view.size[x] < nb)
    ensures p == 0 ==> forall x :: x in m.view.size ==> m.view.size[x] != nb
  {
    hide HeapOk, BooksOk, BinsOk, LeastOk, FitsBest, Allocated, BooksOf, HeadersAgree;
    BinFacts(m);
    BinnedNotDv(m);
    var idx := SmallIndex(nb);
    var fit := FindSmall(m.bins, idx, m.view);
    if fit.Remainderless? {
      p := CarveFirstSmall(m, fit.i, nb);
      ExactIsBest(old(m.c), p, nb);
    } else if nb > m.dvsize && fit.Larger? {
      LeastInSmallBins(m, idx, fit.i, nb);
      p := CarveFirstSmall(m, fit.i, nb);
    } else if nb > m.dvsize && m.bins.treemap != 0 {
      p := CarveSmallest(m, idx, nb);
    } else {
      p := 0;
      NoneExact(m, idx, nb);
      if nb > m.dvsize {
        NoneBinned(m, idx, nb);
      }
    }
  }

  /** `tmalloc_large`: the best fitting binned chunk, unless the designated victim fits at least as well. */
  method TryLarge(m: MallocState, nb: nat) returns (p: int)
    requires Sound(m, {}) && nb % 16 == 0 && MIN_LARGE <= nb < SIZE_T
    modifies m`bins, m`view, m`dv, m`dvsize, m`head, m`foot, m`c
    ensures Sound(m, {})
    ensures p != 0 ==> p > 0 && Allocated(old(m.c), m.c, p, nb) && FitsBest(old(m.c), p, nb)
    ensures p == 0 ==> unchanged(m) && (m.dvsize >= nb || forall x :: x in m.view.size ==> m.view.size[x] < nb)
    ensures p == 0 && m.dvsize >= nb ==> FitsBest(m.c, m.dv, nb)
    ensures m.dv == old(m.dv) && m.dvsize == old(m.dvsize) && (p != 0 ==> p != m.dv)
    ensures p != 0 && nb <= m.dvsize ==> old(m.c)[p].size < m.dvsize
  {
    hide HeapOk, BooksOk, BinsOk, LeastOk;
    BinFacts(m);
    BinnedNotDv(m);
    SizesBounded(m);
    p := 0;
    if m.bins.treemap == 0 {
      NoTries(m.bins, m.view, nb);
      if m.dvsize >= nb {
        DvIsBest(m, nb);
      }
      return;
    }
    var v, rsize := BestFit(m.bins, m.head, nb, m.view);
    if v != 0 && rsize < Minus(m.dvsize, nb) {
      p := v;
      BestOfAll(m, p, nb);
      TakeLarge(m, p);
      LooseFacts(m, {p}, p);
      assert OkAddress(m.least, p) && OkNext(p, p + nb) by { BlockAddress(m, {p}, p); }
      Carve(m, p, nb, false);
    } else if m.dvsize >= nb {
      DvIsBest(m, nb);
    }
  }

  /** A free chunk is followed by another block of the window. */
  lemma FreeBelow(m: MallocState, p: int)
    requires Sound(m, {}) && p in m.c && m.c[p].kind.Free?
    ensures m.c[p].size < SIZE_LIMIT
  {
    hide HeapOk, BooksOk, LeastOk;
    BlockFacts(m, {}, p);
    BlockFacts(m, {}, p + m.c[p].size);
  }

  lemma SizesBounded(m: MallocState)
    requires Sound(m, {})
    ensures m.dvsize < SIZE_LIMIT && m.topsize < SIZE_LIMIT
    ensures forall x :: x in m.view.size ==> m.view.size[x] < SIZE_LIMIT
  {
    if m.dv != 0 {
      FreeBelow(m, m.dv);
    }
    if m.top != 0 {
      BlockFacts(m, {}, m.top);
    }
    forall x | x in m.view.size
      ensures m.view.size[x] < SIZE_LIMIT
    {
      FreeBelow(m, x);
    }
  }

  /** The designated victim, then the top chunk. */
  method TryDvOrTop(m: MallocState, nb: nat) returns (p: int)
    requires Sound(m, {}) && nb % 16 == 0 && MIN_CHUNK_SIZE <= nb
    modifies m`bins, m`view, m`dv, m`dvsize, m`head, m`foot, m`c, m`top, m`topsize
    ensures Sound(m, {})
    ensures p != 0 ==> p > 0 && Allocated(old(m.c), m.c, p, nb)
    ensures p != 0 ==> if nb <= old(m.dvsize) then p == old(m.dv) else p == old(m.top) && nb < old(m.topsize)
    ensures p != 0 ==> if nb > old(m.dvsize) then
                         && m.dv == old(m.dv) && m.dvsize == old(m.dvsize) && m.top == p + nb && m.topsize == old(m.topsize) - nb
                       else
                         && m.top == old(m.top) && m.topsize == old(m.topsize)
                         && if old(m.dvsize) - nb >= MIN_CHUNK_SIZE then m.dv == p + nb && m.dvsize == old(m.dvsize) - nb
                            else m.dv == 0 && m.dvsize == 0
    ensures p == 0 ==> unchanged(m) && m.dvsize < nb && m.topsize <= nb
  {
    hide HeapOk, BooksOk, LeastOk, Allocated, BinsOk, Sound, TwoPieces;
    BinFacts(m);
    if nb <= m.dvsize {
      p := DropDv(m, {});
      assert {} + {p} == {p};
      LooseFacts(m, {p}, p);
      Carve(m, p, nb, true);
    } else if nb < m.topsize {
      TopFacts(m, {});
      ghost var c := m.c;
      p := SplitTop(m, nb, {});
      SplitAllocated(c, p, nb, Top);
    } else {
      p := 0;
    }
  }

  /** The padded size that `dlmalloc` looks for: for a request it cannot serve, one that nothing can have. */
  function Wanted(bytes: nat): nat {
    if bytes >= MAX_REQUEST then SIZE_T - 1 else Padded(bytes)
  }

  /**
   The designated victim after `p` has served a request for `nb`: what is left of it if that is large enough, when the
   victim itself was split or the request was small; none if the victim was used up; else the same as before.
   */
  ghost predicate Victim(c: Blocks, dv: int, dvsize: nat, top: int, p: int, nb: nat, dv': int, dvsize': nat) {
    if p != top && p in c && c[p].size >= nb + 32 && (p == dv || nb < 256) then dv' == p + nb && dvsize' == c[p].size - nb
    else if p == dv then dv' == 0 && dvsize' == 0
    else dv' == dv && dvsize' == dvsize
  }

  /** How the chunk for a request is chosen, block by block. */
  lemma ChosenMeans(c: Blocks, dv: int, top: int, p: int, nb: nat)
    requires WellChosen(c, dv, top, p, nb)
    ensures || (p == top && forall q :: q in c && c[q].kind.Free? ==> c[q].size < nb)
            || (&& p in c && c[p].kind.Free? && nb <= c[p].size
                && ((p == dv && nb < 256) || forall q :: q in c && c[q].kind.Free? && nb <= c[q].size ==> c[p].size <= c[q].size))
  {
    assert forall q :: q in c && c[q].kind.Free? && nb <= c[q].size ==> Fits(c, q, nb);
  }

  lemma NotTop(m: MallocState)
    requires Sound(m, {})
    ensures forall q :: q in m.c && m.c[q].kind.Free? ==> q != m.top
    ensures m.dv != 0 ==> m.dv in m.c && m.c[m.dv] == Block(m.dvsize, Free)
    ensures m.topsize > 0 ==> m.top != m.dv
  {
    hide HeapOk, BinsOk, LeastOk, RecordsOk;
    NoNullBlock(m);
  }

  lemma BinnedOrVictim(m: MallocState)
    requires Sound(m, {})
    ensures forall q :: q in m.c && m.c[q].kind.Free? && q != m.dv ==> q in m.view.size && m.view.size[q] == m.c[q].size
  {
    hide HeapOk, BinsOk, LeastOk, RecordsOk;
  }

  lemma BinnedNotDv(m: MallocState)
    requires Sound(m, {})
    ensures forall x :: x in m.view.size ==> x != m.dv
  {
    hide HeapOk, BinsOk, LeastOk, RecordsOk;
  }

  /** The search for a padded size, in the order of the source: bins, designated victim, top chunk. */
  method Search(m: MallocState, nb: nat, small: bool) returns (p: int)
    requires Sound(m, {}) && nb % 16 == 0 && MIN_CHUNK_SIZE <= nb < SIZE_T && (small <==> nb < MIN_LARGE)
    modifies m`bins, m`view, m`dv, m`dvsize, m`head, m`foot, m`c, m`top, m`topsize
    ensures Sound(m, {})
    ensures p != 0 ==> p > 0 && Allocated(old(m.c), m.c, p, nb)
    ensures p != 0 ==> WellChosen(old(m.c), old(m.dv), old(m.top), p, nb)
    ensures p == 0 ==> unchanged(m)
    ensures p == 0 <==> old(NothingFits(m.c, m.topsize, nb))
    ensures p != 0 ==> Victim(old(m.c), old(m.dv), old(m.dvsize), old(m.top), p, nb, m.dv, m.dvsize)
    ensures p != 0 ==>
              || (p == old(m.top) && forall q :: q in old(m.c) && old(m.c)[q].kind.Free? ==> old(m.c)[q].size < nb)
              || (&& p in old(m.c) && old(m.c)[p].kind.Free? && nb <= old(m.c)[p].size
                  && ((p == old(m.dv) && nb < 256) ||
                      forall q :: q in old(m.c) && old(m.c)[q].kind.Free? && nb <= old(m.c)[q].size ==> old(m.c)[p].size <= old(m.c)[q].size))
    ensures p != 0 && p != old(m.dv) && nb <= old(m.dvsize) ==>
              p in old(m.c) && if nb < 256 then old(m.c)[p].size == nb else old(m.c)[p].size < old(m.dvsize)
    ensures p != 0 && p == old(m.dv) && nb < 256 ==>
              forall q :: q in old(m.c) && old(m.c)[q].kind.Free? && old(m.c)[q].size == nb ==> q == p
    ensures p != 0 ==> if p == old(m.top) then m.top == p + nb && m.topsize == old(m.topsize) - nb
                       else m.top == old(m.top) && m.topsize == old(m.topsize)
  {
    hide HeapOk, BooksOk, LeastOk, Allocated, BinsOk;
    NotTop(m);
    BinnedOrVictim(m);
    if small {
      p := TrySmall(m, nb);
    } else {
      p := TryLarge(m, nb);
    }
    if p == 0 {
      NothingElse(m, nb);
      p := TryDvOrTop(m, nb);
      if p == 0 {
        BinnedOrDv(m, nb);
      }
    }
    if p != 0 {
      ChosenMeans(old(m.c), old(m.dv), old(m.top), p, nb);
    }
  }

  /**
   `dlmalloc` without `sys_alloc`: it finds room whenever some free chunk or the top chunk has room, and otherwise
   changes nothing.
   */
  method FromFree(m: MallocState, bytes: nat) returns (p: int, nb: nat)
    requires Sound(m, {}) && bytes < SIZE_T
    modifies m`bins, m`view, m`dv, m`dvsize, m`head, m`foot, m`c, m`top, m`topsize
    ensures Sound(m, {}) && nb == Wanted(bytes)
    ensures p != 0 ==> p > 0 && bytes < MAX_REQUEST && Allocated(old(m.c), m.c, p, nb)
    ensures p != 0 ==> WellChosen(old(m.c), old(m.dv), old(m.top), p, nb)
    ensures p == 0 ==> unchanged(m)
    ensures p == 0 <==> old(NothingFits(m.c, m.topsize, Wanted(bytes)))
    ensures p == 0 <==> bytes >= 0xffff_ffff_ffff_ff80 ||
                        ((forall q :: q in old(m.c) && old(m.c)[q].kind.Free? ==> old(m.c)[q].size < Padded(bytes)) && old(m.topsize) <= Padded(bytes))
    ensures p != 0 ==> nb == Padded(bytes) && Victim(old(m.c), old(m.dv), old(m.dvsize), old(m.top), p, nb, m.dv, m.dvsize)
    ensures p != 0 ==>
              || (p == old(m.top) && forall q :: q in old(m.c) && old(m.c)[q].kind.Free? ==> old(m.c)[q].size < nb)
              || (&& p in old(m.c) && old(m.c)[p].kind.Free? && nb <= old(m.c)[p].size
                  && ((p == old(m.dv) && nb < 256) ||
                      forall q :: q in old(m.c) && old(m.c)[q].kind.Free? && nb <= old(m.c)[q].size ==> old(m.c)[p].size <= old(m.c)[q].size))
    ensures p != 0 && p != old(m.dv) && nb <= old(m.dvsize) ==>
              p in old(m.c) && if nb < 256 then old(m.c)[p].size == nb else old(m.c)[p].size < old(m.dvsize)
    ensures p != 0 && p == old(m.dv) && nb < 256 ==>
              forall q :: q in old(m.c) && old(m.c)[q].kind.Free? && old(m.c)[q].size == nb ==> q == p
    ensures p != 0 ==> if p == old(m.top) then m.top == p + nb && m.topsize == old(m.topsize) - nb
                       else m.top == old(m.top) && m.topsize == old(m.topsize)
  {
    hide HeapOk, BooksOk, LeastOk, Allocated, BinsOk, Victim, WellChosen;
    if bytes >= MAX_REQUEST {
      SizesBounded(m);
      p, nb := 0, SIZE_T - 1;
      BinnedOrDv(m, nb);
      return;
    }
    nb := Padded(bytes);
    p := Search(m, nb, bytes <= MAX_SMALL_REQUEST);
  }
}
