/**
 `try_realloc_chunk`: changing the size of a chunk where it is.
 */
module Resize {
  import opened Chunks
  import opened Tiling
  import opened Recuts
  import opened HeapState
  import opened Release

  /** The chunks in use are the same, except that `p` has another size. */
  ghost predicate Resized(c: Blocks, c': Blocks, p: int) {
    && p in c && c[p].kind.Used? && p in c' && c'[p].kind.Used?
    && (forall q :: q in c && c[q].kind.Used? && q != p ==> q in c' && c'[q] == c[q])
    && (forall q :: q in c' && c'[q].kind.Used? && q != p ==> q in c && c[q] == c'[q])
  }

  // ---------------------------------------------------------------- taking in the next chunk

  lemma AbsorbedHeap(c: Blocks, head: map<int, Head>, foot: map<int, nat>, segs: seq<Segment>, mapped: map<int, Mapping>, p: int)
    requires HeapOk(c, head, foot, segs, mapped) && p in c && c[p].kind.Used?
    requires p + c[p].size in c && c[p + c[p].size].kind.Free?
    ensures var b := p + c[p].size + c[p + c[p].size].size;
            HeapOk(Recut(c, p, b, map[p := Block(b - p, Used)]), HandOverHeads(SetInuse(head, p, b - p), p + c[p].size, b),
                   HandOverFeet(foot, p + c[p].size, b), segs, mapped)
  {
    hide Clear, ClearBlock, MappedOk, SegsOk, Interval, Tiled, Tagged, FeetAligned;
    var n := p + c[p].size;
    var b := n + c[n].size;
    HeapAt(c, head, foot, segs, mapped, p);
    HeapAt(c, head, foot, segs, mapped, n);
    HeapAt(c, head, foot, segs, mapped, b);
    SumAligned(c[p].size, c[n].size);
    var s := TwoBlocks(c, segs, p);
    StillClear(head, foot, p, c[p].size, b - p);
    CutOne(c, head, foot, segs, mapped, p, b, Used, HandOverHeads(SetInuse(head, p, b - p), n, b), HandOverFeet(foot, n, b), s);
  }

  /** A chunk in use grows over memory that is handed over. */
  lemma StillClear(head: map<int, Head>, foot: map<int, nat>, p: int, s: nat, s': nat)
    requires ClearBlock(head, foot, p, Block(s, Used)) && s <= s' && FeetAligned(foot)
    ensures ClearBlock(HandOverHeads(SetInuse(head, p, s'), p + s, p + s'), HandOverFeet(foot, p + s, p + s'), p, Block(s', Used))
    ensures FeetAligned(HandOverFeet(foot, p + s, p + s'))
  {
  }

  lemma AbsorbedBooks(c: Blocks, k: Books, p: int)
    requires Tiled(c) && p in c && c[p].kind.Used? && p !in k.records && p + c[p].size in c
    requires var n := p + c[p].size; BooksOk(c, k, {n}) && n + c[n].size in c && c[n + c[n].size].kind.Used?
    ensures var b := p + c[p].size + c[p + c[p].size].size;
            BooksOk(Recut(c, p, b, map[p := Block(b - p, Used)]), k, {})
  {
    hide BooksOk, Recut;
    var n := p + c[p].size;
    var b := n + c[n].size;
    var ins := map[p := Block(b - p, Used)];
    OnlyItself(c, p);
    OnlyItself(c, n);
    RecutBooks(c, k, {n}, p, b, ins);
    assert Outside({n}, p, b) + FreeIn(ins) == {};
  }

  lemma AbsorbedResized(c: Blocks, p: int)
    requires Tiled(c) && p in c && c[p].kind.Used? && p + c[p].size in c && c[p + c[p].size].kind.Free?
    ensures var b := p + c[p].size + c[p + c[p].size].size;
            Resized(c, Recut(c, p, b, map[p := Block(b - p, Used)]), p)
  {
    OnlyItself(c, p);
    OnlyItself(c, p + c[p].size);
  }

  /** `set_inuse` over `p` and the loose free chunk right behind it. */
  method Absorb(m: MallocState, p: int, n: int)
    requires Sound(m, {n}) && p in m.c && m.c[p].kind.Used? && p !in m.records && n == p + m.c[p].size
    modifies m`head, m`foot, m`c
    ensures Sound(m, {}) && n in old(m.c) && p in m.c && m.c[p].size == old(m.c[p].size + m.c[n].size)
    ensures Resized(old(m.c), m.c, p)
  {
    hide HeapOk, BooksOk, LeastOk, HandOverHeads, HandOverFeet, Recut, Resized;
    LooseFacts(m, {n}, n);
    NextChunk(m, {n}, p);
    var newsize := m.head[p].size + m.head[n].size;
    AbsorbedHeap(m.c, m.head, m.foot, m.segs, m.mapped, p);
    AbsorbedBooks(m.c, BooksOf(m), p);
    AbsorbedResized(m.c, p);
    RecutAt(m.c, p, p + newsize, Block(newsize, Used));
    m.head := HandOverHeads(SetInuse(m.head, p, newsize), n, p + newsize);
    m.foot := HandOverFeet(m.foot, n, p + newsize);
    m.c := Recut(m.c, p, p + newsize, map[p := Block(newsize, Used)]);
  }

  lemma RecutAt(c: Blocks, a: int, b: int, x: Block)
    ensures a in Recut(c, a, b, map[a := x]) && Recut(c, a, b, map[a := x])[a] == x
  {
  }

  // ---------------------------------------------------------------- giving the end back

  lemma SplitResized(c: Blocks, p: int, nb: nat, c': Blocks)
    requires p in c && c[p].kind.Used? && 0 < nb < c[p].size && p + nb !in c
    requires LessUsed(c + TwoPieces(p, p + nb, p + c[p].size, Used), c', p + nb)
    ensures Resized(c, c', p) && c'[p].size == nb
  {
    var c1 := c + TwoPieces(p, p + nb, p + c[p].size, Used);
    assert forall q :: q in c1 <==> q in c || q == p || q == p + nb;
    assert c1[p] == Block(nb, Used);
  }

  /** The end of a chunk in use is given back, to become the designated victim or to be disposed of. */
  method Shrink(m: MallocState, p: int, nb: nat, toDv: bool)
    requires Sound(m, {}) && p in m.c && m.c[p].kind.Used? && p !in m.records
    requires nb % 16 == 0 && MIN_CHUNK_SIZE <= nb && nb + MIN_CHUNK_SIZE <= m.c[p].size
    requires toDv ==> m.dv == 0 && p + m.c[p].size in m.c && m.c[p + m.c[p].size].kind.Used?
    modifies m`bins, m`view, m`dv, m`dvsize, m`head, m`foot, m`c, m`top, m`topsize
    ensures Sound(m, {}) && Resized(old(m.c), m.c, p) && m.c[p].size == nb
    ensures var s, n := old(m.c[p].size), p + old(m.c[p].size);
            if n == old(m.top) then m.top == p + nb && m.topsize == old(m.topsize) + (s - nb) && m.dv == old(m.dv) && m.dvsize == old(m.dvsize)
            else
              && m.top == old(m.top) && m.topsize == old(m.topsize)
              && if toDv then m.dv == p + nb && m.dvsize == s - nb
                 else if n == old(m.dv) then m.dv == p + nb && m.dvsize == old(m.dvsize) + (s - nb)
                 else m.dv == old(m.dv) && m.dvsize == old(m.dvsize)
  {
    hide HeapOk, BooksOk, LeastOk, HandOverHeads, HandOverFeet, LessUsed, Resized;
    ghost var c := m.c;
    DvOutside(m, p);
    UsedNotTop(m, p);
    var r := SplitUsed(m, p, nb);
    RestBehind(m, p, r);
    if toDv {
      PinuseBehindUsed(m, p);
      StillUsed(c, p, nb);
      DisposeBeforeUsed(m, r, r, true, {});
    } else {
      Dispose(m, r);
    }
    SplitResized(c, p, nb, m.c);
  }

  /** The designated victim does not lie in a chunk in use. */
  lemma DvOutside(m: MallocState, p: int)
    requires Sound(m, {}) && p in m.c && m.c[p].kind.Used?
    ensures !(p <= m.dv < p + m.c[p].size)
  {
    hide HeapOk, LeastOk, BooksOk;
    TilingOf(m, {});
    OnlyItself(m.c, p);
    DvIsThere(m);
  }

  lemma UsedNotTop(m: MallocState, p: int)
    requires Sound(m, {}) && p in m.c && m.c[p].kind.Used?
    ensures p + m.c[p].size in m.c && (m.c[p + m.c[p].size].kind.Used? ==> p + m.c[p].size != m.top)
  {
    hide HeapOk, LeastOk, IndexOk, RecordsOk;
    BlockFacts(m, {}, p);
  }

  lemma StillUsed(c: Blocks, p: int, nb: nat)
    requires p in c && 0 < nb < c[p].size && p + c[p].size in c && c[p + c[p].size].kind.Used?
    ensures var c1 := c + TwoPieces(p, p + nb, p + c[p].size, Used);
            && p + nb in c1 && c1[p + nb].size == c[p].size - nb
            && p + c[p].size in c1 && c1[p + c[p].size] == c[p + c[p].size]
  {
  }

  lemma PinuseBehindUsed(m: MallocState, p: int)
    requires Sound(m, {}) && p in m.c && m.c[p].kind.Used?
    ensures var r := p + m.c[p].size; r in m.head && m.head[r].pinuse
  {
    BlockFacts(m, {}, p);
  }

  // ---------------------------------------------------------------- growing into the top chunk

  lemma GrowthFacts(c: Blocks, head: map<int, Head>, foot: map<int, nat>, segs: seq<Segment>, mapped: map<int, Mapping>,
                    p: int, topsize: nat, nb: nat)
    requires HeapOk(c, head, foot, segs, mapped) && p in c && c[p].kind.Used? && p + c[p].size in c
    requires c[p + c[p].size] == Block(topsize + TOP_FOOT_SIZE, Top)
    requires nb % 16 == 0 && c[p].size < nb < c[p].size + topsize
    ensures Tiled(c) && SegsOk(c, segs) && p in head && MIN_CHUNK_SIZE <= nb
    ensures (c[p].size + topsize - nb) % 16 == 0
    ensures ChangedWithin(head, foot, GrownHeads(head, p, c[p].size, topsize, nb), HandOverFeet(foot, p + c[p].size, p + nb),
                          p, p + c[p].size + topsize + TOP_FOOT_SIZE - 1)
    ensures ClearBlock(GrownHeads(head, p, c[p].size, topsize, nb), HandOverFeet(foot, p + c[p].size, p + nb), p, Block(nb, Used))
    ensures FeetAligned(HandOverFeet(foot, p + c[p].size, p + nb))
    ensures var t := p + c[p].size + topsize; var head' := GrownHeads(head, p, c[p].size, topsize, nb); t in head' && !head'[t].pinuse
    ensures var head' := GrownHeads(head, p, c[p].size, topsize, nb);
            p in head' && head'[p] == Head(nb, true, head[p].pinuse) && p + nb in head' && head'[p + nb] == Head(c[p].size + topsize - nb, false, true)
  {
    hide MappedOk;
    assert BlockOk(c, p) && BlockOk(c, p + c[p].size) && TaggedAt(c, head, foot, p) && TaggedAt(c, head, foot, p + c[p].size);
    assert ClearBlock(head, foot, p, c[p]);
  }

  /** The heads after a chunk in use grew to `nb` bytes, into the top chunk. */
  function GrownHeads(head: map<int, Head>, p: int, s: nat, topsize: nat, nb: nat): map<int, Head>
    requires nb <= s + topsize
  {
    HandOverHeads(SetInuse(head, p, nb)[p + nb := Head(s + topsize - nb, false, true)], p + s, p + nb)
  }

  lemma GrownHeap(c: Blocks, head: map<int, Head>, foot: map<int, nat>, segs: seq<Segment>, mapped: map<int, Mapping>,
                  p: int, topsize: nat, nb: nat)
    requires HeapOk(c, head, foot, segs, mapped) && p in c && c[p].kind.Used? && p + c[p].size in c
    requires c[p + c[p].size] == Block(topsize + TOP_FOOT_SIZE, Top)
    requires nb % 16 == 0 && c[p].size < nb < c[p].size + topsize
    ensures var b := p + c[p].size + topsize + TOP_FOOT_SIZE;
            HeapOk(Recut(c, p, b, TwoPieces(p, p + nb, b, Top)),
                   GrownHeads(head, p, c[p].size, topsize, nb), HandOverFeet(foot, p + c[p].size, p + nb), segs, mapped)
  {
    hide Tagged, MappedOk, Stretch, ChangedWithin, Clear, ClearBlock, GrownHeads, HandOverFeet;
    var t := p + c[p].size;
    var b := t + c[t].size;
    GrowthFacts(c, head, foot, segs, mapped, p, topsize, nb);
    var s0 := OneBlock(c, segs, p);
    var s := BlocksAndLast(c, segs, p, t, s0);
    CutUsedAndTop(c, head, foot, segs, mapped, p, p + nb, b,
                  GrownHeads(head, p, c[p].size, topsize, nb), HandOverFeet(foot, p + c[p].size, p + nb), s);
  }

  lemma GrownBooks(c: Blocks, k: Books, p: int, nb: nat)
    requires BooksOk(c, k, {}) && Tiled(c) && p in c && c[p].kind.Used? && p !in k.records && p + c[p].size == k.top
    requires k.top in c && c[k.top] == Block(k.topsize + TOP_FOOT_SIZE, Top) && c[p].size < nb < c[p].size + k.topsize
    ensures var b := k.top + k.topsize + TOP_FOOT_SIZE;
            BooksOk(Recut(c, p, b, TwoPieces(p, p + nb, b, Top)),
                    k.(top := p + nb, topsize := c[p].size + k.topsize - nb), {})
  {
    hide BooksOk;
    var b := k.top + k.topsize + TOP_FOOT_SIZE;
    OnlyItself(c, p);
    OnlyItself(c, k.top);
    RecutBooksTop(c, k, {}, p, b, TwoPieces(p, p + nb, b, Top), p + nb);
    assert Outside({}, p, b) == {};
  }

  lemma GrownResized(c: Blocks, p: int, topsize: nat, nb: nat)
    requires Tiled(c) && p in c && c[p].kind.Used? && p + c[p].size in c && c[p + c[p].size] == Block(topsize + TOP_FOOT_SIZE, Top)
    requires c[p].size < nb < c[p].size + topsize
    ensures var b := p + c[p].size + topsize + TOP_FOOT_SIZE;
            var c' := Recut(c, p, b, TwoPieces(p, p + nb, b, Top));
            Resized(c, c', p) && c'[p].size == nb
  {
    OnlyItself(c, p);
    OnlyItself(c, p + c[p].size);
  }

  /** "extend into top" */
  method GrowIntoTop(m: MallocState, p: int, nb: nat)
    requires Sound(m, {}) && p in m.c && m.c[p].kind.Used? && p !in m.records && p + m.c[p].size == m.top
    requires nb % 16 == 0 && m.c[p].size < nb < m.c[p].size + m.topsize
    modifies m`head, m`foot, m`c, m`top, m`topsize
    ensures Sound(m, {}) && Resized(old(m.c), m.c, p) && m.c[p].size == nb
    ensures m.top == p + nb && m.topsize == old(m.c[p].size + m.topsize) - nb
  {
    hide HeapOk, BooksOk, LeastOk, HandOverHeads, HandOverFeet, Recut, Resized;
    NextChunk(m, {}, p);
    TopFacts(m, {});
    ghost var b := m.top + m.topsize + TOP_FOOT_SIZE;
    GrownHeap(m.c, m.head, m.foot, m.segs, m.mapped, p, m.topsize, nb);
    GrownBooks(m.c, BooksOf(m), p, nb);
    GrownResized(m.c, p, m.topsize, nb);
    var newtopsize := m.head[p].size + m.topsize - nb;
    var oldtop := m.top;
    m.c := Recut(m.c, p, b, TwoPieces(p, p + nb, b, Top));
    m.head := HandOverHeads(SetInuse(m.head, p, nb)[p + nb := Head(newtopsize, false, true)], oldtop, p + nb);
    m.foot := HandOverFeet(m.foot, oldtop, p + nb);
    m.top, m.topsize := p + nb, newtopsize;
  }

  // ---------------------------------------------------------------- the operation

  /** What the chunk behind `p` can contribute: all of a free chunk, and all but one unit of the top chunk. */
  ghost function Room(c: Blocks, p: int): nat
    requires p in c
  {
    var n := p + c[p].size;
    if n !in c then 0
    else match c[n].kind
      case Free => c[n].size
      case Top => if c[n].size >= TOP_FOOT_SIZE + 16 then c[n].size - TOP_FOOT_SIZE - 16 else 0
      case _ => 0
  }

  lemma ResizedTrans(c: Blocks, c1: Blocks, c2: Blocks, p: int)
    requires Resized(c, c1, p) && Resized(c1, c2, p)
    ensures Resized(c, c2, p)
  {
  }

  /** The next chunk is free and was taken out of the index; `p` takes it in and gives back what it does not need. */
  method GrowIntoNext(m: MallocState, p: int, n: int, nb: nat, wasDv: bool)
    requires Sound(m, {n}) && p in m.c && m.c[p].kind.Used? && p !in m.records && n == p + m.c[p].size && n in m.c
    requires nb % 16 == 0 && MIN_CHUNK_SIZE <= nb <= m.c[p].size + m.c[n].size && (wasDv ==> m.dv == 0)
    modifies m`bins, m`view, m`dv, m`dvsize, m`head, m`foot, m`c, m`top, m`topsize
    ensures Sound(m, {}) && Resized(old(m.c), m.c, p) && nb <= m.c[p].size < nb + MIN_CHUNK_SIZE
    ensures m.top == old(m.top) && m.topsize == old(m.topsize)
    ensures var rest := old(m.c[p].size + m.c[n].size) - nb;
            if wasDv && rest >= MIN_CHUNK_SIZE then m.dv == p + nb && m.dvsize == rest else m.dv == old(m.dv) && m.dvsize == old(m.dvsize)
  {
    hide HeapOk, BooksOk, LeastOk, HandOverHeads, HandOverFeet, Resized;
    ghost var c := m.c;
    LooseFacts(m, {n}, n);
    ghost var b := n + m.c[n].size;
    Absorb(m, p, n);
    ghost var c1 := m.c;
    ResizedFacts(c, c1, p);
    NextChunk(m, {}, p);
    if m.head[p].size - nb >= MIN_CHUNK_SIZE {
      UsedStays(c, c1, p, b);
      UsedNotTop(m, p);
      NextNotDv(m, p);
      Shrink(m, p, nb, wasDv);
      ResizedTrans(c, c1, m.c, p);
    }
  }

  lemma ResizedFacts(c: Blocks, c': Blocks, p: int)
    requires Resized(c, c', p)
    ensures p in c' && c'[p].kind.Used?
  {
  }

  lemma UsedStays(c: Blocks, c': Blocks, p: int, b: int)
    requires Resized(c, c', p) && b in c && c[b].kind.Used?
    ensures b in c' && c'[b].kind.Used?
  {
  }

  /**
   `try_realloc_chunk` for a chunk in a segment: succeeds exactly if the chunk and what follows it have room, and
   then only the size of `p` changes; otherwise nothing does. What it takes from the designated victim or gives to it, the
   victim loses or gains.
   */
  method TryResize(m: MallocState, p: int, nb: nat) returns (ok: bool)
    requires Sound(m, {}) && p in m.c && m.c[p].kind.Used? && p !in m.records
    requires nb % 16 == 0 && MIN_CHUNK_SIZE <= nb
    modifies m`bins, m`view, m`dv, m`dvsize, m`head, m`foot, m`c, m`top, m`topsize
    ensures Sound(m, {})
    ensures ok <==> nb <= old(m.c[p].size + Room(m.c, p))
    ensures ok ==> Resized(old(m.c), m.c, p) && nb <= m.c[p].size < nb + MIN_CHUNK_SIZE
    ensures !ok ==> unchanged(m)
    ensures p + old(m.c[p].size) in old(m.c)
    ensures var s, n := old(m.c[p].size), p + old(m.c[p].size);
            ok <==> nb <= s || (n == old(m.top) && nb < s + old(m.topsize)) || (old(m.c)[n].kind.Free? && nb <= s + old(m.c)[n].size)
    ensures ok ==>
              var s, n := old(m.c[p].size), p + old(m.c[p].size);
              if nb <= s < nb + MIN_CHUNK_SIZE then unchanged(m)
              else if n == old(m.top) then
                m.top == p + nb && m.topsize == s + old(m.topsize) - nb && m.dv == old(m.dv) && m.dvsize == old(m.dvsize)
              else
                && m.top == old(m.top) && m.topsize == old(m.topsize)
                && if n != old(m.dv) then m.dv == old(m.dv) && m.dvsize == old(m.dvsize)
                   else if s + old(m.dvsize) - nb >= MIN_CHUNK_SIZE then m.dv == p + nb && m.dvsize == s + old(m.dvsize) - nb
                   else m.dv == 0 && m.dvsize == 0
  {
    hide HeapOk, BooksOk, LeastOk, HandOverHeads, HandOverFeet, Resized, Room;
    NextChunk(m, {}, p);
    NextNotDv(m, p);
    NextSizes(m, p, nb);
    var oldsize := m.head[p].size;
    var n := p + oldsize;
    ok := false;
    if oldsize >= nb {
      ok := true;
      SelfResized(m.c, p);
      if oldsize - nb >= MIN_CHUNK_SIZE {
        Shrink(m, p, nb, false);
      }
    } else if n == m.top {
      if oldsize + m.topsize > nb {
        ok := true;
        GrowIntoTop(m, p, nb);
      }
    } else if n == m.dv {
      if oldsize + m.dvsize >= nb {
        ok := true;
        var d := DropDv(m, {});
        assert {} + {d} == {n};
        GrowIntoNext(m, p, n, nb, true);
      }
    } else if !m.head[n].cinuse {
      if oldsize + m.head[n].size >= nb {
        ok := true;
        Unlink(m, n, {});
        assert {} + {n} == {n};
        GrowIntoNext(m, p, n, nb, false);
      }
    }
  }

  lemma SelfResized(c: Blocks, p: int)
    requires p in c && c[p].kind.Used?
    ensures Resized(c, c, p)
  {
  }

  /** What the source reads off the next chunk is what `Room` says. */
  lemma NextSizes(m: MallocState, p: int, nb: nat)
    requires Sound(m, {}) && p in m.c && m.c[p].kind.Used? && p !in m.records && nb % 16 == 0
    ensures var n := p + m.c[p].size;
            && n in m.c && n in m.head && m.c[p].size % 16 == 0
            && (n == m.top ==> (m.c[p].size + m.topsize > nb <==> nb <= m.c[p].size + Room(m.c, p)))
            && (n == m.dv ==> m.c[n].kind.Free? && Room(m.c, p) == m.dvsize)
            && (m.c[n].kind.Free? ==> Room(m.c, p) == m.head[n].size == m.c[n].size)
            && (m.c[n].kind.Used? ==> Room(m.c, p) == 0)
  {
    hide HeapOk, BooksOk, LeastOk;
    BlockFacts(m, {}, p);
    NextChunk(m, {}, p);
    var n := p + m.c[p].size;
    BlockFacts(m, {}, n);
    if n == m.top {
      TopFacts(m, {});
      Sixteens(m.c[p].size, m.topsize, nb);
    }
    if n == m.dv {
      DvIsThere(m);
    }
  }

  lemma Sixteens(a: int, t: int, nb: int)
    requires a % 16 == 0 && t % 16 == 0 && nb % 16 == 0
    ensures a + t > nb <==> nb <= a + t - 16
  {
  }
}
