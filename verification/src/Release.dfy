/**
 Giving a chunk back: `dispose_chunk`, and `dlfree`, which differs from it only for directly mapped chunks.
 */
module Release {
  import opened Chunks
  import opened Tiling
  import opened Recuts
  import opened HeapState

  /** `set_free_with_pinuse` or `set_size_and_pinuse_of_free_chunk` over the whole of `[a, b)`. */
  function MergedHead(head: map<int, Head>, a: int, b: int, clear: bool): map<int, Head>
    requires a <= b
  {
    SetSizeAndPinuseOfFree(if clear then ClearPinuse(head, b) else head, a, b - a)
  }

  lemma MergedHeap(c: Blocks, head: map<int, Head>, foot: map<int, nat>, segs: seq<Segment>, mapped: map<int, Mapping>,
                   a: int, b: int, clear: bool, s: Segment)
    requires HeapOk(c, head, foot, segs, mapped) && Interval(c, segs, a, b, s)
    requires a in head && head[a].pinuse && c[b].kind.Used? && (clear || (b in head && !head[b].pinuse))
    requires (b - a) % 16 == 0 && b - a >= MIN_CHUNK_SIZE
    ensures HeapOk(Recut(c, a, b, map[a := Block(b - a, Free)]), MergedHead(head, a, b, clear), SetFoot(foot, a, b - a),
                   segs, mapped)
  {
    hide Clear, ClearBlock, SegsOk, Tiled, MappedOk;
    StretchEnds(c, head, foot, segs, mapped, a, b, s);
    NotUsedClear(MergedHead(head, a, b, clear), SetFoot(foot, a, b - a), a, Block(b - a, Free));
    CutOne(c, head, foot, segs, mapped, a, b, Free, MergedHead(head, a, b, clear), SetFoot(foot, a, b - a), s);
  }

  lemma StretchEnds(c: Blocks, head: map<int, Head>, foot: map<int, nat>, segs: seq<Segment>, mapped: map<int, Mapping>, a: int, b: int, s: Segment)
    requires HeapOk(c, head, foot, segs, mapped) && Interval(c, segs, a, b, s)
    ensures TaggedAt(c, head, foot, b) && b % 8 == 0 && FeetAligned(foot)
  {
    hide Clear, SegsOk, MappedOk, Stretch, TaggedAt;
    assert TaggedAt(c, head, foot, b) && BlockOk(c, b);
  }

  /** What makes `[a, b)` ready to become one free chunk. */
  ghost predicate Mergeable(m: MallocState, a: int, b: int, clear: bool, loose: set<int>, s: Segment)
    reads m
  {
    && Tiled(m.c) && Interval(m.c, m.segs, a, b, s) && Disposable(m.c, a, b, loose, m.records)
    && a in m.head && m.head[a].pinuse && m.c[b].kind.Used? && (clear || (b in m.head && !m.head[b].pinuse))
    && (b - a) % 16 == 0 && b - a >= MIN_CHUNK_SIZE
  }

  /** All of `[a, b)` becomes one free chunk. */
  method Merge(m: MallocState, a: int, b: int, clear: bool, ghost loose: set<int>, ghost s: Segment)
    requires Sound(m, loose) && Mergeable(m, a, b, clear, loose, s)
    modifies m`head, m`foot, m`c
    ensures m.c == Recut(old(m.c), a, b, map[a := Block(b - a, Free)])
    ensures Sound(m, Outside(loose, a, b) + {a})
  {
    hide HeapOk, BooksOk, LeastOk;
    ghost var ins := map[a := Block(b - a, Free)];
    MergedHeap(m.c, m.head, m.foot, m.segs, m.mapped, a, b, clear, s);
    RecutBooks(m.c, BooksOf(m), loose, a, b, ins);
    assert FreeIn(ins) == {a};
    m.head := SetSizeAndPinuseOfFree(if clear then ClearPinuse(m.head, b) else m.head, a, b - a);
    m.foot := SetFoot(m.foot, a, b - a);
    m.c := Recut(m.c, a, b, ins);
  }

  /** What makes everything from `a` to the top chunk ready to become part of it. */
  ghost predicate MergeableTop(m: MallocState, a: int, b: int, loose: set<int>, s: Segment)
    reads m
  {
    && Tiled(m.c) && Tail(m.c, m.segs, a, b, s) && Disposable(m.c, a, m.top, loose, m.records)
    && 0 < a <= m.top < b && m.top + m.topsize + TOP_FOOT_SIZE == b && (forall q :: q in m.c && m.top <= q < b ==> q == m.top)
    && a in m.head && m.head[a].pinuse && (b - a) % 16 == 0 && m.topsize > 0
  }

  /** The head behind the top chunk says that the top chunk is free. */
  lemma TopTrailer(m: MallocState, loose: set<int>)
    requires Sound(m, loose) && m.topsize > 0
    ensures var t := m.top + m.topsize; t in m.head && !m.head[t].pinuse
    ensures FeetAligned(m.foot)
  {
    BlockFacts(m, loose, m.top);
  }

  lemma TailStart(c: Blocks, segs: seq<Segment>, a: int, b: int, s: Segment)
    requires Tail(c, segs, a, b, s)
    ensures a in c
  {
  }

  /** Everything from `a` on becomes part of the top chunk. */
  method MergeTop(m: MallocState, a: int, ghost b: int, ghost loose: set<int>, ghost s: Segment)
    requires Sound(m, loose) && MergeableTop(m, a, b, loose, s)
    modifies m`head, m`c, m`top, m`topsize
    ensures m.top == a && m.topsize == b - a - TOP_FOOT_SIZE
    ensures m.c == Recut(old(m.c), a, b, map[a := Block(b - a, Top)])
    ensures Sound(m, Outside(loose, a, b))
  {
    hide HeapOk, BooksOk, LeastOk, Recut, Tiled, Outside, Tail;
    ghost var ins := map[a := Block(b - a, Top)];
    var tsize := m.topsize + (m.top - a);
    TailStart(m.c, m.segs, a, b, s);
    TopTrailer(m, loose);
    CutTop(m.c, m.head, m.foot, m.segs, m.mapped, a, b, m.head[a := Head(tsize, false, true)], m.foot, s);
    RecutBooksTop(m.c, BooksOf(m), loose, a, b, ins, a);
    m.topsize, m.top := tsize, a;
    m.head := m.head[a := Head(tsize, false, true)];
    m.c := Recut(m.c, a, b, ins);
  }

  // ---------------------------------------------------------------- what is around the chunk

  /** `a` is `p`, or the free chunk right before `p`, which is loose. */
  ghost predicate Begins(c: Blocks, a: int, p: int, loose: set<int>) {
    a == p || (a in c && c[a].kind.Free? && a + c[a].size == p && a in loose)
  }

  /**
   "Consolidate backward": if the chunk before `p` is free it leaves its bin, or stops being the designated
   victim. The merged chunk starts at `a`.
   */
  method TakePrevious(m: MallocState, p: int) returns (a: int, wasDv: bool)
    requires Sound(m, {}) && p in m.c && m.c[p].kind.Used?
    modifies m`bins, m`view, m`dv, m`dvsize
    ensures Sound(m, if a == p then {} else {a})
    ensures Begins(m.c, a, p, {a})
    ensures a in m.head && m.head[a].pinuse && a > 0
    ensures wasDv ==> a != p && m.dv == 0
    ensures p in m.head && (!m.head[p].pinuse ==> p in m.foot) && a == (if m.head[p].pinuse then p else p - m.foot[p])
    ensures wasDv <==> a == old(m.dv)
    ensures if wasDv then m.dvsize == 0 else m.dv == old(m.dv) && m.dvsize == old(m.dvsize)
  {
    hide HeapOk, BooksOk, LeastOk;
    DvNotUsed(m, {}, p);
    BlockFacts(m, {}, p);
    a, wasDv := p, false;
    if !m.head[p].pinuse {
      a := p - m.foot[p];
      BlockFacts(m, {}, a);
      FreeIsIndexed(m, a);
      assert OkAddress(m.least, a) by { BlockAddress(m, {}, a); }
      if a != m.dv {
        Unlink(m, a, {});
        assert {} + {a} == {a};
      } else {
        var d := DropDv(m, {});
        assert {} + {d} == {a};
        wasDv := true;
      }
    }
  }

  lemma FreeIsIndexed(m: MallocState, a: int)
    requires Sound(m, {}) && a in m.c && m.c[a].kind.Free?
    ensures a == m.dv || a in m.view.size
  {
    hide HeapOk, LeastOk;
  }

  lemma DvNotUsed(m: MallocState, loose: set<int>, p: int)
    requires Sound(m, loose) && p in m.c && m.c[p].kind.Used?
    ensures p != m.dv
  {
    hide HeapOk, LeastOk, TopOk, RecordsOk;
    BlockFacts(m, loose, p);
  }

  lemma TilingOf(m: MallocState, loose: set<int>)
    requires Sound(m, loose)
    ensures Tiled(m.c) && SegsOk(m.c, m.segs)
  {
  }

  /** From where the merge begins, up to the end of `p`, there are only blocks that may go. */
  lemma BlocksBefore(m: MallocState, loose: set<int>, a: int, p: int) returns (s: Segment)
    requires Sound(m, loose) && p in m.c && m.c[p].kind.Used? && p !in m.records && Begins(m.c, a, p, loose)
    ensures a in m.c && Tiled(m.c) && SegsOk(m.c, m.segs)
    ensures var b := p + m.c[p].size;
            && Interval(m.c, m.segs, a, b, s) && Disposable(m.c, a, b, loose, m.records)
            && (b - a) % 16 == 0 && b - a >= MIN_CHUNK_SIZE && 0 < a
  {
    hide HeapOk, BooksOk, LeastOk, TaggedAt, SegsOk, Tiled, Stretch;
    BlockFacts(m, loose, p);
    BlockFacts(m, loose, a);
    TilingOf(m, loose);
    OnlyItself(m.c, p);
    s := OneBlock(m.c, m.segs, p);
    if a != p {
      OnlyItself(m.c, a);
      s := TwoBlocks(m.c, m.segs, a);
    }
  }

  lemma BeforeUsed(m: MallocState, loose: set<int>, a: int, p: int) returns (s: Segment)
    requires Sound(m, loose) && p in m.c && m.c[p].kind.Used? && p !in m.records && Begins(m.c, a, p, loose)
    requires a in m.head && m.head[a].pinuse
    requires p + m.c[p].size in m.c && m.c[p + m.c[p].size].kind.Used?
    ensures Mergeable(m, a, p + m.c[p].size, true, loose, s)
  {
    hide Sound;
    s := BlocksBefore(m, loose, a, p);
  }

  lemma JoinIntervals(c: Blocks, segs: seq<Segment>, a: int, p: int, b: int, s: Segment, t: Segment)
    requires SegsOk(c, segs) && Interval(c, segs, a, p, s) && Interval(c, segs, p, b, t)
    ensures Interval(c, segs, a, b, s)
  {
    assert t == s || Disjoint(s.base, End(s), t.base, End(t));
  }

  /** The merge that is due when the next chunk is free as well. */
  lemma BeforeFree(m: MallocState, loose: set<int>, a: int, p: int) returns (s: Segment)
    requires Sound(m, loose) && p in m.c && m.c[p].kind.Used? && p !in m.records && Begins(m.c, a, p, loose)
    requires a in m.head && m.head[a].pinuse
    requires p + m.c[p].size in loose
    ensures p + m.c[p].size in m.c
    ensures var n := p + m.c[p].size; Mergeable(m, a, n + m.c[n].size, false, loose, s)
  {
    hide Sound, SegsOk, Tiled, TaggedAt, BlockOk;
    var n := p + m.c[p].size;
    s := BlocksBefore(m, loose, a, p);
    LooseFacts(m, loose, n);
    OnlyItself(m.c, n);
    var t := OneBlock(m.c, m.segs, n);
    JoinIntervals(m.c, m.segs, a, n, n + m.c[n].size, s, t);
  }

  /** The merge that is due when the next chunk is the top chunk. */
  lemma BeforeTop(m: MallocState, loose: set<int>, a: int, p: int) returns (s: Segment)
    requires Sound(m, loose) && p in m.c && m.c[p].kind.Used? && p !in m.records && Begins(m.c, a, p, loose)
    requires a in m.head && m.head[a].pinuse
    requires p + m.c[p].size == m.top && m.top in m.c && m.c[m.top].kind.Top?
    ensures MergeableTop(m, a, m.top + m.topsize + TOP_FOOT_SIZE, loose, s)
  {
    hide Sound, SegsOk, Tiled, TaggedAt, BlockOk;
    var t := BlocksBefore(m, loose, a, p);
    TopFacts(m, loose);
    OnlyItself(m.c, m.top);
    s := BlocksAndLast(m.c, m.segs, a, m.top, t);
  }

  /** What the head of the next chunk says. */
  lemma NextChunk(m: MallocState, loose: set<int>, p: int)
    requires Sound(m, loose) && p in m.c && m.c[p].kind.Used? && p !in m.records
    ensures p in m.head && m.head[p].size == m.c[p].size && p > 0
    ensures var n := p + m.c[p].size;
            && n in m.c && n in m.head && n != 0
            && (m.head[n].cinuse <==> m.c[n].kind.Used?)
            && (n == m.top <==> m.c[n].kind.Top?)
            && (m.c[n].kind.Used? || m.c[n].kind.Top? || (m.c[n].kind.Free? && (n in m.view.size || n in loose || n == m.dv)))
  {
    BlockFacts(m, loose, p);
    var n := p + m.c[p].size;
    BlockFacts(m, loose, n);
    assert !BeforeFence(m.c, p);
  }

  // ---------------------------------------------------------------- the operation

  /** The chunks in use are the same, but for `p`. */
  ghost predicate LessUsed(c: Blocks, c': Blocks, p: int) {
    && (forall q :: q in c' && c'[q].kind.Used? ==> q in c && c[q] == c'[q] && q != p)
    && (forall q :: q in c && c[q].kind.Used? && q != p ==> q in c' && c'[q] == c[q])
  }

  lemma RecutLessUsed(c: Blocks, a: int, b: int, p: int, kind: Kind)
    requires !kind.Used? && a < b
    requires forall q :: q in c && a <= q < b ==> q == p || !c[q].kind.Used?
    requires p in c && a <= p < b
    ensures LessUsed(c, Recut(c, a, b, map[a := Block(b - a, kind)]), p)
  {
  }

  /** Of the blocks in `[a, b)` that may go, only `p` is in use. */
  lemma MergeLessUsed(m: MallocState, loose: set<int>, a: int, p: int, b: int, kind: Kind)
    requires Sound(m, loose) && Begins(m.c, a, p, loose) && p in m.c && m.c[p].kind.Used? && !kind.Used?
    requires var n := p + m.c[p].size; b == n || (n in m.c && !m.c[n].kind.Used? && b == n + m.c[n].size)
    ensures LessUsed(m.c, Recut(m.c, a, b, map[a := Block(b - a, kind)]), p)
  {
    var n := p + m.c[p].size;
    OnlyItself(m.c, p);
    OnlyItself(m.c, a);
    if b != n {
      OnlyItself(m.c, n);
    }
    RecutLessUsed(m.c, a, b, p, kind);
  }

  /** The merged chunk becomes the designated victim, or goes to its bin. */
  method Settle(m: MallocState, a: int, asDv: bool)
    requires Sound(m, {a}) && (asDv ==> m.dv == 0)
    modifies m`bins, m`view, m`dv, m`dvsize
    ensures Sound(m, {}) && a in m.c
    ensures if asDv then m.dv == a && m.dvsize == m.c[a].size else m.dv == old(m.dv) && m.dvsize == old(m.dvsize)
  {
    hide HeapOk, BooksOk, LeastOk;
    LooseFacts(m, {a}, a);
    if asDv {
      SetDv(m, a, {a});
    } else {
      Insert(m, a, {a});
    }
    assert {a} - {a} == {};
  }

  method DisposeBeforeUsed(m: MallocState, p: int, a: int, wasDv: bool, ghost loose: set<int>)
    requires Sound(m, loose) && loose == (if a == p then {} else {a}) && Begins(m.c, a, p, loose) && (wasDv ==> m.dv == 0)
    requires p in m.c && m.c[p].kind.Used? && p !in m.records && a in m.head && m.head[a].pinuse
    requires p + m.c[p].size in m.c && m.c[p + m.c[p].size].kind.Used?
    modifies m`bins, m`view, m`dv, m`dvsize, m`head, m`foot, m`c
    ensures Sound(m, {}) && LessUsed(old(m.c), m.c, p)
    ensures a in m.c && m.c[a] == Block(p + old(m.c[p].size) - a, Free)
    ensures if wasDv then m.dv == a && m.dvsize == m.c[a].size else m.dv == old(m.dv) && m.dvsize == old(m.dvsize)
  {
    hide HeapOk, BooksOk, LeastOk;
    NextChunk(m, loose, p);
    var b := p + m.head[p].size;
    ghost var s := BeforeUsed(m, loose, a, p);
    MergeLessUsed(m, loose, a, p, b, Free);
    Merge(m, a, b, true, loose, s);
    assert Outside(loose, a, b) + {a} == {a};
    Settle(m, a, wasDv);
  }

  method DisposeBeforeFree(m: MallocState, p: int, a: int, wasDv: bool, ghost loose: set<int>)
    requires Sound(m, loose) && loose == (if a == p then {} else {a}) && Begins(m.c, a, p, loose) && (wasDv ==> m.dv == 0)
    requires p in m.c && m.c[p].kind.Used? && p !in m.records && a in m.head && m.head[a].pinuse
    requires p + m.c[p].size in m.c && m.c[p + m.c[p].size].kind.Free?
    modifies m`bins, m`view, m`dv, m`dvsize, m`head, m`foot, m`c
    ensures Sound(m, {}) && LessUsed(old(m.c), m.c, p)
    ensures a in m.c && m.c[a] == Block(p + old(m.c[p].size + m.c[p + m.c[p].size].size) - a, Free)
    ensures if wasDv || old(m.dv) == p + old(m.c[p].size) then m.dv == a && m.dvsize == m.c[a].size
            else m.dv == old(m.dv) && m.dvsize == old(m.dvsize)
  {
    hide HeapOk, BooksOk, LeastOk, Apart, Disposable, IndexOk, Interval, LessUsed, Mergeable, Sound;
    NextChunk(m, loose, p);
    var n := p + m.head[p].size;
    var asDv := wasDv;
    ghost var loose' := loose + {n};
    NextNotLoose(m, loose, a, p);
    if n == m.dv {
      var d := DropDv(m, loose);
      asDv := true;
    } else {
      Unlink(m, n, loose);
    }
    LooseFacts(m, loose', n);
    var b := n + m.head[n].size;
    ghost var s := BeforeFree(m, loose', a, p);
    MergeLessUsed(m, loose', a, p, b, Free);
    Merge(m, a, b, false, loose', s);
    assert Outside(loose', a, b) + {a} == {a};
    Settle(m, a, asDv);
  }

  lemma NextNotDv(m: MallocState, p: int)
    requires Sound(m, {}) && p in m.c && m.c[p].kind.Used? && p !in m.records
    ensures var n := p + m.c[p].size; n in m.c && p in m.head && (n == m.top || m.c[n].kind.Used? ==> n != m.dv)
    ensures !m.head[p].pinuse ==> p in m.foot
  {
    hide HeapOk, LeastOk, RecordsOk;
    BlockFacts(m, {}, p);
    NextChunk(m, {}, p);
  }

  lemma NextNotLoose(m: MallocState, loose: set<int>, a: int, p: int)
    requires Sound(m, loose) && loose == (if a == p then {} else {a}) && Begins(m.c, a, p, loose) && p in m.c && m.c[p].kind.Used?
    ensures p + m.c[p].size !in loose
  {
    OnlyItself(m.c, p);
    OnlyItself(m.c, a);
  }

  method DisposeBeforeTop(m: MallocState, p: int, a: int, ghost loose: set<int>)
    requires Sound(m, loose) && loose == (if a == p then {} else {a}) && Begins(m.c, a, p, loose)
    requires p in m.c && m.c[p].kind.Used? && p !in m.records && a in m.head && m.head[a].pinuse
    requires p + m.c[p].size == m.top && m.top in m.c && m.c[m.top].kind.Top?
    modifies m`head, m`c, m`top, m`topsize
    ensures Sound(m, {}) && LessUsed(old(m.c), m.c, p) && m.top == a && m.topsize == old(m.top + m.topsize) - a
  {
    hide HeapOk, BooksOk, LeastOk;
    TopFacts(m, loose);
    ghost var b := m.top + m.topsize + TOP_FOOT_SIZE;
    ghost var s := BeforeTop(m, loose, a, p);
    MergeLessUsed(m, loose, a, p, b, Top);
    MergeTop(m, a, b, loose, s);
    assert Outside(loose, a, b) == {};
  }

  /**
   `dispose_chunk`: the chunk at `p` is merged with the free chunks before and after it, or with the top chunk.
   Exactly the chunk at `p` stops being in use. What is merged with the designated victim is the designated victim, and
   a victim that goes into the top chunk is none any more.
   */
  method Dispose(m: MallocState, p: int)
    requires Sound(m, {}) && p in m.c && m.c[p].kind.Used? && p !in m.records
    modifies m`bins, m`view, m`dv, m`dvsize, m`head, m`foot, m`c, m`top, m`topsize
    ensures Sound(m, {}) && LessUsed(old(m.c), m.c, p)
    ensures p in old(m.head) && (!old(m.head[p].pinuse) ==> p in old(m.foot)) && p + old(m.c[p].size) in old(m.c)
    ensures var a, n := if old(m.head[p].pinuse) then p else p - old(m.foot[p]), p + old(m.c[p].size);
            var wasDv := old(m.dv) == a || old(m.dv) == n;
            if n == old(m.top) then
              && m.top == a && m.topsize == old(m.top + m.topsize) - a
              && m.dv == (if wasDv then 0 else old(m.dv)) && m.dvsize == (if wasDv then 0 else old(m.dvsize))
            else
              var b := if old(m.c)[n].kind.Free? then n + old(m.c)[n].size else n;
              && a in m.c && m.c[a] == Block(b - a, Free) && m.top == old(m.top) && m.topsize == old(m.topsize)
              && m.dv == (if wasDv then a else old(m.dv)) && m.dvsize == (if wasDv then b - a else old(m.dvsize))
  {
    hide HeapOk, BooksOk, LeastOk, LessUsed;
    NextNotDv(m, p);
    var a, wasDv := TakePrevious(m, p);
    ghost var loose := if a == p then {} else {a};
    NextChunk(m, loose, p);
    NextNotLoose(m, loose, a, p);
    var n := p + m.head[p].size;
    assert OkAddress(m.least, n) by { BlockAddress(m, loose, n); }
    if m.head[n].cinuse {
      DisposeBeforeUsed(m, p, a, wasDv, loose);
    } else if n == m.top {
      DisposeBeforeTop(m, p, a, loose);
    } else {
      DisposeBeforeFree(m, p, a, wasDv, loose);
    }
  }

  // ---------------------------------------------------------------- cutting a chunk in use in two

  lemma SplitUsedWords(head: map<int, Head>, foot: map<int, nat>, p: int, nb: nat, s: nat)
    requires 0 < nb < s && p in head && p + s in head && ClearBlock(head, foot, p, Block(s, Used))
    ensures var head' := SetInuse(SetInuse(head, p, nb), p + nb, s - nb);
            && ChangedWithin(head, foot, head', foot, p, p + s)
            && p in head' && head'[p] == Head(nb, true, head[p].pinuse)
            && p + nb in head' && head'[p + nb] == Head(s - nb, true, true)
            && p + s in head' && head'[p + s] == head[p + s].(pinuse := true)
            && ClearBlock(head', foot, p, Block(nb, Used)) && ClearBlock(head', foot, p + nb, Block(s - nb, Used))
  {
  }

  lemma SplitUsedHeap(c: Blocks, head: map<int, Head>, foot: map<int, nat>, segs: seq<Segment>, mapped: map<int, Mapping>,
                      p: int, nb: nat)
    requires HeapOk(c, head, foot, segs, mapped) && p in c && c[p].kind.Used?
    requires nb % 16 == 0 && MIN_CHUNK_SIZE <= nb && nb + MIN_CHUNK_SIZE <= c[p].size
    ensures p + nb !in c
    ensures HeapOk(c + TwoPieces(p, p + nb, p + c[p].size, Used), SetInuse(SetInuse(head, p, nb), p + nb, c[p].size - nb), foot, segs, mapped)
  {
    hide Tiled, Tagged, Clear, ClearBlock, SegsOk, MappedOk, SetInuse, ChangedWithin, FeetAligned, Interval;
    var s, r, b := c[p].size, p + nb, p + c[p].size;
    HeapAt(c, head, foot, segs, mapped, p);
    HeapAt(c, head, foot, segs, mapped, b);
    var seg := OneBlock(c, segs, p);
    SplitUsedWords(head, foot, p, nb, s);
    DifferenceAligned(s, nb);
    CutTwo(c, head, foot, segs, mapped, p, r, b, Used, SetInuse(SetInuse(head, p, nb), r, s - nb), foot, seg);
    RecutSingle(c, p, TwoPieces(p, r, b, Used));
    NotABlock(c, p, r);
  }

  lemma SplitUsedBooks(c: Blocks, k: Books, p: int, nb: nat)
    requires BooksOk(c, k, {}) && Tiled(c) && p in c && c[p].kind.Used? && p !in k.records && 0 < nb < c[p].size
    requires p + c[p].size in c && !c[p + c[p].size].kind.Fence?
    ensures BooksOk(c + TwoPieces(p, p + nb, p + c[p].size, Used), k, {})
  {
    hide BooksOk, Recut;
    var ins := TwoPieces(p, p + nb, p + c[p].size, Used);
    RecutSingle(c, p, ins);
    OnlyItself(c, p);
    RecutBooks(c, k, {}, p, p + c[p].size, ins);
    assert Outside({}, p, p + c[p].size) + FreeIn(ins) == {};
  }

  /** `set_inuse(M, p, nb); set_inuse(M, r, rsize)` */
  method SplitUsed(m: MallocState, p: int, nb: nat) returns (r: int)
    requires Sound(m, {}) && p in m.c && m.c[p].kind.Used? && p !in m.records
    requires nb % 16 == 0 && MIN_CHUNK_SIZE <= nb && nb + MIN_CHUNK_SIZE <= m.c[p].size
    modifies m`head, m`c
    ensures r == p + nb && r !in old(m.c)
    ensures m.c == old(m.c) + TwoPieces(p, r, p + old(m.c)[p].size, Used)
    ensures Sound(m, {}) && p in m.c && m.c[p] == Block(nb, Used) && r in m.c && m.c[r].kind.Used? && r !in m.records
  {
    hide HeapOk, BooksOk, LeastOk;
    RecordsInUse(m, {});
    NextChunk(m, {}, p);
    NextNotFence(m, p);
    r := p + nb;
    var rsize := m.head[p].size - nb;
    SplitUsedHeap(m.c, m.head, m.foot, m.segs, m.mapped, p, nb);
    SplitUsedBooks(m.c, BooksOf(m), p, nb);
    m.head := SetInuse(SetInuse(m.head, p, nb), r, rsize);
    m.c := m.c + TwoPieces(p, r, p + m.c[p].size, Used);
  }

  lemma NextNotFence(m: MallocState, p: int)
    requires Sound(m, {}) && p in m.c && m.c[p].kind.Used? && p !in m.records
    ensures Tiled(m.c) && p + m.c[p].size in m.c && !m.c[p + m.c[p].size].kind.Fence?
  {
    BlockFacts(m, {}, p);
    assert !BeforeFence(m.c, p);
  }

  lemma DvIsThere(m: MallocState)
    requires Sound(m, {})
    ensures m.dv != 0 ==> m.dv in m.c && m.c[m.dv] == Block(m.dvsize, Free)
  {
    hide HeapOk, LeastOk;
  }

  /** The rest behind `p` does not follow a free chunk; what is behind the rest may be the designated victim. */
  lemma RestBehind(m: MallocState, p: int, q: int)
    requires Sound(m, {}) && p in m.c && m.c[p].kind.Used? && q == p + m.c[p].size && q in m.c && m.c[q].kind.Used? && q !in m.records
    ensures q in m.head && m.head[q].pinuse && q + m.c[q].size in m.c
    ensures q + m.c[q].size == m.dv ==> m.c[q + m.c[q].size] == Block(m.dvsize, Free) && m.dv != m.top
  {
    hide HeapOk, BooksOk, LeastOk;
    NextNotDv(m, q);
    BlockFacts(m, {}, p);
    BlockFacts(m, {}, q);
    DvIsThere(m);
  }
}
