/**
 The ways in which dlmalloc cuts a stretch of memory anew: into one block, or into two.
 */
module Recuts {
  import opened TreeIndex
  import opened Chunks
  import opened Tiling

  /** `[a, b)` is made up of whole blocks of segment `s` and does not include its last block. */
  ghost predicate Interval(c: Blocks, segs: seq<Segment>, a: int, b: int, s: Segment) {
    Stretch(c, a, b) && s in segs && s.base <= a && b in c && b < End(s) && b <= WINDOW_END
  }

  lemma OneBlock(c: Blocks, segs: seq<Segment>, p: int) returns (s: Segment)
    requires Tiled(c) && SegsOk(c, segs) && p in c && Inner(c[p].kind)
    ensures Interval(c, segs, p, p + c[p].size, s)
  {
    assert HasSeg(segs, p, c[p]) && BlockOk(c, p);
    s :| s in segs && InSeg(s, p, c[p]);
    forall q | q in c && p <= q < p + c[p].size
      ensures q + c[q].size <= p + c[p].size
    {
      assert Apart(c, p, q);
    }
  }

  lemma TwoBlocks(c: Blocks, segs: seq<Segment>, p: int) returns (s: Segment)
    requires Tiled(c) && SegsOk(c, segs) && p in c && Inner(c[p].kind)
    requires p + c[p].size in c && Inner(c[p + c[p].size].kind)
    ensures var n := p + c[p].size; Interval(c, segs, p, n + c[n].size, s)
  {
    var n := p + c[p].size;
    s := OneBlock(c, segs, p);
    var t := OneBlock(c, segs, n);
    assert t == s || Disjoint(s.base, End(s), t.base, End(t));
    forall q | q in c && p <= q < n + c[n].size
      ensures q + c[q].size <= n + c[n].size
    {
      assert Apart(c, p, q) && Apart(c, n, q) && Apart(c, q, n);
    }
  }

  // ---------------------------------------------------------------- one block

  lemma CutOne(c: Blocks, head: map<int, Head>, foot: map<int, nat>, segs: seq<Segment>, mapped: map<int, Mapping>,
               a: int, b: int, kind: Kind, head': map<int, Head>, foot': map<int, nat>, s: Segment)
    requires HeapOk(c, head, foot, segs, mapped) && Interval(c, segs, a, b, s) && Inner(kind)
    requires ChangedWithin(head, foot, head', foot', a, b)
    requires (b - a) % 16 == 0 && b - a >= MIN_CHUNK_SIZE
    requires a in head && a in head' && head'[a] == Head(b - a, kind.Used?, head[a].pinuse)
    requires b in head && b in head' && head'[b] == head[b].(pinuse := kind.Used?)
    requires kind.Free? ==> head[a].pinuse && c[b].kind.Used? && b in foot' && foot'[b] == b - a
    requires FeetAligned(foot') && ClearBlock(head', foot', a, Block(b - a, kind))
    ensures HeapOk(Recut(c, a, b, map[a := Block(b - a, kind)]), head', foot', segs, mapped)
  {
    hide SegsOk, MappedOk, Tiled, Tagged, Stretch, Clear, ClearBlock;
    var ins := map[a := Block(b - a, kind)];
    EdgeFacts(c, head, foot, segs, mapped, a, b, s);
    CutsOne(c, a, b, kind);
    EdgeTagged(c, head, foot, a, b, ins, head', foot', a);
    StartTagged(c, head, foot, a, b, ins, head', foot');
    OnlyTagged(c, a, b, kind, head', foot');
    RecutHeap(c, head, foot, segs, mapped, a, b, ins, head', foot', s, false);
  }

  lemma EdgeFacts(c: Blocks, head: map<int, Head>, foot: map<int, nat>, segs: seq<Segment>, mapped: map<int, Mapping>, a: int, b: int, s: Segment)
    requires HeapOk(c, head, foot, segs, mapped) && Interval(c, segs, a, b, s)
    ensures a in c && a > 0 && a % 16 == 0 && TaggedAt(c, head, foot, a) && TaggedAt(c, head, foot, b)
  {
    assert BlockOk(c, a);
  }

  lemma CutsOne(c: Blocks, a: int, b: int, kind: Kind)
    requires a > 0 && a % 16 == 0 && (b - a) % 16 == 0 && b - a >= MIN_CHUNK_SIZE && b in c
    ensures Cuts(c, a, b, map[a := Block(b - a, kind)])
  {
  }

  lemma OnlyTagged(c: Blocks, a: int, b: int, kind: Kind, head': map<int, Head>, foot': map<int, nat>)
    requires Inner(kind) && a < b && a in head' && head'[a].size == b - a && head'[a].cinuse == kind.Used? && (kind.Free? ==> head'[a].pinuse)
    requires b in c && b in head' && head'[b].pinuse == kind.Used?
    requires kind.Free? ==> c[b].kind.Used? && b in foot' && foot'[b] == b - a
    requires var c' := Recut(c, a, b, map[a := Block(b - a, kind)]);
             !head'[a].pinuse ==> a in foot' && a - foot'[a] in c' && c'[a - foot'[a]] == Block(foot'[a], Free)
    ensures TaggedAt(Recut(c, a, b, map[a := Block(b - a, kind)]), head', foot', a)
  {
  }

  /** The way back from the first block of the stretch is kept. */
  lemma StartTagged(c: Blocks, head: map<int, Head>, foot: map<int, nat>, a: int, b: int, ins: Blocks,
                    head': map<int, Head>, foot': map<int, nat>)
    requires Tiled(c) && Stretch(c, a, b) && Cuts(c, a, b, ins) && ChangedWithin(head, foot, head', foot', a, b)
    requires TaggedAt(c, head, foot, a) && a in head' && head'[a].pinuse == head[a].pinuse
    ensures !head'[a].pinuse ==>
              && a in foot' && a - foot'[a] in Recut(c, a, b, ins)
              && Recut(c, a, b, ins)[a - foot'[a]] == Block(foot'[a], Free)
  {
    if !head'[a].pinuse {
      assert BlockOk(c, a - foot[a]);
    }
  }

  // ---------------------------------------------------------------- two blocks

  ghost function TwoPieces(a: int, r: int, b: int, kind: Kind): Blocks
    requires a <= r <= b
  {
    map[a := Block(r - a, Used), r := Block(b - r, kind)]
  }

  lemma CutsTwo(c: Blocks, a: int, r: int, b: int, kind: Kind)
    requires a > 0 && a % 16 == 0 && (r - a) % 16 == 0 && r - a >= MIN_CHUNK_SIZE
    requires (b - r) % 16 == 0 && b - r >= MIN_CHUNK_SIZE && (Inner(kind) ==> b in c)
    ensures Cuts(c, a, b, TwoPieces(a, r, b, kind))
  {
    SumAligned(a, r - a);
    var ins := TwoPieces(a, r, b, kind);
    assert forall p :: p in ins <==> p == a || p == r;
    assert ins[a] == Block(r - a, Used) && ins[r] == Block(b - r, kind);
    forall p, q | p in ins && q in ins
      ensures Apart(ins, p, q)
    {
    }
  }

  lemma FirstTagged(c: Blocks, head: map<int, Head>, foot: map<int, nat>, a: int, r: int, b: int, kind: Kind,
                    head': map<int, Head>, foot': map<int, nat>)
    requires Tiled(c) && Stretch(c, a, b) && ChangedWithin(head, foot, head', foot', a, b) && a < r < b
    requires TaggedAt(c, head, foot, a) && Cuts(c, a, b, TwoPieces(a, r, b, kind))
    requires a in head' && head'[a] == Head(r - a, true, head[a].pinuse) && r in head' && head'[r].pinuse
    ensures TaggedAt(Recut(c, a, b, TwoPieces(a, r, b, kind)), head', foot', a)
  {
    StartTagged(c, head, foot, a, b, TwoPieces(a, r, b, kind), head', foot');
  }

  lemma StretchStarts(c: Blocks, a: int, b: int)
    requires Stretch(c, a, b)
    ensures a in c
  {
  }

  lemma CutTwo(c: Blocks, head: map<int, Head>, foot: map<int, nat>, segs: seq<Segment>, mapped: map<int, Mapping>,
               a: int, r: int, b: int, kind: Kind, head': map<int, Head>, foot': map<int, nat>, s: Segment)
    requires HeapOk(c, head, foot, segs, mapped) && Interval(c, segs, a, b, s) && Inner(kind)
    requires ChangedWithin(head, foot, head', foot', a, b)
    requires a < r < b && (r - a) % 16 == 0 && r - a >= MIN_CHUNK_SIZE && (b - r) % 16 == 0 && b - r >= MIN_CHUNK_SIZE
    requires a in head && a in head' && head'[a] == Head(r - a, true, head[a].pinuse)
    requires r in head' && head'[r] == Head(b - r, kind.Used?, true)
    requires b in head && b in head' && head'[b] == head[b].(pinuse := kind.Used?)
    requires kind.Free? ==> c[b].kind.Used? && b in foot' && foot'[b] == b - r
    requires FeetAligned(foot') && ClearBlock(head', foot', a, Block(r - a, Used)) && ClearBlock(head', foot', r, Block(b - r, kind))
    ensures HeapOk(Recut(c, a, b, TwoPieces(a, r, b, kind)), head', foot', segs, mapped)
  {
    hide SegsOk, MappedOk, Tiled, Tagged, Stretch, Cuts, Clear, ClearBlock, Apart, ChangedWithin;
    var ins := TwoPieces(a, r, b, kind);
    EdgeFacts(c, head, foot, segs, mapped, a, b, s);
    CutsTwo(c, a, r, b, kind);
    EdgeTagged(c, head, foot, a, b, ins, head', foot', r);
    FirstTagged(c, head, foot, a, r, b, kind, head', foot');
    assert TaggedAt(Recut(c, a, b, ins), head', foot', r);
    RecutHeap(c, head, foot, segs, mapped, a, b, ins, head', foot', s, false);
  }

  // ---------------------------------------------------------------- stretches that end with the top chunk

  /** `[a, b)` is made up of whole blocks of segment `s` up to its end. */
  ghost predicate Tail(c: Blocks, segs: seq<Segment>, a: int, b: int, s: Segment) {
    Stretch(c, a, b) && s in segs && s.base <= a && b == End(s) && b <= WINDOW_END
  }

  lemma LastBlock(c: Blocks, segs: seq<Segment>, p: int) returns (s: Segment)
    requires Tiled(c) && SegsOk(c, segs) && p in c && !Inner(c[p].kind)
    ensures Tail(c, segs, p, p + c[p].size, s)
  {
    assert HasSeg(segs, p, c[p]) && BlockOk(c, p);
    s :| s in segs && InSeg(s, p, c[p]);
    forall q | q in c && p <= q < p + c[p].size
      ensures q + c[q].size <= p + c[p].size
    {
      assert Apart(c, p, q);
    }
  }

  /** Whole blocks up to `p`, followed by the last block of the segment. */
  lemma BlocksAndLast(c: Blocks, segs: seq<Segment>, a: int, p: int, t: Segment) returns (s: Segment)
    requires Tiled(c) && SegsOk(c, segs) && Interval(c, segs, a, p, t) && !Inner(c[p].kind)
    ensures Tail(c, segs, a, p + c[p].size, s)
  {
    s := LastBlock(c, segs, p);
    assert BlockOk(c, p) && BlockOk(c, a) && Apart(c, a, p);
    assert t == s || Disjoint(s.base, End(s), t.base, End(t));
    forall q | q in c && a <= q < p + c[p].size
      ensures q + c[q].size <= p + c[p].size
    {
      assert Apart(c, p, q) && Apart(c, q, p);
    }
  }

  lemma CutTop(c: Blocks, head: map<int, Head>, foot: map<int, nat>, segs: seq<Segment>, mapped: map<int, Mapping>,
               a: int, b: int, head': map<int, Head>, foot': map<int, nat>, s: Segment)
    requires HeapOk(c, head, foot, segs, mapped) && Tail(c, segs, a, b, s)
    requires ChangedWithin(head, foot, head', foot', a, b - 1)
    requires (b - a) % 16 == 0 && b - a > TOP_FOOT_SIZE
    requires a in head && a in head' && head[a].pinuse && head'[a] == Head(b - a - TOP_FOOT_SIZE, false, true)
    requires b - TOP_FOOT_SIZE in head' && !head'[b - TOP_FOOT_SIZE].pinuse && FeetAligned(foot')
    ensures HeapOk(Recut(c, a, b, map[a := Block(b - a, Top)]), head', foot', segs, mapped)
  {
    var ins := map[a := Block(b - a, Top)];
    assert BlockOk(c, a);
    assert Cuts(c, a, b, ins);
    assert TaggedAt(Recut(c, a, b, ins), head', foot', a);
    RecutHeap(c, head, foot, segs, mapped, a, b, ins, head', foot', s, true);
  }

  lemma CutUsedAndTop(c: Blocks, head: map<int, Head>, foot: map<int, nat>, segs: seq<Segment>, mapped: map<int, Mapping>,
                      a: int, r: int, b: int, head': map<int, Head>, foot': map<int, nat>, s: Segment)
    requires HeapOk(c, head, foot, segs, mapped) && Tail(c, segs, a, b, s)
    requires ChangedWithin(head, foot, head', foot', a, b - 1)
    requires a < r < b && (r - a) % 16 == 0 && r - a >= MIN_CHUNK_SIZE && (b - r) % 16 == 0 && b - r > TOP_FOOT_SIZE
    requires a in head && a in head' && head'[a] == Head(r - a, true, head[a].pinuse)
    requires r in head' && head'[r] == Head(b - r - TOP_FOOT_SIZE, false, true)
    requires b - TOP_FOOT_SIZE in head' && !head'[b - TOP_FOOT_SIZE].pinuse
    requires FeetAligned(foot') && ClearBlock(head', foot', a, Block(r - a, Used))
    ensures HeapOk(Recut(c, a, b, TwoPieces(a, r, b, Top)), head', foot', segs, mapped)
  {
    hide SegsOk, MappedOk, Tiled, Tagged, Clear, ClearBlock, Cuts, Stretch;
    var ins := TwoPieces(a, r, b, Top);
    StretchStarts(c, a, b);
    HeapAt(c, head, foot, segs, mapped, a);
    NotUsedClear(head', foot', r, Block(b - r, Top));
    CutsTwo(c, a, r, b, Top);
    FirstTagged(c, head, foot, a, r, b, Top, head', foot');
    assert TaggedAt(Recut(c, a, b, ins), head', foot', r);
    RecutHeap(c, head, foot, segs, mapped, a, b, ins, head', foot', s, true);
  }
}
