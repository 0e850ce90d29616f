/**
 New memory from the system: what `mmap` may return, and how a fresh region joins the heap as a segment of its own,
 behind or before an existing segment, or as a chunk with a mapping of its own.
 */
module Regions {
  import opened TreeIndex
  import opened Chunks
  import opened Tiling

  /** `[a, a + n)` is page-aligned and overlaps nothing that the allocator already has. */
  ghost predicate Fresh(segs: seq<Segment>, mapped: map<int, Mapping>, a: int, n: nat) {
    && a > 0 && a % PAGE_SIZE == 0 && WINDOW <= a && a + n <= WINDOW_END
    && (forall s :: s in segs ==> Disjoint(a, a + n, s.base, End(s)))
    && (forall p :: p in mapped ==> Disjoint(a, a + n, p - mapped[p].lead, p + mapped[p].size + MMAP_FOOT_PAD))
  }

  // ---------------------------------------------------------------- what memory the allocator has

  ghost predicate InSegs(segs: seq<Segment>, x: int) { exists s :: s in segs && s.base <= x < End(s) }

  ghost predicate MappingHas(mapped: map<int, Mapping>, p: int, x: int) {
    p in mapped && p - mapped[p].lead <= x < p + mapped[p].size + MMAP_FOOT_PAD
  }

  ghost predicate InMapped(mapped: map<int, Mapping>, x: int) { exists p :: MappingHas(mapped, p, x) }

  /** The region `[a, a + n)` is a segment of its own, or one of the segments grew by it; the others are as they were. */
  ghost predicate Grew(segs: seq<Segment>, segs': seq<Segment>, a: int, n: nat) {
    segs' == [Segment(a, n)] + segs || exists i: nat, t :: Grown(segs, i, t, a, n) && segs' == segs[i := t]
  }

  /** Words were written in `[a, e)` only. */
  ghost predicate WrittenIn(head: map<int, Head>, foot: map<int, nat>, head': map<int, Head>, foot': map<int, nat>, a: int, e: int) {
    && (forall q :: !(a <= q < e) ==> (q in head <==> q in head') && (q in head ==> head'[q] == head[q]))
    && (forall q :: !(a <= q < e) ==> (q in foot <==> q in foot') && (q in foot ==> foot'[q] == foot[q]))
  }

  /** No block starts in a region that overlaps no segment. */
  lemma NoBlockIn(c: Blocks, segs: seq<Segment>, a: int, e: int, p: int)
    requires Tiled(c) && SegsOk(c, segs) && p in c
    requires forall s :: s in segs ==> Disjoint(a, e, s.base, End(s))
    ensures Disjoint(a, e, p, p + c[p].size) && !(a <= p < e)
  {
    assert HasSeg(segs, p, c[p]) && BlockOk(c, p);
  }

  lemma ElsewhereTagged(c: Blocks, head: map<int, Head>, foot: map<int, nat>, segs: seq<Segment>,
                        head': map<int, Head>, foot': map<int, nat>, a: int, e: int)
    requires Tiled(c) && Tagged(c, head, foot) && SegsOk(c, segs) && WrittenIn(head, foot, head', foot', a, e)
    requires forall s :: s in segs ==> Disjoint(a, e, s.base, End(s))
    ensures Tagged(c, head', foot')
  {
    forall p | p in c
      ensures TaggedAt(c, head', foot', p)
    {
      assert TaggedAt(c, head, foot, p) && BlockOk(c, p);
      NoBlockIn(c, segs, a, e, p);
      if Inner(c[p].kind) {
        NoBlockIn(c, segs, a, e, p + c[p].size);
      }
    }
  }

  lemma ElsewhereClear(c: Blocks, head: map<int, Head>, foot: map<int, nat>, segs: seq<Segment>,
                       head': map<int, Head>, foot': map<int, nat>, a: int, e: int)
    requires Tiled(c) && Clear(c, head, foot) && SegsOk(c, segs) && WrittenIn(head, foot, head', foot', a, e)
    requires forall s :: s in segs ==> Disjoint(a, e, s.base, End(s))
    ensures Clear(c, head', foot')
  {
    forall p | p in c
      ensures ClearBlock(head', foot', p, c[p])
    {
      assert ClearBlock(head, foot, p, c[p]) && BlockOk(c, p);
      NoBlockIn(c, segs, a, e, p);
      if Inner(c[p].kind) {
        NoBlockIn(c, segs, a, e, p + c[p].size);
      }
    }
  }

  /** A block more, or a larger one. */
  lemma ClearWith(c: Blocks, head: map<int, Head>, foot: map<int, nat>, a: int, b: Block)
    requires Clear(c, head, foot) && ClearBlock(head, foot, a, b)
    ensures Clear(c[a := b], head, foot)
  {
    var c' := c[a := b];
    forall p | p in c'
      ensures ClearBlock(head, foot, p, c'[p])
    {
      assert p != a ==> ClearBlock(head, foot, p, c[p]);
    }
  }

  lemma ElsewhereMapped(head: map<int, Head>, foot: map<int, nat>, segs: seq<Segment>, mapped: map<int, Mapping>,
                        head': map<int, Head>, foot': map<int, nat>, a: int, n: nat)
    requires MappedOk(head, foot, segs, mapped) && WrittenIn(head, foot, head', foot', a, a + n) && Fresh(segs, mapped, a, n)
    ensures MappedOk(head', foot', segs, mapped)
  {
    forall p | p in mapped
      ensures MappingOk(head', foot', segs, p, mapped[p])
    {
      assert MappingOk(head, foot, segs, p, mapped[p]);
    }
  }

  // ---------------------------------------------------------------- a segment of its own

  /** A block apart from all others. */
  lemma AddedTiled(c: Blocks, a: int, b: Block)
    requires Tiled(c) && forall p :: p in c ==> Disjoint(a, a + b.size, p, p + c[p].size)
    requires a > 0 && a % 16 == 0 && b.size % 16 == 0 && b.size >= MIN_CHUNK_SIZE && WINDOW <= a && a + b.size <= WINDOW_END
    requires Inner(b.kind) ==> a + b.size in c
    ensures Tiled(c[a := b]) && a !in c
  {
    var c' := c[a := b];
    assert a !in c by { assert a in c ==> BlockOk(c, a); }
    forall p | p in c'
      ensures BlockOk(c', p)
    {
      assert p in c ==> BlockOk(c, p);
    }
    forall p, q | p in c' && q in c'
      ensures Apart(c', p, q)
    {
      assert p in c ==> BlockOk(c, p);
      assert q in c ==> BlockOk(c, q);
      assert p in c && q in c ==> Apart(c, p, q);
    }
  }

  lemma RegionTiled(c: Blocks, segs: seq<Segment>, mapped: map<int, Mapping>, a: int, n: nat, kind: Kind)
    requires Tiled(c) && SegsOk(c, segs) && Fresh(segs, mapped, a, n) && n % 16 == 0 && n >= MIN_CHUNK_SIZE
    requires Inner(kind) ==> a + n in c
    ensures Tiled(c[a := Block(n, kind)]) && a !in c
  {
    hide Tiled, SegsOk;
    PageAligned(a);
    forall p | p in c
      ensures Disjoint(a, a + n, p, p + c[p].size)
    {
      NoBlockIn(c, segs, a, a + n, p);
    }
    AddedTiled(c, a, Block(n, kind));
  }

  lemma NewSegSegs(c: Blocks, segs: seq<Segment>, mapped: map<int, Mapping>, a: int, n: nat)
    requires SegsOk(c, segs) && Fresh(segs, mapped, a, n) && n > 0 && a !in c
    ensures SegsOk(c[a := Block(n, Top)], [Segment(a, n)] + segs)
  {
    var c', segs' := c[a := Block(n, Top)], [Segment(a, n)] + segs;
    forall p | p in c'
      ensures HasSeg(segs', p, c'[p])
    {
      if p == a {
        assert InSeg(segs'[0], p, c'[p]);
      } else {
        assert HasSeg(segs, p, c[p]);
        var s :| s in segs && InSeg(s, p, c[p]);
        assert s in segs';
      }
    }
  }

  /** The region becomes a segment that consists of the top chunk. */
  lemma NewSegHeap(c: Blocks, head: map<int, Head>, foot: map<int, nat>, segs: seq<Segment>, mapped: map<int, Mapping>,
                   a: int, n: nat, head': map<int, Head>)
    requires HeapOk(c, head, foot, segs, mapped) && Fresh(segs, mapped, a, n) && n % 16 == 0 && n > TOP_FOOT_SIZE
    requires WrittenIn(head, foot, head', foot, a, a + n)
    requires a in head' && head'[a] == Head(n - TOP_FOOT_SIZE, false, true)
    requires a + n - TOP_FOOT_SIZE in head' && !head'[a + n - TOP_FOOT_SIZE].pinuse
    ensures HeapOk(c[a := Block(n, Top)], head', foot, [Segment(a, n)] + segs, mapped)
  {
    hide Clear;
    var c' := c[a := Block(n, Top)];
    RegionTiled(c, segs, mapped, a, n, Top);
    NewSegSegs(c, segs, mapped, a, n);
    ElsewhereTagged(c, head, foot, segs, head', foot, a, a + n);
    ElsewhereMapped(head, foot, segs, mapped, head', foot, a, n);
    ElsewhereClear(c, head, foot, segs, head', foot, a, a + n);
    ClearWith(c, head', foot, a, Block(n, Top));
    NewSegMapped(head', foot, segs, mapped, a, n);
    forall p | p in c'
      ensures TaggedAt(c', head', foot, p)
    {
      if p != a {
        assert TaggedAt(c, head', foot, p);
      }
    }
  }

  lemma NewSegMapped(head: map<int, Head>, foot: map<int, nat>, segs: seq<Segment>, mapped: map<int, Mapping>, a: int, n: nat)
    requires MappedOk(head, foot, segs, mapped) && Fresh(segs, mapped, a, n)
    ensures MappedOk(head, foot, [Segment(a, n)] + segs, mapped)
  {
    forall p | p in mapped
      ensures MappingOk(head, foot, [Segment(a, n)] + segs, p, mapped[p])
    {
      assert MappingOk(head, foot, segs, p, mapped[p]);
    }
  }

  // ---------------------------------------------------------------- behind a segment

  /** `segs[i]` grew to `t` by taking in `[a, a + n)`, which lies right behind it or right before it. */
  ghost predicate Grown(segs: seq<Segment>, i: nat, t: Segment, a: int, n: nat) {
    && i < |segs|
    && match segs[i]
       case Segment(base, size) =>
         || (t == Segment(base, size + n) && base + size == a)
         || (t == Segment(a, size + n) && base == a + n)
  }

  lemma GrownApart(segs: seq<Segment>, i: nat, t: Segment, a: int, n: nat)
    requires SegsApart(segs) && Distinct(segs) && Grown(segs, i, t, a, n)
    requires forall s :: s in segs ==> Disjoint(a, a + n, s.base, End(s)) && s.size > 0
    ensures SegsApart(segs[i := t]) && Distinct(segs[i := t])
  {
  }

  lemma GrownMapped(head: map<int, Head>, foot: map<int, nat>, segs: seq<Segment>, mapped: map<int, Mapping>,
                    i: nat, t: Segment, a: int, n: nat)
    requires MappedOk(head, foot, segs, mapped) && Fresh(segs, mapped, a, n) && Grown(segs, i, t, a, n)
    ensures MappedOk(head, foot, segs[i := t], mapped)
  {
    forall p | p in mapped
      ensures MappingOk(head, foot, segs[i := t], p, mapped[p])
    {
      assert MappingOk(head, foot, segs, p, mapped[p]);
      assert segs[i] in segs;
    }
  }

  lemma GrownPlace(segs: seq<Segment>, i: nat, t: Segment, p: int, b: Block)
    requires i < |segs| && HasSeg(segs, p, b) && (InSeg(segs[i], p, b) ==> InSeg(t, p, b))
    ensures HasSeg(segs[i := t], p, b)
  {
    var s :| s in segs && InSeg(s, p, b);
    var k :| 0 <= k < |segs| && segs[k] == s;
    assert InSeg(segs[i := t][k], p, b);
  }

  /** The blocks of `segs[i]`, and the one block `x` that is new or that grew, find their place. */
  lemma GrownSegs(c: Blocks, segs: seq<Segment>, mapped: map<int, Mapping>, i: nat, t: Segment, a: int, n: nat, x: int, b: Block)
    requires Tiled(c) && SegsOk(c, segs) && Fresh(segs, mapped, a, n) && n > 0 && Grown(segs, i, t, a, n) && InSeg(t, x, b)
    requires (t.base == a ==> x == a) && !b.kind.Fence?
    requires forall p :: p in c && p != x && InSeg(segs[i], p, c[p]) ==> InSeg(t, p, c[p])
    ensures SegsOk(c[x := b], segs[i := t])
  {
    hide Tiled, SegsApart, Grown;
    assert i < |segs| by { GrownIndex(segs, i, t, a, n); }
    var c', segs' := c[x := b], segs[i := t];
    GrownApart(segs, i, t, a, n);
    assert t in segs' by { assert segs'[i] == t; }
    forall p | p in c'
      ensures HasSeg(segs', p, c'[p])
    {
      if p == x {
        assert InSeg(t, p, c'[p]);
      } else {
        assert HasSeg(segs, p, c[p]);
        GrownPlace(segs, i, t, p, c[p]);
      }
    }
    GrownBases(c, segs, i, t, a, n, x, b);
  }

  lemma GrownIndex(segs: seq<Segment>, i: nat, t: Segment, a: int, n: nat)
    requires Grown(segs, i, t, a, n)
    ensures i < |segs|
  {
  }

  lemma GrownBases(c: Blocks, segs: seq<Segment>, i: nat, t: Segment, a: int, n: nat, x: int, b: Block)
    requires SegsOk(c, segs) && Grown(segs, i, t, a, n) && n > 0 && (t.base == a ==> x == a) && !b.kind.Fence?
    ensures forall s :: s in segs[i := t] ==> s.base in c[x := b] && s.size > 0 && !c[x := b][s.base].kind.Fence?
  {
    assert segs[i] in segs;
    forall s | s in segs[i := t]
      ensures s.base in c[x := b] && s.size > 0 && !c[x := b][s.base].kind.Fence?
    {
      assert s == t || s in segs;
    }
  }

  // ---------------------------------------------------------------- behind a segment

  /** Only the last block of a segment ends where it ends. */
  lemma LastInSeg(c: Blocks, segs: seq<Segment>, s: Segment, top: int, p: int)
    requires Tiled(c) && SegsOk(c, segs) && s in segs && top in c && top + c[top].size == End(s) && top >= s.base
    requires p in c && p != top && InSeg(s, p, c[p])
    ensures Inner(c[p].kind)
  {
    assert BlockOk(c, p) && BlockOk(c, top) && Apart(c, p, top) && Apart(c, top, p);
  }

  /** The segment of the top chunk grows at its end, and the top chunk with it. */
  lemma AppendTiled(c: Blocks, segs: seq<Segment>, mapped: map<int, Mapping>, top: int, a: int, n: nat)
    requires Tiled(c) && SegsOk(c, segs) && Fresh(segs, mapped, a, n) && n % 16 == 0
    requires top in c && c[top].kind.Top? && top + c[top].size == a
    ensures Tiled(c[top := Block(c[top].size + n, Top)])
  {
    var c' := c[top := Block(c[top].size + n, Top)];
    forall p | p in c'
      ensures BlockOk(c', p)
    {
      assert BlockOk(c, p);
    }
    forall p, q | p in c' && q in c'
      ensures Apart(c', p, q)
    {
      assert Apart(c, p, q);
      NoBlockIn(c, segs, a, a + n, q);
    }
  }

  lemma AppendTagged(c: Blocks, head: map<int, Head>, foot: map<int, nat>, top: int, n: nat, head': map<int, Head>)
    requires Tiled(c) && Tagged(c, head, foot) && top in c && c[top].kind.Top? && c[top].size + n > TOP_FOOT_SIZE
    requires forall q :: q in head && q in c && q != top ==> q in head' && head'[q] == head[q]
    requires forall p :: p in c && c[p].kind.Top? ==> p == top
    requires top in head' && head'[top] == Head(c[top].size + n - TOP_FOOT_SIZE, false, true)
    requires var t := top + c[top].size + n - TOP_FOOT_SIZE; t in head' && !head'[t].pinuse
    ensures Tagged(c[top := Block(c[top].size + n, Top)], head', foot)
  {
    var c' := c[top := Block(c[top].size + n, Top)];
    assert TaggedAt(c, head, foot, top);
    forall p | p in c'
      ensures TaggedAt(c', head', foot, p)
    {
      assert TaggedAt(c, head, foot, p) && BlockOk(c, p);
      if Inner(c[p].kind) {
        assert TaggedAt(c, head, foot, p + c[p].size);
      }
    }
  }

  lemma AppendHeap(c: Blocks, head: map<int, Head>, foot: map<int, nat>, segs: seq<Segment>, mapped: map<int, Mapping>,
                   i: nat, top: int, a: int, n: nat, head': map<int, Head>)
    requires HeapOk(c, head, foot, segs, mapped) && Fresh(segs, mapped, a, n) && n % 16 == 0 && n > TOP_FOOT_SIZE
    requires i < |segs| && End(segs[i]) == a && segs[i].base <= top && top in c && c[top].kind.Top? && top + c[top].size == a
    requires forall p :: p in c && c[p].kind.Top? ==> p == top
    requires SameHeadsBut(head, head', top, a, n)
    requires top in head' && head'[top] == Head(c[top].size + n - TOP_FOOT_SIZE, false, true)
    requires a + n - TOP_FOOT_SIZE in head' && !head'[a + n - TOP_FOOT_SIZE].pinuse
    ensures HeapOk(c[top := Block(c[top].size + n, Top)], head', foot, segs[i := Segment(segs[i].base, segs[i].size + n)], mapped)
  {
    hide Tiled, SegsOk, Clear, MappedOk;
    var t := Segment(segs[i].base, segs[i].size + n);
    AppendClear(c, head, foot, segs, top, a, n, head');
    ClearWith(c, head', foot, top, Block(c[top].size + n, Top));
    AppendTiled(c, segs, mapped, top, a, n);
    forall p | p in c
      ensures !(a <= p < a + n)
    {
      NoBlockIn(c, segs, a, a + n, p);
    }
    AppendTagged(c, head, foot, top, n, head');
    forall p | p in c && p != top && InSeg(segs[i], p, c[p])
      ensures InSeg(t, p, c[p])
    {
      LastInSeg(c, segs, segs[i], top, p);
    }
    GrownSegs(c, segs, mapped, i, t, a, n, top, Block(c[top].size + n, Top));
    AppendMapped(head, foot, segs, mapped, head', top, i, a, n);
    GrownMapped(head', foot, segs, mapped, i, t, a, n);
  }

  /** Heads changed only at `top` and in `[a, a + n)`. */
  ghost predicate SameHeadsBut(head: map<int, Head>, head': map<int, Head>, top: int, a: int, n: nat) {
    forall q :: q != top && !(a <= q < a + n) ==> (q in head <==> q in head') && (q in head ==> head'[q] == head[q])
  }

  lemma AppendClear(c: Blocks, head: map<int, Head>, foot: map<int, nat>, segs: seq<Segment>, top: int, a: int, n: nat, head': map<int, Head>)
    requires Tiled(c) && Clear(c, head, foot) && SegsOk(c, segs) && top in c && SameHeadsBut(head, head', top, a, n)
    requires forall s :: s in segs ==> Disjoint(a, a + n, s.base, End(s))
    ensures Clear(c, head', foot)
  {
    forall p | p in c
      ensures ClearBlock(head', foot, p, c[p])
    {
      assert ClearBlock(head, foot, p, c[p]) && BlockOk(c, p) && Apart(c, p, top);
      NoBlockIn(c, segs, a, a + n, p);
    }
  }

  lemma AppendMapped(head: map<int, Head>, foot: map<int, nat>, segs: seq<Segment>, mapped: map<int, Mapping>,
                     head': map<int, Head>, top: int, i: nat, a: int, n: nat)
    requires MappedOk(head, foot, segs, mapped) && Fresh(segs, mapped, a, n)
    requires i < |segs| && segs[i].base <= top < End(segs[i])
    requires SameHeadsBut(head, head', top, a, n)
    ensures MappedOk(head', foot, segs, mapped)
  {
    assert segs[i] in segs;
    forall p | p in mapped
      ensures MappingOk(head', foot, segs, p, mapped[p])
    {
      assert MappingOk(head, foot, segs, p, mapped[p]);
    }
  }

  // ---------------------------------------------------------------- before a segment

  lemma InnerNotBefore(c: Blocks, segs: seq<Segment>, s: Segment, f: int)
    requires Tiled(c) && SegsOk(c, segs) && s in segs && f in c && Inner(c[f].kind)
    ensures f + c[f].size != s.base
  {
    assert BlockOk(c, f) && HasSeg(segs, f, c[f]);
    var t :| t in segs && InSeg(t, f, c[f]);
    assert t == s || Disjoint(s.base, End(s), t.base, End(t));
  }

  /** No free chunk borders the first block of a segment from below. */
  lemma FirstInSeg(c: Blocks, head: map<int, Head>, foot: map<int, nat>, segs: seq<Segment>, s: Segment)
    requires Tiled(c) && Tagged(c, head, foot) && SegsOk(c, segs) && s in segs
    ensures s.base in c && s.base in head && head[s.base].pinuse
  {
    assert TaggedAt(c, head, foot, s.base);
    if !head[s.base].pinuse {
      InnerNotBefore(c, segs, s, s.base - foot[s.base]);
    }
  }

  /** The region becomes a chunk in use at the front of the segment behind it. */
  lemma PrependHeap(c: Blocks, head: map<int, Head>, foot: map<int, nat>, segs: seq<Segment>, mapped: map<int, Mapping>,
                    i: nat, a: int, n: nat, head': map<int, Head>, foot': map<int, nat>)
    requires HeapOk(c, head, foot, segs, mapped) && Fresh(segs, mapped, a, n) && n % 16 == 0 && n >= MIN_CHUNK_SIZE
    requires i < |segs| && segs[i].base == a + n
    requires WrittenIn(head, foot, head', foot', a, a + n) && FeetAligned(foot')
    requires a in head' && head'[a] == Head(n, true, true) && ClearBlock(head', foot', a, Block(n, Used))
    ensures HeapOk(c[a := Block(n, Used)], head', foot', segs[i := Segment(a, segs[i].size + n)], mapped)
  {
    hide Clear, ClearBlock;
    var c', t := c[a := Block(n, Used)], Segment(a, segs[i].size + n);
    FreshApart(segs, mapped, a, n);
    ElsewhereClear(c, head, foot, segs, head', foot', a, a + n);
    ClearWith(c, head', foot', a, Block(n, Used));
    assert segs[i] in segs;
    FirstInSeg(c, head, foot, segs, segs[i]);
    RegionTiled(c, segs, mapped, a, n, Used);
    GrownSegs(c, segs, mapped, i, t, a, n, a, Block(n, Used));
    ElsewhereTagged(c, head, foot, segs, head', foot', a, a + n);
    forall p | p in c'
      ensures TaggedAt(c', head', foot', p)
    {
      if p != a {
        assert TaggedAt(c, head', foot', p);
      }
    }
    ElsewhereMapped(head, foot, segs, mapped, head', foot', a, n);
    GrownMapped(head', foot', segs, mapped, i, t, a, n);
  }

  /** The foot before the first block of a segment is not needed. */
  lemma FirstFoot(c: Blocks, head: map<int, Head>, foot: map<int, nat>, segs: seq<Segment>, mapped: map<int, Mapping>, s: Segment)
    requires HeapOk(c, head, foot, segs, mapped) && s in segs
    ensures HeapOk(c, head, foot - {s.base}, segs, mapped)
  {
    hide Tiled, Tagged, SegsOk, Clear, MappedOk;
    FirstFootTagged(c, head, foot, segs, s);
    FirstFootClear(c, head, foot, s.base);
    FirstFootMapped(c, head, foot, segs, mapped, s);
  }

  lemma FirstFootTagged(c: Blocks, head: map<int, Head>, foot: map<int, nat>, segs: seq<Segment>, s: Segment)
    requires Tiled(c) && Tagged(c, head, foot) && SegsOk(c, segs) && s in segs
    ensures Tagged(c, head, foot - {s.base})
  {
    hide SegsOk, Tiled;
    FirstInSeg(c, head, foot, segs, s);
    forall p | p in c
      ensures TaggedAt(c, head, foot - {s.base}, p)
    {
      assert TaggedAt(c, head, foot, p);
      if Inner(c[p].kind) {
        InnerNotBefore(c, segs, s, p);
      }
    }
  }

  lemma FirstFootClear(c: Blocks, head: map<int, Head>, foot: map<int, nat>, x: int)
    requires Clear(c, head, foot)
    ensures Clear(c, head, foot - {x})
  {
    forall p | p in c
      ensures ClearBlock(head, foot - {x}, p, c[p])
    {
      assert ClearBlock(head, foot, p, c[p]);
    }
  }

  lemma FirstFootMapped(c: Blocks, head: map<int, Head>, foot: map<int, nat>, segs: seq<Segment>, mapped: map<int, Mapping>, s: Segment)
    requires MappedOk(head, foot, segs, mapped) && SegsOk(c, segs) && s in segs
    ensures MappedOk(head, foot - {s.base}, segs, mapped)
  {
    forall p | p in mapped
      ensures MappingOk(head, foot - {s.base}, segs, p, mapped[p])
    {
      assert MappingOk(head, foot, segs, p, mapped[p]);
    }
  }

  // ---------------------------------------------------------------- a chunk of its own

  /** The region becomes a directly mapped chunk. */
  lemma MapHeap(c: Blocks, head: map<int, Head>, foot: map<int, nat>, segs: seq<Segment>, mapped: map<int, Mapping>,
                a: int, n: nat, head': map<int, Head>, foot': map<int, nat>)
    requires HeapOk(c, head, foot, segs, mapped) && Fresh(segs, mapped, a, n) && n >= MMAP_FOOT_PAD + MIN_LARGE && n % PAGE_SIZE == 0
    requires WrittenIn(head, foot, head', foot', a, a + n) && FeetAligned(foot')
    requires MappingTagged(head', foot', a, Mapping(0, n - MMAP_FOOT_PAD))
    ensures HeapOk(c, head', foot', segs, mapped[a := Mapping(0, n - MMAP_FOOT_PAD)])
  {
    hide Tiled, Tagged, SegsOk, Clear, MappingTagged;
    FreshApart(segs, mapped, a, n);
    ElsewhereClear(c, head, foot, segs, head', foot', a, a + n);
    ElsewhereTagged(c, head, foot, segs, head', foot', a, a + n);
    ElsewhereMapped(head, foot, segs, mapped, head', foot', a, n);
    OneMoreMapped(head', foot', segs, mapped, a, n);
  }

  lemma FreshApart(segs: seq<Segment>, mapped: map<int, Mapping>, a: int, n: nat)
    requires Fresh(segs, mapped, a, n)
    ensures forall s :: s in segs ==> Disjoint(a, a + n, s.base, End(s))
  {
  }

  lemma OneMoreMapped(head: map<int, Head>, foot: map<int, nat>, segs: seq<Segment>, mapped: map<int, Mapping>, a: int, n: nat)
    requires MappedOk(head, foot, segs, mapped) && Fresh(segs, mapped, a, n) && n >= MMAP_FOOT_PAD + MIN_LARGE && n % PAGE_SIZE == 0
    requires MappingTagged(head, foot, a, Mapping(0, n - MMAP_FOOT_PAD))
    ensures MappedOk(head, foot, segs, mapped[a := Mapping(0, n - MMAP_FOOT_PAD)])
  {
    var mapped' := mapped[a := Mapping(0, n - MMAP_FOOT_PAD)];
    PageIsAligned(a);
    forall p | p in mapped'
      ensures MappingOk(head, foot, segs, p, mapped'[p])
    {
      if p != a {
        assert MappingOk(head, foot, segs, p, mapped[p]);
      }
    }
  }

  lemma PageIsAligned(a: int)
    requires a % PAGE_SIZE == 0
    ensures a % 16 == 0
  {
    var k := a / PAGE_SIZE;
    assert a == 16 * (256 * k);
  }

  /** A directly mapped chunk goes back to the system. */
  lemma UnmapHeap(c: Blocks, head: map<int, Head>, foot: map<int, nat>, segs: seq<Segment>, mapped: map<int, Mapping>, p: int)
    requires HeapOk(c, head, foot, segs, mapped)
    ensures HeapOk(c, head, foot, segs, mapped - {p})
  {
  }
}
