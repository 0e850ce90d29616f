/**
 The heap as a tiling: every segment of memory is cut into blocks without gaps, and the boundary tags in
 memory (the `head` words and the `prev_foot` words) describe that cut.
 */
module Tiling {
  import opened TreeIndex
  import opened Chunks

  /** A chunk in use, a free chunk, the top chunk with its trailing overhead, or the fenceposts that end a segment. */
  datatype Kind = Used | Free | Top | Fence

  datatype Block = Block(size: nat, kind: Kind)

  type Blocks = map<int, Block>

  /** Used and free chunks are followed by another block of the same segment. */
  predicate Inner(k: Kind) { k.Used? || k.Free? }

  ghost predicate BlockOk(c: Blocks, p: int)
    requires p in c
  {
    && p > 0 && p % 16 == 0
    && c[p].size % 16 == 0 && c[p].size >= MIN_CHUNK_SIZE
    && WINDOW <= p && p + c[p].size <= WINDOW_END
    && (Inner(c[p].kind) ==> p + c[p].size in c)
  }

  /** No two blocks overlap. */
  ghost predicate Apart(c: Blocks, p: int, q: int)
    requires p in c && q in c
  {
    p < q ==> p + c[p].size <= q
  }

  ghost predicate Tiled(c: Blocks) {
    && (forall p {:trigger BlockOk(c, p)} :: p in c ==> BlockOk(c, p))
    && (forall p, q {:trigger Apart(c, p, q)} :: p in c && q in c ==> Apart(c, p, q))
  }

  /** What the head word of a block records. */
  ghost predicate HeadOk(b: Block, h: Head) {
    match b.kind
    case Used => h.size == b.size && h.cinuse
    case Free => h == Head(b.size, false, true)
    case Top => b.size > TOP_FOOT_SIZE && h == Head(b.size - TOP_FOOT_SIZE, false, true)
    case Fence => b.size <= MAX_FENCES && h == FENCEPOST
  }

  /** The boundary tags of the block at `p`: its head, what the next block records about it, and the way back from it. */
  ghost predicate TaggedAt(c: Blocks, head: map<int, Head>, foot: map<int, nat>, p: int)
    requires p in c
  {
    match c[p]
    case Block(size, kind) =>
      && p in head && HeadOk(c[p], head[p])
      && (Inner(kind) ==> p + size in head && head[p + size].pinuse == kind.Used?)
      && (kind.Free? ==> p + size in foot && foot[p + size] == size && p + size in c && c[p + size].kind.Used?)
      && (kind.Top? ==> p + size - TOP_FOOT_SIZE in head && !head[p + size - TOP_FOOT_SIZE].pinuse)
      && (!head[p].pinuse ==>
            && p in foot && p - foot[p] in c
            && c[p - foot[p]] == Block(foot[p], Free))
  }

  ghost predicate Tagged(c: Blocks, head: map<int, Head>, foot: map<int, nat>) {
    forall p {:trigger TaggedAt(c, head, foot, p)} :: p in c ==> TaggedAt(c, head, foot, p)
  }

  // ---------------------------------------------------------------- words that belong to the program

  /** The allocator keeps no head strictly between the two addresses. */
  ghost predicate NoHeads(head: map<int, Head>, lo: int, hi: int) { forall q :: q in head ==> !(lo < q < hi) }

  /** The allocator keeps no foot behind the first address, up to the second. */
  ghost predicate NoFeet(foot: map<int, nat>, lo: int, hi: int) { forall q :: q in foot ==> !(lo < q <= hi) }

  /**
   Everything from behind the head of a chunk in use up to the head of the next chunk, the foot of the next chunk
   included, belongs to the program: the allocator keeps nothing there.
   */
  ghost predicate ClearBlock(head: map<int, Head>, foot: map<int, nat>, p: int, b: Block) {
    match b
    case Block(size, kind) => kind.Used? ==> NoHeads(head, p, p + size) && NoFeet(foot, p, p + size)
  }

  ghost predicate Clear(c: Blocks, head: map<int, Head>, foot: map<int, nat>) {
    forall p {:trigger ClearBlock(head, foot, p, c[p])} :: p in c ==> ClearBlock(head, foot, p, c[p])
  }

  /** Feet are whole words. */
  ghost predicate FeetAligned(foot: map<int, nat>) { forall q :: q in foot ==> q % 8 == 0 }

  // ---------------------------------------------------------------- cutting a stretch anew

  /** The tiling with the blocks that start in `[a, b)` replaced by `ins`. */
  ghost function Recut(c: Blocks, a: int, b: int, ins: Blocks): Blocks {
    (map p | p in c && !(a <= p < b) :: c[p]) + ins
  }

  /** `[a, b)` is made up of whole blocks. */
  ghost predicate Stretch(c: Blocks, a: int, b: int) {
    && a in c && a < b
    && forall p :: p in c && a <= p < b ==> p + c[p].size <= b
  }

  /** `ins` cuts `[a, b)` into blocks. */
  ghost predicate Cuts(c: Blocks, a: int, b: int, ins: Blocks) {
    && a in ins
    && (forall p :: p in ins ==>
          && a <= p && p + ins[p].size <= b && p % 16 == 0 && p > 0
          && ins[p].size % 16 == 0 && ins[p].size >= MIN_CHUNK_SIZE
          && (Inner(ins[p].kind) ==> p + ins[p].size in ins || (p + ins[p].size == b && b in c)))
    && (forall p, q {:trigger Apart(ins, p, q)} :: p in ins && q in ins ==> Apart(ins, p, q))
  }

  lemma RecutTiled(c: Blocks, a: int, b: int, ins: Blocks)
    requires Tiled(c) && Stretch(c, a, b) && Cuts(c, a, b, ins) && b <= WINDOW_END
    ensures Tiled(Recut(c, a, b, ins))
  {
    var c' := Recut(c, a, b, ins);
    assert BlockOk(c, a);
    forall p | p in c'
      ensures BlockOk(c', p)
    {
      if p !in ins {
        assert BlockOk(c, p) && Apart(c, p, a);
      }
    }
    forall p, q | p in c' && q in c'
      ensures Apart(c', p, q)
    {
      if p in ins && q in ins {
        assert Apart(ins, p, q);
      } else if p !in ins && q !in ins {
        assert Apart(c, p, q);
      } else if p !in ins {
        assert Apart(c, p, a);
      }
    }
  }

  /** Memory changed only in the heads from `a` to `b` and in the feet after `a` up to `b`. */
  ghost predicate ChangedWithin(head: map<int, Head>, foot: map<int, nat>, head': map<int, Head>, foot': map<int, nat>, a: int, b: int) {
    && (forall q :: !(a <= q <= b) ==> (q in head <==> q in head') && (q in head ==> head'[q] == head[q]))
    && (forall q :: !(a < q <= b) ==> (q in foot <==> q in foot') && (q in foot ==> foot'[q] == foot[q]))
  }

  /** Blocks outside the stretch are as clear as they were. */
  lemma RecutClear(c: Blocks, head: map<int, Head>, foot: map<int, nat>, a: int, b: int, ins: Blocks,
                   head': map<int, Head>, foot': map<int, nat>, e: int)
    requires Tiled(c) && Clear(c, head, foot) && Stretch(c, a, b) && ChangedWithin(head, foot, head', foot', a, e) && e <= b
    requires forall p :: p in ins ==> ClearBlock(head', foot', p, ins[p])
    ensures Clear(Recut(c, a, b, ins), head', foot')
  {
    var c' := Recut(c, a, b, ins);
    forall p | p in c'
      ensures ClearBlock(head', foot', p, c'[p])
    {
      if p !in ins {
        assert ClearBlock(head, foot, p, c[p]) && BlockOk(c, p) && Apart(c, p, a);
      }
    }
  }

  /** A block outside the stretch keeps its tags. */
  lemma OutsideTagged(c: Blocks, head: map<int, Head>, foot: map<int, nat>, a: int, b: int, ins: Blocks,
                      head': map<int, Head>, foot': map<int, nat>, q: int)
    requires Tiled(c) && Stretch(c, a, b) && Cuts(c, a, b, ins) && ChangedWithin(head, foot, head', foot', a, b)
    requires a in head && a in head' && head'[a].pinuse == head[a].pinuse && (!head[a].pinuse ==> ins[a].kind.Used?)
    requires q in c && !(a <= q <= b) && TaggedAt(c, head, foot, q)
    ensures TaggedAt(Recut(c, a, b, ins), head', foot', q)
  {
    var c' := Recut(c, a, b, ins);
    assert BlockOk(c, q) && Apart(c, q, a);
    var e := q + c[q].size;
    assert c'[q] == c[q];
    assert head'[q] == head[q];
    assert e in c ==> e in c' && (e == a || c'[e] == c[e]);
    assert e in head ==> e in head' && head'[e].pinuse == head[e].pinuse;
    assert e in foot ==> e in foot' && foot'[e] == foot[e];
    if c[q].kind.Top? {
      var t := e - TOP_FOOT_SIZE;
      assert t in head' && head'[t] == head[t];
    }
    if !head[q].pinuse {
      var f := q - foot[q];
      assert f in c';
      assert c'[f] == c[f];
    }
  }

  /** The block after the stretch, behind the last new block `l`. */
  lemma EdgeTagged(c: Blocks, head: map<int, Head>, foot: map<int, nat>, a: int, b: int, ins: Blocks,
                   head': map<int, Head>, foot': map<int, nat>, l: int)
    requires Tiled(c) && Stretch(c, a, b) && Cuts(c, a, b, ins) && ChangedWithin(head, foot, head', foot', a, b)
    requires b in c && TaggedAt(c, head, foot, b)
    requires l in ins && l + ins[l].size == b && Inner(ins[l].kind)
    requires b in head' && head'[b] == head[b].(pinuse := ins[l].kind.Used?)
    requires ins[l].kind.Free? ==> b in foot' && foot'[b] == ins[l].size && c[b].kind.Used?
    ensures TaggedAt(Recut(c, a, b, ins), head', foot', b)
  {
    assert BlockOk(c, b);
  }

  lemma RecutTagged(c: Blocks, head: map<int, Head>, foot: map<int, nat>, a: int, b: int, ins: Blocks,
                    head': map<int, Head>, foot': map<int, nat>)
    requires Tiled(c) && Tagged(c, head, foot)
    requires Stretch(c, a, b) && Cuts(c, a, b, ins) && ChangedWithin(head, foot, head', foot', a, b)
    requires a in head && a in head' && head'[a].pinuse == head[a].pinuse && (!head[a].pinuse ==> ins[a].kind.Used?)
    requires forall p :: p in ins ==> TaggedAt(Recut(c, a, b, ins), head', foot', p)
    requires b in c ==> TaggedAt(Recut(c, a, b, ins), head', foot', b)
    ensures Tagged(Recut(c, a, b, ins), head', foot')
  {
    var c' := Recut(c, a, b, ins);
    forall q | q in c'
      ensures TaggedAt(c', head', foot', q)
    {
      if q !in ins && q != b {
        OutsideTagged(c, head, foot, a, b, ins, head', foot', q);
      }
    }
  }

  // ---------------------------------------------------------------- segments and directly mapped chunks

  datatype Segment = Segment(base: int, size: nat)

  function End(s: Segment): int { s.base + s.size }

  /** A chunk with a mapping of its own: `lead` bytes lie before it, and a fake chunk of four words behind it. */
  datatype Mapping = Mapping(lead: nat, size: nat)

  const MMAP_FOOT_PAD: nat := 32

  predicate Disjoint(a: int, b: int, c: int, d: int) { b <= c || d <= a }

  /** The block lies in the segment, and exactly the last block of the segment is not followed by another. */
  predicate InSeg(s: Segment, p: int, b: Block) {
    && s.base <= p
    && if Inner(b.kind) then p + b.size < End(s) else p + b.size == End(s)
  }

  ghost predicate HasSeg(segs: seq<Segment>, p: int, b: Block) {
    exists s :: s in segs && InSeg(s, p, b)
  }

  ghost predicate SegsApart(segs: seq<Segment>) {
    forall s, t :: s in segs && t in segs && s != t ==> Disjoint(s.base, End(s), t.base, End(t))
  }

  ghost predicate Distinct(segs: seq<Segment>) {
    forall j, k :: 0 <= j < k < |segs| ==> segs[j] != segs[k]
  }

  ghost predicate SegsOk(c: Blocks, segs: seq<Segment>) {
    && (forall s :: s in segs ==> s.base in c && s.size > 0 && !c[s.base].kind.Fence?)
    && SegsApart(segs) && Distinct(segs)
    && (forall p {:trigger HasSeg(segs, p, c[p])} :: p in c ==> HasSeg(segs, p, c[p]))
  }

  /** The words of a directly mapped chunk: its head and foot, and behind it a fencepost and an empty head. */
  ghost predicate MappingTagged(head: map<int, Head>, foot: map<int, nat>, p: int, k: Mapping) {
    match k
    case Mapping(lead, size) =>
      && p in head && head[p] == Head(size, false, false)
      && p in foot && foot[p] == lead
      && p + size in head && head[p + size] == FENCEPOST
      && p + size + 8 in head && head[p + size + 8] == Head(0, false, false)
      && NoHeads(head, p, p + size) && NoFeet(foot, p, p + size)
  }

  /** The mapping consists of whole pages, and the chunk is not small. */
  ghost predicate MappingFits(p: int, k: Mapping) {
    && p > 0 && p % 16 == 0 && k.size >= MIN_LARGE && WINDOW <= p - k.lead && p + k.size <= WINDOW_END && p - k.lead > 0
    && (p - k.lead) % PAGE_SIZE == 0 && (k.lead + k.size + MMAP_FOOT_PAD) % PAGE_SIZE == 0
  }

  ghost predicate MappingOk(head: map<int, Head>, foot: map<int, nat>, segs: seq<Segment>, p: int, k: Mapping) {
    && MappingFits(p, k) && MappingTagged(head, foot, p, k)
    && forall s :: s in segs ==> Disjoint(p - k.lead, p + k.size + MMAP_FOOT_PAD, s.base, End(s))
  }

  ghost predicate MappedOk(head: map<int, Head>, foot: map<int, nat>, segs: seq<Segment>, mapped: map<int, Mapping>) {
    && (forall p :: p in mapped ==> MappingOk(head, foot, segs, p, mapped[p]))
    && (forall p, q :: p in mapped && q in mapped && p < q ==>
          p + mapped[p].size + MMAP_FOOT_PAD <= q - mapped[q].lead)
  }

  ghost predicate HeapOk(c: Blocks, head: map<int, Head>, foot: map<int, nat>, segs: seq<Segment>, mapped: map<int, Mapping>) {
    && Tiled(c) && Tagged(c, head, foot)
    && SegsOk(c, segs) && MappedOk(head, foot, segs, mapped)
    && Clear(c, head, foot) && FeetAligned(foot)
  }

  lemma HeapAt(c: Blocks, head: map<int, Head>, foot: map<int, nat>, segs: seq<Segment>, mapped: map<int, Mapping>, p: int)
    requires HeapOk(c, head, foot, segs, mapped) && p in c
    ensures BlockOk(c, p) && TaggedAt(c, head, foot, p) && ClearBlock(head, foot, p, c[p])
  {
    hide SegsOk, MappedOk;
  }

  lemma NotUsedClear(head: map<int, Head>, foot: map<int, nat>, p: int, b: Block)
    requires !b.kind.Used?
    ensures ClearBlock(head, foot, p, b)
  {
  }

  lemma RecutSegs(c: Blocks, segs: seq<Segment>, a: int, b: int, ins: Blocks, s: Segment)
    requires SegsOk(c, segs) && a in ins && !ins[a].kind.Fence? && s in segs && s.base <= a < b <= End(s)
    requires forall p :: p in ins ==> InSeg(s, p, ins[p]) && a <= p < b
    ensures SegsOk(Recut(c, a, b, ins), segs)
  {
    var c' := Recut(c, a, b, ins);
    forall t | t in segs
      ensures t.base in c' && !c'[t.base].kind.Fence?
    {
      if t != s {
        assert Disjoint(s.base, End(s), t.base, End(t));
      }
      assert t.base in c;
      assert t.base < a || t.base == a || t.base >= b;
      assert t.base in ins ==> t.base == a;
    }
    forall p | p in c'
      ensures HasSeg(segs, p, c'[p])
    {
      if p in ins {
        assert InSeg(s, p, ins[p]);
      } else {
        assert HasSeg(segs, p, c[p]);
      }
    }
  }

  /** Directly mapped chunks are not affected by changes inside a segment. */
  lemma RecutMapped(head: map<int, Head>, foot: map<int, nat>, segs: seq<Segment>, mapped: map<int, Mapping>,
                    head': map<int, Head>, foot': map<int, nat>, a: int, b: int, s: Segment)
    requires MappedOk(head, foot, segs, mapped) && ChangedWithin(head, foot, head', foot', a, b)
    requires s in segs && s.base <= a && b < End(s)
    ensures MappedOk(head', foot', segs, mapped)
  {
    forall p | p in mapped
      ensures MappingOk(head', foot', segs, p, mapped[p])
    {
      assert MappingOk(head, foot, segs, p, mapped[p]);
    }
  }

  lemma RecutHeap(c: Blocks, head: map<int, Head>, foot: map<int, nat>, segs: seq<Segment>, mapped: map<int, Mapping>,
                  a: int, b: int, ins: Blocks, head': map<int, Head>, foot': map<int, nat>, s: Segment, top: bool)
    requires HeapOk(c, head, foot, segs, mapped) && Stretch(c, a, b) && Cuts(c, a, b, ins) && !ins[a].kind.Fence?
    requires ChangedWithin(head, foot, head', foot', a, if top then b - 1 else b)
    requires s in segs && s.base <= a && (if top then b == End(s) else b < End(s)) && b <= WINDOW_END
    requires forall p :: p in ins ==> InSeg(s, p, ins[p])
    requires a in head && a in head' && head'[a].pinuse == head[a].pinuse && (!head[a].pinuse ==> ins[a].kind.Used?)
    requires forall p :: p in ins ==> TaggedAt(Recut(c, a, b, ins), head', foot', p)
    requires !top ==> b in c && TaggedAt(Recut(c, a, b, ins), head', foot', b)
    requires FeetAligned(foot') && forall p :: p in ins ==> ClearBlock(head', foot', p, ins[p])
    ensures HeapOk(Recut(c, a, b, ins), head', foot', segs, mapped)
  {
    hide Clear, ClearBlock;
    RecutTiled(c, a, b, ins);
    RecutClear(c, head, foot, a, b, ins, head', foot', if top then b - 1 else b);
    assert forall p :: p in ins ==> a <= p < b;
    RecutSegs(c, segs, a, b, ins, s);
    RecutMapped(head, foot, segs, mapped, head', foot', a, if top then b - 1 else b, s);
    if top && b in c {
      NextSegTagged(c, head, foot, segs, a, b, ins, head', foot', s);
    }
    RecutTagged(c, head, foot, a, b, ins, head', foot');
  }

  /** Another segment may start right behind this one; it is not affected. */
  lemma NextSegTagged(c: Blocks, head: map<int, Head>, foot: map<int, nat>, segs: seq<Segment>, a: int, b: int, ins: Blocks,
                      head': map<int, Head>, foot': map<int, nat>, s: Segment)
    requires Tiled(c) && Tagged(c, head, foot) && SegsOk(c, segs) && Stretch(c, a, b) && Cuts(c, a, b, ins)
    requires ChangedWithin(head, foot, head', foot', a, b - 1) && s in segs && s.base <= a && b == End(s) && b in c
    ensures TaggedAt(Recut(c, a, b, ins), head', foot', b)
  {
    NoFreeBefore(c, head, foot, segs, b, s);
    assert TaggedAt(c, head, foot, b) && BlockOk(c, b);
    var c' := Recut(c, a, b, ins);
    var e := b + c[b].size;
    assert c'[b] == c[b] && head'[b] == head[b];
    assert e in c ==> e in c' && c'[e] == c[e];
  }

  /** Only the last block of a segment borders its end. */
  lemma InnerNotLast(c: Blocks, segs: seq<Segment>, f: int, s: Segment)
    requires Tiled(c) && SegsOk(c, segs) && s in segs && f in c && Inner(c[f].kind)
    ensures f + c[f].size != End(s)
  {
    assert HasSeg(segs, f, c[f]) && BlockOk(c, f);
    var t: Segment :| t in segs && InSeg(t, f, c[f]);
    if t != s {
      assert Disjoint(s.base, End(s), t.base, End(t));
    }
  }

  lemma NoFreeBefore(c: Blocks, head: map<int, Head>, foot: map<int, nat>, segs: seq<Segment>, b: int, s: Segment)
    requires Tiled(c) && Tagged(c, head, foot) && SegsOk(c, segs) && s in segs && b == End(s) && b in c
    ensures b in head && head[b].pinuse
  {
    assert TaggedAt(c, head, foot, b);
    if !head[b].pinuse {
      InnerNotLast(c, segs, b - foot[b], s);
    }
  }
}
