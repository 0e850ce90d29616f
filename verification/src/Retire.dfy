/**
 `add_segment`: the top chunk of the old segment gives way to the segment's record and to fenceposts, what is left
 of it becomes an ordinary free chunk, and the new region becomes the top chunk.
 */
module Retire {
  import opened Chunks
  import opened Bins
  import opened Tiling
  import opened Recuts
  import opened HeapState

  /** `csp`: where the record goes, as far back as a free chunk or nothing at all fits before it. */
  function RecordAt(top: int, topsize: nat): int {
    if topsize < MIN_CHUNK_SIZE then top else top + topsize
  }

  /** What becomes of the old top chunk. */
  ghost function Retired(top: int, topsize: nat): Blocks {
    var csp, end := RecordAt(top, topsize), top + topsize + TOP_FOOT_SIZE;
    if csp == top then map[csp := Block(RECORD_SIZE, Used), csp + RECORD_SIZE := Block(topsize + 32, Fence)]
    else map[top := Block(topsize, Free), csp := Block(RECORD_SIZE, Used), csp + RECORD_SIZE := Block(32, Fence)]
  }

  /** The words that say so. */
  ghost predicate RetiredWords(head: map<int, Head>, foot: map<int, nat>, head': map<int, Head>, foot': map<int, nat>, top: int, topsize: nat) {
    var csp, end := RecordAt(top, topsize), top + topsize + TOP_FOOT_SIZE;
    && (forall q :: !(top <= q < end) ==> (q in head <==> q in head') && (q in head ==> head'[q] == head[q]))
    && (forall q :: !(csp <= q <= csp + RECORD_SIZE) ==> (q in foot <==> q in foot') && (q in foot ==> foot'[q] == foot[q]))
    && ClearBlock(head', foot', csp, Block(RECORD_SIZE, Used)) && (FeetAligned(foot) ==> FeetAligned(foot'))
    && csp in head' && head'[csp] == Head(RECORD_SIZE, true, csp == top)
    && csp + RECORD_SIZE in head' && head'[csp + RECORD_SIZE] == FENCEPOST
    && if csp == top then (top in foot <==> top in foot') && (top in foot ==> foot'[top] == foot[top])
       else top in head' && head'[top] == Head(topsize, false, true) && csp in foot' && foot'[csp] == topsize
  }

  /** The new blocks lie one behind the other, up to the end of the segment. */
  lemma RetiredBlocks(top: int, topsize: nat, p: int)
    requires top > 0 && top % 16 == 0 && topsize % 16 == 0 && topsize > 0 && p in Retired(top, topsize)
    ensures var b, csp := Retired(top, topsize)[p], RecordAt(top, topsize);
            && p % 16 == 0 && b.size % 16 == 0 && b.size >= MIN_CHUNK_SIZE && top <= p
            && (p == top || p == csp || p == csp + RECORD_SIZE)
            && if p == csp + RECORD_SIZE then b.kind.Fence? && p + b.size == top + topsize + TOP_FOOT_SIZE
               else Inner(b.kind) && p + b.size == if p == csp then csp + RECORD_SIZE else csp
  {
    SumAligned(top, topsize);
  }

  lemma RetiredCuts(c: Blocks, top: int, topsize: nat)
    requires top > 0 && top % 16 == 0 && topsize % 16 == 0 && topsize > 0
    ensures Cuts(c, top, top + topsize + TOP_FOOT_SIZE, Retired(top, topsize))
  {
    var ins := Retired(top, topsize);
    forall p | p in ins
      ensures top <= p && p + ins[p].size <= top + topsize + TOP_FOOT_SIZE && p % 16 == 0
      ensures ins[p].size % 16 == 0 && ins[p].size >= MIN_CHUNK_SIZE && (Inner(ins[p].kind) ==> p + ins[p].size in ins)
    {
      RetiredBlocks(top, topsize, p);
    }
    forall p, q | p in ins && q in ins
      ensures Apart(ins, p, q)
    {
      RetiredBlocks(top, topsize, p);
      RetiredBlocks(top, topsize, q);
    }
  }

  lemma RetiredInSeg(s: Segment, top: int, topsize: nat)
    requires top > 0 && top % 16 == 0 && topsize % 16 == 0 && topsize > 0
    requires s.base <= top && End(s) == top + topsize + TOP_FOOT_SIZE
    ensures forall p :: p in Retired(top, topsize) ==> InSeg(s, p, Retired(top, topsize)[p]) && top <= p < End(s)
  {
    forall p | p in Retired(top, topsize)
      ensures InSeg(s, p, Retired(top, topsize)[p]) && top <= p < End(s)
    {
      RetiredBlocks(top, topsize, p);
    }
  }

  lemma RetiredWithin(head: map<int, Head>, foot: map<int, nat>, head': map<int, Head>, foot': map<int, nat>, top: int, topsize: nat)
    requires RetiredWords(head, foot, head', foot', top, topsize) && topsize > 0
    ensures ChangedWithin(head, foot, head', foot', top, top + topsize + TOP_FOOT_SIZE - 1)
    ensures top in head' && head'[top].pinuse && top in Retired(top, topsize) && !Retired(top, topsize)[top].kind.Fence?
    ensures FeetAligned(foot) ==> FeetAligned(foot')
    ensures forall p :: p in Retired(top, topsize) ==> ClearBlock(head', foot', p, Retired(top, topsize)[p])
  {
    hide FeetAligned, NoHeads, NoFeet;
  }

  lemma RetiredTagged(c: Blocks, head: map<int, Head>, foot: map<int, nat>, top: int, topsize: nat,
                      head': map<int, Head>, foot': map<int, nat>)
    requires RetiredWords(head, foot, head', foot', top, topsize) && topsize % 16 == 0 && topsize > 0
    ensures var ins := Retired(top, topsize);
            forall p :: p in ins ==> TaggedAt(Recut(c, top, top + topsize + TOP_FOOT_SIZE, ins), head', foot', p)
  {
    var ins := Retired(top, topsize);
    var csp := RecordAt(top, topsize);
    var c' := Recut(c, top, top + topsize + TOP_FOOT_SIZE, ins);
    assert forall p :: p in ins <==> p == top || p == csp || p == csp + RECORD_SIZE;
    assert c'[csp] == Block(RECORD_SIZE, Used) && c'[csp + RECORD_SIZE].kind.Fence?;
    assert csp != top ==> c'[top] == Block(topsize, Free);
  }

  lemma RetiredHeap(c: Blocks, head: map<int, Head>, foot: map<int, nat>, segs: seq<Segment>, mapped: map<int, Mapping>,
                    top: int, topsize: nat, head': map<int, Head>, foot': map<int, nat>)
    requires HeapOk(c, head, foot, segs, mapped) && top in c && c[top] == Block(topsize + TOP_FOOT_SIZE, Top) && topsize > 0
    requires RetiredWords(head, foot, head', foot', top, topsize)
    ensures HeapOk(c + Retired(top, topsize), head', foot', segs, mapped)
  {
    hide Retired, RetiredWords, Cuts, ChangedWithin, Recut;
    var ins, end := Retired(top, topsize), top + topsize + TOP_FOOT_SIZE;
    assert BlockOk(c, top) && TaggedAt(c, head, foot, top);
    var s := LastBlock(c, segs, top);
    RetiredCuts(c, top, topsize);
    RetiredWithin(head, foot, head', foot', top, topsize);
    RetiredInSeg(s, top, topsize);
    RetiredTagged(c, head, foot, top, topsize, head', foot');
    RecutHeap(c, head, foot, segs, mapped, top, end, ins, head', foot', s, true);
    RecutSingle(c, top, ins);
  }

  // ---------------------------------------------------------------- the books

  lemma RetiredIndex(c: Blocks, bins: BinState, view: BinView, dv: int, dvsize: nat, top: int, topsize: nat, a: int, n: nat)
    requires IndexOk(c, bins, view, dv, dvsize, {}) && Tiled(c)
    requires top in c && c[top] == Block(topsize + TOP_FOOT_SIZE, Top) && topsize > 0 && topsize % 16 == 0
    requires a !in c && !(top <= a < top + topsize + TOP_FOOT_SIZE)
    ensures var c' := (c + Retired(top, topsize))[a := Block(n, Top)];
            IndexOk(c', bins, view, dv, dvsize, if RecordAt(top, topsize) == top then {} else {top})
  {
    hide BinsOk, Tiled;
    var ins := Retired(top, topsize);
    var csp := RecordAt(top, topsize);
    assert forall p :: p in ins <==> p == top || p == csp || p == csp + RECORD_SIZE;
    OnlyItself(c, top);
  }

  lemma RetiredRecords(c: Blocks, records: set<int>, top: int, topsize: nat, a: int, n: nat)
    requires RecordsOk(c, records) && Tiled(c)
    requires top in c && c[top] == Block(topsize + TOP_FOOT_SIZE, Top) && topsize > 0 && topsize % 16 == 0
    requires a !in c && !(top <= a < top + topsize + TOP_FOOT_SIZE)
    ensures RecordsOk((c + Retired(top, topsize))[a := Block(n, Top)], records + {RecordAt(top, topsize)})
  {
    var ins := Retired(top, topsize);
    var csp := RecordAt(top, topsize);
    var c' := (c + ins)[a := Block(n, Top)];
    assert forall p :: p in ins <==> p == top || p == csp || p == csp + RECORD_SIZE;
    OnlyItself(c, top);
    forall p
      ensures p in records + {csp} <==> BeforeFence(c', p)
    {
      if p != csp && BeforeFence(c', p) {
        assert BlockOk(c, p) && Apart(c, p, top);
        assert BeforeFence(c, p);
      }
      if p in records {
        assert BeforeFence(c, p) && BlockOk(c, p);
      }
    }
  }

  lemma RetiredBooks(c: Blocks, k: Books, a: int, n: nat)
    requires BooksOk(c, k, {}) && Tiled(c) && k.topsize > 0 && k.topsize % 16 == 0 && n > TOP_FOOT_SIZE && a > 0
    requires a !in c && !(k.top <= a < k.top + k.topsize + TOP_FOOT_SIZE)
    ensures BooksOk((c + Retired(k.top, k.topsize))[a := Block(n, Top)],
                    k.(top := a, topsize := n - TOP_FOOT_SIZE, segs := [Segment(a, n)] + k.segs,
                       records := k.records + {RecordAt(k.top, k.topsize)}),
                    if RecordAt(k.top, k.topsize) == k.top then {} else {k.top})
  {
    RetiredIndex(c, k.bins, k.view, k.dv, k.dvsize, k.top, k.topsize, a, n);
    RetiredRecords(c, k.records, k.top, k.topsize, a, n);
  }

  // ---------------------------------------------------------------- writing the words

  /** The fenceposts from `p` to the end of the segment. */
  method Fences(head: map<int, Head>, p: int, end: int) returns (head': map<int, Head>, nfences: nat)
    requires p + 16 <= end && (end - p) % 8 == 0
    ensures forall q :: q in head' && !(p <= q < end) ==> q in head
    ensures nfences == (end - p) / 8 - 1
    ensures forall k :: 0 <= k < nfences ==> p + 8 * k in head' && head'[p + 8 * k] == FENCEPOST
    ensures forall q :: q in head && !(p <= q < end) ==> q in head' && head'[q] == head[q]
  {
    head', nfences := head, 0;
    var t := p;
    while true
      invariant t == p + 8 * nfences && t + 16 <= end && (end - t) % 8 == 0
      invariant forall k :: 0 <= k < nfences ==> p + 8 * k in head' && head'[p + 8 * k] == FENCEPOST
      invariant forall q :: q in head && !(p <= q < end) ==> q in head' && head'[q] == head[q]
      invariant forall q :: q in head' && !(p <= q < end) ==> q in head
      decreases end - t
    {
      var nextp := t + 8;
      head' := head'[t := FENCEPOST];
      nfences := nfences + 1;
      if nextp + 8 < end {
        t := nextp;
      } else {
        break;
      }
    }
  }

  /** The record and the fenceposts are written, nothing else. */
  ghost predicate RecordWords(head: map<int, Head>, foot: map<int, nat>, head': map<int, Head>, foot': map<int, nat>, csp: int, end: int) {
    && (forall q :: !(csp <= q < end) ==> (q in head <==> q in head') && (q in head ==> head'[q] == head[q]))
    && (forall q :: !(csp < q <= csp + RECORD_SIZE) ==> (q in foot <==> q in foot') && (q in foot ==> foot'[q] == foot[q]))
    && NoHeads(head', csp, csp + RECORD_SIZE) && NoFeet(foot', csp, csp + RECORD_SIZE) && (FeetAligned(foot) ==> FeetAligned(foot'))
    && csp in head' && head'[csp] == Head(RECORD_SIZE, true, true)
    && csp + RECORD_SIZE in head' && head'[csp + RECORD_SIZE] == FENCEPOST
  }

  method WriteRecord(head: map<int, Head>, foot: map<int, nat>, csp: int, end: int) returns (head': map<int, Head>, foot': map<int, nat>)
    requires csp + RECORD_SIZE + 32 <= end && (end - csp) % 8 == 0
    ensures RecordWords(head, foot, head', foot', csp, end)
  {
    head' := HandOverHeads(SetSizeAndPinuseOfInuse(head, csp, RECORD_SIZE), csp + 1, csp + RECORD_SIZE);
    foot' := HandOverFeet(foot, csp + 1, csp + RECORD_SIZE);
    var nfences;
    head', nfences := Fences(head', csp + RECORD_SIZE, end);
    assert nfences >= 2;
    assert head'[csp + RECORD_SIZE + 8 * 0] == FENCEPOST;
  }

  lemma RecordAlone(head: map<int, Head>, foot: map<int, nat>, head': map<int, Head>, foot': map<int, nat>, top: int, topsize: nat)
    requires RecordWords(head, foot, head', foot', top, top + topsize + TOP_FOOT_SIZE) && RecordAt(top, topsize) == top
    ensures RetiredWords(head, foot, head', foot', top, topsize)
  {
    hide NoHeads, NoFeet, FeetAligned;
  }

  lemma RecordBehind(head: map<int, Head>, foot: map<int, nat>, head1: map<int, Head>, foot1: map<int, nat>, top: int, topsize: nat)
    requires var csp := RecordAt(top, topsize);
             RecordWords(head, foot, head1, foot1, csp, top + topsize + TOP_FOOT_SIZE) && csp != top && csp % 8 == 0
    ensures var csp := RecordAt(top, topsize);
            RetiredWords(head, foot, SetSizeAndPinuseOfFree(ClearPinuse(head1, csp), top, topsize), SetFoot(foot1, top, topsize), top, topsize)
  {
  }

  lemma RecordSlot(top: int, topsize: nat)
    requires top % 16 == 0 && topsize % 16 == 0 && topsize > 0
    ensures var csp, end := RecordAt(top, topsize), top + topsize + TOP_FOOT_SIZE;
            && csp % 8 == 0 && (end - csp) % 8 == 0 && csp + RECORD_SIZE + 32 <= end && (csp == top || csp == top + topsize)
  {
    EightOfSixteen(top);
    EightOfSixteen(topsize);
  }

  lemma EightOfSixteen(x: int)
    requires x % 16 == 0
    ensures x % 8 == 0
  {
    var k := x / 16;
    assert x == 16 * k;
  }

  /** The record, the fenceposts and, if there is room, the free chunk before them. */
  method WriteRetired(head: map<int, Head>, foot: map<int, nat>, top: int, ghost topsize: nat, csp: int, end: int)
    returns (head': map<int, Head>, foot': map<int, nat>)
    requires top % 16 == 0 && topsize % 16 == 0 && topsize > 0 && csp == RecordAt(top, topsize) && end == top + topsize + TOP_FOOT_SIZE
    ensures RetiredWords(head, foot, head', foot', top, topsize)
  {
    hide RecordWords, RetiredWords, ClearPinuse, SetSizeAndPinuseOfFree, SetFoot, RecordAt;
    RecordSlot(top, topsize);
    head', foot' := WriteRecord(head, foot, csp, end);
    if csp != top {
      var psize := csp - top;
      RecordBehind(head, foot, head', foot', top, topsize);
      head' := SetSizeAndPinuseOfFree(ClearPinuse(head', csp), top, psize);
      foot' := SetFoot(foot', top, psize);
    } else {
      RecordAlone(head, foot, head', foot', top, topsize);
    }
  }
}
