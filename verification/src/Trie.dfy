/**
 The bitwise tries in which dlmalloc keeps its large free chunks, and their layout in memory.

 `Tree` is the abstract value of one tree bin: a node stands for one size and for the ring of all
 chunks of that size, of which only the first is linked into the tree. `Repr` says that the link
 fields of the chunks in memory spell out a given tree.
 */
module Trie {
  import opened Rings
  import opened BinMaps
  import opened Chunks

  datatype Tree = Nil | Node(ring: seq<int>, size: nat, left: Tree, right: Tree)

  /** All chunks held in the tree, chained ones included. */
  ghost function Members(t: Tree): set<int> {
    if t.Nil? then {} else (set x | x in t.ring) + Members(t.left) + Members(t.right)
  }

  ghost function Sizes(t: Tree): set<nat> {
    if t.Nil? then {} else {t.size} + Sizes(t.left) + Sizes(t.right)
  }

  /** The chunk that a pointer to the tree points to; 0 is the null pointer. */
  function Root(t: Tree): int {
    if t.Nil? || t.ring == [] then 0 else t.ring[0]
  }

  // ---------------------------------------------------------------- order

  /** Sizes lie in `[lo, lo + 2^w)`, halved at each level, and no size occurs twice. */
  ghost predicate TrieOk(t: Tree, lo: nat, w: nat)
    decreases t
  {
    match t
    case Nil => true
    case Node(_, size, left, right) =>
      && lo <= size < lo + Pow2(w)
      && size !in Sizes(left) && size !in Sizes(right)
      && if w == 0 then left.Nil? && right.Nil?
         else TrieOk(left, lo, w - 1) && TrieOk(right, lo + Pow2(w - 1), w - 1)
  }

  lemma {:induction false} SizesInRange(t: Tree, lo: nat, w: nat)
    requires TrieOk(t, lo, w)
    ensures forall s :: s in Sizes(t) ==> lo <= s < lo + Pow2(w)
    decreases t
  {
    if t.Node? && w > 0 {
      SizesInRange(t.left, lo, w - 1);
      SizesInRange(t.right, lo + Pow2(w - 1), w - 1);
    }
  }

  // ---------------------------------------------------------------- memory layout

  /** The link fields of all chunks in memory. */
  datatype Links = Links(
    fd: map<int, int>, bk: map<int, int>,
    left: map<int, int>, right: map<int, int>, parent: map<int, int>, index: map<int, int>)

  /** A chunk on a same-size ring that is not linked into the tree itself. */
  ghost predicate Chained(L: Links, x: int) {
    && x in L.left && L.left[x] == 0
    && x in L.right && L.right[x] == 0
    && x in L.parent && L.parent[x] == 0
  }

  /** The fields of one tree node: its ring, its bin index, its parent and its two children. */
  ghost predicate NodeAt(L: Links, ring: seq<int>, i: int, parent: int, left: int, right: int) {
    match L
    case Links(fd, bk, lefts, rights, parents, index) =>
      && |ring| > 0
      && Ring(fd, bk, ring)
      && (forall x :: x in ring ==> x > 0 && x in index && index[x] == i)
      && (forall k :: 0 < k < |ring| ==> Chained(L, ring[k]))
      && ring[0] in lefts && lefts[ring[0]] == left
      && ring[0] in rights && rights[ring[0]] == right
      && ring[0] in parents && parents[ring[0]] == parent
  }

  ghost predicate Disjoint(ring: seq<int>, s: set<int>) {
    forall x :: x in ring ==> x !in s
  }

  /** Memory holds tree `t` of bin `i`, hanging below `parent`. */
  ghost predicate Repr(L: Links, t: Tree, parent: int, i: int) {
    match t
    case Nil => true
    case Node(ring, _, left, right) =>
      && NodeAt(L, ring, i, parent, Root(left), Root(right))
      && Disjoint(ring, Members(left)) && Disjoint(ring, Members(right))
      && Members(left) !! Members(right)
      && Repr(L, left, ring[0], i)
      && Repr(L, right, ring[0], i)
  }

  /** All chunks of the tree have addresses that the system gave. */
  ghost predicate Addressable(t: Tree, least: int) { forall x :: x in Members(t) ==> OkAddress(least, x) }

  /** Only the empty tree is represented by a null pointer. */
  lemma NullIsNil(L: Links, t: Tree, parent: int, i: int)
    requires Repr(L, t, parent, i)
    ensures t.Node? ==> Root(t) > 0 && Root(t) in t.ring
    ensures Root(t) == 0 <==> t == Nil
  {
    if t.Node? {
      assert t.ring[0] in t.ring;
    }
  }

  /** The two memories agree on all link fields of chunk `x`. */
  ghost predicate SameAt(L: Links, L': Links, x: int) {
    && (x in L.fd <==> x in L'.fd) && (x in L.fd ==> L'.fd[x] == L.fd[x])
    && (x in L.bk <==> x in L'.bk) && (x in L.bk ==> L'.bk[x] == L.bk[x])
    && (x in L.left <==> x in L'.left) && (x in L.left ==> L'.left[x] == L.left[x])
    && (x in L.right <==> x in L'.right) && (x in L.right ==> L'.right[x] == L.right[x])
    && (x in L.parent <==> x in L'.parent) && (x in L.parent ==> L'.parent[x] == L.parent[x])
    && (x in L.index <==> x in L'.index) && (x in L.index ==> L'.index[x] == L.index[x])
  }

  lemma SameAtTrans(L: Links, L1: Links, L2: Links, y: int)
    requires SameAt(L, L1, y) && SameAt(L1, L2, y)
    ensures SameAt(L, L2, y)
  {
  }

  ghost predicate SameLinks(L: Links, L': Links, s: set<int>) {
    forall x :: x in s ==> SameAt(L, L', x)
  }

  lemma NodeFrame(L: Links, L': Links, ring: seq<int>, i: int, parent: int, left: int, right: int)
    requires NodeAt(L, ring, i, parent, left, right)
    requires SameLinks(L, L', set x | x in ring)
    ensures NodeAt(L', ring, i, parent, left, right)
  {
    assert forall x :: x in ring ==> SameAt(L, L', x);
    assert forall k :: 0 <= k < |ring| ==> ring[k] in ring;
    RingFrame(L.fd, L.bk, L'.fd, L'.bk, ring);
  }

  /** A tree is not affected by changes to chunks outside it. */
  lemma {:induction false} ReprFrame(L: Links, L': Links, t: Tree, parent: int, i: int)
    requires Repr(L, t, parent, i)
    requires SameLinks(L, L', Members(t))
    ensures Repr(L', t, parent, i)
    decreases t
  {
    if t.Node? {
      NodeFrame(L, L', t.ring, i, parent, Root(t.left), Root(t.right));
      ReprFrame(L, L', t.left, t.ring[0], i);
      ReprFrame(L, L', t.right, t.ring[0], i);
    }
  }

  // ---------------------------------------------------------------- a tree with a hole

  /** The path from the root to a subtree, with everything that hangs off it. */
  datatype Ctx = Hole | Step(up: Ctx, ring: seq<int>, size: nat, goRight: bool, other: Tree)

  /** The node at which the last step was taken, with `t` on the side that was taken. */
  ghost function Under(c: Ctx, t: Tree): Tree
    requires c.Step?
  {
    if c.goRight then Node(c.ring, c.size, c.other, t) else Node(c.ring, c.size, t, c.other)
  }

  ghost function Plug(c: Ctx, t: Tree): Tree {
    if c.Hole? then t else Plug(c.up, Under(c, t))
  }

  ghost function CtxMembers(c: Ctx): set<int> {
    if c.Hole? then {} else (set x | x in c.ring) + Members(c.other) + CtxMembers(c.up)
  }

  ghost function CtxSizes(c: Ctx): set<nat> {
    if c.Hole? then {} else {c.size} + Sizes(c.other) + CtxSizes(c.up)
  }

  lemma {:induction false} PlugMembers(c: Ctx, t: Tree)
    ensures Members(Plug(c, t)) == CtxMembers(c) + Members(t)
    ensures Sizes(Plug(c, t)) == CtxSizes(c) + Sizes(t)
    decreases c
  {
    if c.Step? {
      PlugMembers(c.up, Under(c, t));
    }
  }

  /** The parent pointer of whatever fills the hole. */
  ghost function CtxParent(c: Ctx, parent: int): int {
    if c.Hole? || c.ring == [] then parent else c.ring[0]
  }

  /** Memory holds the context, with the hole filled by a pointer `q`. */
  ghost predicate CtxRepr(L: Links, c: Ctx, q: int, parent: int, i: int) {
    match c
    case Hole => true
    case Step(up, ring, _, goRight, other) =>
      && NodeAt(L, ring, i, CtxParent(up, parent),
                if goRight then Root(other) else q, if goRight then q else Root(other))
      && Disjoint(ring, Members(other)) && Disjoint(ring, CtxMembers(up))
      && Members(other) !! CtxMembers(up)
      && Repr(L, other, ring[0], i)
      && CtxRepr(L, up, ring[0], parent, i)
  }

  /** Taking a tree apart at a path, and putting it together again. */
  lemma {:induction false} SplitRepr(L: Links, c: Ctx, t: Tree, parent: int, i: int)
    requires Repr(L, Plug(c, t), parent, i)
    ensures CtxRepr(L, c, Root(t), parent, i)
    ensures Repr(L, t, CtxParent(c, parent), i)
    ensures CtxMembers(c) !! Members(t)
    decreases c
  {
    if c.Step? {
      SplitRepr(L, c.up, Under(c, t), parent, i);
    }
  }

  lemma {:induction false} JoinRepr(L: Links, c: Ctx, t: Tree, parent: int, i: int)
    requires CtxRepr(L, c, Root(t), parent, i)
    requires Repr(L, t, CtxParent(c, parent), i)
    requires CtxMembers(c) !! Members(t)
    ensures Repr(L, Plug(c, t), parent, i)
    decreases c
  {
    if c.Step? {
      JoinRepr(L, c.up, Under(c, t), parent, i);
    }
  }

  lemma {:induction false} CtxFrame(L: Links, L': Links, c: Ctx, q: int, parent: int, i: int)
    requires CtxRepr(L, c, q, parent, i)
    requires SameLinks(L, L', CtxMembers(c))
    ensures CtxRepr(L', c, q, parent, i)
    decreases c
  {
    if c.Step? {
      NodeFrame(L, L', c.ring, i, CtxParent(c.up, parent),
                if c.goRight then Root(c.other) else q, if c.goRight then q else Root(c.other));
      ReprFrame(L, L', c.other, c.ring[0], i);
      CtxFrame(L, L', c.up, c.ring[0], parent, i);
    }
  }

  /** `*slot = q`, where the slot is the child field that leads to the hole. */
  function SetChild(L: Links, p: int, goRight: bool, q: int): Links {
    if goRight then L.(right := L.right[p := q]) else L.(left := L.left[p := q])
  }

  ghost function SetSlot(L: Links, c: Ctx, q: int): Links {
    if c.Hole? || c.ring == [] then L else SetChild(L, c.ring[0], c.goRight, q)
  }

  /** Writing the slot refills the hole. */
  lemma RefillHole(L: Links, c: Ctx, q: int, q': int, parent: int, i: int)
    requires CtxRepr(L, c, q, parent, i)
    ensures CtxRepr(SetSlot(L, c, q'), c, q', parent, i)
  {
    hide SameAt, NodeAt, SetSlot;
    if c.Step? {
      FirstOfRing(L, c, q, parent, i);
    }
    var L' := SetSlot(L, c, q');
    if c.Step? {
      SlotElsewhere(L, c, q');
      ReprFrame(L, L', c.other, c.ring[0], i);
      CtxFrame(L, L', c.up, c.ring[0], parent, i);
      SlotNode(L, c, q, q', parent, i);
    }
  }

  lemma FirstOfRing(L: Links, c: Ctx, q: int, parent: int, i: int)
    requires CtxRepr(L, c, q, parent, i) && c.Step?
    ensures c.ring != [] && c.ring[0] in c.ring && c.ring[0] !in Members(c.other) && c.ring[0] !in CtxMembers(c.up)
  {
  }

  lemma SlotElsewhere(L: Links, c: Ctx, q': int)
    requires c.Step? && c.ring != []
    ensures forall y :: y != c.ring[0] ==> SameAt(L, SetSlot(L, c, q'), y)
  {
  }

  lemma SlotNode(L: Links, c: Ctx, q: int, q': int, parent: int, i: int)
    requires CtxRepr(L, c, q, parent, i) && c.Step?
    ensures NodeAt(SetSlot(L, c, q'), c.ring, i, CtxParent(c.up, parent),
                   if c.goRight then Root(c.other) else q', if c.goRight then q' else Root(c.other))
  {
  }

  // ---------------------------------------------------------------- order below a hole

  ghost function Depth(c: Ctx): nat {
    if c.Hole? then 0 else 1 + Depth(c.up)
  }

  /** The least size that may fill the hole. */
  ghost function HoleLow(c: Ctx, lo: nat, w: nat): nat
    requires Depth(c) <= w
    decreases c
  {
    if c.Hole? then lo
    else HoleLow(c.up, lo, w) + if c.goRight then Pow2(w - Depth(c)) else 0
  }

  lemma {:induction false} TrieSplit(c: Ctx, t: Tree, lo: nat, w: nat)
    requires TrieOk(Plug(c, t), lo, w) && Depth(c) <= w
    ensures TrieOk(t, HoleLow(c, lo, w), w - Depth(c))
    decreases c
  {
    if c.Step? {
      TrieSplit(c.up, Under(c, t), lo, w);
    }
  }

  lemma ExchangeChild(c: Ctx, t: Tree, t': Tree, lo: nat, w: nat)
    requires c.Step? && w > 0 && TrieOk(Under(c, t), lo, w)
    requires TrieOk(t', if c.goRight then lo + Pow2(w - 1) else lo, w - 1)
    requires c.size !in Sizes(t')
    ensures TrieOk(Under(c, t'), lo, w)
  {
  }

  /** A subtree may be exchanged for one that obeys the same bounds and brings no size that is already there. */
  lemma {:induction false} TrieExchange(c: Ctx, t: Tree, t': Tree, news: set<nat>, lo: nat, w: nat)
    requires TrieOk(Plug(c, t), lo, w) && Depth(c) <= w
    requires TrieOk(t', HoleLow(c, lo, w), w - Depth(c))
    requires Sizes(t') <= Sizes(t) + news && news !! CtxSizes(c)
    ensures TrieOk(Plug(c, t'), lo, w)
    decreases c
  {
    hide TrieOk;
    if c.Step? {
      TrieSplit(c.up, Under(c, t), lo, w);
      ExchangeChild(c, t, t', HoleLow(c.up, lo, w), w - Depth(c.up));
      TrieExchange(c.up, Under(c, t), Under(c, t'), news, lo, w);
    }
  }

  // ---------------------------------------------------------------- sizes of the chunks

  /** Every chunk of the tree has the size of its node. */
  ghost predicate Sized(t: Tree, size: map<int, nat>) {
    match t
    case Nil => true
    case Node(ring, s, left, right) =>
      && (forall x :: x in ring ==> x in size && size[x] == s)
      && Sized(left, size) && Sized(right, size)
  }

  lemma {:induction false} SizedFrame(t: Tree, size: map<int, nat>, size': map<int, nat>)
    requires Sized(t, size)
    requires forall x :: x in Members(t) && x in size ==> x in size' && size'[x] == size[x]
    ensures Sized(t, size')
  {
    if t.Node? {
      SizedFrame(t.left, size, size');
      SizedFrame(t.right, size, size');
    }
  }

  lemma {:induction false} SizedMember(t: Tree, size: map<int, nat>, x: int)
    requires Sized(t, size) && x in Members(t)
    ensures x in size && size[x] in Sizes(t)
  {
    if x !in t.ring {
      if x in Members(t.left) { SizedMember(t.left, size, x); } else { SizedMember(t.right, size, x); }
    }
  }

  lemma {:induction false} SizedPlug(c: Ctx, t: Tree, t': Tree, size: map<int, nat>)
    requires Sized(Plug(c, t), size)
    ensures Sized(t, size)
    ensures Sized(t', size) ==> Sized(Plug(c, t'), size)
    decreases c
  {
    if c.Step? {
      SizedPlug(c.up, Under(c, t), Under(c, t'), size);
    }
  }

  // ---------------------------------------------------------------- finding a chunk

  /** The path to the node whose ring holds `x`, and the subtree there. */
  ghost function Locate(c: Ctx, t: Tree, x: int): (r: (Ctx, Tree))
    requires x in Members(t)
    ensures Plug(r.0, r.1) == Plug(c, t)
    ensures r.1.Node? && x in r.1.ring
    decreases t
  {
    if x in t.ring then (c, t)
    else if x in Members(t.left) then Locate(Step(c, t.ring, t.size, false, t.right), t.left, x)
    else Locate(Step(c, t.ring, t.size, true, t.left), t.right, x)
  }

  /** A node sits no deeper than there are bits to tell sizes apart. */
  lemma {:induction false} NodeDepth(c: Ctx, t: Tree, lo: nat, w: nat)
    requires TrieOk(Plug(c, t), lo, w) && t.Node?
    ensures Depth(c) <= w
    decreases c
  {
    if c.Step? {
      NodeDepth(c.up, Under(c, t), lo, w);
      TrieSplit(c.up, Under(c, t), lo, w);
    }
  }
}
