/**
 `unlink_large_chunk`: taking a chunk out of the tree of its bin.
 */
module TrieUnlink {
  import opened Rings
  import opened BinMaps
  import opened TreeIndex
  import opened Chunks
  import opened Trie
  import opened TrieInsert

  // ---------------------------------------------------------------- a node takes the place of another

  lemma Reparent(L: Links, t: Tree, p: int, q: int, i: int)
    requires Repr(L, t, p, i) && t.Node?
    ensures Repr(L.(parent := L.parent[Root(t) := q]), t, q, i)
  {
    var L' := L.(parent := L.parent[Root(t) := q]);
    RingFrame(L.fd, L.bk, L'.fd, L'.bk, t.ring);
    assert forall k :: 0 < k < |t.ring| ==> t.ring[k] != t.ring[0];
    assert t.ring[0] in t.ring;
    ReprFrame(L, L', t.left, t.ring[0], i);
    ReprFrame(L, L', t.right, t.ring[0], i);
  }

  /** `R->child[0] = C0; C0->parent = R`, if there is a left child. */
  function AdoptLeft(L: Links, r: int, c0: int): Links {
    if c0 == 0 then L else L.(left := L.left[r := c0], parent := L.parent[c0 := r])
  }

  function AdoptRight(L: Links, r: int, c1: int): Links {
    if c1 == 0 then L else L.(right := L.right[r := c1], parent := L.parent[c1 := r])
  }

  /** `R->parent = XP` and both children move over to `R`. */
  function Adopt(L: Links, r: int, xp: int, c0: int, c1: int): Links {
    AdoptRight(AdoptLeft(L.(parent := L.parent[r := xp]), r, c0), r, c1)
  }

  lemma AdoptSubtree(L: Links, L': Links, t: Tree, x: int, r: int, i: int)
    requires Repr(L, t, x, i)
    requires L'.fd == L.fd && L'.bk == L.bk && L'.index == L.index
    requires forall y :: y in Members(t) ==> (y in L.left <==> y in L'.left) && (y in L.left ==> L'.left[y] == L.left[y])
    requires forall y :: y in Members(t) ==> (y in L.right <==> y in L'.right) && (y in L.right ==> L'.right[y] == L.right[y])
    requires forall y :: y in Members(t) && y != Root(t) ==> (y in L.parent <==> y in L'.parent) && (y in L.parent ==> L'.parent[y] == L.parent[y])
    requires t.Node? ==> Root(t) in L'.parent && L'.parent[Root(t)] == r
    ensures Repr(L', t, r, i)
  {
    hide Members, Root;
    if t.Node? {
      Reparent(L, t, x, r, i);
      ReprFrame(L.(parent := L.parent[Root(t) := r]), L', t, r, i);
    }
  }

  /** A node without children (a leaf, or a chained chunk put first on its ring) becomes the parent of two subtrees. */
  lemma AdoptNode(L: Links, ring: seq<int>, s: nat, left: Tree, right: Tree, x: int, xp: int, i: int)
    requires exists p :: NodeAt(L, ring, i, p, 0, 0)
    requires Repr(L, left, x, i) && Repr(L, right, x, i)
    requires Disjoint(ring, Members(left)) && Disjoint(ring, Members(right)) && Members(left) !! Members(right)
    ensures Repr(Adopt(L, ring[0], xp, Root(left), Root(right)), Node(ring, s, left, right), xp, i)
  {
    var r := ring[0];
    var p :| NodeAt(L, ring, i, p, 0, 0);
    var L' := Adopt(L, r, xp, Root(left), Root(right));
    NullIsNil(L, left, x, i);
    NullIsNil(L, right, x, i);
    RootMember(left);
    RootMember(right);
    assert r in ring;
    AdoptSubtree(L, L', left, x, r, i);
    AdoptSubtree(L, L', right, x, r, i);
    AdoptedNodeAt(L, ring, i, p, xp, Root(left), Root(right));
  }

  lemma RootMember(t: Tree)
    ensures Root(t) != 0 ==> Root(t) in Members(t)
  {
  }

  lemma AdoptedNodeAt(L: Links, ring: seq<int>, i: int, p: int, xp: int, c0: int, c1: int)
    requires NodeAt(L, ring, i, p, 0, 0)
    requires c0 !in ring && c1 !in ring
    ensures NodeAt(Adopt(L, ring[0], xp, c0, c1), ring, i, xp, c0, c1)
  {
    var L' := Adopt(L, ring[0], xp, c0, c1);
    assert forall k :: 0 <= k < |ring| ==> ring[k] in ring;
    forall k | 0 < k < |ring|
      ensures Chained(L', ring[k])
    {
      assert Chained(L, ring[k]) && ring[k] != ring[0];
    }
  }

  lemma AdoptOthers(L: Links, r: int, xp: int, c0: int, c1: int, y: int)
    requires y != r && (y != c0 || c0 == 0) && (y != c1 || c1 == 0)
    ensures SameAt(L, Adopt(L, r, xp, c0, c1), y)
  {
  }

  // ---------------------------------------------------------------- leaving a ring

  /** `F->bk = R; R->fd = F` around chunk `x`. */
  function CutLinks(L: Links, x: int): Links
    requires x in L.fd && x in L.bk
  {
    L.(fd := CutFd(L.fd, L.bk, x), bk := CutBk(L.fd, L.bk, x))
  }

  lemma CutOthers(L: Links, ring: seq<int>, k: nat, y: int)
    requires Ring(L.fd, L.bk, ring) && k < |ring| && y !in ring
    ensures SameAt(L, CutLinks(L, ring[k]), y)
  {
    assert LinkedAt(L.fd, L.bk, ring, k);
  }

  /** A chained chunk leaves; the tree node stays. */
  lemma CutChained(L: Links, ring: seq<int>, k: nat, i: int, p: int, left: int, right: int)
    requires NodeAt(L, ring, i, p, left, right) && 0 < k < |ring|
    ensures NodeAt(CutLinks(L, ring[k]), Without(ring, k), i, p, left, right)
  {
    var L' := CutLinks(L, ring[k]);
    var r' := Without(ring, k);
    RemoveAt(L.fd, L.bk, ring, k);
    assert forall j :: 0 <= j < |r'| ==> r'[j] == ring[if j < k then j else j + 1];
    assert forall y :: y in r' ==> y in ring;
    forall j | 0 < j < |r'|
      ensures Chained(L', r'[j])
    {
      assert Chained(L, ring[if j < k then j else j + 1]);
    }
  }

  /** The ring without its first chunk, read from the last one on. */
  function LastFirst(ring: seq<int>): seq<int>
    requires |ring| > 1
  {
    [ring[|ring| - 1]] + ring[1..|ring| - 1]
  }

  /** The tree node leaves a ring of several: the chunk before it on the ring can become the tree node. */
  lemma CutFirst(L: Links, ring: seq<int>, i: int, p: int, left: int, right: int)
    requires NodeAt(L, ring, i, p, left, right) && |ring| > 1
    ensures ring[0] in L.bk && L.bk[ring[0]] == LastFirst(ring)[0]
    ensures NodeAt(CutLinks(L, ring[0]), LastFirst(ring), i, 0, 0, 0)
  {
    var n := |ring|;
    var L' := CutLinks(L, ring[0]);
    var r' := LastFirst(ring);
    assert LinkedAt(L.fd, L.bk, ring, 0);
    RemoveAt(L.fd, L.bk, ring, 0);
    RotateRing(L'.fd, L'.bk, Without(ring, 0), n - 2);
    assert r' == Rotate(Without(ring, 0), n - 2);
    assert forall y :: y in r' ==> y in ring;
    assert Chained(L, ring[n - 1]);
    forall j | 0 < j < |r'|
      ensures Chained(L', r'[j])
    {
      assert Chained(L, ring[j]);
    }
  }

  lemma LastFirstMembers(ring: seq<int>)
    requires |ring| > 1 && Distinct(ring)
    ensures forall y :: y in LastFirst(ring) <==> y in ring && y != ring[0]
  {
    var n := |ring|;
    forall y | y in ring && y != ring[0]
      ensures y in LastFirst(ring)
    {
      var k :| 0 <= k < n && ring[k] == y;
      if k < n - 1 {
        assert LastFirst(ring)[k] == y;
      } else {
        assert LastFirst(ring)[0] == y;
      }
    }
    assert forall j :: 0 <= j < n - 1 ==> LastFirst(ring)[j] == ring[if j == 0 then n - 1 else j];
  }

  lemma WithoutMembers(ring: seq<int>, k: nat)
    requires k < |ring| && Distinct(ring)
    ensures forall y :: y in Without(ring, k) <==> y in ring && y != ring[k]
  {
    var r' := Without(ring, k);
    forall y | y in ring && y != ring[k]
      ensures y in r'
    {
      var j :| 0 <= j < |ring| && ring[j] == y;
      assert r'[if j < k then j else j - 1] == y;
    }
    assert forall j :: 0 <= j < |r'| ==> r'[j] == ring[if j < k then j else j + 1];
  }

  // ---------------------------------------------------------------- leaving the tree

  /** No size under a hole occurs on the path to it or off that path. */
  lemma {:induction false} TrieUnique(c: Ctx, t: Tree, lo: nat, w: nat)
    requires TrieOk(Plug(c, t), lo, w) && Depth(c) <= w
    ensures Sizes(t) !! CtxSizes(c)
    decreases c
  {
    if c.Step? {
      var u := Under(c, t);
      TrieUnique(c.up, u, lo, w);
      TrieSplit(c.up, u, lo, w);
      UniqueUnder(c, t, HoleLow(c.up, lo, w), w - Depth(c.up));
    }
  }

  lemma UniqueUnder(c: Ctx, t: Tree, lo: nat, w: nat)
    requires c.Step? && w > 0 && TrieOk(Under(c, t), lo, w)
    ensures c.size !in Sizes(t) && Sizes(t) !! Sizes(c.other)
  {
    var u := Under(c, t);
    SizesInRange(u.left, lo, w - 1);
    SizesInRange(u.right, lo + Pow2(w - 1), w - 1);
  }

  /** Taking a leaf away from below a hole. */
  lemma LeafLeaves(c: Ctx, leaf: Tree, lo: nat, w: nat)
    requires TrieOk(Plug(c, leaf), lo, w) && leaf.Node? && leaf.left.Nil? && leaf.right.Nil? && Depth(c) <= w
    ensures TrieOk(Plug(c, Nil), lo, w)
    ensures leaf.size !in Sizes(Plug(c, Nil)) && leaf.size in Sizes(Plug(c, leaf))
    ensures Sizes(Plug(c, Nil)) <= Sizes(Plug(c, leaf))
  {
    TrieUnique(c, leaf, lo, w);
    TrieExchange(c, leaf, Nil, {}, lo, w);
    PlugMembers(c, leaf);
    PlugMembers(c, Nil);
  }

  // ---------------------------------------------------------------- filling the place of the chunk

  lemma SlotOthers(L: Links, c: Ctx, q: int, y: int)
    requires y !in CtxMembers(c)
    ensures SameAt(L, SetSlot(L, c, q), y)
  {
    assert c.Step? && c.ring != [] ==> c.ring[0] in CtxMembers(c);
  }

  /** The slot that led to `x` now leads to `r`, and `r` adopts the children of `x`. */
  ghost function TakeOverLinks(L: Links, c: Ctx, r: int, parent: int, c0: int, c1: int): Links {
    Adopt(SetSlot(L, c, r), r, CtxParent(c, parent), c0, c1)
  }

  lemma TakeOverOthers(L: Links, c: Ctx, r: int, parent: int, c0: int, c1: int, y: int)
    requires y !in CtxMembers(c) && y != r && (y != c0 || c0 == 0) && (y != c1 || c1 == 0)
    ensures SameAt(L, TakeOverLinks(L, c, r, parent, c0, c1), y)
  {
    SlotOthers(L, c, r, y);
    AdoptOthers(SetSlot(L, c, r), r, CtxParent(c, parent), c0, c1, y);
  }

  /** What the node that takes over must look like beforehand. */
  ghost predicate CanTakeOver(L: Links, c: Ctx, ring: seq<int>, left: Tree, right: Tree, x: int, i: int) {
    && NodeAt(L, ring, i, if |ring| > 0 && ring[0] in L.parent then L.parent[ring[0]] else 0, 0, 0)
    && Repr(L, left, x, i) && Repr(L, right, x, i)
    && Disjoint(ring, Members(left)) && Disjoint(ring, Members(right)) && Members(left) !! Members(right)
    && Disjoint(ring, CtxMembers(c)) && Members(left) !! CtxMembers(c) && Members(right) !! CtxMembers(c)
  }

  lemma SlotKeeps(L: Links, c: Ctx, q: int, ring: seq<int>, left: Tree, right: Tree, x: int, i: int)
    requires CanTakeOver(L, c, ring, left, right, x, i)
    ensures CanTakeOver(SetSlot(L, c, q), c, ring, left, right, x, i)
  {
    var L' := SetSlot(L, c, q);
    forall y | y !in CtxMembers(c)
      ensures SameAt(L, L', y)
    {
      SlotOthers(L, c, q, y);
    }
    NodeFrame(L, L', ring, i, L.parent[ring[0]], 0, 0);
    ReprFrame(L, L', left, x, i);
    ReprFrame(L, L', right, x, i);
  }

  lemma TakeOver(L: Links, c: Ctx, q: int, ring: seq<int>, s: nat, left: Tree, right: Tree, x: int, parent: int, i: int)
    requires CtxRepr(L, c, q, parent, i) && CanTakeOver(L, c, ring, left, right, x, i)
    ensures Repr(TakeOverLinks(L, c, ring[0], parent, Root(left), Root(right)),
                 Plug(c, Node(ring, s, left, right)), parent, i)
  {
    hide Repr, CtxRepr, SameAt;
    var r, xp := ring[0], CtxParent(c, parent);
    var L1 := SetSlot(L, c, r);
    var L2 := TakeOverLinks(L, c, r, parent, Root(left), Root(right));
    RefillHole(L, c, q, r, parent, i);
    SlotKeeps(L, c, r, ring, left, right, x, i);
    AdoptNode(L1, ring, s, left, right, x, xp, i);
    assert r in ring;
    RootMember(left);
    RootMember(right);
    forall y | y in CtxMembers(c)
      ensures SameAt(L1, L2, y)
    {
      AdoptOthers(L1, r, xp, Root(left), Root(right), y);
    }
    CtxFrame(L1, L2, c, r, parent, i);
    JoinRepr(L2, c, Node(ring, s, left, right), parent, i);
  }

  // ---------------------------------------------------------------- the four cases

  /** The outcome of taking chunk `x` out of tree `t` of bin `i`. */
  ghost predicate Removed(L: Links, L': Links, t: Tree, t': Tree, x: int, i: nat) {
    && Repr(L', t', TreeBinAt(i), i)
    && Members(t') == Members(t) - {x}
    && forall y :: y !in Members(t) ==> SameAt(L, L', y)
  }

  /** Case 1: a chained chunk. */
  lemma NodeRing(L: Links, t: Tree, p: int, i: int)
    requires Repr(L, t, p, i) && t.Node?
    ensures Ring(L.fd, L.bk, t.ring) && Distinct(t.ring)
    ensures Disjoint(t.ring, Members(t.left)) && Disjoint(t.ring, Members(t.right))
  {
  }

  lemma RemovedChained(L: Links, t: Tree, c: Ctx, cur: Tree, k: nat, i: nat)
    requires Repr(L, t, TreeBinAt(i), i) && Plug(c, cur) == t && cur.Node? && 0 < k < |cur.ring|
    ensures cur.ring[k] in L.fd && cur.ring[k] in L.bk
    ensures Removed(L, CutLinks(L, cur.ring[k]), t, Plug(c, cur.(ring := Without(cur.ring, k))), cur.ring[k], i)
  {
    hide SameAt, CtxRepr, CutLinks, CtxMembers, CtxParent, Repr, Ring, Sizes, CtxSizes;
    var p, x := TreeBinAt(i), cur.ring[k];
    SplitRepr(L, c, cur, p, i);
    NodeRing(L, cur, CtxParent(c, p), i);
    OnRing(L, cur, x, CtxParent(c, p), i);
    var L' := CutLinks(L, x);
    var n := cur.(ring := Without(cur.ring, k));
    forall y | y !in cur.ring
      ensures SameAt(L, L', y)
    {
      CutOthers(L, cur.ring, k, y);
    }
    WithoutMembers(cur.ring, k);
    CutChainedUnder(L, c, cur, k, p, i);
    assert Members(Plug(c, n)) == Members(t) - {x} by {
      PlugMembers(c, cur);
      PlugMembers(c, n);
    }
    assert forall y :: y in cur.ring ==> y in Members(t) by { PlugMembers(c, cur); }
  }

  lemma CutChainedUnder(L: Links, c: Ctx, cur: Tree, k: nat, p: int, i: int)
    requires CtxRepr(L, c, Root(cur), p, i) && cur.Node? && Repr(L, cur, CtxParent(c, p), i)
    requires CtxMembers(c) !! Members(cur) && 0 < k < |cur.ring|
    requires forall y :: y !in cur.ring ==> SameAt(L, CutLinks(L, cur.ring[k]), y)
    requires forall y :: y in Without(cur.ring, k) <==> y in cur.ring && y != cur.ring[k]
    ensures Repr(CutLinks(L, cur.ring[k]), Plug(c, cur.(ring := Without(cur.ring, k))), p, i)
  {
    hide SameAt, CtxRepr, CtxMembers, CutLinks;
    OnRing(L, cur, cur.ring[k], CtxParent(c, p), i);
    var L' := CutLinks(L, cur.ring[k]);
    var n := cur.(ring := Without(cur.ring, k));
    CutChained(L, cur.ring, k, i, CtxParent(c, p), Root(cur.left), Root(cur.right));
    ReprFrame(L, L', cur.left, cur.ring[0], i);
    ReprFrame(L, L', cur.right, cur.ring[0], i);
    assert n.ring[0] == cur.ring[0];
    assert Repr(L', n, CtxParent(c, p), i);
    CtxFrame(L, L', c, Root(cur), p, i);
    assert Members(n) <= Members(cur);
    JoinRepr(L', c, n, p, i);
  }

  /** Case 2: the tree node of a ring of several chunks. */
  lemma RemovedHead(L: Links, t: Tree, c: Ctx, cur: Tree, i: nat)
    requires Repr(L, t, TreeBinAt(i), i) && Plug(c, cur) == t && cur.Node? && |cur.ring| > 1
    ensures cur.ring[0] in L.fd && cur.ring[0] in L.bk
    ensures Removed(L, TakeOverLinks(CutLinks(L, cur.ring[0]), c, LastFirst(cur.ring)[0], TreeBinAt(i),
                                     Root(cur.left), Root(cur.right)),
                    t, Plug(c, cur.(ring := LastFirst(cur.ring))), cur.ring[0], i)
  {
    var p, x, ring := TreeBinAt(i), cur.ring[0], LastFirst(cur.ring);
    SplitRepr(L, c, cur, p, i);
    var L1 := CutLinks(L, x);
    forall y | y !in cur.ring
      ensures SameAt(L, L1, y)
    {
      CutOthers(L, cur.ring, 0, y);
    }
    LastFirstMembers(cur.ring);
    HeadCanLeave(L, c, cur, p, i);
    TakeOver(L1, c, x, ring, cur.size, cur.left, cur.right, x, p, i);
    HeadRemoved(L, t, c, cur, i);
  }

  lemma HeadCanLeave(L: Links, c: Ctx, cur: Tree, p: int, i: int)
    requires CtxRepr(L, c, Root(cur), p, i) && cur.Node? && Repr(L, cur, CtxParent(c, p), i) && |cur.ring| > 1
    requires CtxMembers(c) !! Members(cur)
    requires forall y :: y !in cur.ring ==> SameAt(L, CutLinks(L, cur.ring[0]), y)
    requires forall y :: y in LastFirst(cur.ring) <==> y in cur.ring && y != cur.ring[0]
    ensures CtxRepr(CutLinks(L, cur.ring[0]), c, cur.ring[0], p, i)
    ensures CanTakeOver(CutLinks(L, cur.ring[0]), c, LastFirst(cur.ring), cur.left, cur.right, cur.ring[0], i)
  {
    var L1 := CutLinks(L, cur.ring[0]);
    CtxFrame(L, L1, c, cur.ring[0], p, i);
    CutFirst(L, cur.ring, i, CtxParent(c, p), Root(cur.left), Root(cur.right));
    ReprFrame(L, L1, cur.left, cur.ring[0], i);
    ReprFrame(L, L1, cur.right, cur.ring[0], i);
  }

  lemma HeadRemoved(L: Links, t: Tree, c: Ctx, cur: Tree, i: nat)
    requires Plug(c, cur) == t && cur.Node? && |cur.ring| > 1 && Ring(L.fd, L.bk, cur.ring)
    requires CtxMembers(c) !! Members(cur)
    requires Disjoint(cur.ring, Members(cur.left)) && Disjoint(cur.ring, Members(cur.right))
    ensures var n := cur.(ring := LastFirst(cur.ring));
            var L' := TakeOverLinks(CutLinks(L, cur.ring[0]), c, n.ring[0], TreeBinAt(i), Root(cur.left), Root(cur.right));
            Members(Plug(c, n)) == Members(t) - {cur.ring[0]} && forall y :: y !in Members(t) ==> SameAt(L, L', y)
  {
    hide TakeOverLinks, SameAt, CutLinks;
    LastFirstMembers(cur.ring);
    var n := cur.(ring := LastFirst(cur.ring));
    HeadMembers(t, c, cur, n);
    PlugMembers(c, cur);
    assert n.ring[0] in n.ring && cur.ring[0] in cur.ring;
    RootMember(cur.left);
    RootMember(cur.right);
    forall y | y !in Members(t)
      ensures SameAt(L, TakeOverLinks(CutLinks(L, cur.ring[0]), c, n.ring[0], TreeBinAt(i), Root(cur.left), Root(cur.right)), y)
    {
      CutOthers(L, cur.ring, 0, y);
      TakeOverOthers(CutLinks(L, cur.ring[0]), c, n.ring[0], TreeBinAt(i), Root(cur.left), Root(cur.right), y);
      SameAtTrans(L, CutLinks(L, cur.ring[0]),
                  TakeOverLinks(CutLinks(L, cur.ring[0]), c, n.ring[0], TreeBinAt(i), Root(cur.left), Root(cur.right)), y);
    }
  }

  lemma HeadMembers(t: Tree, c: Ctx, cur: Tree, n: Tree)
    requires Plug(c, cur) == t && cur.Node? && n.Node? && n == cur.(ring := n.ring) && |cur.ring| > 0
    requires CtxMembers(c) !! Members(cur)
    requires Disjoint(cur.ring, Members(cur.left)) && Disjoint(cur.ring, Members(cur.right))
    requires forall y :: y in n.ring <==> y in cur.ring && y != cur.ring[0]
    ensures Members(Plug(c, n)) == Members(t) - {cur.ring[0]}
  {
    FirstNotIn(cur.ring, Members(cur.left), cur.ring[0]);
    FirstNotIn(cur.ring, Members(cur.right), cur.ring[0]);
    forall y
      ensures y in Members(n) <==> y in Members(cur) && y != cur.ring[0]
    {
      MemberIs(n, y);
      MemberIs(cur, y);
      assert y in n.ring <==> y in cur.ring && y != cur.ring[0];
    }
    PlugMembers(c, cur);
    PlugMembers(c, n);
  }

  lemma MemberIs(t: Tree, y: int)
    requires t.Node?
    ensures y in Members(t) <==> y in t.ring || y in Members(t.left) || y in Members(t.right)
  {
  }

  lemma FirstNotIn(ring: seq<int>, s: set<int>, x: int)
    requires Disjoint(ring, s) && x in ring
    ensures x !in s
  {
  }

  /** Case 3: the last chunk of its size, at a leaf. */
  lemma RemovedLeaf(L: Links, t: Tree, c: Ctx, cur: Tree, i: nat)
    requires Repr(L, t, TreeBinAt(i), i) && Plug(c, cur) == t
    requires cur.Node? && |cur.ring| == 1 && cur.left.Nil? && cur.right.Nil?
    ensures Removed(L, SetSlot(L, c, 0), t, Plug(c, Nil), cur.ring[0], i)
  {
    var p := TreeBinAt(i);
    SplitRepr(L, c, cur, p, i);
    RefillHole(L, c, Root(cur), 0, p, i);
    JoinRepr(SetSlot(L, c, 0), c, Nil, p, i);
    LeafMembers(c, cur);
    forall y | y !in Members(t)
      ensures SameAt(L, SetSlot(L, c, 0), y)
    {
      SlotOthers(L, c, 0, y);
    }
  }

  lemma LeafMembers(c: Ctx, leaf: Tree)
    requires leaf.Node? && |leaf.ring| == 1 && leaf.left.Nil? && leaf.right.Nil?
    requires CtxMembers(c) !! Members(leaf)
    ensures Members(Plug(c, Nil)) == Members(Plug(c, leaf)) - {leaf.ring[0]} == CtxMembers(c)
  {
    PlugMembers(c, leaf);
    PlugMembers(c, Nil);
    assert forall y :: y in leaf.ring <==> y == leaf.ring[0];
  }

  // ---------------------------------------------------------------- case 4: an inner node without a ring

  /** `*RP = 0`: the slot that leads from `x`, down the path `ci` on side `right`, to the leaf. */
  ghost function ClearLeafSlot(L: Links, x: int, right: bool, ci: Ctx): Links {
    if ci.Hole? then SetChild(L, x, right, 0) else SetSlot(L, ci, 0)
  }

  lemma ClearOthers(L: Links, x: int, right: bool, ci: Ctx, y: int)
    requires y != x && y !in CtxMembers(ci)
    ensures SameAt(L, ClearLeafSlot(L, x, right, ci), y)
  {
    if ci.Step? {
      SlotOthers(L, ci, 0, y);
    }
  }

  /** The leaf comes off, and the rest of the subtree below `x` stays in place. */
  lemma LeafOut(L: Links, x: int, right: bool, child: Tree, ci: Ctx, leaf: Tree, i: int)
    requires Repr(L, child, x, i) && Plug(ci, leaf) == child && x !in Members(child)
    requires leaf.Node? && leaf.left.Nil? && leaf.right.Nil?
    ensures var L1 := ClearLeafSlot(L, x, right, ci);
            && Repr(L1, Plug(ci, Nil), x, i)
            && NodeAt(L1, leaf.ring, i, CtxParent(ci, x), 0, 0)
  {
    var L1 := ClearLeafSlot(L, x, right, ci);
    SplitRepr(L, ci, leaf, x, i);
    assert x !in leaf.ring by { PlugMembers(ci, leaf); }
    forall y | y in leaf.ring
      ensures SameAt(L, L1, y)
    {
      ClearOthers(L, x, right, ci, y);
    }
    NodeFrame(L, L1, leaf.ring, i, CtxParent(ci, x), 0, 0);
    if ci.Step? {
      RefillHole(L, ci, Root(leaf), 0, x, i);
      JoinRepr(L1, ci, Nil, x, i);
    }
  }

  /** The subtrees of `x` once the leaf is gone. */
  ghost function LeftAfter(cur: Tree, right: bool, ci: Ctx): Tree
    requires cur.Node?
  {
    if right then cur.left else Plug(ci, Nil)
  }

  ghost function RightAfter(cur: Tree, right: bool, ci: Ctx): Tree
    requires cur.Node?
  {
    if right then Plug(ci, Nil) else cur.right
  }

  ghost predicate InnerCase(cur: Tree, right: bool, ci: Ctx, leaf: Tree) {
    && cur.Node? && |cur.ring| == 1
    && Plug(ci, leaf) == (if right then cur.right else cur.left)
    && leaf.Node? && leaf.left.Nil? && leaf.right.Nil?
  }

  /** After the leaf is out, `x` still points to its remaining subtrees. */
  lemma ChildrenAfter(L: Links, cur: Tree, p: int, right: bool, ci: Ctx, leaf: Tree, i: int)
    requires Repr(L, cur, p, i) && InnerCase(cur, right, ci, leaf)
    ensures var x := cur.ring[0];
            var L1 := ClearLeafSlot(L, x, right, ci);
            && x in L1.left && L1.left[x] == Root(LeftAfter(cur, right, ci))
            && x in L1.right && L1.right[x] == Root(RightAfter(cur, right, ci))
  {
    var x := cur.ring[0];
    var L1 := ClearLeafSlot(L, x, right, ci);
    assert x in cur.ring;
    if ci.Step? {
      SameRoot(ci, leaf, Nil);
      PlugMembers(ci, leaf);
      assert ci.ring != [] ==> ci.ring[0] in CtxMembers(ci);
    }
  }

  /** The node, the leaf below it and what remains have no member in common. */
  lemma InnerParts(L: Links, cur: Tree, p: int, right: bool, ci: Ctx, leaf: Tree, i: int)
    requires Repr(L, cur, p, i) && InnerCase(cur, right, ci, leaf)
    ensures var x, child, other := cur.ring[0], if right then cur.right else cur.left, if right then cur.left else cur.right;
            && Repr(L, child, x, i) && Repr(L, other, x, i)
            && x in Members(cur) && x !in Members(child) && x !in Members(other) && x !in CtxMembers(ci)
            && Members(Plug(ci, Nil)) == CtxMembers(ci) <= Members(cur) && Members(other) <= Members(cur)
            && (forall y :: y in leaf.ring ==> y in Members(cur))
            && Disjoint(leaf.ring, CtxMembers(ci)) && Disjoint(leaf.ring, Members(other)) && CtxMembers(ci) !! Members(other)
  {
    hide CtxRepr, NodeAt;
    var x := cur.ring[0];
    RingNotEmpty(L, cur, p, i);
    SplitRepr(L, ci, leaf, x, i);
    PlugMembers(ci, leaf);
    PlugMembers(ci, Nil);
  }

  lemma NodeParent(L: Links, ring: seq<int>, i: int, parent: int)
    requires NodeAt(L, ring, i, parent, 0, 0)
    ensures |ring| > 0 && ring[0] in L.parent && L.parent[ring[0]] == parent
  {
  }

  lemma RingNotEmpty(L: Links, t: Tree, parent: int, i: int)
    requires Repr(L, t, parent, i) && t.Node?
    ensures t.ring != [] && t.ring[0] in t.ring && t.ring[0] in Members(t)
  {
  }

  lemma InnerCanLeave(L: Links, c: Ctx, cur: Tree, p: int, right: bool, ci: Ctx, leaf: Tree, i: int)
    requires Repr(L, cur, CtxParent(c, p), i) && InnerCase(cur, right, ci, leaf) && CtxMembers(c) !! Members(cur)
    requires CtxRepr(L, c, Root(cur), p, i)
    ensures CtxRepr(ClearLeafSlot(L, cur.ring[0], right, ci), c, Root(cur), p, i)
    ensures CanTakeOver(ClearLeafSlot(L, cur.ring[0], right, ci), c, leaf.ring,
                        LeftAfter(cur, right, ci), RightAfter(cur, right, ci), cur.ring[0], i)
  {
    hide SameAt, CtxRepr, ClearLeafSlot, Repr, Members, CtxMembers, Plug, NodeAt;
    var x := cur.ring[0];
    var L1 := ClearLeafSlot(L, x, right, ci);
    var child, other := if right then cur.right else cur.left, if right then cur.left else cur.right;
    InnerParts(L, cur, CtxParent(c, p), right, ci, leaf, i);
    LeafOut(L, x, right, child, ci, leaf, i);
    NodeParent(L1, leaf.ring, i, CtxParent(ci, x));
    forall y | y != x && y !in CtxMembers(ci)
      ensures SameAt(L, L1, y)
    {
      ClearOthers(L, x, right, ci, y);
    }
    ReprFrame(L, L1, other, x, i);
    CtxFrame(L, L1, c, Root(cur), p, i);
  }

  lemma RemovedInner(L: Links, t: Tree, c: Ctx, cur: Tree, right: bool, ci: Ctx, leaf: Tree, i: nat)
    requires Repr(L, t, TreeBinAt(i), i) && Plug(c, cur) == t && InnerCase(cur, right, ci, leaf)
    ensures Removed(L, TakeOverLinks(ClearLeafSlot(L, cur.ring[0], right, ci), c, Root(leaf), TreeBinAt(i),
                                     Root(LeftAfter(cur, right, ci)), Root(RightAfter(cur, right, ci))),
                    t, Plug(c, InnerAfter(cur, right, ci, leaf)), cur.ring[0], i)
  {
    hide Repr, CtxRepr, TakeOverLinks, ClearLeafSlot, SameAt;
    var p, x := TreeBinAt(i), cur.ring[0];
    SplitRepr(L, c, cur, p, i);
    InnerCanLeave(L, c, cur, p, right, ci, leaf, i);
    TakeOver(ClearLeafSlot(L, x, right, ci), c, x, leaf.ring, leaf.size,
             LeftAfter(cur, right, ci), RightAfter(cur, right, ci), x, p, i);
    InnerMembers(L, cur, CtxParent(c, p), right, ci, leaf, i);
    PlugMembers(c, cur);
    PlugMembers(c, InnerAfter(cur, right, ci, leaf));
    forall y | y !in Members(t)
      ensures SameAt(L, TakeOverLinks(ClearLeafSlot(L, x, right, ci), c, Root(leaf), p,
                                      Root(LeftAfter(cur, right, ci)), Root(RightAfter(cur, right, ci))), y)
    {
      InnerOthers(L, c, cur, p, right, ci, leaf, y);
    }
  }

  ghost function InnerAfter(cur: Tree, right: bool, ci: Ctx, leaf: Tree): Tree
    requires cur.Node? && leaf.Node?
  {
    Node(leaf.ring, leaf.size, LeftAfter(cur, right, ci), RightAfter(cur, right, ci))
  }

  lemma InnerMembers(L: Links, cur: Tree, p: int, right: bool, ci: Ctx, leaf: Tree, i: int)
    requires Repr(L, cur, p, i) && InnerCase(cur, right, ci, leaf)
    ensures Members(InnerAfter(cur, right, ci, leaf)) == Members(cur) - {cur.ring[0]}
  {
    hide CtxMembers, CtxSizes, NodeAt, Plug, Root, Sizes;
    PlugMembers(ci, leaf);
    PlugMembers(ci, Nil);
    assert forall y :: y in cur.ring <==> y == cur.ring[0];
  }

  lemma InnerOthers(L: Links, c: Ctx, cur: Tree, p: int, right: bool, ci: Ctx, leaf: Tree, y: int)
    requires InnerCase(cur, right, ci, leaf) && |leaf.ring| > 0 && y !in CtxMembers(c) && y !in Members(cur)
    ensures SameAt(L, TakeOverLinks(ClearLeafSlot(L, cur.ring[0], right, ci), c, Root(leaf), p,
                                    Root(LeftAfter(cur, right, ci)), Root(RightAfter(cur, right, ci))), y)
  {
    var L1 := ClearLeafSlot(L, cur.ring[0], right, ci);
    assert cur.ring[0] in cur.ring;
    PlugMembers(ci, leaf);
    PlugMembers(ci, Nil);
    ClearOthers(L, cur.ring[0], right, ci, y);
    RootMember(LeftAfter(cur, right, ci));
    RootMember(RightAfter(cur, right, ci));
    assert leaf.ring[0] in leaf.ring;
    TakeOverOthers(L1, c, Root(leaf), p, Root(LeftAfter(cur, right, ci)), Root(RightAfter(cur, right, ci)), y);
  }

  // ---------------------------------------------------------------- order and sizes afterwards

  lemma RingInOrder(t: Tree, c: Ctx, cur: Tree, ring: seq<int>, lo: nat, w: nat)
    requires TrieOk(t, lo, w) && Plug(c, cur) == t && cur.Node?
    ensures TrieOk(Plug(c, cur.(ring := ring)), lo, w)
  {
    NodeDepth(c, cur, lo, w);
    TrieSplit(c, cur, lo, w);
    assert Sizes(cur.(ring := ring)) == Sizes(cur);
    TrieExchange(c, cur, cur.(ring := ring), {}, lo, w);
  }

  lemma InnerInOrder(t: Tree, c: Ctx, cur: Tree, right: bool, ci: Ctx, leaf: Tree, lo: nat, w: nat)
    requires TrieOk(t, lo, w) && Plug(c, cur) == t && InnerCase(cur, right, ci, leaf)
    ensures TrieOk(Plug(c, InnerAfter(cur, right, ci, leaf)), lo, w)
  {
    NodeDepth(c, cur, lo, w);
    TrieSplit(c, cur, lo, w);
    InnerNodeInOrder(cur, right, ci, leaf, HoleLow(c, lo, w), w - Depth(c));
    TrieExchange(c, cur, InnerAfter(cur, right, ci, leaf), {}, lo, w);
  }

  lemma InnerNodeInOrder(cur: Tree, right: bool, ci: Ctx, leaf: Tree, lo: nat, w: nat)
    requires TrieOk(cur, lo, w) && InnerCase(cur, right, ci, leaf)
    ensures TrieOk(InnerAfter(cur, right, ci, leaf), lo, w)
    ensures Sizes(InnerAfter(cur, right, ci, leaf)) <= Sizes(cur)
  {
    PlugIsNode(ci, leaf);
    var l := if right then lo + Pow2(w - 1) else lo;
    NodeDepth(ci, leaf, l, w - 1);
    LeafLeaves(ci, leaf, l, w - 1);
    SizesInRange(cur.left, lo, w - 1);
    SizesInRange(cur.right, lo + Pow2(w - 1), w - 1);
  }

  lemma RingSized(c: Ctx, cur: Tree, ring: seq<int>, size: map<int, nat>)
    requires Sized(Plug(c, cur), size) && cur.Node? && forall y :: y in ring ==> y in cur.ring
    ensures Sized(Plug(c, cur.(ring := ring)), size)
  {
    SizedPlug(c, cur, cur.(ring := ring), size);
  }

  lemma InnerSized(c: Ctx, cur: Tree, right: bool, ci: Ctx, leaf: Tree, size: map<int, nat>)
    requires Sized(Plug(c, cur), size) && InnerCase(cur, right, ci, leaf)
    ensures Sized(Plug(c, InnerAfter(cur, right, ci, leaf)), size)
  {
    SizedPlug(c, cur, cur, size);
    SizedPlug(ci, leaf, Nil, size);
    SizedPlug(c, cur, InnerAfter(cur, right, ci, leaf), size);
  }

  // ---------------------------------------------------------------- the operation

  /** The path goes right wherever it can. */
  ghost predicate Rightmost(c: Ctx) { c.Hole? || ((c.goRight || c.other.Nil?) && Rightmost(c.up)) }

  /**
   The inner loop of `unlink_large_chunk`: the rightmost descendant `r` of `x`, and the child slot
   (of chunk `rp`, on side `rright`) that leads to it.
   */
  method RightmostLeaf(L: Links, x: int, ghost cur: Tree, ghost p: int, ghost i: int)
    returns (r: int, rp: int, rright: bool, ghost right: bool, ghost ci: Ctx, ghost leaf: Tree, ghost path: seq<int>)
    requires Repr(L, cur, p, i) && cur.Node? && cur.ring == [x] && (cur.left.Node? || cur.right.Node?)
    ensures InnerCase(cur, right, ci, leaf) && r == Root(leaf)
    ensures (right <==> cur.right.Node?) && Rightmost(ci)
    ensures rp in Members(cur) && SetChild(L, rp, rright, 0) == ClearLeafSlot(L, x, right, ci)
    ensures |path| > 1 && path[0] == x && path[|path| - 1] == r && (forall k :: 0 <= k < |path| ==> path[k] in L.right && path[k] in L.left)
    ensures forall k :: 0 <= k < |path| - 1 ==> path[k + 1] == if L.right[path[k]] != 0 then L.right[path[k]] else L.left[path[k]]
    ensures L.right[r] == 0 && L.left[r] == 0
  {
    hide Repr, NodeAt, Members, CtxMembers;
    NodeChildren(L, cur, p, i);
    rp, rright := x, L.right[x] != 0;
    r := if rright then L.right[x] else L.left[x];
    right, ci, leaf := rright, Hole, if rright then cur.right else cur.left;
    path := [x, r];
    ghost var child := leaf;
    NodeChildren(L, leaf, x, i);
    while L.right[r] != 0 || L.left[r] != 0
      invariant Plug(ci, leaf) == child && leaf.Node? && r == Root(leaf)
      invariant Repr(L, leaf, CtxParent(ci, x), i)
      invariant if ci.Hole? then rp == x && rright == right else ci.ring != [] && rp == ci.ring[0] && rright == ci.goRight
      invariant r in L.right && r in L.left && Rightmost(ci) && rp in Members(cur) && Members(leaf) <= Members(cur)
      invariant |path| > 1 && path[0] == x && path[|path| - 1] == r && (forall k :: 0 <= k < |path| ==> path[k] in L.right && path[k] in L.left)
      invariant forall k :: 0 <= k < |path| - 1 ==> path[k + 1] == if L.right[path[k]] != 0 then L.right[path[k]] else L.left[path[k]]
      decreases leaf
    {
      NodeChildren(L, leaf, CtxParent(ci, x), i);
      rp, rright := r, L.right[r] != 0;
      ci := Step(ci, leaf.ring, leaf.size, rright, if rright then leaf.left else leaf.right);
      leaf := if rright then leaf.right else leaf.left;
      r := if rright then L.right[r] else L.left[r];
      path := path + [r];
      NodeChildren(L, leaf, rp, i);
    }
    NodeChildren(L, leaf, CtxParent(ci, x), i);
  }

  /** What the links of a node lead to. */
  lemma NodeChildren(L: Links, t: Tree, p: int, i: int)
    requires Repr(L, t, p, i) && t.Node?
    ensures var r := Root(t);
            && t.ring != [] && r == t.ring[0] && r > 0 && r in Members(t) && r in L.left && r in L.right
            && L.left[r] == Root(t.left) && L.right[r] == Root(t.right) && (L.left[r] == 0 <==> t.left.Nil?) && (L.right[r] == 0 <==> t.right.Nil?)
            && Repr(L, t.left, r, i) && Repr(L, t.right, r, i) && Members(t.left) <= Members(t) && Members(t.right) <= Members(t)
  {
    NullIsNil(L, t, p, i);
    NullIsNil(L, t.left, Root(t), i);
    NullIsNil(L, t.right, Root(t), i);
  }

  lemma {:induction false} RootOnPath(L: Links, c: Ctx, q: int, t: Tree, p: int, i: int)
    requires CtxRepr(L, c, q, p, i) && c.Step?
    ensures Root(Plug(c, t)) in CtxMembers(c)
    decreases c
  {
    assert c.ring[0] in c.ring;
    if c.up.Step? {
      RootOnPath(L, c.up, c.ring[0], Under(c, t), p, i);
    }
  }

  ghost predicate CanRelink(L: Links, c: Ctx, x: int, i: nat) {
    && CtxRepr(L, c, x, TreeBinAt(i), i)
    && x !in CtxMembers(c) && x > 0
    && x in L.parent && L.parent[x] == CtxParent(c, TreeBinAt(i))
    && x in L.left && x in L.right
  }

  /**
   The last part of `unlink_large_chunk`, for a chunk `x` that has a parent: its place, under that
   parent or in the bin, goes to `r` (which may be null), and `r` adopts its children.
   */
  method Relink(L: Links, root: int, x: int, r: int, ghost c: Ctx, ghost t: Tree, ghost i: nat, ghost least: int)
    returns (L': Links, root': int)
    requires CanRelink(L, c, x, i) && (forall y :: y in CtxMembers(c) ==> OkAddress(least, y))
    requires forall y :: y in {r, L.left[x], L.right[x]} ==> y == 0 || OkAddress(least, y)
    requires root == if c.Hole? then x else Root(Plug(c, t))
    ensures root' == if c.Hole? then r else root
    ensures L' == if r == 0 then SetSlot(L, c, 0) else TakeOverLinks(L, c, r, TreeBinAt(i), L.left[x], L.right[x])
    ensures r != 0 && r != L.left[x] && r != L.right[x] ==> r in L'.parent && L'.parent[r] == L.parent[x]
  {
    L', root' := L, root;
    var xp := L.parent[x];
    if c.Step? {
      RootOnPath(L, c, x, t, TreeBinAt(i), i);
      RootMember(c.other);
      assert c.ring[0] in c.ring;
    }
    if x == root {
      root' := r;
    } else {
      assert OkAddress(least, xp);
      L' := SetChild(L, xp, L.left[xp] != x, r);
    }
    if r != 0 {
      assert OkAddress(least, r);
      assert L.left[x] != 0 ==> OkAddress(least, L.left[x]);
      assert L.right[x] != 0 ==> OkAddress(least, L.right[x]);
      L' := L'.(parent := L'.parent[r := xp]);
      L' := AdoptLeft(L', r, L.left[x]);
      L' := AdoptRight(L', r, L.right[x]);
    }
  }

  /** Chunk `x` was found in the ring of node `cur`, at path `c` of the tree of bin `i`. */
  ghost predicate Found(L: Links, t: Tree, c: Ctx, cur: Tree, x: int, i: nat, size: map<int, nat>) {
    && BinTree(L, t, i, size)
    && Plug(c, cur) == t
    && cur.Node? && x in cur.ring
  }

  /** The tree of the bin after `x` has gone, with the bin pointing to `root`. */
  ghost predicate Unlinked(L: Links, L': Links, root: int, t: Tree, t': Tree, x: int, i: nat, size: map<int, nat>) {
    && Removed(L, L', t, t', x, i)
    && BinTree(L', t', i, size)
    && root == Root(t')
  }

  /** What the links of `x` tell about its place on the ring of its node. */
  lemma PlaceInRing(L: Links, cur: Tree, x: int, p: int, i: int)
    requires Repr(L, cur, p, i) && cur.Node? && x in cur.ring && p != 0
    ensures x > 0 && x in L.fd && x in L.bk && x in L.parent && x in L.left && x in L.right
    ensures L.bk[x] == x <==> |cur.ring| == 1
    ensures L.parent[x] == 0 <==> x != cur.ring[0]
    ensures x == cur.ring[0] ==> L.parent[x] == p && L.left[x] == Root(cur.left) && L.right[x] == Root(cur.right)
  {
    var k :| 0 <= k < |cur.ring| && cur.ring[k] == x;
    assert LinkedAt(L.fd, L.bk, cur.ring, k);
    if k > 0 {
      assert Chained(L, cur.ring[k]);
    }
  }

  lemma FoundFacts(L: Links, t: Tree, c: Ctx, cur: Tree, x: int, i: nat)
    requires Repr(L, t, TreeBinAt(i), i) && Plug(c, cur) == t && cur.Node? && x in cur.ring
    ensures var p := TreeBinAt(i);
            CtxRepr(L, c, Root(cur), p, i) && Repr(L, cur, CtxParent(c, p), i) && CtxMembers(c) !! Members(cur)
    ensures x > 0 && x in L.fd && x in L.bk && x in L.parent && x in L.left && x in L.right
    ensures L.bk[x] == x <==> |cur.ring| == 1
    ensures L.parent[x] == 0 <==> x != cur.ring[0]
    ensures x == cur.ring[0] ==>
              L.parent[x] == CtxParent(c, TreeBinAt(i)) && L.left[x] == Root(cur.left) && L.right[x] == Root(cur.right)
  {
    var p := TreeBinAt(i);
    SplitRepr(L, c, cur, p, i);
    assert CtxParent(c, p) != 0 by {
      if c.Step? {
        assert c.ring[0] in c.ring;
      }
    }
    PlaceInRing(L, cur, x, CtxParent(c, p), i);
  }

  lemma KeptRing(t: Tree, c: Ctx, cur: Tree, ring: seq<int>, size: map<int, nat>, lo: nat, w: nat)
    requires TrieOk(t, lo, w) && Sized(t, size) && Plug(c, cur) == t && cur.Node?
    requires forall y :: y in ring ==> y in cur.ring
    ensures TrieOk(Plug(c, cur.(ring := ring)), lo, w) && Sized(Plug(c, cur.(ring := ring)), size)
  {
    RingInOrder(t, c, cur, ring, lo, w);
    RingSized(c, cur, ring, size);
  }

  lemma UnlinkedChained(L: Links, root: int, t: Tree, c: Ctx, cur: Tree, k: nat, i: nat, size: map<int, nat>)
    requires cur.Node? && 0 < k < |cur.ring| && Found(L, t, c, cur, cur.ring[k], i, size) && root == Root(t)
    ensures cur.ring[k] in L.fd && cur.ring[k] in L.bk
    ensures Unlinked(L, CutLinks(L, cur.ring[k]), root, t, Plug(c, cur.(ring := Without(cur.ring, k))), cur.ring[k], i, size)
  {
    RemovedChained(L, t, c, cur, k, i);
    KeptRing(t, c, cur, Without(cur.ring, k), size, BinLow(i), Width(i));
    SameRoot(c, cur, cur.(ring := Without(cur.ring, k)));
  }

  lemma UnlinkedHead(L: Links, t: Tree, c: Ctx, cur: Tree, i: nat, size: map<int, nat>)
    requires cur.Node? && |cur.ring| > 1 && Found(L, t, c, cur, cur.ring[0], i, size)
    ensures cur.ring[0] in L.fd && cur.ring[0] in L.bk && L.bk[cur.ring[0]] == LastFirst(cur.ring)[0]
    ensures var t' := Plug(c, cur.(ring := LastFirst(cur.ring)));
            Unlinked(L, TakeOverLinks(CutLinks(L, cur.ring[0]), c, L.bk[cur.ring[0]], TreeBinAt(i),
                                      Root(cur.left), Root(cur.right)), Root(t'), t, t', cur.ring[0], i, size)
  {
    RemovedHead(L, t, c, cur, i);
    FoundFacts(L, t, c, cur, cur.ring[0], i);
    CutFirst(L, cur.ring, i, CtxParent(c, TreeBinAt(i)), Root(cur.left), Root(cur.right));
    KeptRing(t, c, cur, LastFirst(cur.ring), size, BinLow(i), Width(i));
  }

  lemma UnlinkedLeaf(L: Links, t: Tree, c: Ctx, cur: Tree, i: nat, size: map<int, nat>)
    requires cur.Node? && |cur.ring| == 1 && cur.left.Nil? && cur.right.Nil? && Found(L, t, c, cur, cur.ring[0], i, size)
    ensures var t' := Plug(c, Nil); Unlinked(L, SetSlot(L, c, 0), Root(t'), t, t', cur.ring[0], i, size)
  {
    RemovedLeaf(L, t, c, cur, i);
    NodeDepth(c, cur, BinLow(i), Width(i));
    TrieExchange(c, cur, Nil, {}, BinLow(i), Width(i));
    SizedPlug(c, cur, Nil, size);
  }

  lemma UnlinkedInner(L: Links, t: Tree, c: Ctx, cur: Tree, right: bool, ci: Ctx, leaf: Tree, i: nat, size: map<int, nat>)
    requires InnerCase(cur, right, ci, leaf) && Found(L, t, c, cur, cur.ring[0], i, size)
    ensures var t' := Plug(c, InnerAfter(cur, right, ci, leaf));
            Unlinked(L, TakeOverLinks(ClearLeafSlot(L, cur.ring[0], right, ci), c, Root(leaf), TreeBinAt(i),
                                      Root(LeftAfter(cur, right, ci)), Root(RightAfter(cur, right, ci))),
                     Root(t'), t, t', cur.ring[0], i, size)
  {
    RemovedInner(L, t, c, cur, right, ci, leaf, i);
    InnerInOrder(t, c, cur, right, ci, leaf, BinLow(i), Width(i));
    InnerSized(c, cur, right, ci, leaf, size);
  }

  /** The path that goes right wherever it can leads from below `x` to `r`, where it ends. */
  ghost predicate IsDescent(L: Links, x: int, path: seq<int>, r: int) {
    && |path| > 1 && path[0] == x && path[|path| - 1] == r && (forall k :: 0 <= k < |path| ==> path[k] in L.right && path[k] in L.left)
    && (forall k :: 0 <= k < |path| - 1 ==> path[k + 1] == if L.right[path[k]] != 0 then L.right[path[k]] else L.left[path[k]])
    && L.right[r] == 0 && L.left[r] == 0
  }

  /** The leaf is not a child of the node any more once its slot is cleared. */
  lemma InnerHeir(L: Links, cur: Tree, p: int, right: bool, ci: Ctx, leaf: Tree, i: int)
    requires Repr(L, cur, p, i) && InnerCase(cur, right, ci, leaf)
    ensures var x := cur.ring[0];
            var L1 := ClearLeafSlot(L, x, right, ci);
            && Root(leaf) > 0 && x in L1.left && Root(leaf) != L1.left[x] && x in L1.right && Root(leaf) != L1.right[x]
            && x in L.parent && x in L1.parent && L1.parent[x] == L.parent[x]
  {
    hide ClearLeafSlot, Repr, NodeAt;
    ChildrenAfter(L, cur, p, right, ci, leaf, i);
    InnerParts(L, cur, p, right, ci, leaf, i);
    LeafOut(L, cur.ring[0], right, if right then cur.right else cur.left, ci, leaf, i);
    RootMember(LeftAfter(cur, right, ci));
    RootMember(RightAfter(cur, right, ci));
    LeafRoot(L, cur, p, right, ci, leaf, i);
  }

  lemma LeafRoot(L: Links, cur: Tree, p: int, right: bool, ci: Ctx, leaf: Tree, i: int)
    requires Repr(L, cur, p, i) && InnerCase(cur, right, ci, leaf)
    ensures Root(leaf) > 0 && Root(leaf) in leaf.ring && cur.ring[0] in L.parent
    ensures var L1 := ClearLeafSlot(L, cur.ring[0], right, ci); L1.parent == L.parent
  {
    var x := cur.ring[0];
    SplitRepr(L, ci, leaf, x, i);
    NullIsNil(L, leaf, CtxParent(ci, x), i);
  }

  /** Chunk `x` has no ring but children: the rightmost leaf below it takes its place. */
  method UnlinkInner(L: Links, root: int, x: int, i: nat, ghost t: Tree, ghost c: Ctx, ghost cur: Tree,
                     ghost size: map<int, nat>, ghost least: int)
    returns (L': Links, root': int, ghost t': Tree, ghost heir: int)
    requires Found(L, t, c, cur, x, i, size) && Addressable(t, least) && cur.ring == [x] && root == Root(t)
    requires cur.left.Node? || cur.right.Node?
    ensures Unlinked(L, L', root', t, t', x, i, size)
    ensures x in L.parent && (exists path :: IsDescent(L, x, path, heir)) && heir != 0 && heir in L'.parent && L'.parent[heir] == L.parent[x]
  {
    ghost var path;
    var r, rp, rright;
    ghost var right, ci, leaf;
    SplitRepr(L, c, cur, TreeBinAt(i), i);
    r, rp, rright, right, ci, leaf, path := RightmostLeaf(L, x, cur, CtxParent(c, TreeBinAt(i)), i);
    heir := r;
    assert IsDescent(L, x, path, heir);
    InnerHeir(L, cur, CtxParent(c, TreeBinAt(i)), right, ci, leaf, i);
    ghost var n := InnerAfter(cur, right, ci, leaf);
    t' := Plug(c, n);
    InnerRelinks(L, t, c, cur, right, ci, leaf, i);
    PlugMembers(c, cur);
    assert OkAddress(least, ChildSlot(rp, rright));
    InnerAddresses(L, cur, CtxParent(c, TreeBinAt(i)), right, ci, leaf, i);
    L', root' := Relink(SetChild(L, rp, rright, 0), root, x, r, c, cur, i, least);
    UnlinkedInner(L, t, c, cur, right, ci, leaf, i, size);
    if c.Step? {
      SameRoot(c, cur, n);
    }
  }

  /** Chunk `x` has no ring and no children. */
  method UnlinkLeaf(L: Links, root: int, x: int, i: nat, ghost t: Tree, ghost c: Ctx, ghost cur: Tree,
                    ghost size: map<int, nat>, ghost least: int)
    returns (L': Links, root': int, ghost t': Tree)
    requires Found(L, t, c, cur, x, i, size) && Addressable(t, least) && cur.ring == [x] && root == Root(t)
    requires cur.left.Nil? && cur.right.Nil?
    ensures Unlinked(L, L', root', t, t', x, i, size)
  {
    LeafRelinks(L, t, c, cur, x, i);
    UnlinkedLeaf(L, t, c, cur, i, size);
    t' := Plug(c, Nil);
    PlugMembers(c, cur);
    L', root' := Relink(L, root, x, 0, c, cur, i, least);
    if c.Step? {
      SameRoot(c, cur, Nil);
    }
  }

  /**
   `unlink_large_chunk`. A node is succeeded by the chunk before it on its ring, or by the rightmost leaf below it, or
   by none.
   */
  method UnlinkLarge(L: Links, root: int, x: int, i: nat, ghost t: Tree, ghost size: map<int, nat>, ghost least: int)
    returns (L': Links, root': int, ghost t': Tree, ghost heir: int)
    requires BinTree(L, t, i, size) && Addressable(t, least) && root == Root(t) && x in Members(t)
    ensures Unlinked(L, L', root', t, t', x, i, size)
    ensures x in L.bk && x in L.parent && x in L.left && x in L.right
    ensures L.bk[x] != x ==> heir == if L.parent[x] == 0 then 0 else L.bk[x]
    ensures L.bk[x] == x ==> if L.left[x] == 0 && L.right[x] == 0 then heir == 0 else exists path :: IsDescent(L, x, path, heir)
    ensures heir != 0 ==> heir in L'.parent && L'.parent[heir] == L.parent[x]
  {
    heir := 0;
    ghost var at := Locate(Hole, t, x);
    ghost var c, cur := at.0, at.1;
    FoundFacts(L, t, c, cur, x, i);
    L', root' := L, root;
    if L.bk[x] != x {
      assert OkAddress(least, L.fd[x]) && L.bk[L.fd[x]] == x && L.fd[L.bk[x]] == x by {
        PlugMembers(c, cur);
        OnRing(L, cur, x, CtxParent(c, TreeBinAt(i)), i);
      }
      L' := CutLinks(L, x);
      if L.parent[x] == 0 {
        ghost var k :| 0 < k < |cur.ring| && cur.ring[k] == x;
        t' := Plug(c, cur.(ring := Without(cur.ring, k)));
        UnlinkedChained(L, root, t, c, cur, k, i, size);
      } else {
        t' := Plug(c, cur.(ring := LastFirst(cur.ring)));
        UnlinkedHead(L, t, c, cur, i, size);
        L', root' := UnlinkFirst(L, root, x, i, t, c, cur, size, least);
        heir := L.bk[x];
      }
    } else {
      assert cur.ring == [x];
      LeafRelinks(L, t, c, cur, x, i);
      if L.right[x] != 0 || L.left[x] != 0 {
        L', root', t', heir := UnlinkInner(L, root, x, i, t, c, cur, size, least);
      } else {
        L', root', t' := UnlinkLeaf(L, root, x, i, t, c, cur, size, least);
      }
    }
  }

  lemma HeirOnRing(L: Links, cur: Tree, p: int, c: Ctx, i: nat)
    requires Repr(L, Plug(c, cur), TreeBinAt(i), i) && cur.Node? && |cur.ring| > 1 && p == CtxParent(c, TreeBinAt(i))
    ensures var x := cur.ring[0];
            && x in L.bk && x in L.parent && x in L.left && x in L.right
            && L.bk[x] > 0 && L.bk[x] != L.left[x] && L.bk[x] != L.right[x]
  {
    SplitRepr(L, c, cur, TreeBinAt(i), i);
    assert LinkedAt(L.fd, L.bk, cur.ring, 0);
    RootMember(cur.left);
    RootMember(cur.right);
    assert L.bk[cur.ring[0]] == cur.ring[|cur.ring| - 1] && cur.ring[|cur.ring| - 1] in cur.ring;
  }

  method UnlinkFirst(L: Links, root: int, x: int, i: nat, ghost t: Tree, ghost c: Ctx, ghost cur: Tree,
                     ghost size: map<int, nat>, ghost least: int)
    returns (L': Links, root': int)
    requires Found(L, t, c, cur, x, i, size) && Addressable(t, least) && x == cur.ring[0] && |cur.ring| > 1 && root == Root(t)
    requires x in L.bk && x in L.fd
    ensures L' == TakeOverLinks(CutLinks(L, x), c, L.bk[x], TreeBinAt(i), Root(cur.left), Root(cur.right))
    ensures root' == Root(Plug(c, cur.(ring := LastFirst(cur.ring))))
    ensures x in L.parent && L.bk[x] in L'.parent && L'.parent[L.bk[x]] == L.parent[x]
  {
    HeirOnRing(L, cur, CtxParent(c, TreeBinAt(i)), c, i);
    HeadRelinks(L, t, c, cur, i);
    assert root == if c.Hole? then x else Root(Plug(c, cur));
    PlugMembers(c, cur);
    RootMember(cur.left);
    RootMember(cur.right);
    assert L.bk[x] in cur.ring;
    L', root' := Relink(CutLinks(L, x), root, x, L.bk[x], c, cur, i, least);
    if c.Step? {
      SameRoot(c, cur, cur.(ring := LastFirst(cur.ring)));
    }
  }

  /** The neighbours of a chunk on its ring point back to it. */
  lemma OnRing(L: Links, cur: Tree, x: int, p: int, i: int)
    requires Repr(L, cur, p, i) && cur.Node? && x in cur.ring
    ensures x in L.fd && L.fd[x] in cur.ring && L.fd[x] in L.bk && L.bk[L.fd[x]] == x
    ensures x in L.bk && L.bk[x] in cur.ring && L.bk[x] in L.fd && L.fd[L.bk[x]] == x
  {
    var k :| 0 <= k < |cur.ring| && cur.ring[k] == x;
    assert LinkedAt(L.fd, L.bk, cur.ring, k);
    assert LinkedAt(L.fd, L.bk, cur.ring, Succ(k, |cur.ring|)) && LinkedAt(L.fd, L.bk, cur.ring, Pred(k, |cur.ring|));
  }

  /** Where the links of an inner node lead once the leaf is out. */
  lemma InnerAddresses(L: Links, cur: Tree, p: int, right: bool, ci: Ctx, leaf: Tree, i: int)
    requires Repr(L, cur, p, i) && InnerCase(cur, right, ci, leaf)
    ensures Root(leaf) in Members(cur)
    ensures Root(LeftAfter(cur, right, ci)) == 0 || Root(LeftAfter(cur, right, ci)) in Members(cur)
    ensures Root(RightAfter(cur, right, ci)) == 0 || Root(RightAfter(cur, right, ci)) in Members(cur)
  {
    PlugMembers(ci, leaf);
    SplitRepr(L, ci, leaf, cur.ring[0], i);
    assert leaf.ring[0] in leaf.ring;
    PlugMembers(ci, Nil);
    RootMember(LeftAfter(cur, right, ci));
    RootMember(RightAfter(cur, right, ci));
  }

  lemma HeadRelinks(L: Links, t: Tree, c: Ctx, cur: Tree, i: nat)
    requires Repr(L, t, TreeBinAt(i), i) && Plug(c, cur) == t && cur.Node? && |cur.ring| > 1
    ensures var x := cur.ring[0];
            && x in L.fd && x in L.bk && L.bk[x] == LastFirst(cur.ring)[0] && L.bk[x] > 0
            && CanRelink(CutLinks(L, x), c, x, i)
            && L.left[x] == Root(cur.left) && L.right[x] == Root(cur.right)
  {
    var x, p := cur.ring[0], TreeBinAt(i);
    FoundFacts(L, t, c, cur, x, i);
    CutFirst(L, cur.ring, i, CtxParent(c, p), Root(cur.left), Root(cur.right));
    assert LastFirst(cur.ring)[0] in cur.ring;
    forall y | y !in cur.ring
      ensures SameAt(L, CutLinks(L, x), y)
    {
      CutOthers(L, cur.ring, 0, y);
    }
    CtxFrame(L, CutLinks(L, x), c, x, p, i);
  }

  lemma InnerRelinks(L: Links, t: Tree, c: Ctx, cur: Tree, right: bool, ci: Ctx, leaf: Tree, i: nat)
    requires Repr(L, t, TreeBinAt(i), i) && Plug(c, cur) == t && InnerCase(cur, right, ci, leaf)
    ensures var x := cur.ring[0];
            var L1 := ClearLeafSlot(L, x, right, ci);
            && CanRelink(L1, c, x, i) && Root(leaf) > 0
            && L1.left[x] == Root(LeftAfter(cur, right, ci)) && L1.right[x] == Root(RightAfter(cur, right, ci))
  {
    hide CtxRepr;
    var x, p := cur.ring[0], TreeBinAt(i);
    FoundFacts(L, t, c, cur, x, i);
    InnerCanLeave(L, c, cur, p, right, ci, leaf, i);
    ChildrenAfter(L, cur, CtxParent(c, p), right, ci, leaf, i);
    assert leaf.ring[0] in leaf.ring;
    assert ClearLeafSlot(L, x, right, ci).parent == L.parent;
  }

  lemma LeafRelinks(L: Links, t: Tree, c: Ctx, cur: Tree, x: int, i: nat)
    requires Repr(L, t, TreeBinAt(i), i) && Plug(c, cur) == t && cur.Node? && cur.ring == [x]
    ensures CanRelink(L, c, x, i)
    ensures L.left[x] == 0 <==> cur.left.Nil?
    ensures L.right[x] == 0 <==> cur.right.Nil?
    ensures Repr(L, cur, CtxParent(c, TreeBinAt(i)), i)
  {
    FoundFacts(L, t, c, cur, x, i);
    NullIsNil(L, cur.left, x, i);
    NullIsNil(L, cur.right, x, i);
  }
}
