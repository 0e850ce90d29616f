/**
 `insert_large_chunk`: adding a chunk to the tree of its bin.
 */
module TrieInsert {
  import opened Rings
  import opened BinMaps
  import opened TreeIndex
  import opened Trie
  import opened Chunks

  /** Everything that holds of the tree of bin `i`: its order, its memory layout, its chunk sizes. */
  ghost predicate BinTree(L: Links, t: Tree, i: nat, size: map<int, nat>) {
    && i < NTREEBINS
    && TrieOk(t, BinLow(i), Width(i))
    && Repr(L, t, TreeBinAt(i), i)
    && Sized(t, size)
  }

  function LeafLinks(L: Links, x: int, parent: int): Links {
    L.(fd := L.fd[x := x], bk := L.bk[x := x], parent := L.parent[x := parent])
  }

  /** A chunk that was prepared for insertion: no children, and its bin index set. */
  ghost predicate Fresh(L: Links, x: int, i: int) {
    && x > 0
    && x in L.left && L.left[x] == 0
    && x in L.right && L.right[x] == 0
    && x in L.index && L.index[x] == i
  }

  lemma LeafRepr(L: Links, x: int, s: nat, parent: int, i: int)
    requires Fresh(L, x, i)
    requires x in L.fd && L.fd[x] == x && x in L.bk && L.bk[x] == x && x in L.parent && L.parent[x] == parent
    ensures Repr(L, Node([x], s, Nil, Nil), parent, i)
  {
    assert LinkedAt(L.fd, L.bk, [x], 0);
  }

  /** `X->fd = X->bk = X`, `X->parent = T`, `*C = X` at a free child slot. */
  lemma LeafElsewhere(L: Links, x: int, parent: int)
    ensures forall y :: y != x ==> SameAt(L, LeafLinks(L, x, parent), y)
  {
  }

  lemma SlotNotAt(L: Links, c: Ctx, q: int, x: int, parent: int, i: int)
    requires CtxRepr(L, c, q, parent, i) && x !in CtxMembers(c) && Fresh(L, x, i)
    ensures var L' := SetSlot(L, c, x); Fresh(L', x, i) && L'.fd == L.fd && L'.bk == L.bk && L'.parent == L.parent
  {
    if c.Step? {
      FirstOfRing(L, c, q, parent, i);
    }
  }

  lemma AttachLeaf(L: Links, c: Ctx, x: int, s: nat, parent: int, i: int)
    requires CtxRepr(L, c, 0, parent, i)
    requires Fresh(L, x, i) && x !in CtxMembers(c)
    ensures Repr(SetSlot(LeafLinks(L, x, CtxParent(c, parent)), c, x), Plug(c, Node([x], s, Nil, Nil)), parent, i)
  {
    hide SameAt, CtxRepr, NodeAt, SetSlot;
    var q := CtxParent(c, parent);
    var L1 := LeafLinks(L, x, q);
    var L' := SetSlot(L1, c, x);
    LeafElsewhere(L, x, q);
    CtxFrame(L, L1, c, 0, parent, i);
    RefillHole(L1, c, 0, x, parent, i);
    SlotNotAt(L1, c, 0, x, parent, i);
    LeafRepr(L', x, s, q, i);
    JoinRepr(L', c, Node([x], s, Nil, Nil), parent, i);
  }

  /** Chaining `x` behind a tree node of the same size. */
  function ChainLinks(L: Links, t: int, x: int): Links
    requires t in L.fd
  {
    L.(fd := LinkFd(L.fd, t, x), bk := LinkBk(L.fd, L.bk, t, x), parent := L.parent[x := 0])
  }

  ghost function ChainNode(t: Tree, x: int): Tree
    requires t.Node? && |t.ring| > 0
  {
    t.(ring := [t.ring[0], x] + t.ring[1..])
  }

  lemma ChainMembers(t: Tree, x: int)
    requires t.Node? && |t.ring| > 0
    ensures Members(ChainNode(t, x)) == Members(t) + {x}
  {
    var r' := ChainNode(t, x).ring;
    assert t.ring == [t.ring[0]] + t.ring[1..];
    assert forall y :: y in r' <==> y in t.ring || y == x;
  }

  lemma ChainNodeAt(L: Links, ring: seq<int>, x: int, i: int, parent: int, left: int, right: int)
    requires NodeAt(L, ring, i, parent, left, right) && Fresh(L, x, i) && x !in ring
    ensures NodeAt(ChainLinks(L, ring[0], x), [ring[0], x] + ring[1..], i, parent, left, right)
  {
    var L' := ChainLinks(L, ring[0], x);
    var r' := [ring[0], x] + ring[1..];
    InsertAfterFirst(L.fd, L.bk, ring, x);
    assert forall y :: y in r' ==> y in ring || y == x;
    forall k | 0 < k < |r'|
      ensures Chained(L', r'[k])
    {
      if k >= 2 {
        assert r'[k] == ring[k - 1];
      }
    }
  }

  lemma ChainOthers(L: Links, ring: seq<int>, x: int, y: int)
    requires Ring(L.fd, L.bk, ring) && |ring| > 0 && y !in ring && y != x
    ensures SameAt(L, ChainLinks(L, ring[0], x), y)
  {
    assert LinkedAt(L.fd, L.bk, ring, 0);
    assert L.fd[ring[0]] in ring;
  }

  lemma AttachChain(L: Links, t: Tree, x: int, parent: int, i: int)
    requires t.Node? && Repr(L, t, parent, i)
    requires Fresh(L, x, i) && x !in Members(t)
    ensures Repr(ChainLinks(L, t.ring[0], x), ChainNode(t, x), parent, i)
  {
    var h := t.ring[0];
    var L' := ChainLinks(L, h, x);
    ChainNodeAt(L, t.ring, x, i, parent, Root(t.left), Root(t.right));
    forall y | y !in t.ring && y != x
      ensures SameAt(L, L', y)
    {
      ChainOthers(L, t.ring, x, y);
    }
    ReprFrame(L, L', t.left, h, i);
    ReprFrame(L, L', t.right, h, i);
    assert forall y :: y in ChainNode(t, x).ring ==> y in t.ring || y == x;
  }

  lemma ChainTrie(t: Tree, x: int, lo: nat, w: nat)
    requires t.Node? && |t.ring| > 0 && TrieOk(t, lo, w)
    ensures TrieOk(ChainNode(t, x), lo, w) && Sizes(ChainNode(t, x)) == Sizes(t)
  {
  }

  /** The walk: `t` is the whole tree, `cur` the subtree at the current node, `c` the path to it. */
  ghost predicate Walking(t: Tree, c: Ctx, cur: Tree, key: nat, s: nat, lo: nat, w: nat) {
    && Plug(c, cur) == t
    && Depth(c) <= w
    && KeyFor(key, s, HoleLow(c, lo, w), w - Depth(c))
    && s !in CtxSizes(c)
  }

  /** A size other than that of the current node differs from it in a bit that the key still holds. */
  lemma BitsRemain(t: Tree, c: Ctx, cur: Tree, key: nat, s: nat, lo: nat, w: nat)
    requires Walking(t, c, cur, key, s, lo, w) && cur.Node? && cur.size != s
    requires TrieOk(t, lo, w)
    ensures Depth(c) < w
  {
    TrieSplit(c, cur, lo, w);
    assert Pow2(0) == 1;
  }

  /** Sizes on the left lie below the middle of the interval, sizes on the right from there on. */
  lemma SidesInRange(c: Ctx, cur: Tree, lo: nat, w: nat)
    requires TrieOk(Plug(c, cur), lo, w) && cur.Node? && Depth(c) < w
    ensures var l, v := HoleLow(c, lo, w), w - Depth(c);
            && (forall z :: z in Sizes(cur.left) ==> l <= z < l + Pow2(v - 1))
            && (forall z :: z in Sizes(cur.right) ==> l + Pow2(v - 1) <= z < l + Pow2(v - 1) + Pow2(v - 1))
  {
    hide TrieOk, Pow2;
    var l, v := HoleLow(c, lo, w), w - Depth(c);
    TrieSplit(c, cur, lo, w);
    SidesOk(cur, l, v);
    SizesInRange(cur.left, l, v - 1);
    SizesInRange(cur.right, l + Pow2(v - 1), v - 1);
  }

  lemma SidesOk(t: Tree, lo: nat, w: nat)
    requires TrieOk(t, lo, w) && t.Node? && w > 0
    ensures TrieOk(t.left, lo, w - 1) && TrieOk(t.right, lo + Pow2(w - 1), w - 1)
  {
    hide Pow2;
  }

  /** One step down, by the top bit of the key. */
  lemma WalkDown(t: Tree, c: Ctx, cur: Tree, key: nat, s: nat, lo: nat, w: nat)
    requires Walking(t, c, cur, key, s, lo, w) && cur.Node? && cur.size != s
    requires TrieOk(t, lo, w)
    ensures key < SIZE_T
    ensures var b := key / (SIZE_T / 2) == 1;
            Walking(t, Step(c, cur.ring, cur.size, b, if b then cur.left else cur.right),
                    if b then cur.right else cur.left, (2 * key) % SIZE_T, s, lo, w)
  {
    hide KeyFor, TrieOk, Pow2;
    var l, v := HoleLow(c, lo, w), w - Depth(c);
    BitsRemain(t, c, cur, key, s, lo, w);
    KeyTopBit(key, s, l, v);
    KeyShift(key, s, l, v);
    SidesInRange(c, cur, lo, w);
  }

  /** The outcome of putting chunk `x` of size `s` into tree `t` of bin `i`. */
  ghost predicate Inserted(L: Links, L': Links, t: Tree, t': Tree, x: int, s: nat, i: nat, size: map<int, nat>) {
    && Repr(L', t', TreeBinAt(i), i)
    && Sized(t', size[x := s])
    && Members(t') == Members(t) + {x}
    && t'.Node?
    && forall y :: y !in Members(t) && y != x ==> SameAt(L, L', y)
  }

  /** The new chunk becomes a leaf at the free slot where the walk ended. */
  lemma InsertedAsLeaf(L: Links, t: Tree, c: Ctx, x: int, s: nat, i: nat, size: map<int, nat>)
    requires Repr(L, t, TreeBinAt(i), i) && Sized(t, size) && Plug(c, Nil) == t && c.Step?
    requires Fresh(L, x, i) && x !in Members(t)
    ensures c.ring != []
    ensures Inserted(L, SetChild(LeafLinks(L, x, c.ring[0]), c.ring[0], c.goRight, x), t,
                     Plug(c, Node([x], s, Nil, Nil)), x, s, i, size)
  {
    hide SameAt, SetChild, LeafLinks, Fresh, Repr;
    var leaf := Node([x], s, Nil, Nil);
    var p := TreeBinAt(i);
    SplitRepr(L, c, Nil, p, i);
    assert x !in CtxMembers(c) by { PlugMembers(c, Nil); }
    AttachLeaf(L, c, x, s, p, i);
    SizedFrame(t, size, size[x := s]);
    SizedPlug(c, Nil, leaf, size[x := s]);
    PlugIsNode(c, leaf);
    assert Members(Plug(c, leaf)) == Members(t) + {x} by {
      PlugMembers(c, Nil);
      PlugMembers(c, leaf);
    }
    assert c.ring[0] in Members(t) by {
      PlugMembers(c, Nil);
      assert c.ring[0] in CtxMembers(c);
    }
    forall y | y !in Members(t) && y != x
      ensures SameAt(L, SetChild(LeafLinks(L, x, c.ring[0]), c.ring[0], c.goRight, x), y)
    {
      LeafOthers(L, c.ring[0], c.goRight, x, y);
    }
  }

  lemma LeafOthers(L: Links, p: int, goRight: bool, x: int, y: int)
    requires y != p && y != x
    ensures SameAt(L, SetChild(LeafLinks(L, x, p), p, goRight, x), y)
  {
  }

  lemma LeafInOrder(t: Tree, c: Ctx, key: nat, x: int, s: nat, lo: nat, w: nat)
    requires TrieOk(t, lo, w) && Walking(t, c, Nil, key, s, lo, w)
    ensures TrieOk(Plug(c, Node([x], s, Nil, Nil)), lo, w)
  {
    hide HoleLow, CtxSizes, Depth, Plug, Pow2;
    TrieExchange(c, Nil, Node([x], s, Nil, Nil), {s}, lo, w);
  }

  lemma {:induction false} PlugIsNode(c: Ctx, t: Tree)
    requires t.Node?
    ensures Plug(c, t).Node?
    decreases c
  {
    if c.Step? {
      PlugIsNode(c.up, Under(c, t));
    }
  }

  /** The new chunk joins the ring of the node of its size. */
  lemma InsertedAsChain(L: Links, t: Tree, c: Ctx, cur: Tree, x: int, s: nat, i: nat, size: map<int, nat>)
    requires Repr(L, t, TreeBinAt(i), i) && Sized(t, size) && Plug(c, cur) == t && cur.Node? && cur.size == s
    requires Fresh(L, x, i) && x !in Members(t)
    ensures |cur.ring| > 0 && cur.ring[0] in L.fd
    ensures Inserted(L, ChainLinks(L, cur.ring[0], x), t, Plug(c, ChainNode(cur, x)), x, s, i, size)
  {
    var p := TreeBinAt(i);
    SplitRepr(L, c, cur, p, i);
    assert cur.ring[0] in cur.ring;
    var n := ChainNode(cur, x);
    assert x !in CtxMembers(c) && x !in Members(cur) by { PlugMembers(c, cur); }
    ChainedUnder(L, c, cur, x, p, i);
    SizedChain(t, c, cur, x, size);
    PlugIsNode(c, n);
    assert Members(Plug(c, n)) == Members(t) + {x} by {
      PlugMembers(c, cur);
      PlugMembers(c, n);
      ChainMembers(cur, x);
    }
    forall y | y !in Members(t) && y != x
      ensures SameAt(L, ChainLinks(L, cur.ring[0], x), y)
    {
      PlugMembers(c, cur);
      ChainOthers(L, cur.ring, x, y);
    }
  }

  lemma SizedChain(t: Tree, c: Ctx, cur: Tree, x: int, size: map<int, nat>)
    requires Sized(t, size) && Plug(c, cur) == t && cur.Node? && |cur.ring| > 0 && x !in Members(t)
    ensures Sized(Plug(c, ChainNode(cur, x)), size[x := cur.size])
  {
    var size' := size[x := cur.size];
    SizedFrame(t, size, size');
    SizedPlug(c, cur, ChainNode(cur, x), size');
    var r' := ChainNode(cur, x).ring;
    assert forall y :: y in r' ==> y in cur.ring || y == x;
  }

  lemma ChainedUnder(L: Links, c: Ctx, cur: Tree, x: int, parent: int, i: int)
    requires CtxRepr(L, c, Root(cur), parent, i) && Repr(L, cur, CtxParent(c, parent), i) && cur.Node?
    requires CtxMembers(c) !! Members(cur) && Fresh(L, x, i) && x !in CtxMembers(c) && x !in Members(cur)
    ensures Repr(ChainLinks(L, cur.ring[0], x), Plug(c, ChainNode(cur, x)), parent, i)
  {
    hide CtxMembers, CtxRepr, Disjoint;
    var L' := ChainLinks(L, cur.ring[0], x);
    AttachChain(L, cur, x, CtxParent(c, parent), i);
    forall y | y !in cur.ring && y != x
      ensures SameAt(L, L', y)
    {
      ChainOthers(L, cur.ring, x, y);
    }
    assert forall y :: y in cur.ring ==> y in Members(cur);
    CtxFrame(L, L', c, Root(cur), parent, i);
    ChainMembers(cur, x);
    JoinRepr(L', c, ChainNode(cur, x), parent, i);
  }

  lemma ChainInOrder(t: Tree, c: Ctx, cur: Tree, x: int, lo: nat, w: nat)
    requires TrieOk(t, lo, w) && Plug(c, cur) == t && Depth(c) <= w
    requires cur.Node? && |cur.ring| > 0
    ensures TrieOk(Plug(c, ChainNode(cur, x)), lo, w)
  {
    TrieSplit(c, cur, lo, w);
    ChainTrie(cur, x, HoleLow(c, lo, w), w - Depth(c));
    TrieExchange(c, cur, ChainNode(cur, x), {}, lo, w);
  }

  /** `&(T->child[right])` */
  function ChildSlot(T: int, right: bool): int { if right then T + 40 else T + 32 }

  lemma AddressesOf(L: Links, t: Tree, c: Ctx, cur: Tree, least: int)
    requires Plug(c, cur) == t && Addressable(t, least) && cur.Node?
    ensures forall y :: y in cur.ring ==> OkAddress(least, y)
  {
    PlugMembers(c, cur);
  }

  lemma NodeOfSize(L: Links, c: Ctx, cur: Tree, size: map<int, nat>, i: nat)
    requires CtxRepr(L, c, Root(cur), TreeBinAt(i), i) && Repr(L, cur, CtxParent(c, TreeBinAt(i)), i) && cur.Node? && Sized(cur, size)
    ensures var T := Root(cur); T in cur.ring && T in size && size[T] == cur.size && T in L.parent && L.parent[T] != 0
    ensures cur.size in Sizes(cur) && Root(cur) in Members(cur)
  {
    NullIsNil(L, cur, CtxParent(c, TreeBinAt(i)), i);
    if c.Step? {
      assert c.ring[0] in c.ring;
    }
  }

  lemma NextOnRing(L: Links, cur: Tree, p: int, i: int)
    requires Repr(L, cur, p, i) && cur.Node?
    ensures cur.ring != [] && cur.ring[0] in cur.ring && cur.ring[0] in L.fd && L.fd[cur.ring[0]] in cur.ring
  {
    assert LinkedAt(L.fd, L.bk, cur.ring, 0);
  }

  /**
   `insert_large_chunk`, for a bin whose bit is set: walk down by the bits of the size until a node
   of the same size or a free slot is found. The walk ends because the tree is finite, and it never
   runs out of key bits (`BitsRemain`).
   */
  method InsertLarge(L: Links, head: map<int, Head>, root: int, x: int, s: nat, i: nat,
                     ghost t: Tree, ghost size: map<int, nat>, ghost least: int)
    returns (L': Links, ghost t': Tree)
    requires BinTree(L, t, i, size) && Addressable(t, least) && t.Node? && root == Root(t) && HeadersAgree(head, size)
    requires MIN_LARGE <= s < SIZE_LIMIT && i == TreeIndexOf(s)
    requires Fresh(L, x, i) && x !in Members(t)
    ensures Inserted(L, L', t, t', x, s, i, size) && Root(t') == root
    ensures TrieOk(t', BinLow(i), Width(i))
    ensures x in L'.parent && x in L'.fd && x in L'.bk
    ensures s !in Sizes(t) ==> L'.parent[x] != 0 && L'.fd[x] == L'.bk[x] == x
    ensures s in Sizes(t) ==>
              && L'.parent[x] == 0 && L'.bk[x] in Members(t) && L'.bk[x] in size && size[L'.bk[x]] == s
              && L'.bk[x] in L.parent && L.parent[L'.bk[x]] != 0 && L'.bk[x] in L.fd && L'.fd[x] == L.fd[L'.bk[x]]
  {
    hide Addressable, KeyFor, Pow2, Sized;
    ghost var lo, w := BinLow(i), Width(i);
    var T: int, key: nat := root, Key(s, i);
    ghost var c, cur := Hole, t;
    KeyStart(s);
    while true
      invariant Walking(t, c, cur, key, s, lo, w) && cur.Node? && T == Root(cur)
      invariant Root(Plug(c, cur)) == root
      decreases cur
    {
      SplitRepr(L, c, cur, TreeBinAt(i), i);
      SizedPlug(c, cur, cur, size);
      assert T in cur.ring && head[T].size == cur.size;
      if head[T].size != s {
        WalkDown(t, c, cur, key, s, lo, w);
        var right := key / (SIZE_T / 2) == 1;
        var next := if right then L.right[T] else L.left[T];
        ghost var sub := if right then cur.right else cur.left;
        key := (2 * key) % SIZE_T;
        c, cur := Step(c, cur.ring, cur.size, right, if right then cur.left else cur.right), sub;
        if next != 0 {
          T := next;
        } else {
          assert OkAddress(least, ChildSlot(T, right)) by { AddressesOf(L, t, c.up, Under(c, sub), least); }
          NullIsNil(L, sub, T, i);
          PlugMembers(c, sub);
          L' := SetChild(LeafLinks(L, x, T), T, right, x);
          t' := Plug(c, Node([x], s, Nil, Nil));
          InsertedAsLeaf(L, t, c, x, s, i, size);
          LeafInOrder(t, c, key, x, s, lo, w);
          SameRoot(c, Nil, Node([x], s, Nil, Nil));
          return;
        }
      } else {
        assert OkAddress(least, T) && OkAddress(least, L.fd[T]) by {
          AddressesOf(L, t, c, cur, least);
          NextOnRing(L, cur, CtxParent(c, TreeBinAt(i)), i);
        }
        L' := ChainLinks(L, T, x);
        PlugMembers(c, cur);
        NodeOfSize(L, c, cur, size, i);
        t' := Plug(c, ChainNode(cur, x));
        InsertedAsChain(L, t, c, cur, x, s, i, size);
        ChainInOrder(t, c, cur, x, lo, w);
        SameRoot(c, cur, ChainNode(cur, x));
        return;
      }
    }
  }

  lemma {:induction false} SameRoot(c: Ctx, t: Tree, t': Tree)
    requires c.Step? || Root(t) == Root(t')
    ensures Root(Plug(c, t)) == Root(Plug(c, t'))
    decreases c
  {
    if c.Step? {
      SameRoot(c.up, Under(c, t), Under(c, t'));
    }
  }
}
