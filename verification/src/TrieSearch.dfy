/**
 The searches of `tmalloc_large` and `tmalloc_small`: finding the best fitting chunk in the tree bins.
 */
module TrieSearch {
  import opened BinMaps
  import opened TreeIndex
  import opened Chunks
  import opened Trie
  import opened TrieInsert

  /** Unsigned subtraction `a - b` on `size_t`. */
  function Minus(a: nat, b: nat): (r: nat)
    requires a < SIZE_T && b < SIZE_T
    ensures r < SIZE_T
  {
    if a >= b then a - b else SIZE_T + a - b
  }

  /** A chunk of size `s` does not fit `nb` with a smaller remainder than `rsize`. */
  predicate NoBetter(s: nat, nb: nat, rsize: nat) {
    s < nb || rsize <= s - nb
  }

  /** `v` is null and `rsize` still the initial `-nb`, or `v` is a tree node that fits `nb` with remainder `rsize`. */
  ghost predicate Candidate(v: int, rsize: nat, nb: nat, size: map<int, nat>) {
    if v == 0 then rsize == SIZE_T - nb
    else v > 0 && v in size && size[v] == nb + rsize && rsize < SIZE_T - nb
  }

  /** Comparing the wrapped remainder never picks a chunk that is too small. */
  lemma WrappedRemainder(s: nat, nb: nat, rsize: nat)
    requires s < SIZE_T && 0 < nb < SIZE_T && rsize <= SIZE_T - nb
    ensures Minus(s, nb) < rsize <==> s >= nb && s - nb < rsize
  {
  }

  /** A trie all of whose sizes are below `hi`. */
  ghost predicate Ordered(t: Tree, hi: nat) {
    exists lo: nat, w: nat :: TrieOk(t, lo, w) && lo + Pow2(w) <= hi
  }

  /** Every size of `tree` that could still beat `rsize` is in `cur`, or is at least `hi`. */
  ghost predicate Pending(tree: Tree, cur: Tree, hi: nat, nb: nat, rsize: nat) {
    forall s :: s in Sizes(tree) ==> NoBetter(s, nb, rsize) || s in Sizes(cur) || (cur.Node? && s >= hi)
  }

  lemma GoLeft(tree: Tree, cur: Tree, hi: nat, nb: nat, rsize: nat) returns (hi': nat)
    requires Ordered(cur, hi) && cur.Node? && cur.left.Node?
    requires Pending(tree, cur, hi, nb, rsize) && NoBetter(cur.size, nb, rsize)
    ensures Ordered(cur.left, hi') && Pending(tree, cur.left, hi', nb, rsize)
  {
    var lo: nat, w: nat :| TrieOk(cur, lo, w) && lo + Pow2(w) <= hi;
    hi' := lo + Pow2(w - 1);
    SizesInRange(cur.right, hi', w - 1);
    assert TrieOk(cur.left, lo, w - 1);
  }

  lemma GoRight(tree: Tree, cur: Tree, hi: nat, nb: nat, rsize: nat)
    requires Ordered(cur, hi) && cur.Node? && cur.left.Nil? && cur.right.Node?
    requires Pending(tree, cur, hi, nb, rsize) && NoBetter(cur.size, nb, rsize)
    ensures Ordered(cur.right, hi) && Pending(tree, cur.right, hi, nb, rsize)
  {
    var lo: nat, w: nat :| TrieOk(cur, lo, w) && lo + Pow2(w) <= hi;
    assert TrieOk(cur.right, lo + Pow2(w - 1), w - 1);
  }

  lemma AtLeaf(tree: Tree, cur: Tree, hi: nat, nb: nat, rsize: nat)
    requires Ordered(cur, hi) && cur.Node? && cur.left.Nil? && cur.right.Nil?
    requires Pending(tree, cur, hi, nb, rsize) && NoBetter(cur.size, nb, rsize)
    requires rsize == 0 || cur.size >= nb || forall s :: s in Sizes(tree) ==> s < nb
    ensures Ordered(Nil, hi) && forall s :: s in Sizes(tree) ==> NoBetter(s, nb, rsize)
  {
    var lo: nat, w: nat :| TrieOk(cur, lo, w) && lo + Pow2(w) <= hi;
    assert TrieOk(Nil, lo, w);
  }

  /** A subtree of `tree` in memory, below `parent`. */
  ghost predicate Below(L: Links, tree: Tree, cur: Tree, parent: int, i: int, size: map<int, nat>) {
    && Repr(L, cur, parent, i) && Sized(cur, size)
    && Sizes(cur) <= Sizes(tree) && Members(cur) <= Members(tree)
  }

  /** What a walk reads at a node. */
  lemma ReadNode(L: Links, head: map<int, Head>, tree: Tree, cur: Tree, parent: int, i: int, size: map<int, nat>)
    requires Below(L, tree, cur, parent, i, size) && HeadersAgree(head, size) && cur.Node?
    ensures var t := Root(cur);
            && t > 0 && t in cur.ring && t in head && head[t].size == cur.size && t in size && size[t] == cur.size
            && t in L.left && L.left[t] == Root(cur.left) && t in L.right && L.right[t] == Root(cur.right)
            && (L.left[t] == 0 <==> cur.left.Nil?) && (L.right[t] == 0 <==> cur.right.Nil?)
            && (cur.right.Node? ==> L.left[t] != L.right[t])
            && Below(L, tree, cur.left, t, i, size) && Below(L, tree, cur.right, t, i, size)
            && cur.size in Sizes(tree) && t in Members(tree) && t in L.parent && L.parent[t] == parent
  {
    NullIsNil(L, cur, parent, i);
    NullIsNil(L, cur.left, Root(cur), i);
    NullIsNil(L, cur.right, Root(cur), i);
  }

  /**
   `while (t != 0) { ...; t = leftmost_child(t); }`: the least size of a subtree lies on the path that
   goes left whenever it can.
   */
  method LeastOnLeftmostPath(L: Links, head: map<int, Head>, start: int, nb: nat, v0: int, rsize0: nat,
                             ghost tree: Tree, ghost parent: int, ghost i: int, ghost hi: nat, ghost size: map<int, nat>)
    returns (v: int, rsize: nat)
    requires Below(L, tree, tree, parent, i, size) && Ordered(tree, hi) && start == Root(tree)
    requires HeadersAgree(head, size) && 0 < nb < SIZE_T && (forall s :: s in Sizes(tree) ==> s < SIZE_T)
    requires Candidate(v0, rsize0, nb, size) && (v0 != 0 ==> v0 in L.parent && L.parent[v0] != 0) && (tree.Node? ==> parent != 0)
    requires rsize0 == 0 || (forall s :: s in Sizes(tree) ==> s >= nb) || (forall s :: s in Sizes(tree) ==> s < nb)
    ensures Candidate(v, rsize, nb, size) && rsize <= rsize0
    ensures forall s :: s in Sizes(tree) ==> NoBetter(s, nb, rsize)
    ensures v == v0 || v in Members(tree)
    ensures v != 0 ==> v in L.parent && L.parent[v] != 0
  {
    var t := start;
    v, rsize := v0, rsize0;
    ghost var cur, par, h := tree, parent, hi;
    while t != 0
      invariant t == Root(cur) && Below(L, tree, cur, par, i, size) && Ordered(cur, h)
      invariant Candidate(v, rsize, nb, size) && rsize <= rsize0
      invariant (v == v0 || v in Members(tree)) && (v != 0 ==> v in L.parent && L.parent[v] != 0) && (cur.Node? ==> par != 0)
      invariant Pending(tree, cur, h, nb, rsize)
      decreases cur
    {
      ReadNode(L, head, tree, cur, par, i, size);
      var trem := Minus(head[t].size, nb);
      WrappedRemainder(cur.size, nb, rsize);
      if trem < rsize {
        rsize, v := trem, t;
      }
      if L.left[t] != 0 {
        h := GoLeft(tree, cur, h, nb, rsize);
        cur, par := cur.left, t;
        t := L.left[t];
      } else {
        if L.right[t] != 0 {
          GoRight(tree, cur, h, nb, rsize);
        } else {
          AtLeaf(tree, cur, h, nb, rsize);
        }
        cur, par := cur.right, t;
        t := L.right[t];
      }
    }
    NullIsNil(L, cur, par, i);
  }

  // ---------------------------------------------------------------- searching one bin by the bits of the request

  /**
   State of the first loop of `tmalloc_large`, for a request `nb` whose bin is `tree`: `cur` is the subtree
   that `nb` leads to, `rst` the deepest subtree to the right of the path so far.

   Every size that could still beat `rsize` is in `cur`, or in `rst`, or larger than all of `rst`.
   */
  ghost predicate Searching(tree: Tree, cur: Tree, rst: Tree, hi: nat, nb: nat, rsize: nat) {
    && Ordered(rst, hi)
    && (forall s :: s in Sizes(rst) ==> s > nb)
    && forall s :: s in Sizes(tree) ==>
         NoBetter(s, nb, rsize) || s in Sizes(cur) || (rst.Node? && (s in Sizes(rst) || s >= hi))
  }

  /** The interval of `cur` holds `nb`, with the remaining bits in the key, and `rst` lies above it. */
  ghost predicate Steered(cur: Tree, rst: Tree, key: nat, nb: nat, lo: nat, w: nat) {
    && TrieOk(cur, lo, w)
    && KeyFor(key, nb, lo, w)
    && forall s :: s in Sizes(rst) ==> s >= lo + Pow2(w)
  }

  lemma OrderedBelow(t: Tree, hi: nat)
    requires Ordered(t, hi)
    ensures forall s :: s in Sizes(t) ==> s < hi
  {
    var lo: nat, w: nat :| TrieOk(t, lo, w) && lo + Pow2(w) <= hi;
    SizesInRange(t, lo, w);
  }

  /** Going right: all of the left subtree is too small. */
  lemma SearchRight(tree: Tree, cur: Tree, rst: Tree, hi: nat, nb: nat, rsize: nat, m: nat)
    requires Searching(tree, cur, rst, hi, nb, rsize) && cur.Node? && NoBetter(cur.size, nb, rsize)
    requires nb >= m && forall s :: s in Sizes(cur.left) ==> s < m
    ensures Searching(tree, cur.right, rst, hi, nb, rsize)
  {
    assert Sizes(cur) == {cur.size} + Sizes(cur.left) + Sizes(cur.right);
  }

  /** Going left past a right subtree: that subtree holds the least sizes above the path. */
  lemma SearchLeft(tree: Tree, cur: Tree, rst: Tree, hi: nat, nb: nat, rsize: nat, m: nat, top: nat)
    requires Searching(tree, cur, rst, hi, nb, rsize) && cur.Node? && NoBetter(cur.size, nb, rsize)
    requires nb < m && Ordered(cur.right, top) && cur.right.Node?
    requires forall s :: s in Sizes(cur.right) ==> m <= s < top
    requires forall s :: s in Sizes(rst) ==> s >= top
    ensures Searching(tree, cur.left, cur.right, top, nb, rsize)
  {
    OrderedBelow(rst, hi);
    assert rst.Node? ==> rst.size in Sizes(rst);
  }

  /** Going left where there is no right subtree. */
  lemma SearchLeftOnly(tree: Tree, cur: Tree, rst: Tree, hi: nat, nb: nat, rsize: nat)
    requires Searching(tree, cur, rst, hi, nb, rsize) && cur.Node? && NoBetter(cur.size, nb, rsize)
    requires cur.right.Nil?
    ensures Searching(tree, cur.left, rst, hi, nb, rsize)
  {
    assert Sizes(cur) == {cur.size} + Sizes(cur.left) + Sizes(cur.right);
  }

  /** One step down: the untaken right subtree, if there is one, is the new `rst`. */
  lemma SearchDown(tree: Tree, cur: Tree, rst: Tree, hi: nat, key: nat, nb: nat, rsize: nat, lo: nat, w: nat)
    returns (hi': nat, lo': nat, w': nat)
    requires Searching(tree, cur, rst, hi, nb, rsize) && Steered(cur, rst, key, nb, lo, w)
    requires cur.Node? && cur.size != nb && NoBetter(cur.size, nb, rsize)
    ensures key < SIZE_T
    ensures var right := key / (SIZE_T / 2) == 1;
            var next := if right then cur.right else cur.left;
            var rst' := if cur.right.Node? && !right then cur.right else rst;
            Searching(tree, next, rst', hi', nb, rsize) && Steered(next, rst', (2 * key) % SIZE_T, nb, lo', w')
  {
    assert w > 0 by { assert Pow2(0) == 1; }
    var m, top := lo + Pow2(w - 1), lo + Pow2(w);
    KeyTopBit(key, nb, lo, w);
    KeyShift(key, nb, lo, w);
    SizesInRange(cur.left, lo, w - 1);
    SizesInRange(cur.right, m, w - 1);
    lo', w', hi' := if nb < m then lo else m, w - 1, hi;
    if nb >= m {
      SearchRight(tree, cur, rst, hi, nb, rsize, m);
    } else if cur.right.Node? {
      assert TrieOk(cur.right, m, w - 1);
      hi' := top;
      SearchLeft(tree, cur, rst, hi, nb, rsize, m, top);
    } else {
      SearchLeftOnly(tree, cur, rst, hi, nb, rsize);
    }
  }

  /** Where the first loop of `tmalloc_large` leaves off: `t` points to the subtree `rest`, still to be searched. */
  ghost predicate BinSearched(L: Links, tree: Tree, rest: Tree, parent: int, i: int, hi: nat,
                              nb: nat, rsize: nat, size: map<int, nat>) {
    && Below(L, tree, rest, parent, i, size) && Ordered(rest, hi)
    && (rsize == 0 || forall s :: s in Sizes(rest) ==> if nb < SIZE_LIMIT then s >= nb else s < nb)
    && forall s :: s in Sizes(tree) ==>
         NoBetter(s, nb, rsize) || (rest.Node? && (s in Sizes(rest) || s >= hi))
  }

  /** The subtree reached, the right subtree remembered with a bound above it, the key, and the interval of the subtree. */
  datatype Position = Position(cur: Tree, rst: Tree, hi: nat, key: nat, lo: nat, w: nat)

  /**
   State of the loop for any request. When `nb` is below 2^40 its bin orders it and the key steers the walk;
   above that, the bin number is meaningless, but then every chunk is too small.
   */
  ghost predicate Walk(tree: Tree, at: Position, nb: nat, rsize: nat) {
    match at
    case Position(cur, rst, hi, key, lo, w) =>
      && TrieOk(cur, lo, w) && Ordered(rst, hi) && key < SIZE_T
      && if nb < SIZE_LIMIT then Searching(tree, cur, rst, hi, nb, rsize) && Steered(cur, rst, key, nb, lo, w)
         else forall s :: s in Sizes(tree) ==> s < nb
  }

  ghost function NextSub(cur: Tree, key: nat): Tree
    requires cur.Node?
  {
    if key / (SIZE_T / 2) == 1 then cur.right else cur.left
  }

  ghost function NextRst(cur: Tree, rst: Tree, key: nat): Tree
    requires cur.Node?
  {
    if cur.right.Node? && key / (SIZE_T / 2) != 1 then cur.right else rst
  }

  lemma WalkStep(tree: Tree, at: Position, nb: nat, rsize: nat) returns (to: Position)
    requires Walk(tree, at, nb, rsize)
    requires at.cur.Node? && NoBetter(at.cur.size, nb, rsize) && (at.cur.size == nb ==> nb >= SIZE_LIMIT)
    ensures Walk(tree, to, nb, rsize) && at.key < SIZE_T
    ensures to.cur == NextSub(at.cur, at.key) && to.rst == NextRst(at.cur, at.rst, at.key) && to.key == (2 * at.key) % SIZE_T
  {
    hide KeyFor, Pow2, Sizes;
    var Position(cur, rst, hi, key, lo, w) := at;
    var next := Position(NextSub(cur, key), NextRst(cur, rst, key), hi, (2 * key) % SIZE_T, lo, w);
    if nb < SIZE_LIMIT {
      var hi', lo', w' := SearchDown(tree, cur, rst, hi, key, nb, rsize, lo, w);
      to := next.(hi := hi', lo := lo', w := w');
    } else if w == 0 {
      to := next;
    } else {
      var m := lo + Pow2(w - 1);
      assert TrieOk(cur.right, m, w - 1) && TrieOk(cur.left, lo, w - 1);
      to := next.(lo := if key / (SIZE_T / 2) == 1 then m else lo, w := w - 1,
                  hi := if cur.right.Node? && key / (SIZE_T / 2) != 1 then m + Pow2(w - 1) else hi);
    }
  }

  /** The walk ran off the tree: what is left to search is `rst`. */
  lemma WalkEnd(L: Links, tree: Tree, at: Position, parent: int, i: int, nb: nat, rsize: nat, size: map<int, nat>)
    requires Walk(tree, at, nb, rsize) && at.cur.Nil? && Below(L, tree, at.rst, parent, i, size)
    ensures BinSearched(L, tree, at.rst, parent, i, at.hi, nb, rsize, size)
  {
  }

  /** An exact fit was found: nothing can beat it. */
  lemma ExactFit(L: Links, tree: Tree, at: Position, parent: int, i: int, nb: nat, rsize: nat, size: map<int, nat>)
    requires Walk(tree, at, nb, rsize) && Below(L, tree, at.cur, parent, i, size)
    ensures BinSearched(L, tree, at.cur, parent, i, at.lo + Pow2(at.w), nb, 0, size)
  {
  }

  lemma WalkStart(tree: Tree, nb: nat, i: nat, rsize: nat)
    requires i < NTREEBINS && TrieOk(tree, BinLow(i), Width(i)) && MIN_LARGE <= nb < SIZE_T && i == TreeIndexOf(nb)
    requires forall s :: s in Sizes(tree) ==> s < SIZE_LIMIT
    ensures var lo, w := BinLow(i), Width(i);
            Walk(tree, Position(tree, Nil, lo + Pow2(w), Key(nb, i), lo, w), nb, rsize)
  {
    var lo, w := BinLow(i), Width(i);
    assert TrieOk(Nil, lo, w);
    if nb < SIZE_LIMIT {
      KeyStart(nb);
    }
  }

  /** A smaller remainder keeps the state. */
  lemma WalkBetter(tree: Tree, at: Position, nb: nat, rsize: nat, rsize': nat)
    requires Walk(tree, at, nb, rsize) && rsize' <= rsize
    ensures Walk(tree, at, nb, rsize')
  {
  }

  /**
   The first loop of `tmalloc_large`: down the tree of bin `i` by the bits of `nb`, remembering the best fit
   and the deepest right subtree not taken.
   */
  method SearchBin(L: Links, head: map<int, Head>, root: int, nb: nat, i: nat, ghost tree: Tree, ghost size: map<int, nat>)
    returns (v: int, rsize: nat, t: int, ghost rest: Tree, ghost parent: int, ghost hi: nat)
    requires BinTree(L, tree, i, size) && HeadersAgree(head, size) && root == Root(tree) && tree.Node?
    requires MIN_LARGE <= nb < SIZE_T && i == TreeIndexOf(nb) && (forall s :: s in Sizes(tree) ==> 0 < s < SIZE_LIMIT)
    ensures Candidate(v, rsize, nb, size) && (v == 0 || v in Members(tree))
    ensures t == Root(rest) && BinSearched(L, tree, rest, parent, i, hi, nb, rsize, size)
    ensures (v != 0 ==> v in L.parent && L.parent[v] != 0) && (rest.Node? ==> parent != 0)
  {
    hide BinLow, LeftShift, NodeAt, Pow2, TrieOk, Walk;
    v, rsize, t := 0, SIZE_T - nb, root;
    var key: nat, rst := Key(nb, i), 0;
    ghost var at := Position(tree, Nil, BinLow(i) + Pow2(Width(i)), key, BinLow(i), Width(i));
    ghost var par, rstPar := TreeBinAt(i), 0;
    WalkStart(tree, nb, i, rsize);
    while true
      invariant t == Root(at.cur) && at.cur.Node? && Below(L, tree, at.cur, par, i, size)
      invariant rst == Root(at.rst) && Below(L, tree, at.rst, rstPar, i, size)
      invariant Candidate(v, rsize, nb, size) && (v == 0 || v in Members(tree))
      invariant (v != 0 ==> v in L.parent && L.parent[v] != 0) && par != 0 && (at.rst.Node? ==> rstPar != 0)
      invariant Walk(tree, at, nb, rsize) && key == at.key && rsize > 0
      decreases at.cur
    {
      ReadNode(L, head, tree, at.cur, par, i, size);
      var trem := Minus(head[t].size, nb);
      WrappedRemainder(at.cur.size, nb, rsize);
      if trem < rsize {
        WalkBetter(tree, at, nb, rsize, trem);
        v, rsize := t, trem;
        if rsize == 0 {
          ExactFit(L, tree, at, par, i, nb, rsize, size);
          rest, parent, hi := at.cur, par, at.lo + Pow2(at.w);
          return;
        }
      }
      ghost var to := WalkStep(tree, at, nb, rsize);
      var rt := L.right[t];
      par := t;
      t := if key / (SIZE_T / 2) == 1 then L.right[t] else L.left[t];
      if rt != 0 && rt != t {
        rst, rstPar := rt, par;
      }
      at, key := to, (2 * key) % SIZE_T;
      NullIsNil(L, at.cur, par, i);
      if t == 0 {
        WalkEnd(L, tree, at, rstPar, i, nb, rsize, size);
        t, rest, parent, hi := rst, at.rst, rstPar, at.hi;
        return;
      }
    }
  }

  /** Once the rest has been searched too, nothing in the whole tree is better. */
  lemma WholeBin(L: Links, tree: Tree, rest: Tree, parent: int, i: int, hi: nat, nb: nat, rsize: nat, rsize': nat,
                 size: map<int, nat>)
    requires BinSearched(L, tree, rest, parent, i, hi, nb, rsize, size) && rsize' <= rsize
    requires forall s :: s in Sizes(rest) ==> NoBetter(s, nb, rsize')
    requires forall s :: s in Sizes(tree) ==> s < SIZE_LIMIT
    ensures forall s :: s in Sizes(tree) ==> NoBetter(s, nb, rsize')
  {
    OrderedBelow(rest, hi);
    assert rest.Node? ==> rest.size in Sizes(rest);
  }
}
