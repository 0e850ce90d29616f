/**
 Circular doubly linked lists threaded through nodes by two link fields.

 A node is an integer address. The two link fields of all nodes are the maps `fd` (forward)
 and `bk` (backward). dlmalloc threads its small bins and its same-size chains this way, and
 the kernel scheduler threads its run queues this way.
 */
module Rings {

  function Succ(i: nat, n: nat): nat
    requires i < n
  {
    if i + 1 == n then 0 else i + 1
  }

  function Pred(i: nat, n: nat): nat
    requires i < n
  {
    if i == 0 then n - 1 else i - 1
  }

  ghost predicate Distinct(r: seq<int>) {
    forall i, j :: 0 <= i < j < |r| ==> r[i] != r[j]
  }

  /** The node in place `i` is linked both ways to its neighbours in `r`. */
  ghost predicate LinkedAt(fd: map<int, int>, bk: map<int, int>, r: seq<int>, i: nat)
    requires i < |r|
  {
    && r[i] in fd && fd[r[i]] == r[Succ(i, |r|)]
    && r[i] in bk && bk[r[i]] == r[Pred(i, |r|)]
  }

  /** The nodes of `r`, in forward order starting at `r[0]`, form one closed ring. */
  ghost predicate Ring(fd: map<int, int>, bk: map<int, int>, r: seq<int>) {
    && Distinct(r)
    && (forall x :: x in r ==> x in fd && x in bk)
    && forall i :: 0 <= i < |r| ==> LinkedAt(fd, bk, r, i)
  }

  /** The ring only depends on the links of its own nodes. */
  lemma RingFrame(fd: map<int, int>, bk: map<int, int>, fd': map<int, int>, bk': map<int, int>, r: seq<int>)
    requires Ring(fd, bk, r)
    requires forall x :: x in r ==> x in fd' && x in bk' && fd'[x] == fd[x] && bk'[x] == bk[x]
    ensures Ring(fd', bk', r)
  {
    forall i | 0 <= i < |r|
      ensures LinkedAt(fd', bk', r, i)
    {
      assert LinkedAt(fd, bk, r, i);
    }
  }

  /** Links after `x` is put between `h` and its successor. */
  function LinkFd(fd: map<int, int>, h: int, x: int): map<int, int>
    requires h in fd
  {
    fd[x := fd[h]][h := x]
  }

  function LinkBk(fd: map<int, int>, bk: map<int, int>, h: int, x: int): map<int, int>
    requires h in fd
  {
    bk[fd[h] := x][x := h]
  }

  /** Inserting `x` after the first node gives the ring with `x` in second place. */
  lemma InsertAfterFirst(fd: map<int, int>, bk: map<int, int>, r: seq<int>, x: int)
    requires Ring(fd, bk, r) && |r| > 0 && x !in r
    ensures Ring(LinkFd(fd, r[0], x), LinkBk(fd, bk, r[0], x), [r[0], x] + r[1..])
  {
    var r' := [r[0], x] + r[1..];
    var fd', bk' := LinkFd(fd, r[0], x), LinkBk(fd, bk, r[0], x);
    assert LinkedAt(fd, bk, r, 0);
    forall i | 0 <= i < |r'|
      ensures LinkedAt(fd', bk', r', i)
    {
      if i >= 2 {
        assert r'[i] == r[i - 1];
        assert LinkedAt(fd, bk, r, i - 1);
      }
    }
  }

  /** Links after `x` is taken out. */
  function CutFd(fd: map<int, int>, bk: map<int, int>, x: int): map<int, int>
    requires x in fd && x in bk
  {
    fd[bk[x] := fd[x]]
  }

  function CutBk(fd: map<int, int>, bk: map<int, int>, x: int): map<int, int>
    requires x in fd && x in bk
  {
    bk[fd[x] := bk[x]]
  }

  function Without(r: seq<int>, k: nat): (r': seq<int>)
    requires k < |r|
  {
    r[..k] + r[k + 1..]
  }

  /** Removing the node at position `k` closes the gap. */
  lemma RemoveAt(fd: map<int, int>, bk: map<int, int>, r: seq<int>, k: nat)
    requires Ring(fd, bk, r) && k < |r|
    ensures Ring(CutFd(fd, bk, r[k]), CutBk(fd, bk, r[k]), Without(r, k))
  {
    var r' := Without(r, k);
    var n := |r|;
    var x := r[k];
    var fd', bk' := CutFd(fd, bk, x), CutBk(fd, bk, x);
    assert LinkedAt(fd, bk, r, k);
    forall i | 0 <= i < |r'|
      ensures LinkedAt(fd', bk', r', i)
    {
      var o := if i < k then i else i + 1;
      assert r'[i] == r[o];
      assert LinkedAt(fd, bk, r, o);
    }
  }

  function Rotate(r: seq<int>, k: nat): seq<int>
    requires k <= |r|
  {
    r[k..] + r[..k]
  }

  /** A ring may be read from any of its nodes. */
  lemma RotateRing(fd: map<int, int>, bk: map<int, int>, r: seq<int>, k: nat)
    requires Ring(fd, bk, r) && k <= |r|
    ensures Ring(fd, bk, Rotate(r, k))
  {
    var r' := Rotate(r, k);
    var n := |r|;
    forall i | 0 <= i < |r'|
      ensures LinkedAt(fd, bk, r', i)
    {
      var o := if i + k < n then i + k else i + k - n;
      assert r'[i] == r[o];
      assert LinkedAt(fd, bk, r, o);
    }
  }
}
