/**
 `scheduler.c`: three priority queues, each a ring of task nodes, and the choice of the next task.
 */
module Scheduler {
  import opened Rings

  const QUEUES: nat := 3
  const NULL: int := 0
  /** The address of `s_idle_node`, which is in no queue. */
  const IDLE: int := -1

  // ---------------------------------------------------------------- what the queues hold

  /** The rings from `first` on, and the flags of the nodes in them. */
  datatype View = View(rings: seq<seq<int>>, locked: set<int>, finished: set<int>)

  ghost predicate Apart(rings: seq<seq<int>>) {
    forall q, p :: 0 <= q < p < |rings| ==> forall x :: x in rings[q] ==> x !in rings[p]
  }

  ghost predicate Queued(v: View, n: int) { exists q :: 0 <= q < |v.rings| && n in v.rings[q] }

  ghost predicate ViewOk(v: View) {
    && |v.rings| == QUEUES && Apart(v.rings)
    && (forall q :: 0 <= q < QUEUES ==> Distinct(v.rings[q]))
    && (forall q, x :: 0 <= q < QUEUES && x in v.rings[q] ==> x > 0)
  }

  function IndexOf(r: seq<int>, n: int): (k: nat)
    requires n in r
    ensures k < |r| && r[k] == n
  {
    if r[0] == n then 0 else 1 + IndexOf(r[1..], n)
  }

  /** The ring from the node behind `n` on, with or without `n`. */
  ghost function Passed(r: seq<int>, n: int, keep: bool): seq<int>
    requires n in r
  {
    var k := IndexOf(r, n);
    r[k + 1..] + (if keep then r[..k + 1] else r[..k])
  }

  /** The first half of `scheduler_next_task`: the node `n` of queue `q` steps back, and leaves if it is finished. */
  ghost function Released(v: View, q: nat, n: int): View
    requires q < |v.rings| && n in v.rings[q]
  {
    View(v.rings[q := Passed(v.rings[q], n, n !in v.finished)], v.locked - {n}, v.finished - {n})
  }

  /** A node may be dispatched if it is neither locked nor finished. */
  predicate Ready(v: View, n: int) { n !in v.locked && n !in v.finished }

  /** `n` is the first node of the ring that may be dispatched. */
  ghost predicate FirstReady(v: View, r: seq<int>, n: int) {
    exists k :: 0 <= k < |r| && r[k] == n && Ready(v, n) && forall j :: 0 <= j < k ==> !Ready(v, r[j])
  }

  ghost predicate NoneReady(v: View, r: seq<int>) { forall x :: x in r ==> !Ready(v, x) }

  /** The next task: of the lowest queue that has one, the first that may be dispatched; idle if there is none. */
  ghost predicate IsNext(v: View, n: int) {
    if n == IDLE then forall q :: 0 <= q < |v.rings| ==> NoneReady(v, v.rings[q])
    else exists q :: 0 <= q < |v.rings| && FirstReady(v, v.rings[q], n) && forall p :: 0 <= p < q ==> NoneReady(v, v.rings[p])
  }

  // ---------------------------------------------------------------- how the queues hold it

  /** One queue: its ring, its first node and its number of nodes. */
  ghost predicate QueueAt(next: map<int, int>, previous: map<int, int>, queueNum: map<int, nat>, first: int, num: nat, r: seq<int>, q: nat) {
    match r
    case _ =>
      && Ring(next, previous, r) && num == |r| && first == (if r == [] then NULL else r[0])
      && forall x :: x in r ==> x in queueNum && queueNum[x] == q
  }

  ghost predicate QueuesOk(next: map<int, int>, previous: map<int, int>, queueNum: map<int, nat>,
                           first: seq<int>, num: seq<nat>, rings: seq<seq<int>>) {
    && |first| == |num| == |rings| == QUEUES
    && forall q :: 0 <= q < QUEUES ==> QueueAt(next, previous, queueNum, first[q], num[q], rings[q], q)
  }

  /** Links are the same for nodes outside `touched`. */
  ghost predicate SameLinks(next: map<int, int>, previous: map<int, int>, next': map<int, int>, previous': map<int, int>, touched: set<int>) {
    && (forall x :: x in next && x !in touched ==> x in next' && next'[x] == next[x])
    && (forall x :: x in previous && x !in touched ==> x in previous' && previous'[x] == previous[x])
  }

  /** One queue changes, and the nodes of the others are left alone. */
  lemma OneQueue(next: map<int, int>, previous: map<int, int>, queueNum: map<int, nat>, first: seq<int>, num: seq<nat>, rings: seq<seq<int>>,
                 next': map<int, int>, previous': map<int, int>, q: nat, f: int, r: seq<int>, touched: set<int>)
    requires QueuesOk(next, previous, queueNum, first, num, rings) && q < QUEUES
    requires QueueAt(next', previous', queueNum, f, |r|, r, q) && SameLinks(next, previous, next', previous', touched)
    requires forall p, x :: 0 <= p < QUEUES && p != q && x in rings[p] ==> x !in touched
    ensures QueuesOk(next', previous', queueNum, first[q := f], num[q := |r|], rings[q := r])
  {
    var first', num', rings' := first[q := f], num[q := |r|], rings[q := r];
    forall p | 0 <= p < QUEUES
      ensures QueueAt(next', previous', queueNum, first'[p], num'[p], rings'[p], p)
    {
      if p != q {
        assert QueueAt(next, previous, queueNum, first[p], num[p], rings[p], p);
        RingFrame(next, previous, next', previous', rings[p]);
      }
    }
  }

  lemma SingleRing(next: map<int, int>, previous: map<int, int>, x: int)
    requires x in next && next[x] == x && x in previous && previous[x] == x
    ensures Ring(next, previous, [x])
  {
  }

  lemma RingEnds(next: map<int, int>, previous: map<int, int>, r: seq<int>)
    requires Ring(next, previous, r) && r != []
    ensures r[0] in previous && previous[r[0]] == r[|r| - 1] && r[|r| - 1] in next && next[r[|r| - 1]] == r[0]
  {
    assert LinkedAt(next, previous, r, 0) && LinkedAt(next, previous, r, |r| - 1);
  }

  /** Behind the last node of a ring is before its first. */
  lemma AppendRing(next: map<int, int>, previous: map<int, int>, r: seq<int>, x: int)
    requires Ring(next, previous, r) && r != [] && x !in r
    ensures r[|r| - 1] in next && Ring(LinkFd(next, r[|r| - 1], x), LinkBk(next, previous, r[|r| - 1], x), r + [x])
  {
    var n := |r|;
    RotateRing(next, previous, r, n - 1);
    var s := Rotate(r, n - 1);
    InsertAfterFirst(next, previous, s, x);
    var t := [s[0], x] + s[1..];
    RotateRing(LinkFd(next, s[0], x), LinkBk(next, previous, s[0], x), t, 2);
    assert Rotate(t, 2) == r + [x];
  }

  /** The four assignments of the source, in terms of the ring. */
  lemma EnqueueLinks(next: map<int, int>, previous: map<int, int>, r: seq<int>, x: int)
    requires Ring(next, previous, r) && r != [] && x !in r
    ensures r[0] in previous
    ensures Ring(next[x := r[0]][previous[r[0]] := x], previous[x := previous[r[0]]][r[0] := x], r + [x])
    ensures SameLinks(next, previous, next[x := r[0]][previous[r[0]] := x], previous[x := previous[r[0]]][r[0] := x],
                      (set y | y in r) + {x})
  {
    RingEnds(next, previous, r);
    AppendRing(next, previous, r, x);
    var last := r[|r| - 1];
    assert next[x := r[0]][previous[r[0]] := x] == LinkFd(next, last, x);
    assert previous[x := previous[r[0]]][r[0] := x] == LinkBk(next, previous, last, x);
  }

  /** The two assignments of `_scheduler_dequeue_task`. */
  lemma DequeueLinks(next: map<int, int>, previous: map<int, int>, r: seq<int>, k: nat)
    requires Ring(next, previous, r) && k < |r|
    ensures r[k] in next && r[k] in previous
    ensures var x := r[k]; Ring(next[previous[x] := next[x]], previous[next[x] := previous[x]], Without(r, k))
    ensures var x := r[k]; SameLinks(next, previous, next[previous[x] := next[x]], previous[next[x] := previous[x]], set y | y in r)
  {
    assert LinkedAt(next, previous, r, k);
    RemoveAt(next, previous, r, k);
  }

  class Queues {
    // fields of the nodes
    var next: map<int, int>
    var previous: map<int, int>
    var queueNum: map<int, nat>
    var locked: set<int>
    var finished: set<int>
    // `s_queues`
    var first: seq<int>
    var num: seq<nat>

    ghost var rings: seq<seq<int>>

    ghost function TheView(): View
      reads this
    {
      View(rings, locked, finished)
    }

    ghost predicate Valid()
      reads this
    {
      ViewOk(TheView()) && QueuesOk(next, previous, queueNum, first, num, rings)
    }

    /** `scheduler_init` */
    constructor ()
      ensures Valid() && TheView() == View([[], [], []], {}, {})
    {
      next, previous, queueNum := map[], map[], map[];
      locked, finished := {}, {};
      first, num := [NULL, NULL, NULL], [0, 0, 0];
      rings := [[], [], []];
    }

    /** `_scheduler_enqueue_task`: the node goes to the end of its ring. */
    method Enqueue(node: int)
      requires Valid() && node > 0 && !Queued(TheView(), node) && node in queueNum && queueNum[node] < QUEUES
      modifies this`next, this`previous, this`first, this`num, this`rings
      ensures Valid() && rings == old(rings)[queueNum[node] := old(rings)[queueNum[node]] + [node]]
    {
      hide Ring, QueuesOk;
      var q := queueNum[node];
      ghost var r := rings[q];
      ghost var n0, p0 := next, previous;
      QueueFacts(next, previous, queueNum, first, num, rings, q);
      if num[q] == 0 {
        previous, next := previous[node := node], next[node := node];
        assert r + [node] == [node];
        SingleRing(next, previous, node);
        OneQueue(n0, p0, queueNum, first, num, rings, next, previous, q, node, r + [node], {node});
        first := first[q := node];
      } else {
        var f := first[q];
        EnqueueLinks(next, previous, r, node);
        var last := previous[f];
        previous := previous[node := last][f := node];
        next := next[node := f][last := node];
        NotElsewhere(TheView(), q, node);
        OneQueue(n0, p0, queueNum, first, num, rings, next, previous, q, f, r + [node], (set y | y in r) + {node});
        assert first == first[q := f];
      }
      num := num[q := num[q] + 1];
      rings := rings[q := r + [node]];
      AddedOk(old(TheView()), q, node);
    }

    /** `scheduler_add_task`: a new node at the end of a queue, neither locked nor finished. */
    method AddTask(node: int, q: nat)
      requires Valid() && node > 0 && !Queued(TheView(), node) && q < QUEUES
      modifies this
      ensures Valid() && TheView() == Added(old(TheView()), q, node)
      ensures |rings| == |old(rings)| == 3 && rings[q] == old(rings)[q] + [node] && (forall p :: 0 <= p < 3 && p != q ==> rings[p] == old(rings)[p])
      ensures queueNum == old(queueNum)[node := q] && locked == old(locked) - {node} && finished == old(finished) - {node}
    {
      hide Ring, QueuesOk, QueueAt;
      Renumbered(next, previous, queueNum, first, num, rings, node, q);
      queueNum := queueNum[node := q];
      locked, finished := locked - {node}, finished - {node};
      Enqueue(node);
    }

    /**
     `_scheduler_dequeue_task`: the other nodes are one closed ring, but the function does not look at `first`, which
     is left on a node that is gone exactly if the node was the first of several; then no ring at all starts there.
     */
    method Dequeue(node: int)
      requires Valid() && node in queueNum && queueNum[node] < QUEUES && node in rings[queueNum[node]]
      modifies this`next, this`previous, this`first, this`num, this`rings
      ensures var q := queueNum[node];
              var k := IndexOf(old(rings)[q], node);
              rings == old(rings)[q := old(rings)[q][..k] + old(rings)[q][k + 1..]]
      ensures var q := queueNum[node]; |first| == |num| == |rings| == QUEUES && Ring(next, previous, rings[q]) && num[q] == |rings[q]|
      ensures old(num[queueNum[node]]) > 1 ==> first == old(first)
      ensures Valid() <==> old(num[queueNum[node]] <= 1 || first[queueNum[node]] != node)
      ensures var q := queueNum[node];
              (exists r :: QueueAt(next, previous, queueNum, first[q], num[q], r, q)) <==> old(num[q] <= 1 || first[q] != node)
    {
      hide Ring, QueuesOk;
      var q := queueNum[node];
      ghost var r := rings[q];
      ghost var k := IndexOf(r, node);
      ghost var n0, p0 := next, previous;
      QueueFacts(next, previous, queueNum, first, num, rings, q);
      DequeueLinks(next, previous, r, k);
      RemovedOk(TheView(), q, k);
      if num[q] <= 1 {
        EmptyRing(next, previous);
        assert Without(r, k) == [];
        OneQueue(n0, p0, queueNum, first, num, rings, next, previous, q, NULL, [], {});
        first := first[q := NULL];
      } else {
        var n, p := next[node], previous[node];
        previous := previous[n := p];
        next := next[p := n];
        if first[q] == node {
          NoRingThere(n0, p0, r);
        } else {
          OneQueue(n0, p0, queueNum, first, num, rings, next, previous, q, first[q], Without(r, k), set y | y in r);
        }
        assert first == first[q := first[q]];
      }
      num := num[q := num[q] - 1];
      rings := rings[q := Without(r, k)];
      if old(num[q] <= 1 || first[q] != node) {
        QueueFacts(next, previous, queueNum, first, num, rings, q);
      } else {
        DanglingQueue(next, previous, queueNum, first, num, rings, q);
      }
    }

    /** `scheduler_free_task` */
    method FreeTask(node: int)
      requires Valid() && (node != NULL && node != IDLE ==> node in queueNum && queueNum[node] < QUEUES && node in rings[queueNum[node]])
      modifies this
      ensures queueNum == old(queueNum)
      ensures if node == NULL || node == IDLE then Valid() && TheView() == old(TheView())
              else var q := queueNum[node];
                   && rings == old(rings)[q := old(rings)[q][..IndexOf(old(rings)[q], node)] + old(rings)[q][IndexOf(old(rings)[q], node) + 1..]]
                   && locked == old(locked) - {node} && finished == old(finished) - {node}
                   && |first| == QUEUES && (old(num[q]) > 1 ==> first == old(first))
                   && (Valid() <==> old(num[q] <= 1 || first[q] != node))
    {
      hide Ring, QueuesOk, QueueAt, ViewOk;
      if node == NULL || node == IDLE {
        return;
      }
      Dequeue(node);
      ghost var v := TheView();
      locked, finished := locked - {node}, finished - {node};
      FlagsDoNotMatter(v, locked, finished);
    }

    /** "rotate queue" */
    method GoOnBehind(current: int)
      requires Valid() && current in queueNum && queueNum[current] < QUEUES && current in rings[queueNum[current]]
      modifies this`first, this`rings
      ensures Valid()
      ensures var q := queueNum[current]; rings == old(rings)[q := Rotate(old(rings)[q], IndexOf(old(rings)[q], current) + 1)]
      ensures num[queueNum[current]] > 1 ==> first[queueNum[current]] != current
    {
      hide Ring, QueuesOk, IndexOf, Apart;
      var q := queueNum[current];
      ghost var r := rings[q];
      ghost var k := IndexOf(r, current);
      QueueFacts(next, previous, queueNum, first, num, rings, q);
      RingStep(next, previous, r, k);
      RotateRing(next, previous, r, k + 1);
      RotatedOk(TheView(), q, k);
      RotatedLast(r, k);
      OneQueue(next, previous, queueNum, first, num, rings, next, previous, q, next[current], Rotate(r, k + 1), {});
      assert num == num[q := |r|];
      first := first[q := next[current]];
      rings := rings[q := Rotate(r, k + 1)];
    }

    /**
     The first half of `scheduler_next_task`: the queue of the current task goes on behind it, and it is
     unlocked, or freed if it is finished.
     */
    method Release(current: int)
      requires Valid() && (current != NULL && current != IDLE ==> current in queueNum && queueNum[current] < QUEUES && current in rings[queueNum[current]])
      modifies this
      ensures Valid() && queueNum == old(queueNum)
      ensures current != 0 && current != -1 ==>
                && locked == old(locked) - {current} && finished == old(finished) - {current} && |rings| == |old(rings)| == 3
                && (forall p :: 0 <= p < 3 && p != queueNum[current] ==> rings[p] == old(rings)[p])
                && exists k :: 0 <= k < |old(rings)[queueNum[current]]| && old(rings)[queueNum[current]][k] == current &&
                     rings[queueNum[current]] == old(rings)[queueNum[current]][k + 1..] + old(rings)[queueNum[current]][..k] +
                                                 if current in old(finished) then [] else [current]
      ensures TheView() == if current != NULL && current != IDLE then Released(old(TheView()), queueNum[current], current) else old(TheView())
    {
      hide Ring, QueuesOk, ViewOk, Passed, IndexOf;
      if current == NULL || current == IDLE {
        return;
      }
      ghost var v, q := TheView(), queueNum[current];
      PassedIs(v, q, current);
      locked := locked + {current};
      FlagsFree(v, locked, finished);
      GoOnBehind(current);
      if current in finished {
        FreeTask(current);
      } else {
        FlagsFree(TheView(), locked - {current}, finished);
        locked := locked - {current};
        assert finished - {current} == finished;
      }
      assert rings == v.rings[q := Passed(v.rings[q], current, current !in v.finished)];
      assert locked == v.locked - {current};
      PassedMeans(v.rings[q], current, current !in v.finished);
    }

    /** One queue of the second half: the first node that may be dispatched is locked. */
    method ScanQueue(q: nat) returns (n: int)
      requires Valid() && q < QUEUES
      modifies this`locked
      ensures Valid()
      ensures n == NULL ==> locked == old(locked) && NoneReady(TheView(), rings[q])
      ensures n != NULL ==> FirstReady(old(TheView()), rings[q], n) && locked == old(locked) + {n}
      ensures n == 0 ==> locked == old(locked) && forall x :: x in rings[q] ==> x in locked || x in finished
      ensures n != 0 ==> n !in old(locked) && n !in finished && locked == old(locked) + {n} &&
                         exists k :: 0 <= k < |rings[q]| && rings[q][k] == n && forall j :: 0 <= j < k ==> rings[q][j] in old(locked) || rings[q][j] in finished
    {
      hide Ring, QueuesOk, ViewOk;
      QueueFacts(next, previous, queueNum, first, num, rings, q);
      ghost var r := rings[q];
      n := NULL;
      var node := first[q];
      if node == NULL {
        EmptyOrNot(TheView(), q);
        return;
      }
      EmptyOrNot(TheView(), q);
      for j := 0 to num[q]
        invariant locked == old(locked) && r != [] && node == r[if j < |r| then j else 0]
        invariant forall i :: 0 <= i < j ==> !Ready(TheView(), r[i])
      {
        if node !in locked && node !in finished {
          FlagsFree(TheView(), locked + {node}, finished);
          locked := locked + {node};
          n := node;
          assert r[j] == n && n in r;
          return;
        }
        RingStep(next, previous, r, j);
        node := next[node];
      }
      assert forall x :: x in r ==> exists i :: 0 <= i < |r| && r[i] == x;
    }

    /**
     `scheduler_next_task` without interference: after the current task has stepped back, the first task that may be
     dispatched, of the lowest queue that has one, is locked; the idle task if there is none.
     */
    method NextTask(current: int) returns (n: int)
      requires Valid() && (current != NULL && current != IDLE ==> current in queueNum && queueNum[current] < QUEUES && current in rings[queueNum[current]])
      modifies this
      ensures Valid()
      ensures var v := if current != NULL && current != IDLE then Released(old(TheView()), old(queueNum)[current], current) else old(TheView());
              IsNext(v, n) && TheView() == if n == IDLE then v else v.(locked := v.locked + {n})
      ensures |rings| == 3
      ensures n == -1 ==> forall q, x :: 0 <= q < 3 && x in rings[q] ==> x in locked || x in finished
      ensures n != -1 ==> n in locked && n !in finished
      ensures n != -1 ==>
                exists q, k ::
                  && 0 <= q < 3 && 0 <= k < |rings[q]| && rings[q][k] == n
                  && (forall j :: 0 <= j < k ==> rings[q][j] in locked || rings[q][j] in finished)
                  && forall p, x :: 0 <= p < q && x in rings[p] ==> x in locked || x in finished
    {
      hide Ring, QueuesOk, Passed, FirstReady, NoneReady;
      Release(current);
      ghost var v := TheView();
      for i := 0 to QUEUES
        invariant Valid() && TheView() == v && forall p :: 0 <= p < i ==> NoneReady(v, v.rings[p])
      {
        var node := ScanQueue(i);
        if node != NULL {
          n := node;
          NotIdle(v, i, n);
          NextMeans(v, i, n);
          return;
        }
      }
      n := IDLE;
      NoneMeans(v);
    }
  }

  lemma PassedMeans(r: seq<int>, n: int, keep: bool)
    requires n in r
    ensures exists k :: 0 <= k < |r| && r[k] == n && Passed(r, n, keep) == r[k + 1..] + r[..k] + if keep then [n] else []
  {
    var k := IndexOf(r, n);
    assert r[..k + 1] == r[..k] + [n];
    assert Passed(r, n, keep) == r[k + 1..] + r[..k] + if keep then [n] else [];
  }

  lemma NextMeans(v: View, q: nat, n: int)
    requires ViewOk(v) && q < QUEUES && FirstReady(v, v.rings[q], n) && forall p :: 0 <= p < q ==> NoneReady(v, v.rings[p])
    ensures n !in v.finished
    ensures exists k :: 0 <= k < |v.rings[q]| && v.rings[q][k] == n &&
              forall j :: 0 <= j < k ==> v.rings[q][j] in v.locked + {n} || v.rings[q][j] in v.finished
    ensures forall p, x :: 0 <= p < q && x in v.rings[p] ==> x in v.locked || x in v.finished
  {
    forall p, x | 0 <= p < q && x in v.rings[p]
      ensures x in v.locked || x in v.finished
    {
      assert NoneReady(v, v.rings[p]);
    }
  }

  lemma NoneMeans(v: View)
    requires ViewOk(v) && forall p :: 0 <= p < QUEUES ==> NoneReady(v, v.rings[p])
    ensures forall p, x :: 0 <= p < 3 && x in v.rings[p] ==> x in v.locked || x in v.finished
  {
    forall p, x | 0 <= p < 3 && x in v.rings[p]
      ensures x in v.locked || x in v.finished
    {
      assert NoneReady(v, v.rings[p]);
    }
  }

  lemma QueueFacts(next: map<int, int>, previous: map<int, int>, queueNum: map<int, nat>, first: seq<int>, num: seq<nat>, rings: seq<seq<int>>, q: nat)
    requires QueuesOk(next, previous, queueNum, first, num, rings) && q < QUEUES
    ensures |first| == |num| == |rings| == QUEUES && QueueAt(next, previous, queueNum, first[q], num[q], rings[q], q)
  {
  }

  lemma NotElsewhere(v: View, q: nat, node: int)
    requires ViewOk(v) && q < QUEUES && !Queued(v, node)
    ensures forall p, x :: 0 <= p < QUEUES && p != q && x in v.rings[p] ==> x !in v.rings[q] && x != node
  {
    forall p, x | 0 <= p < QUEUES && p != q && x in v.rings[p]
      ensures x !in v.rings[q] && x != node
    {
      assert p < q || q < p;
    }
  }

  lemma AddedOk(v: View, q: nat, node: int)
    requires ViewOk(v) && q < QUEUES && !Queued(v, node) && node > 0
    ensures ViewOk(v.(rings := v.rings[q := v.rings[q] + [node]]))
  {
    NotElsewhere(v, q, node);
  }

  ghost function Added(v: View, q: nat, node: int): View
    requires q < |v.rings|
  {
    View(v.rings[q := v.rings[q] + [node]], v.locked - {node}, v.finished - {node})
  }

  /** For every queue: the node goes to the end of the queue that is asked for, and to no other. */
  lemma AddedMeans(v: View, q: nat, node: int)
    requires q < |v.rings|
    ensures var v' := Added(v, q, node);
            && |v'.rings| == |v.rings| && v'.rings[q] == v.rings[q] + [node] && (forall p :: 0 <= p < |v.rings| && p != q ==> v'.rings[p] == v.rings[p])
            && v'.locked == v.locked - {node} && v'.finished == v.finished - {node}
  {
  }

  lemma Renumbered(next: map<int, int>, previous: map<int, int>, queueNum: map<int, nat>, first: seq<int>, num: seq<nat>, rings: seq<seq<int>>, node: int, q: nat)
    requires QueuesOk(next, previous, queueNum, first, num, rings) && forall p :: 0 <= p < QUEUES ==> node !in rings[p]
    ensures QueuesOk(next, previous, queueNum[node := q], first, num, rings)
  {
    forall p | 0 <= p < QUEUES
      ensures QueueAt(next, previous, queueNum[node := q], first[p], num[p], rings[p], p)
    {
      assert QueueAt(next, previous, queueNum, first[p], num[p], rings[p], p);
    }
  }

  lemma EmptyRing(next: map<int, int>, previous: map<int, int>)
    ensures Ring(next, previous, [])
  {
  }

  lemma RingStep(next: map<int, int>, previous: map<int, int>, r: seq<int>, k: nat)
    requires Ring(next, previous, r) && k < |r|
    ensures r[k] in next && next[r[k]] == r[Succ(k, |r|)]
  {
    assert LinkedAt(next, previous, r, k);
  }

  lemma RemovedOk(v: View, q: nat, k: nat)
    requires ViewOk(v) && q < QUEUES && k < |v.rings[q]|
    ensures ViewOk(v.(rings := v.rings[q := Without(v.rings[q], k)]))
    ensures forall p, x :: 0 <= p < QUEUES && p != q && x in v.rings[p] ==> x !in v.rings[q]
    ensures |v.rings[q]| > 1 && k > 0 ==> Without(v.rings[q], k) != [] && Without(v.rings[q], k)[0] == v.rings[q][0]
    ensures forall x :: x in Without(v.rings[q], k) ==> x in v.rings[q]
  {
    forall p, x | 0 <= p < QUEUES && p != q && x in v.rings[p]
      ensures x !in v.rings[q]
    {
      assert p < q || q < p;
    }
    var r' := Without(v.rings[q], k);
    assert forall x :: x in r' ==> x in v.rings[q];
    assert Distinct(r');
  }

  lemma RotatedOk(v: View, q: nat, k: nat)
    requires ViewOk(v) && q < QUEUES && k < |v.rings[q]|
    ensures ViewOk(v.(rings := v.rings[q := Rotate(v.rings[q], k + 1)]))
  {
    var r, r' := v.rings[q], Rotate(v.rings[q], k + 1);
    assert forall x :: x in r' ==> x in r;
  }

  /** The node that the queue goes on behind is its last one. */
  lemma RotatedLast(r: seq<int>, k: nat)
    requires Distinct(r) && k < |r|
    ensures var r' := Rotate(r, k + 1);
            && |r'| == |r| && r[k] in r' && r'[0] == r[Succ(k, |r|)] && IndexOf(r, r[k]) == k && IndexOf(r', r[k]) == |r| - 1
            && Without(r', |r| - 1) == r[k + 1..] + r[..k] && (|r| > 1 ==> r'[0] != r[k])
            && forall x :: x in r' ==> x in r
  {
    var r' := Rotate(r, k + 1);
    assert r'[|r| - 1] == r[k];
    assert Distinct(r') by {
      forall i, j | 0 <= i < j < |r'|
        ensures r'[i] != r'[j]
      {
      }
    }
    UniqueIndex(r, k);
    UniqueIndex(r', |r| - 1);
  }

  lemma UniqueIndex(r: seq<int>, k: nat)
    requires Distinct(r) && k < |r|
    ensures IndexOf(r, r[k]) == k
  {
    var i := IndexOf(r, r[k]);
    assert i < k || k < i || i == k;
  }

  lemma ThereAndBack(next: map<int, int>, previous: map<int, int>, s: seq<int>)
    requires Ring(next, previous, s) && s != []
    ensures s[0] in next && next[s[0]] in previous && previous[next[s[0]]] == s[0]
  {
    assert LinkedAt(next, previous, s, 0) && LinkedAt(next, previous, s, Succ(0, |s|));
  }

  /** Once the first of several nodes is taken out, the node behind it does not point back to it. */
  lemma NoRingThere(next: map<int, int>, previous: map<int, int>, r: seq<int>)
    requires Ring(next, previous, r) && |r| > 1
    ensures r[0] in next && r[0] in previous
    ensures var x := r[0]; forall s :: s != [] && s[0] == x ==> !Ring(next[previous[x] := next[x]], previous[next[x] := previous[x]], s)
  {
    assert LinkedAt(next, previous, r, 0);
    var x := r[0];
    var next', previous' := next[previous[x] := next[x]], previous[next[x] := previous[x]];
    assert next'[x] == r[1] && previous'[r[1]] == r[|r| - 1];
    forall s | s != [] && s[0] == x
      ensures !Ring(next', previous', s)
    {
      if Ring(next', previous', s) {
        ThereAndBack(next', previous', s);
      }
    }
  }

  /** A queue whose `first` begins no ring is not well formed, whatever its ring is taken to be. */
  lemma DanglingQueue(next: map<int, int>, previous: map<int, int>, queueNum: map<int, nat>, first: seq<int>, num: seq<nat>, rings: seq<seq<int>>, q: nat)
    requires |first| == |num| == |rings| == QUEUES && q < QUEUES && num[q] > 0
    requires forall s :: s != [] && s[0] == first[q] ==> !Ring(next, previous, s)
    ensures forall r :: !QueueAt(next, previous, queueNum, first[q], num[q], r, q)
    ensures !QueuesOk(next, previous, queueNum, first, num, rings)
  {
    forall r
      ensures !QueueAt(next, previous, queueNum, first[q], num[q], r, q)
    {
    }
  }

  /** Two tasks, of which the first is freed: `first` is left on it. */
  method FirstIsLeftBehind() returns (qs: Queues)
    ensures !qs.Valid() && qs.rings == [[2], [], []] && |qs.first| == QUEUES && qs.first[0] == 1
  {
    hide Ring, QueuesOk, ViewOk, QueueAt;
    qs := new Queues();
    qs.AddTask(1, 0);
    qs.AddTask(2, 0);
    assert qs.rings[0] == [1, 2];
    ghost var r := qs.rings[0];
    NumberedAs(qs, 0, 1);
    qs.FreeTask(1);
    assert Without(r, 0) == [2];
  }

  /** Nodes carry the number of the queue they are in. */
  lemma NumberedAs(qs: Queues, q: nat, n: int)
    requires qs.Valid() && q < QUEUES && n in qs.rings[q]
    ensures n in qs.queueNum && qs.queueNum[n] == q && |qs.first| == |qs.num| == QUEUES
    ensures qs.first[q] == qs.rings[q][0] && qs.num[q] == |qs.rings[q]|
  {
    QueueFacts(qs.next, qs.previous, qs.queueNum, qs.first, qs.num, qs.rings, q);
  }

  lemma FlagsDoNotMatter(v: View, locked: set<int>, finished: set<int>)
    ensures ViewOk(v) <==> ViewOk(View(v.rings, locked, finished))
  {
  }

  /** Whether the rings are well formed does not depend on flags. */
  lemma FlagsFree(v: View, locked: set<int>, finished: set<int>)
    requires ViewOk(v)
    ensures ViewOk(View(v.rings, locked, finished))
  {
  }

  /** Rotating the ring behind a node, and taking the node out, in terms of `Passed`. */
  lemma PassedIs(v: View, q: nat, n: int)
    requires ViewOk(v) && q < QUEUES && n in v.rings[q]
    ensures |v.rings| == QUEUES && IndexOf(v.rings[q], n) < |v.rings[q]|
    ensures var r := v.rings[q]; var r' := Rotate(r, IndexOf(r, n) + 1);
            n in r' && |r'| == |r| && Passed(r, n, true) == r' && Passed(r, n, false) == Without(r', IndexOf(r', n))
  {
    RotatedLast(v.rings[q], IndexOf(v.rings[q], n));
  }

  lemma EmptyOrNot(v: View, q: nat)
    requires ViewOk(v) && q < QUEUES
    ensures v.rings[q] == [] ==> NoneReady(v, v.rings[q])
    ensures v.rings[q] != [] ==> v.rings[q][0] != NULL
    ensures forall x :: x in v.rings[q] ==> x != NULL && x != IDLE
  {
    if v.rings[q] != [] {
      assert v.rings[q][0] in v.rings[q];
    }
  }

  lemma NotIdle(v: View, q: nat, n: int)
    requires ViewOk(v) && q < QUEUES && FirstReady(v, v.rings[q], n)
    ensures n != IDLE && n != NULL
  {
    EmptyOrNot(v, q);
    var k :| 0 <= k < |v.rings[q]| && v.rings[q][k] == n;
    assert n in v.rings[q];
  }
}
