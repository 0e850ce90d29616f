/**
 Several processors that share the queues: what holds in every interleaving of their steps.

 The release half of `scheduler_next_task` and each scan of one queue are taken as steps that are not interrupted;
 anything may happen between them.
 */
module Smp {
  import opened Rings
  import opened Scheduler

  /** A processor runs a task, or looks for one in the queues from `queue` on. */
  datatype Cpu = Running(node: int) | Scanning(queue: nat)

  datatype Machine = Machine(v: View, cpus: seq<Cpu>)

  datatype Action =
    | StepBack(c: nat)
    | Scan(c: nat)
    | Finish(c: nat)
    | Add(node: int, q: nat)

  predicate IsTask(n: int) { n != NULL && n != IDLE }

  ghost predicate Runs(s: Machine, c: int, n: int) { 0 <= c < |s.cpus| && s.cpus[c] == Running(n) }

  /** One step of the machine. */
  ghost predicate Next(s: Machine, a: Action, s': Machine) {
    match a
    case StepBack(c) =>
      && c < |s.cpus| && s.cpus[c].Running? && s'.cpus == s.cpus[c := Scanning(0)]
      && (if IsTask(s.cpus[c].node) then
            exists q :: 0 <= q < |s.v.rings| && s.cpus[c].node in s.v.rings[q] && s'.v == Released(s.v, q, s.cpus[c].node)
          else s'.v == s.v)
    case Scan(c) =>
      && c < |s.cpus| && s.cpus[c].Scanning?
      && (if s.cpus[c].queue >= |s.v.rings| then s' == Machine(s.v, s.cpus[c := Running(IDLE)])
          else if NoneReady(s.v, s.v.rings[s.cpus[c].queue]) then s' == Machine(s.v, s.cpus[c := Scanning(s.cpus[c].queue + 1)])
          else exists n :: FirstReady(s.v, s.v.rings[s.cpus[c].queue], n) &&
                 s' == Machine(s.v.(locked := s.v.locked + {n}), s.cpus[c := Running(n)]))
    case Finish(c) =>
      && c < |s.cpus| && s.cpus[c].Running? && IsTask(s.cpus[c].node)
      && s' == s.(v := s.v.(finished := s.v.finished + {s.cpus[c].node}))
    case Add(node, q) =>
      && node > 0 && !Queued(s.v, node) && q < |s.v.rings| && s' == s.(v := Added(s.v, q, node))
  }

  /** The processor is where the step starts; tasks may be added at any time. */
  predicate Enabled(cpus: seq<Cpu>, a: Action) {
    match a
    case StepBack(c) => c < |cpus| && cpus[c].Running?
    case Scan(c) => c < |cpus| && cpus[c].Scanning?
    case Finish(c) => c < |cpus| && cpus[c].Running? && IsTask(cpus[c].node)
    case Add(_, _) => true
  }

  /**
   A task is current on at most one processor, its lock is set exactly while it is current, and a finished task is
   still current: it leaves its ring before anyone else can find it.
   */
  ghost predicate Safe(s: Machine) {
    && ViewOk(s.v)
    && (forall c, n :: Runs(s, c, n) && IsTask(n) ==> Queued(s.v, n))
    && (forall c, d, n :: Runs(s, c, n) && Runs(s, d, n) && IsTask(n) ==> c == d)
    && (forall n :: n in s.v.locked <==> IsTask(n) && exists c :: Runs(s, c, n))
    && (forall n :: n in s.v.finished ==> n in s.v.locked)
  }

  // ---------------------------------------------------------------- every step keeps it

  lemma QueuedOnce(v: View, q: nat, n: int)
    requires ViewOk(v) && q < QUEUES && n in v.rings[q]
    ensures forall p :: 0 <= p < QUEUES && p != q ==> n !in v.rings[p]
  {
    forall p | 0 <= p < QUEUES && p != q
      ensures n !in v.rings[p]
    {
      assert p < q || q < p;
    }
  }

  lemma PassedMembers(r: seq<int>, n: int, keep: bool)
    requires Distinct(r) && n in r
    ensures forall x :: x in Passed(r, n, keep) <==> x in r && (x != n || keep)
  {
    var k := IndexOf(r, n);
    var r' := Passed(r, n, keep);
    forall x | x in r && (x != n || keep)
      ensures x in r'
    {
      var i := IndexOf(r, x);
      if i > k {
        assert r[k + 1..][i - k - 1] == x;
      } else if i < k {
        assert r[..k][i] == x && r[..k + 1][i] == x;
      } else {
        assert r[..k + 1][k] == x;
      }
    }
  }

  lemma ReleasedOk(v: View, q: nat, n: int)
    requires ViewOk(v) && q < QUEUES && n in v.rings[q]
    ensures ViewOk(Released(v, q, n))
  {
    hide Passed;
    var r := v.rings[q];
    var k := IndexOf(r, n);
    RotatedLast(r, k);
    PassedIs(v, q, n);
    RotatedOk(v, q, k);
    var w := v.(rings := v.rings[q := Rotate(r, k + 1)]);
    if n in v.finished {
      RemovedOk(w, q, |r| - 1);
      assert w.rings[q := Passed(r, n, false)] == Released(v, q, n).rings;
      FlagsFree(w.(rings := w.rings[q := Passed(r, n, false)]), v.locked - {n}, v.finished - {n});
    } else {
      FlagsFree(w, v.locked - {n}, v.finished - {n});
    }
  }

  /** After a node has stepped back, the other nodes are queued as before. */
  lemma ReleasedView(v: View, q: nat, n: int)
    requires ViewOk(v) && q < QUEUES && n in v.rings[q]
    ensures ViewOk(Released(v, q, n))
    ensures forall x :: x != n ==> (Queued(Released(v, q, n), x) <==> Queued(v, x))
    ensures Queued(Released(v, q, n), n) <==> n !in v.finished
  {
    hide Passed;
    ReleasedOk(v, q, n);
    PassedMembers(v.rings[q], n, n !in v.finished);
    QueuedOnce(v, q, n);
    var v' := Released(v, q, n);
    assert forall p :: 0 <= p < QUEUES && p != q ==> v'.rings[p] == v.rings[p];
    forall x
      ensures Queued(v', x) <==> if x == n then n !in v.finished else Queued(v, x)
    {
      if Queued(v', x) {
        var p :| 0 <= p < |v'.rings| && x in v'.rings[p];
        assert x in v.rings[p];
      }
      if Queued(v, x) && (x != n || n !in v.finished) {
        var p :| 0 <= p < |v.rings| && x in v.rings[p];
        assert x in v'.rings[p];
      }
    }
  }

  lemma StepBackSafe(s: Machine, c: nat, s': Machine)
    requires Safe(s) && Next(s, StepBack(c), s')
    ensures Safe(s')
  {
    var n := s.cpus[c].node;
    assert Runs(s, c, n);
    assert forall d, x :: Runs(s', d, x) <==> Runs(s, d, x) && d != c;
    if IsTask(n) {
      var q :| 0 <= q < |s.v.rings| && n in s.v.rings[q] && s'.v == Released(s.v, q, n);
      ReleasedView(s.v, q, n);
      forall x
        ensures x in s'.v.locked <==> IsTask(x) && exists d :: Runs(s', d, x)
      {
        if x in s.v.locked && x != n {
          var d :| Runs(s, d, x);
          assert Runs(s', d, x);
        }
      }
    } else {
      forall x
        ensures x in s'.v.locked <==> IsTask(x) && exists d :: Runs(s', d, x)
      {
        if x in s.v.locked {
          var d :| Runs(s, d, x);
          assert Runs(s', d, x);
        }
      }
    }
  }

  lemma ScanSafe(s: Machine, c: nat, s': Machine)
    requires Safe(s) && Next(s, Scan(c), s')
    ensures Safe(s')
  {
    var i := s.cpus[c].queue;
    assert forall d, x :: Runs(s, d, x) ==> d != c;
    assert forall d, x :: d != c ==> (Runs(s', d, x) <==> Runs(s, d, x));
    if i < |s.v.rings| && !NoneReady(s.v, s.v.rings[i]) {
      var n :| FirstReady(s.v, s.v.rings[i], n) && s' == Machine(s.v.(locked := s.v.locked + {n}), s.cpus[c := Running(n)]);
      NotIdle(s.v, i, n);
      assert n in s.v.rings[i] && Ready(s.v, n);
      assert Runs(s', c, n);
      TakenSafe(s, c, n, s');
    } else {
      forall x
        ensures x in s'.v.locked <==> IsTask(x) && exists d :: Runs(s', d, x)
      {
        if x in s.v.locked {
          var d :| Runs(s, d, x);
          assert Runs(s', d, x);
        }
      }
    }
  }

  lemma TakenSafe(s: Machine, c: nat, n: int, s': Machine)
    requires Safe(s) && c < |s.cpus| && s.cpus[c].Scanning? && IsTask(n) && Queued(s.v, n) && Ready(s.v, n)
    requires s' == Machine(s.v.(locked := s.v.locked + {n}), s.cpus[c := Running(n)])
    ensures Safe(s')
  {
    assert Runs(s', c, n);
    assert forall d, x :: Runs(s', d, x) <==> (if d == c then x == n else Runs(s, d, x));
    forall x
      ensures x in s'.v.locked <==> IsTask(x) && exists d :: Runs(s', d, x)
    {
      if x in s.v.locked {
        var d :| Runs(s, d, x);
        assert Runs(s', d, x);
      }
    }
    assert forall x :: Queued(s'.v, x) <==> Queued(s.v, x);
  }

  lemma FinishSafe(s: Machine, c: nat, s': Machine)
    requires Safe(s) && Next(s, Finish(c), s')
    ensures Safe(s')
  {
    assert Runs(s, c, s.cpus[c].node);
    assert forall d, x :: Runs(s', d, x) <==> Runs(s, d, x);
    assert forall x :: Queued(s'.v, x) <==> Queued(s.v, x);
  }

  lemma AddSafe(s: Machine, node: int, q: nat, s': Machine)
    requires Safe(s) && Next(s, Add(node, q), s')
    ensures Safe(s')
  {
    AddedOk(s.v, q, node);
    assert forall d, x :: Runs(s', d, x) <==> Runs(s, d, x);
    assert node !in s.v.locked;
    assert s'.v.locked == s.v.locked && s'.v.finished == s.v.finished;
    forall x | Queued(s.v, x)
      ensures Queued(s'.v, x)
    {
      var p :| 0 <= p < |s.v.rings| && x in s.v.rings[p];
      assert x in s'.v.rings[p];
    }
  }

  lemma StepSafe(s: Machine, a: Action, s': Machine)
    requires Safe(s) && Next(s, a, s')
    ensures Safe(s')
  {
    hide Safe, Next;
    match a
    case StepBack(c) => StepBackSafe(s, c, s');
    case Scan(c) => ScanSafe(s, c, s');
    case Finish(c) => FinishSafe(s, c, s');
    case Add(node, q) => AddSafe(s, node, q, s');
  }

  /** All processors start without a task, and all queues empty. */
  ghost function Start(n: nat): Machine { Machine(View([[], [], []], {}, {}), seq(n, _ => Running(NULL))) }

  ghost predicate IsRun(run: seq<Machine>, actions: seq<Action>) {
    && |run| == |actions| + 1
    && forall i :: 0 <= i < |actions| ==> Next(run[i], actions[i], run[i + 1])
  }

  /** Every interleaving of the steps of any number of processors is safe at every moment. */
  lemma {:induction false} AlwaysSafe(n: nat, run: seq<Machine>, actions: seq<Action>, i: nat)
    requires IsRun(run, actions) && run[0] == Start(n) && i < |run|
    ensures Safe(run[i])
  {
    if i == 0 {
      StartSafe(n);
    } else {
      AlwaysSafe(n, run, actions, i - 1);
      StepSafe(run[i - 1], actions[i - 1], run[i]);
    }
  }

  lemma StartSafe(n: nat)
    ensures Safe(Start(n))
  {
  }

  // ---------------------------------------------------------------- what the steps amount to

  /** What one step does, task by task. */
  lemma StepMeans(s: Machine, a: Action, s': Machine)
    requires Next(s, a, s') && Safe(s)
    ensures |s'.cpus| == |s.cpus| && |s'.v.rings| == |s.v.rings| == 3
    ensures forall d :: 0 <= d < |s.cpus| && !(!a.Add? && a.c == d) ==> s'.cpus[d] == s.cpus[d]
    ensures a.Add? ==>
              && a.q < 3 && s'.v.rings == s.v.rings[a.q := s.v.rings[a.q] + [a.node]] && s'.cpus == s.cpus
              && s'.v.locked == s.v.locked - {a.node} && s'.v.finished == s.v.finished - {a.node}
    ensures a.Finish? ==>
              s' == Machine(View(s.v.rings, s.v.locked, s.v.finished + {s.cpus[a.c].node}), s.cpus)
    ensures a.StepBack? ==>
              var n := s.cpus[a.c].node;
              && s'.cpus[a.c] == Scanning(0)
              && if n == 0 || n == -1 then s'.v == s.v
                 else
                   && s'.v.locked == s.v.locked - {n} && s'.v.finished == s.v.finished - {n}
                   && exists q, k ::
                        && 0 <= q < 3 && 0 <= k < |s.v.rings[q]| && s.v.rings[q][k] == n
                        && s'.v.rings == s.v.rings[q := s.v.rings[q][k + 1..] + s.v.rings[q][..k] + if n in s.v.finished then [] else [n]]
  {
    if a.StepBack? && IsTask(s.cpus[a.c].node) {
      var n := s.cpus[a.c].node;
      var q :| 0 <= q < |s.v.rings| && n in s.v.rings[q] && s'.v == Released(s.v, q, n);
      PassedMeans(s.v.rings[q], n, n !in s.v.finished);
    }
  }

  ghost predicate Scans(run: seq<Machine>, c: nat) {
    |run| > 0 && forall i :: 0 <= i < |run| - 1 ==> Next(run[i], Scan(c), run[i + 1])
  }

  /**
   A processor that steps back and scans without interference ends where `scheduler_next_task` ends: the first ready
   task of the lowest queue that has one is locked and runs, or the idle task runs and no task is ready.
   */
  lemma {:induction false} Undisturbed(run: seq<Machine>, c: nat, i: nat)
    requires Scans(run, c) && i < |run| && Safe(run[0]) && c < |run[0].cpus| && run[0].cpus[c] == Scanning(0)
    ensures c < |run[i].cpus|
    ensures run[i].cpus[c].Scanning? ==>
              && run[i].v == run[0].v && run[i].cpus[c].queue == i <= 3
              && forall p :: 0 <= p < i ==> NoneReady(run[0].v, run[0].v.rings[p])
    ensures run[i].cpus[c].Running? ==>
              && i + 1 == |run| && IsNext(run[0].v, run[i].cpus[c].node)
              && run[i].v == if run[i].cpus[c].node == -1 then run[0].v else run[0].v.(locked := run[0].v.locked + {run[i].cpus[c].node})
    ensures i <= 4 && (i + 1 == |run| || run[i].cpus[c].Scanning?)
  {
    hide FirstReady, NoneReady;
    QueueCount3(run[0]);
    assert i + 1 < |run| ==> Next(run[i], Scan(c), run[i + 1]);
    if i > 0 {
      Undisturbed(run, c, i - 1);
      assert Next(run[i - 1], Scan(c), run[i]);
      if run[i].cpus[c].Running? && run[i].cpus[c].node != IDLE {
        assert FirstReady(run[0].v, run[0].v.rings[i - 1], run[i].cpus[c].node);
      } else if run[i].cpus[c].Running? && i - 1 < 3 {
        var n :| FirstReady(run[0].v, run[0].v.rings[i - 1], n) && run[i].cpus[c] == Running(n);
        NotIdle(run[0].v, i - 1, n);
      }
    }
  }

  lemma QueueCount3(s: Machine)
    requires Safe(s)
    ensures |s.v.rings| == 3 && ViewOk(s.v)
  {
  }

  // ---------------------------------------------------------------- the steps on the linked nodes

  lemma NumberedByQueue(qs: Queues, n: int)
    requires qs.Valid() && Queued(qs.TheView(), n)
    ensures n in qs.queueNum && qs.queueNum[n] < QUEUES && n in qs.rings[qs.queueNum[n]]
  {
    var q :| 0 <= q < QUEUES && n in qs.rings[q];
    QueueFacts(qs.next, qs.previous, qs.queueNum, qs.first, qs.num, qs.rings, q);
  }

  lemma CurrentQueued(s: Machine, c: nat)
    requires Safe(s) && c < |s.cpus| && s.cpus[c].Running? && IsTask(s.cpus[c].node)
    ensures Queued(s.v, s.cpus[c].node)
  {
    assert Runs(s, c, s.cpus[c].node);
  }

  lemma SomeReady(v: View, q: nat, n: int)
    requires q < |v.rings| && FirstReady(v, v.rings[q], n)
    ensures !NoneReady(v, v.rings[q])
  {
    assert n in v.rings[q];
  }

  /** The code of the scheduler, on the links of the nodes, takes every step of the machine that can be taken. */
  method Perform(qs: Queues, cpus: seq<Cpu>, a: Action) returns (done: bool, cpus': seq<Cpu>)
    requires qs.Valid() && Safe(Machine(qs.TheView(), cpus))
    requires a.Add? ==> a.node > 0 && a.q < QUEUES && !Queued(qs.TheView(), a.node)
    modifies qs
    ensures qs.Valid() && Safe(Machine(qs.TheView(), cpus'))
    ensures done <==> Enabled(cpus, a)
    ensures done <==> match a
                      case StepBack(c) => c < |cpus| && cpus[c].Running?
                      case Scan(c) => c < |cpus| && cpus[c].Scanning?
                      case Finish(c) => c < |cpus| && cpus[c].Running? && cpus[c].node != 0 && cpus[c].node != -1
                      case Add(_, _) => true
    ensures done ==> Next(Machine(old(qs.TheView()), cpus), a, Machine(qs.TheView(), cpus'))
    ensures !done ==> qs.TheView() == old(qs.TheView()) && cpus' == cpus
  {
    hide QueuesOk, Passed, Safe;
    ghost var s := Machine(qs.TheView(), cpus);
    done, cpus' := false, cpus;
    match a {
      case StepBack(c) =>
        if c < |cpus| && cpus[c].Running? {
          var n := cpus[c].node;
          if IsTask(n) {
            CurrentQueued(s, c);
            NumberedByQueue(qs, n);
          }
          qs.Release(n);
          done, cpus' := true, cpus[c := Scanning(0)];
        }
      case Scan(c) =>
        if c < |cpus| && cpus[c].Scanning? {
          var i := cpus[c].queue;
          done := true;
          if i >= QUEUES {
            cpus' := cpus[c := Running(IDLE)];
          } else {
            var n := qs.ScanQueue(i);
            if n == NULL {
              cpus' := cpus[c := Scanning(i + 1)];
            } else {
              SomeReady(s.v, i, n);
              cpus' := cpus[c := Running(n)];
            }
          }
        }
      case Finish(c) =>
        if c < |cpus| && cpus[c].Running? && IsTask(cpus[c].node) {
          qs.finished := qs.finished + {cpus[c].node};
          FlagsFree(s.v, s.v.locked, qs.finished);
          done := true;
        }
      case Add(node, q) =>
        qs.AddTask(node, q);
        done := true;
    }
    if done {
      StepSafe(s, a, Machine(qs.TheView(), cpus'));
    }
  }
}
