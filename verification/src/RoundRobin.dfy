/**
 One processor alone: every run of `scheduler_next_task` and `scheduler_add_task` serves the tasks of a queue in turn,
 whatever arrives and whoever finishes.
 */
module RoundRobin {
  import opened Rings
  import opened Scheduler
  import opened Smp

  /** The timer fires, the current task ends, or a task is added; a new node is never one that is still queued. */
  datatype Event = Dispatch | Finish | Arrive(node: int, q: nat)

  /** The queues, and the task that the processor runs. */
  datatype Alone = Alone(v: View, cur: int)

  ghost predicate SteppedBack(s: Alone, w: View) {
    if IsTask(s.cur) then exists q :: 0 <= q < |s.v.rings| && s.cur in s.v.rings[q] && w == Released(s.v, q, s.cur)
    else w == s.v
  }

  ghost predicate Dispatched(w: View, s': Alone) {
    IsNext(w, s'.cur) && s'.v == if s'.cur == IDLE then w else w.(locked := w.locked + {s'.cur})
  }

  ghost predicate Happens(s: Alone, e: Event, s': Alone) {
    match e
    case Dispatch => exists w :: SteppedBack(s, w) && Dispatched(w, s')
    case Finish => s' == if IsTask(s.cur) then s.(v := s.v.(finished := s.v.finished + {s.cur})) else s
    case Arrive(node, q) =>
      s' == if node > 0 && q < |s.v.rings| && !Queued(s.v, node) then s.(v := Added(s.v, q, node)) else s
  }

  const START: Alone := Alone(View([[], [], []], {}, {}), NULL)

  ghost predicate IsRun(run: seq<Alone>, events: seq<Event>) {
    && |run| == |events| + 1 && run[0] == START
    && forall i :: 0 <= i < |events| ==> Happens(run[i], events[i], run[i + 1])
  }

  /** What the events do, task by task. */
  lemma HappensMeans(s: Alone, e: Event, s': Alone)
    requires Happens(s, e, s') && ViewOk(s.v)
    ensures |s.v.rings| == |s'.v.rings| == 3
    ensures e.Finish? ==> s'.cur == s.cur && s'.v.rings == s.v.rings && s'.v.locked == s.v.locked &&
                          s'.v.finished == if s.cur == 0 || s.cur == -1 then s.v.finished else s.v.finished + {s.cur}
    ensures e.Arrive? ==> s'.cur == s.cur
    ensures e.Arrive? && !(e.node > 0 && e.q < 3 && forall p :: 0 <= p < 3 ==> e.node !in s.v.rings[p]) ==> s' == s
    ensures e.Arrive? && e.node > 0 && e.q < 3 && (forall p :: 0 <= p < 3 ==> e.node !in s.v.rings[p]) ==>
              && s'.v.rings == s.v.rings[e.q := s.v.rings[e.q] + [e.node]]
              && s'.v.locked == s.v.locked - {e.node} && s'.v.finished == s.v.finished - {e.node}
  {
    assert e.Arrive? ==> (Queued(s.v, e.node) <==> exists p :: 0 <= p < 3 && e.node in s.v.rings[p]);
    if e.Dispatch? {
      var w :| SteppedBack(s, w) && Dispatched(w, s');
      SteppedBackOk(s, w);
    }
  }

  /** What a dispatch leads to: the first task in line of the lowest queue that has one to run, or the idle task. */
  lemma DispatchMeans(s: Alone, s': Alone)
    requires Happens(s, Dispatch, s') && ViewOk(s.v)
    ensures |s'.v.rings| == 3
    ensures s'.cur == -1 ==> forall p, x :: 0 <= p < 3 && x in s'.v.rings[p] ==> x in s'.v.locked || x in s'.v.finished
    ensures s'.cur != -1 ==>
              && s'.cur in s'.v.locked && s'.cur !in s'.v.finished
              && exists q, k ::
                   && 0 <= q < 3 && 0 <= k < |s'.v.rings[q]| && s'.v.rings[q][k] == s'.cur
                   && (forall j :: 0 <= j < k ==> s'.v.rings[q][j] in s'.v.locked || s'.v.rings[q][j] in s'.v.finished)
                   && forall p, x :: 0 <= p < q && x in s'.v.rings[p] ==> x in s'.v.locked || x in s'.v.finished
  {
    hide ViewOk, FirstReady, NoneReady, SteppedBack;
    var w :| SteppedBack(s, w) && Dispatched(w, s');
    SteppedBackOk(s, w);
    QueueCount(w);
    if s'.cur == IDLE {
      NoneMeans(w);
    } else {
      var q :| 0 <= q < |w.rings| && FirstReady(w, w.rings[q], s'.cur) && forall p :: 0 <= p < q ==> NoneReady(w, w.rings[p]);
      NextMeans(w, q, s'.cur);
    }
  }

  lemma SteppedBackOk(s: Alone, w: View)
    requires ViewOk(s.v) && SteppedBack(s, w)
    ensures ViewOk(w)
  {
    if IsTask(s.cur) {
      var q :| 0 <= q < |s.v.rings| && s.cur in s.v.rings[q] && w == Released(s.v, q, s.cur);
      ReleasedOk(s.v, q, s.cur);
    }
  }

  // ---------------------------------------------------------------- what the processor keeps

  /** `n` is the first node of queue `q`. */
  ghost predicate Leads(v: View, q: int, n: int) { 0 <= q < |v.rings| && v.rings[q] != [] && v.rings[q][0] == n }

  /** The task that runs leads its queue and is the only one that is locked; only it can be finished. */
  ghost predicate Solo(s: Alone) {
    && ViewOk(s.v)
    && s.v.locked == (if IsTask(s.cur) then {s.cur} else {})
    && s.v.finished <= s.v.locked
    && (IsTask(s.cur) ==> exists q :: Leads(s.v, q, s.cur))
  }

  lemma LeadsOne(s: Alone, q: nat)
    requires Solo(s) && q < QUEUES && s.cur in s.v.rings[q]
    ensures IsTask(s.cur) && s.v.rings[q][0] == s.cur
  {
    var p :| Leads(s.v, p, s.cur);
    assert s.cur in s.v.rings[p];
    QueuedOnce(s.v, q, s.cur);
  }

  lemma RunsQueued(s: Alone)
    requires Solo(s) && IsTask(s.cur)
    ensures Queued(s.v, s.cur)
  {
    var q :| Leads(s.v, q, s.cur);
    assert s.cur in s.v.rings[q];
  }

  /** The queue `p` after the current task, of queue `q`, has stepped back. */
  ghost function RingBehind(s: Alone, p: nat): seq<int>
    requires p < |s.v.rings|
  {
    var r := s.v.rings[p];
    if s.cur !in r then r else if s.cur in s.v.finished then r[1..] else r[1..] + [s.cur]
  }

  /** Once the current task has stepped back, nothing is locked or finished, and its queue goes on behind it. */
  lemma Back(s: Alone, w: View)
    requires Solo(s) && SteppedBack(s, w)
    ensures ViewOk(w) && w.locked == {} && w.finished == {}
    ensures forall p :: 0 <= p < QUEUES ==> w.rings[p] == RingBehind(s, p)
  {
    if IsTask(s.cur) {
      var q :| 0 <= q < |s.v.rings| && s.cur in s.v.rings[q] && w == Released(s.v, q, s.cur);
      LeadsOne(s, q);
      QueuedOnce(s.v, q, s.cur);
      UniqueIndex(s.v.rings[q], 0);
      ReleasedOk(s.v, q, s.cur);
      assert w.rings[q] == RingBehind(s, q);
    } else {
      assert forall p :: 0 <= p < QUEUES ==> s.cur !in s.v.rings[p];
    }
  }

  /** With nothing locked, the next task leads its queue, and the queues before that are empty. */
  lemma Picked(w: View, s': Alone)
    requires ViewOk(w) && w.locked == {} && w.finished == {} && Dispatched(w, s')
    ensures Solo(s') && s'.v.rings == w.rings
    ensures if IsTask(s'.cur) then exists q :: Leads(w, q, s'.cur) && forall p :: 0 <= p < q ==> w.rings[p] == []
            else forall p :: 0 <= p < QUEUES ==> w.rings[p] == []
  {
    hide ViewOk;
    assert |w.rings| == QUEUES by { QueueCount(w); }
    forall p | 0 <= p < QUEUES && NoneReady(w, w.rings[p])
      ensures w.rings[p] == []
    {
      NoneMeansEmpty(w, w.rings[p]);
    }
    if s'.cur != IDLE {
      var q :| 0 <= q < |w.rings| && FirstReady(w, w.rings[q], s'.cur) && forall p :: 0 <= p < q ==> NoneReady(w, w.rings[p]);
      NotIdle(w, q, s'.cur);
      var k :| 0 <= k < |w.rings[q]| && w.rings[q][k] == s'.cur && forall j :: 0 <= j < k ==> !Ready(w, w.rings[q][j]);
      assert Ready(w, w.rings[q][0]);
      assert Leads(w, q, s'.cur) && Leads(s'.v, q, s'.cur);
    }
    FlagsFree(w, s'.v.locked, s'.v.finished);
  }

  lemma NoneMeansEmpty(w: View, r: seq<int>)
    requires w.locked == {} && w.finished == {} && NoneReady(w, r)
    ensures r == []
  {
    assert |r| > 0 ==> r[0] in r && Ready(w, r[0]);
  }

  lemma QueueCount(v: View)
    requires ViewOk(v)
    ensures |v.rings| == QUEUES
  {
  }

  lemma ArrivedSolo(s: Alone, node: int, q: nat, s': Alone)
    requires Solo(s) && node > 0 && q < QUEUES && !Queued(s.v, node) && s' == s.(v := Added(s.v, q, node))
    ensures Solo(s')
  {
    AddedOk(s.v, q, node);
    FlagsFree(s.v.(rings := s'.v.rings), s'.v.locked, s'.v.finished);
    if IsTask(s.cur) {
      RunsQueued(s);
      var p :| Leads(s.v, p, s.cur);
      assert Leads(s'.v, p, s.cur);
    }
    assert s'.v.locked == s.v.locked && s'.v.finished == s.v.finished;
  }

  lemma StepSolo(s: Alone, e: Event, s': Alone)
    requires Solo(s) && Happens(s, e, s')
    ensures Solo(s')
  {
    match e
    case Dispatch =>
      var w :| SteppedBack(s, w) && Dispatched(w, s');
      Back(s, w);
      Picked(w, s');
    case Finish =>
      FlagsFree(s.v, s'.v.locked, s'.v.finished);
      if IsTask(s.cur) {
        var q :| Leads(s.v, q, s.cur);
        assert Leads(s'.v, q, s.cur);
      }
    case Arrive(node, q) =>
      if node > 0 && q < |s.v.rings| && !Queued(s.v, node) {
        ArrivedSolo(s, node, q, s');
      }
  }

  lemma {:induction false} AlwaysSolo(run: seq<Alone>, events: seq<Event>, i: nat)
    requires IsRun(run, events) && i < |run|
    ensures Solo(run[i])
  {
    if i > 0 {
      AlwaysSolo(run, events, i - 1);
      StepSolo(run[i - 1], events[i - 1], run[i]);
    }
  }

  // ---------------------------------------------------------------- the place of a waiting task

  /** How many tasks of queue `q` are still to be dispatched until the one in place `k` of its ring is: 0 if it runs. */
  ghost function Places(s: Alone, q: nat, k: nat): nat
    requires q < |s.v.rings|
  {
    k + if s.cur in s.v.rings[q] then 0 else 1
  }

  /** The dispatch was a turn of queue `q`. */
  ghost predicate Turn(e: Event, s': Alone, q: nat) { e.Dispatch? && q < |s'.v.rings| && s'.cur in s'.v.rings[q] }

  lemma PlaceAfterDispatch(s: Alone, s': Alone, q: nat, k: nat) returns (k': nat)
    requires Solo(s) && Happens(s, Dispatch, s') && q < QUEUES && k < |s.v.rings[q]| && Places(s, q, k) > 0
    ensures |s'.v.rings| == QUEUES && k' < |s'.v.rings[q]| && s'.v.rings[q][k'] == s.v.rings[q][k]
    ensures Places(s', q, k') + (if Turn(Dispatch, s', q) then 1 else 0) == Places(s, q, k)
  {
    hide Dispatched, SteppedBack, Released, Added;
    var w :| SteppedBack(s, w) && Dispatched(w, s');
    Back(s, w);
    Picked(w, s');
    assert w.rings[q] == RingBehind(s, q);
    k' := if s.cur in s.v.rings[q] then k - 1 else k;
  }

  /** Only a turn of its queue brings a waiting task closer, and nothing puts it back. */
  lemma PlaceAfter(s: Alone, e: Event, s': Alone, q: nat, k: nat) returns (k': nat)
    requires Solo(s) && Happens(s, e, s') && q < QUEUES && k < |s.v.rings[q]| && (e.Dispatch? ==> Places(s, q, k) > 0)
    ensures |s'.v.rings| == QUEUES && k' < |s'.v.rings[q]| && s'.v.rings[q][k'] == s.v.rings[q][k]
    ensures Places(s', q, k') + (if Turn(e, s', q) then 1 else 0) == Places(s, q, k)
  {
    if e.Dispatch? {
      k' := PlaceAfterDispatch(s, s', q, k);
    } else {
      k' := k;
      if s.cur in s.v.rings[q] {
        assert s'.cur in s'.v.rings[q];
      } else if IsTask(s.cur) {
        RunsQueued(s);
      }
    }
  }

  ghost function Turns(run: seq<Alone>, events: seq<Event>, i: nat, j: nat, q: nat): nat
    requires i <= j < |run| && |run| == |events| + 1
    decreases j
  {
    if i == j then 0 else Turns(run, events, i, j - 1, q) + if Turn(events[j - 1], run[j], q) then 1 else 0
  }

  /** The task in place `k` has not run by the time of the dispatch `m`. */
  ghost predicate StillWaiting(run: seq<Alone>, events: seq<Event>, i: nat, m: nat, q: nat, k: nat)
    requires i <= m < |run| && |run| == |events| + 1 && q < |run[i].v.rings|
  {
    Turns(run, events, i, m, q) < Places(run[i], q, k)
  }

  lemma {:induction false} PlaceInRun(run: seq<Alone>, events: seq<Event>, i: nat, j: nat, q: nat, k: nat) returns (k': nat)
    requires IsRun(run, events) && i <= j < |run| && q < QUEUES && |run[i].v.rings| == QUEUES && k < |run[i].v.rings[q]|
    requires forall m :: i <= m < j && events[m].Dispatch? ==> StillWaiting(run, events, i, m, q, k)
    ensures |run[j].v.rings| == QUEUES && k' < |run[j].v.rings[q]| && run[j].v.rings[q][k'] == run[i].v.rings[q][k]
    ensures Places(run[j], q, k') + Turns(run, events, i, j, q) == Places(run[i], q, k)
    decreases j
  {
    hide Happens, Solo, Turn, Places;
    if i == j {
      k' := k;
    } else {
      var before := PlaceInRun(run, events, i, j - 1, q, k);
      AlwaysSolo(run, events, j - 1);
      assert events[j - 1].Dispatch? ==> StillWaiting(run, events, i, j - 1, q, k);
      k' := PlaceAfter(run[j - 1], events[j - 1], run[j], q, before);
    }
  }

  /**
   Whatever arrives, whatever finishes and whatever goes on in the other queues, a waiting task runs when its queue
   has had as many turns as the task had places to go, and not before.
   */
  lemma Served(run: seq<Alone>, events: seq<Event>, i: nat, j: nat, q: nat, k: nat)
    requires IsRun(run, events) && i <= j < |run| && q < QUEUES && |run[i].v.rings| == QUEUES && k < |run[i].v.rings[q]|
    requires forall m :: i <= m < j && events[m].Dispatch? ==> StillWaiting(run, events, i, m, q, k)
    ensures run[j].cur == run[i].v.rings[q][k] <==> Turns(run, events, i, j, q) == Places(run[i], q, k)
  {
    var k' := PlaceInRun(run, events, i, j, q, k);
    AlwaysSolo(run, events, j);
    var s := run[j];
    var t := s.v.rings[q][k'];
    assert t in s.v.rings[q];
    if s.cur in s.v.rings[q] {
      LeadsOne(s, q);
      assert Distinct(s.v.rings[q]);
    }
  }

  // ---------------------------------------------------------------- no work of higher priority

  ghost function Dispatches(events: seq<Event>, i: nat, j: nat): nat
    requires i <= j <= |events|
    decreases j
  {
    if i == j then 0 else Dispatches(events, i, j - 1) + if events[j - 1].Dispatch? then 1 else 0
  }

  ghost predicate NothingAbove(s: Alone, q: nat) { forall p :: 0 <= p < q && p < |s.v.rings| ==> s.v.rings[p] == [] }

  /** No task of higher priority arrives between `i` and `j`. */
  ghost predicate NoneArriveAbove(events: seq<Event>, i: nat, j: nat, q: nat) {
    forall m :: i <= m < j && m < |events| && events[m].Arrive? ==> events[m].q >= q
  }

  lemma StaysEmptyAbove(s: Alone, e: Event, s': Alone, q: nat)
    requires Solo(s) && Happens(s, e, s') && q < QUEUES && NothingAbove(s, q) && (e.Arrive? ==> e.q >= q)
    ensures NothingAbove(s', q)
  {
    if e.Dispatch? {
      var w :| SteppedBack(s, w) && Dispatched(w, s');
      Back(s, w);
      Picked(w, s');
    }
  }

  /** A dispatch while the task of queue `q` waits is a turn of that queue, if nothing has higher priority. */
  lemma TurnOfQueue(s: Alone, s': Alone, q: nat, k: nat)
    requires Solo(s) && Happens(s, Dispatch, s') && q < QUEUES && NothingAbove(s, q)
    requires k < |s.v.rings[q]| && Places(s, q, k) > 0
    ensures Turn(Dispatch, s', q)
  {
    var w :| SteppedBack(s, w) && Dispatched(w, s');
    Back(s, w);
    Picked(w, s');
    assert w.rings[q] == RingBehind(s, q) && w.rings[q] != [];
    var p :| Leads(w, p, s'.cur) && forall o :: 0 <= o < p ==> w.rings[o] == [];
    assert forall o :: 0 <= o < q ==> w.rings[o] == [];
    assert p == q;
    assert s'.cur in s'.v.rings[q];
  }

  lemma {:induction false} EveryDispatchIsATurn(run: seq<Alone>, events: seq<Event>, i: nat, j: nat, q: nat, k: nat)
    requires IsRun(run, events) && i <= j < |run| && q < QUEUES && |run[i].v.rings| == QUEUES && k < |run[i].v.rings[q]|
    requires NothingAbove(run[i], q) && NoneArriveAbove(events, i, j, q)
    requires Dispatches(events, i, j) <= Places(run[i], q, k)
    ensures NothingAbove(run[j], q) && Turns(run, events, i, j, q) == Dispatches(events, i, j)
    ensures forall m :: i <= m < j && events[m].Dispatch? ==> StillWaiting(run, events, i, m, q, k)
    decreases j
  {
    hide Happens, Solo, Places, NothingAbove;
    if i < j {
      EveryDispatchIsATurn(run, events, i, j - 1, q, k);
      AlwaysSolo(run, events, j - 1);
      StaysEmptyAbove(run[j - 1], events[j - 1], run[j], q);
      if events[j - 1].Dispatch? {
        assert StillWaiting(run, events, i, j - 1, q, k);
        var k' := PlaceInRun(run, events, i, j - 1, q, k);
        TurnOfQueue(run[j - 1], run[j], q, k');
      }
    }
  }

  /**
   Round robin: with no work of higher priority, the task in place `k` runs after exactly as many dispatches as it
   has places to go, which is `k` while a task of its queue runs; arrivals and tasks that finish make no difference.
   */
  lemma InTurn(run: seq<Alone>, events: seq<Event>, i: nat, j: nat, q: nat, k: nat)
    requires IsRun(run, events) && i <= j < |run| && q < QUEUES && |run[i].v.rings| == QUEUES && k < |run[i].v.rings[q]|
    requires NothingAbove(run[i], q) && NoneArriveAbove(events, i, j, q)
    requires Dispatches(events, i, j) <= Places(run[i], q, k)
    ensures run[j].cur == run[i].v.rings[q][k] <==> Dispatches(events, i, j) == Places(run[i], q, k)
  {
    EveryDispatchIsATurn(run, events, i, j, q, k);
    Served(run, events, i, j, q, k);
  }

  // ---------------------------------------------------------------- the code

  lemma AliveAfterRelease(s: Alone, q: nat, alive: set<int>)
    requires ViewOk(s.v) && q < QUEUES && s.cur in s.v.rings[q] && forall n :: n in alive <==> Queued(s.v, n)
    ensures forall n :: n in (if s.cur in s.v.finished then alive - {s.cur} else alive) <==> Queued(Released(s.v, q, s.cur), n)
  {
    ReleasedView(s.v, q, s.cur);
  }

  lemma AliveAfterAdd(v: View, node: int, q: nat, alive: set<int>)
    requires ViewOk(v) && q < QUEUES && forall n :: n in alive <==> Queued(v, n)
    ensures forall n :: n in alive + {node} <==> Queued(Added(v, q, node), n)
  {
    var v' := Added(v, q, node);
    forall n
      ensures n in alive + {node} <==> Queued(v', n)
    {
      if n in alive {
        var p :| 0 <= p < |v.rings| && n in v.rings[p];
        assert n in v'.rings[p];
      }
      if n == node {
        assert v'.rings[q][|v.rings[q]|] == node;
        assert n in v'.rings[q];
      }
      if Queued(v', n) {
        var p :| 0 <= p < |v'.rings| && n in v'.rings[p];
        assert n == node || n in v.rings[p];
      }
    }
  }

  lemma SameQueued(v: View, w: View)
    requires v.rings == w.rings
    ensures forall n :: Queued(v, n) <==> Queued(w, n)
  {
  }

  /** The timer: the code of `scheduler_next_task` on the linked nodes. */
  method Tick(qs: Queues, cur: int, alive: set<int>) returns (next: int, alive': set<int>)
    requires qs.Valid() && Solo(Alone(qs.TheView(), cur)) && forall n :: n in alive <==> Queued(qs.TheView(), n)
    modifies qs
    ensures qs.Valid() && Happens(Alone(old(qs.TheView()), cur), Dispatch, Alone(qs.TheView(), next))
    ensures forall n :: n in alive' <==> Queued(qs.TheView(), n)
  {
    hide QueuesOk, ViewOk, Released, IsNext;
    ghost var s := Alone(qs.TheView(), cur);
    alive' := alive;
    if IsTask(cur) {
      RunsQueued(s);
      NumberedByQueue(qs, cur);
      AliveAfterRelease(s, qs.queueNum[cur], alive);
      if cur in qs.finished {
        alive' := alive - {cur};
      }
    }
    QueueCount(s.v);
    ghost var w := if IsTask(cur) then Released(qs.TheView(), qs.queueNum[cur], cur) else qs.TheView();
    next := qs.NextTask(cur);
    SameQueued(w, qs.TheView());
    assert SteppedBack(s, w) && Dispatched(w, Alone(qs.TheView(), next));
  }

  /** Every run of one processor, from the start of the system: the linked nodes go through the states described. */
  method RunAlone(events: seq<Event>) returns (qs: Queues, cur: int, ghost run: seq<Alone>)
    ensures IsRun(run, events) && qs.Valid() && run[|events|] == Alone(qs.TheView(), cur)
  {
    hide QueuesOk, ViewOk, Solo, Added;
    qs := new Queues();
    cur := NULL;
    run := [START];
    var alive: set<int> := {};
    StartSolo();
    for i := 0 to |events|
      invariant fresh(qs) && qs.Valid() && |run| == i + 1 && run[0] == START && run[i] == Alone(qs.TheView(), cur)
      invariant Solo(run[i]) && forall n :: n in alive <==> Queued(qs.TheView(), n)
      invariant forall j :: 0 <= j < i ==> Happens(run[j], events[j], run[j + 1])
    {
      ghost var s := run[i];
      match events[i] {
        case Dispatch =>
          cur, alive := Tick(qs, cur, alive);
        case Finish =>
          if IsTask(cur) {
            qs.finished := qs.finished + {cur};
            FlagsFree(s.v, s.v.locked, qs.finished);
          }
          SameQueued(s.v, qs.TheView());
        case Arrive(node, q) =>
          QueueCount(s.v);
          if node > 0 && q < QUEUES && node !in alive {
            qs.AddTask(node, q);
            AliveAfterAdd(s.v, node, q, alive);
            alive := alive + {node};
          }
      }
      StepSolo(s, events[i], Alone(qs.TheView(), cur));
      run := run + [Alone(qs.TheView(), cur)];
    }
  }

  lemma StartSolo()
    ensures Solo(START) && forall n :: !Queued(START.v, n)
  {
  }
}
