/**
 The process pools that run tasks (`ndk/workqueue.py`) and their sharded form, in which groups of
 devices have a task queue each and share one result queue (`ndk/run_tests.py`). A plain pool has one
 group. The producer and the workers take steps in any order.
 */
module WorkQueue {

  /** What a worker puts into the result queue: the result of a task, or the exception it raised. */
  datatype Outcome = Value(task: nat) | Error(task: nat)

  /** A worker process: between the calls of its main loop, or gone after an exception. */
  datatype Phase = Waiting | Running(task: nat) | Putting(o: Outcome) | Dead

  /** Workers belong to a device of a group and take tasks from the queue of that group only. */
  datatype Worker = Worker(group: nat, phase: Phase)

  /** The producer: `add_task` puts before it counts, `get_result` takes before it looks. */
  datatype Producer = Idle | JustPut | Took(o: Outcome)

  /**
   Tasks are numbered in the order in which they are added. The last five fields record the history:
   the group of each task, the tasks added to and started from each queue, the results delivered, and the errors raised.
   */
  datatype Pool = Pool(
    queues: seq<seq<nat>>, workers: seq<Worker>, results: seq<Outcome>,
    numTasks: int, producer: Producer, next: nat,
    groupOf: seq<nat>, added: seq<seq<nat>>, started: seq<seq<nat>>, delivered: seq<nat>, raised: seq<nat>)

  datatype Step =
    | Put(group: nat) | Count            // add_task
    | Take | Deliver                     // get_result
    | Start(w: nat) | End(w: nat, raises: bool) | Report(w: nat)  // a worker

  predicate Finished(p: Pool) {
    p.numTasks == 0
  }

  function NoTasks(groups: nat): seq<seq<nat>> {
    seq(groups, i => [])
  }

  function Init(groups: nat, workers: seq<nat>): Pool {
    Pool(NoTasks(groups), seq(|workers|, i requires 0 <= i < |workers| => Worker(workers[i], Waiting)), [],
         0, Idle, 0, [], NoTasks(groups), NoTasks(groups), [], [])
  }

  predicate WorkerEnabled(p: Pool, s: Step) {
    match s
    case Start(w) => w < |p.workers| && p.workers[w].phase.Waiting? && p.workers[w].group < |p.queues| && p.queues[p.workers[w].group] != []
    case End(w, _) => w < |p.workers| && p.workers[w].phase.Running?
    case Report(w) => w < |p.workers| && p.workers[w].phase.Putting?
    case _ => false
  }

  predicate Enabled(p: Pool, s: Step) {
    match s
    case Put(g) => p.producer.Idle? && g < |p.queues| && g < |p.added|
    case Count => p.producer.JustPut?
    case Take => p.producer.Idle? && p.results != []
    case Deliver => p.producer.Took?
    case _ => WorkerEnabled(p, s)
  }

  function AfterPut(p: Pool, g: nat): Pool
    requires g < |p.queues| && g < |p.added|
  {
    p.(queues := p.queues[g := p.queues[g] + [p.next]], added := p.added[g := p.added[g] + [p.next]],
       groupOf := p.groupOf + [g], next := p.next + 1, producer := JustPut)
  }

  function AfterDeliver(p: Pool, o: Outcome): Pool {
    if o.Value? then p.(producer := Idle, numTasks := p.numTasks - 1, delivered := p.delivered + [o.task])
    else p.(producer := Idle, raised := p.raised + [o.task])
  }

  function AfterStart(p: Pool, w: nat): Pool
    requires WorkerEnabled(p, Start(w)) && p.workers[w].group < |p.started|
  {
    var g := p.workers[w].group;
    var t := p.queues[g][0];
    p.(queues := p.queues[g := p.queues[g][1..]], started := p.started[g := p.started[g] + [t]],
       workers := p.workers[w := p.workers[w].(phase := Running(t))])
  }

  function SetPhase(p: Pool, w: nat, phase: Phase): Pool
    requires w < |p.workers|
  {
    p.(workers := p.workers[w := p.workers[w].(phase := phase)])
  }

  function AfterReport(p: Pool, w: nat): Pool
    requires WorkerEnabled(p, Report(w))
  {
    var o := p.workers[w].phase.o;
    SetPhase(p, w, if o.Error? then Dead else Waiting).(results := p.results + [o])
  }

  function Apply(p: Pool, s: Step): Pool
    requires Enabled(p, s) && |p.started| == |p.queues|
  {
    match s
    case Put(g) => AfterPut(p, g)
    case Count => p.(producer := Idle, numTasks := p.numTasks + 1)
    case Take => p.(producer := Took(p.results[0]), results := p.results[1..])
    case Deliver => AfterDeliver(p, p.producer.o)
    case Start(w) => AfterStart(p, w)
    case End(w, raises) =>
      var t := p.workers[w].phase.task;
      SetPhase(p, w, Putting(if raises then Error(t) else Value(t)))
    case Report(w) => AfterReport(p, w)
  }

  // -------------------------------------------------------------------------
  // Where the tasks are
  // -------------------------------------------------------------------------

  /** What to count: all tasks, or the places of a single one. */
  datatype Which = All | Only(task: nat)

  function One(t: nat, k: Which): nat {
    if k == All || k == Only(t) then 1 else 0
  }

  function InList(ts: seq<nat>, k: Which): nat {
    if ts == [] then 0 else InList(ts[..|ts| - 1], k) + One(ts[|ts| - 1], k)
  }

  function InQueues(qs: seq<seq<nat>>, k: Which): nat {
    if qs == [] then 0 else InList(qs[0], k) + InQueues(qs[1..], k)
  }

  function InPhase(ph: Phase, k: Which): nat {
    match ph
    case Running(t) => One(t, k)
    case Putting(o) => One(o.task, k)
    case _ => 0
  }

  function InWorkers(ws: seq<Worker>, k: Which): nat {
    if ws == [] then 0 else InPhase(ws[0].phase, k) + InWorkers(ws[1..], k)
  }

  function InResults(os: seq<Outcome>, k: Which): nat {
    if os == [] then 0 else One(os[0].task, k) + InResults(os[1..], k)
  }

  function InProducer(pr: Producer, k: Which): nat {
    if pr.Took? then One(pr.o.task, k) else 0
  }

  function Places(p: Pool, k: Which): nat {
    InQueues(p.queues, k) + InWorkers(p.workers, k) + InResults(p.results, k) + InProducer(p.producer, k)
      + InList(p.delivered, k) + InList(p.raised, k)
  }

  /** Every task is in one place. */
  ghost predicate Conserved(p: Pool) {
    forall k :: Places(p, k) == if k == All then p.next else if k.task < p.next then 1 else 0
  }

  /** The counter follows the producer alone. */
  predicate Counted(p: Pool) {
    p.numTasks == p.next - (if p.producer.JustPut? then 1 else 0) - |p.delivered|
  }

  /** Tasks leave each queue in the order in which they were added to it. */
  predicate Fifo(p: Pool) {
    && |p.queues| == |p.added| == |p.started|
    && forall g :: 0 <= g < |p.queues| ==> p.started[g] + p.queues[g] == p.added[g]
  }

  /** A worker runs only tasks that were added to the queue of its own group. */
  predicate OwnGroup(started: seq<seq<nat>>, w: Worker) {
    match w.phase
    case Running(t) => w.group < |started| && t in started[w.group]
    case Putting(o) => w.group < |started| && o.task in started[w.group]
    case _ => true
  }

  predicate Sharded(p: Pool) {
    forall i :: 0 <= i < |p.workers| ==> OwnGroup(p.started, p.workers[i])
  }

  /** Each task was added to the queue of one group. */
  predicate Grouped(p: Pool) {
    && |p.groupOf| == p.next
    && forall g, i :: 0 <= g < |p.added| && 0 <= i < |p.added[g]| ==> p.added[g][i] < p.next && p.groupOf[p.added[g][i]] == g
  }

  function Errors(os: seq<Outcome>): nat {
    if os == [] then 0 else (if os[0].Error? then 1 else 0) + Errors(os[1..])
  }

  function Deaths(ws: seq<Worker>): nat {
    if ws == [] then 0 else (if ws[0].phase.Dead? then 1 else 0) + Deaths(ws[1..])
  }

  /** Every worker that is gone has left one error behind. */
  predicate Accounted(p: Pool) {
    Deaths(p.workers) == Errors(p.results) + (if p.producer.Took? && p.producer.o.Error? then 1 else 0) + |p.raised|
  }

  ghost predicate Inv(p: Pool) {
    Conserved(p) && Counted(p) && Fifo(p) && Grouped(p) && Sharded(p) && Accounted(p)
  }

  // -------------------------------------------------------------------------
  // Changing one entry of a list
  // -------------------------------------------------------------------------

  lemma {:induction false} QueueChanged(qs: seq<seq<nat>>, g: nat, q: seq<nat>, k: Which)
    requires g < |qs|
    ensures InQueues(qs[g := q], k) == InQueues(qs, k) - InList(qs[g], k) + InList(q, k)
  {
    var after := qs[g := q];
    if g == 0 {
      assert after[1..] == qs[1..];
    } else {
      assert after[1..] == qs[1..][g - 1 := q];
      QueueChanged(qs[1..], g - 1, q, k);
    }
  }

  lemma {:induction false} WorkerChanged(ws: seq<Worker>, w: nat, x: Worker, k: Which)
    requires w < |ws|
    ensures InWorkers(ws[w := x], k) == InWorkers(ws, k) - InPhase(ws[w].phase, k) + InPhase(x.phase, k)
  {
    var after := ws[w := x];
    if w == 0 {
      assert after[1..] == ws[1..];
    } else {
      assert after[1..] == ws[1..][w - 1 := x];
      WorkerChanged(ws[1..], w - 1, x, k);
    }
  }

  lemma {:induction false} DeathCounted(ws: seq<Worker>, w: nat, x: Worker)
    requires w < |ws|
    ensures Deaths(ws[w := x]) + (if ws[w].phase.Dead? then 1 else 0) == Deaths(ws) + (if x.phase.Dead? then 1 else 0)
  {
    var after := ws[w := x];
    if w == 0 {
      assert after[1..] == ws[1..];
    } else {
      assert after[1..] == ws[1..][w - 1 := x];
      DeathCounted(ws[1..], w - 1, x);
    }
  }

  lemma {:induction false} ResultAppended(os: seq<Outcome>, o: Outcome, k: Which)
    ensures InResults(os + [o], k) == InResults(os, k) + One(o.task, k)
    ensures Errors(os + [o]) == Errors(os) + (if o.Error? then 1 else 0)
  {
    if os == [] {
      assert os + [o] == [o];
    } else {
      assert (os + [o])[1..] == os[1..] + [o];
      ResultAppended(os[1..], o, k);
    }
  }

  lemma ListAppended(ts: seq<nat>, t: nat, k: Which)
    ensures InList(ts + [t], k) == InList(ts, k) + One(t, k)
  {
    assert (ts + [t])[..|ts|] == ts;
  }

  lemma {:induction false} ListHead(ts: seq<nat>, k: Which)
    requires ts != []
    ensures InList(ts, k) == One(ts[0], k) + InList(ts[1..], k)
  {
    if |ts| > 1 {
      ListHead(ts[..|ts| - 1], k);
      assert ts[..|ts| - 1][1..] == ts[1..][..|ts| - 2];
    }
  }

  // -------------------------------------------------------------------------
  // Every step keeps the invariant
  // -------------------------------------------------------------------------

  lemma PutConserves(p: Pool, g: nat)
    requires Enabled(p, Put(g)) && Conserved(p)
    ensures Conserved(AfterPut(p, g))
  {
    forall k ensures Places(AfterPut(p, g), k) == Places(p, k) + One(p.next, k) {
      QueueChanged(p.queues, g, p.queues[g] + [p.next], k);
      ListAppended(p.queues[g], p.next, k);
    }
  }

  lemma TakeConserves(p: Pool)
    requires Enabled(p, Take) && Conserved(p)
    ensures Conserved(p.(producer := Took(p.results[0]), results := p.results[1..]))
  {
    forall k ensures Places(p.(producer := Took(p.results[0]), results := p.results[1..]), k) == Places(p, k) {
    }
  }

  lemma DeliverConserves(p: Pool)
    requires p.producer.Took? && Conserved(p)
    ensures Conserved(AfterDeliver(p, p.producer.o))
  {
    forall k ensures Places(AfterDeliver(p, p.producer.o), k) == Places(p, k) {
      ListAppended(p.delivered, p.producer.o.task, k);
      ListAppended(p.raised, p.producer.o.task, k);
    }
  }

  lemma StartConserves(p: Pool, w: nat)
    requires WorkerEnabled(p, Start(w)) && p.workers[w].group < |p.started| && Conserved(p)
    ensures Conserved(AfterStart(p, w))
  {
    var g := p.workers[w].group;
    forall k ensures Places(AfterStart(p, w), k) == Places(p, k) {
      ListHead(p.queues[g], k);
      QueueChanged(p.queues, g, p.queues[g][1..], k);
      WorkerChanged(p.workers, w, p.workers[w].(phase := Running(p.queues[g][0])), k);
    }
  }

  lemma EndConserves(p: Pool, w: nat, o: Outcome)
    requires w < |p.workers| && p.workers[w].phase == Running(o.task) && Conserved(p)
    ensures Conserved(SetPhase(p, w, Putting(o)))
  {
    forall k ensures Places(SetPhase(p, w, Putting(o)), k) == Places(p, k) {
      WorkerChanged(p.workers, w, p.workers[w].(phase := Putting(o)), k);
    }
  }

  lemma ReportConserves(p: Pool, w: nat)
    requires WorkerEnabled(p, Report(w)) && Conserved(p)
    ensures Conserved(AfterReport(p, w))
  {
    var o := p.workers[w].phase.o;
    forall k ensures Places(AfterReport(p, w), k) == Places(p, k) {
      WorkerChanged(p.workers, w, p.workers[w].(phase := if o.Error? then Dead else Waiting), k);
      ResultAppended(p.results, o, k);
    }
  }

  lemma StepConserves(p: Pool, s: Step)
    requires Enabled(p, s) && |p.started| == |p.queues| && Conserved(p)
    ensures Conserved(Apply(p, s))
  {
    hide Places;
    match s
    case Put(g) => PutConserves(p, g);
    case Count => CountConserves(p);
    case Take => TakeConserves(p);
    case Deliver => DeliverConserves(p);
    case Start(w) => StartConserves(p, w);
    case End(w, raises) =>
      var t := p.workers[w].phase.task;
      EndConserves(p, w, if raises then Error(t) else Value(t));
    case Report(w) => ReportConserves(p, w);
  }

  lemma CountConserves(p: Pool)
    requires p.producer.JustPut? && Conserved(p)
    ensures Conserved(p.(producer := Idle, numTasks := p.numTasks + 1))
  {
    forall k ensures Places(p.(producer := Idle, numTasks := p.numTasks + 1), k) == Places(p, k) { }
  }

  lemma StepKeepsFifo(p: Pool, s: Step)
    requires Enabled(p, s) && Fifo(p)
    ensures Fifo(Apply(p, s))
  {
    if s.Start? {
      var g := p.workers[s.w].group;
      assert p.started[g] + p.queues[g] == (p.started[g] + [p.queues[g][0]]) + p.queues[g][1..];
    } else if s.Put? {
      assert p.started[s.group] + (p.queues[s.group] + [p.next]) == (p.started[s.group] + p.queues[s.group]) + [p.next];
    }
  }

  lemma StepKeepsGrouped(p: Pool, s: Step)
    requires Enabled(p, s) && |p.started| == |p.queues| && Grouped(p)
    ensures Grouped(Apply(p, s))
  {
  }

  lemma StepKeepsSharded(p: Pool, s: Step)
    requires Enabled(p, s) && |p.started| == |p.queues| && Sharded(p)
    ensures Sharded(Apply(p, s))
  {
    var q := Apply(p, s);
    forall i | 0 <= i < |q.workers|
      ensures OwnGroup(q.started, q.workers[i])
    {
      assert OwnGroup(p.started, p.workers[i]);
      if s.Start? && s.w == i {
        var g := p.workers[i].group;
        assert q.started[g][|p.started[g]|] == p.queues[g][0];
      }
    }
  }

  lemma StepKeepsAccounted(p: Pool, s: Step)
    requires Enabled(p, s) && |p.started| == |p.queues| && Accounted(p)
    ensures Accounted(Apply(p, s))
  {
    match s
    case Start(w) => DeathCounted(p.workers, w, p.workers[w].(phase := Running(p.queues[p.workers[w].group][0])));
    case End(w, raises) =>
      var t := p.workers[w].phase.task;
      DeathCounted(p.workers, w, p.workers[w].(phase := Putting(if raises then Error(t) else Value(t))));
    case Report(w) =>
      var o := p.workers[w].phase.o;
      DeathCounted(p.workers, w, p.workers[w].(phase := if o.Error? then Dead else Waiting));
      ResultAppended(p.results, o, All);
    case _ =>
  }

  lemma StepKeepsInv(p: Pool, s: Step)
    requires Enabled(p, s) && Inv(p)
    ensures Inv(Apply(p, s))
  {
    hide Conserved, Sharded, Accounted, Grouped;
    StepConserves(p, s);
    StepKeepsFifo(p, s);
    StepKeepsGrouped(p, s);
    StepKeepsSharded(p, s);
    StepKeepsAccounted(p, s);
  }

  // -------------------------------------------------------------------------
  // Whole runs
  // -------------------------------------------------------------------------

  predicate ValidRun(p: Pool, ss: seq<Step>)
    decreases |ss|
  {
    ss == [] || (Enabled(p, ss[0]) && |p.started| == |p.queues| && ValidRun(Apply(p, ss[0]), ss[1..]))
  }

  function Run(p: Pool, ss: seq<Step>): Pool
    requires ValidRun(p, ss)
    decreases |ss|
  {
    if ss == [] then p else Run(Apply(p, ss[0]), ss[1..])
  }

  lemma {:induction false} EmptyQueues(groups: nat, k: Which)
    ensures InQueues(NoTasks(groups), k) == 0
  {
    if groups > 0 {
      assert NoTasks(groups)[1..] == NoTasks(groups - 1);
      EmptyQueues(groups - 1, k);
    }
  }

  lemma {:induction false} IdleWorkers(ws: seq<Worker>, k: Which)
    requires forall i :: 0 <= i < |ws| ==> ws[i].phase.Waiting?
    ensures InWorkers(ws, k) == 0 && Deaths(ws) == 0
  {
    if ws != [] { IdleWorkers(ws[1..], k); }
  }

  lemma InitInv(groups: nat, workers: seq<nat>)
    ensures Inv(Init(groups, workers))
  {
    var p := Init(groups, workers);
    forall k ensures Places(p, k) == 0 {
      EmptyQueues(groups, k);
      IdleWorkers(p.workers, k);
    }
    IdleWorkers(p.workers, All);
  }

  lemma {:induction false} RunKeepsInv(p: Pool, ss: seq<Step>)
    requires ValidRun(p, ss) && Inv(p)
    ensures Inv(Run(p, ss))
    decreases |ss|
  {
    hide Inv, Enabled, Apply;
    if ss != [] {
      StepKeepsInv(p, ss[0]);
      RunKeepsInv(Apply(p, ss[0]), ss[1..]);
    }
  }

  lemma ReachableInv(groups: nat, workers: seq<nat>, ss: seq<Step>)
    requires ValidRun(Init(groups, workers), ss)
    ensures Inv(Run(Init(groups, workers), ss))
  {
    hide Inv, Init;
    InitInv(groups, workers);
    RunKeepsInv(Init(groups, workers), ss);
  }

  lemma {:induction false} ListLength(ts: seq<nat>)
    ensures InList(ts, All) == |ts|
  {
    if ts != [] { ListLength(ts[..|ts| - 1]); }
  }

  /**
   Whenever the producer is not in the middle of a call, the counter is the number of tasks that are
   queued, with a worker, or undelivered, plus the number of errors that have been raised.
   */
  lemma CountExact(groups: nat, workers: seq<nat>, ss: seq<Step>)
    requires ValidRun(Init(groups, workers), ss) && Run(Init(groups, workers), ss).producer.Idle?
    ensures var p := Run(Init(groups, workers), ss);
            p.numTasks == InQueues(p.queues, All) + InWorkers(p.workers, All) + InResults(p.results, All) + |p.raised|
  {
    hide Init;
    ReachableInv(groups, workers, ss);
    CountHere(Run(Init(groups, workers), ss));
  }

  lemma CountHere(p: Pool)
    requires Inv(p) && p.producer.Idle?
    ensures p.numTasks == InQueues(p.queues, All) + InWorkers(p.workers, All) + InResults(p.results, All) + |p.raised|
  {
    assert Places(p, All) == p.next;
    ListLength(p.delivered);
    ListLength(p.raised);
  }

  /**
   A task is never delivered twice, nor both delivered and raised; it is run only by a worker of its
   own group; and each group starts its tasks in the order in which they were added.
   */
  lemma TaskOnce(groups: nat, workers: seq<nat>, ss: seq<Step>, t: nat)
    requires ValidRun(Init(groups, workers), ss)
    ensures var p := Run(Init(groups, workers), ss);
            && InList(p.delivered, Only(t)) + InList(p.raised, Only(t)) <= (if t < p.next then 1 else 0)
            && (forall i :: 0 <= i < |p.workers| && p.workers[i].phase == Running(t) ==> t < |p.groupOf| && p.workers[i].group == p.groupOf[t])
            && |p.started| == |p.added|
            && (forall g :: 0 <= g < |p.started| ==> p.started[g] <= p.added[g])
  {
    hide Init;
    ReachableInv(groups, workers, ss);
    var p := Run(Init(groups, workers), ss);
    hide Run;
    assert Places(p, Only(t)) == if t < p.next then 1 else 0;
    forall i | 0 <= i < |p.workers| && p.workers[i].phase == Running(t)
      ensures t < |p.groupOf| && p.workers[i].group == p.groupOf[t]
    {
      assert OwnGroup(p.started, p.workers[i]);
      var g := p.workers[i].group;
      var j :| 0 <= j < |p.started[g]| && p.started[g][j] == t;
      assert (p.started[g] + p.queues[g])[j] == t;
      assert p.added[g][j] == t;
    }
    forall g | 0 <= g < |p.started|
      ensures p.started[g] <= p.added[g]
    {
      assert p.started[g] + p.queues[g] == p.added[g];
    }
  }

  lemma {:induction false} FewerOfOneList(ts: seq<nat>, t: nat)
    ensures InList(ts, Only(t)) <= InList(ts, All)
  {
    if ts != [] { FewerOfOneList(ts[..|ts| - 1], t); }
  }

  lemma {:induction false} FewerOfOneQueue(qs: seq<seq<nat>>, t: nat)
    ensures InQueues(qs, Only(t)) <= InQueues(qs, All)
  {
    if qs != [] {
      FewerOfOneList(qs[0], t);
      FewerOfOneQueue(qs[1..], t);
    }
  }

  lemma {:induction false} FewerOfOneWorker(ws: seq<Worker>, t: nat)
    ensures InWorkers(ws, Only(t)) <= InWorkers(ws, All)
  {
    if ws != [] { FewerOfOneWorker(ws[1..], t); }
  }

  lemma {:induction false} FewerOfOneResult(os: seq<Outcome>, t: nat)
    ensures InResults(os, Only(t)) <= InResults(os, All)
  {
    if os != [] { FewerOfOneResult(os[1..], t); }
  }

  /** When `finished()` is true, every task ever added has been delivered exactly once and none has raised. */
  lemma FinishedMeansDelivered(groups: nat, workers: seq<nat>, ss: seq<Step>, t: nat)
    requires ValidRun(Init(groups, workers), ss)
    requires var p := Run(Init(groups, workers), ss); p.producer.Idle? && Finished(p) && t < p.next
    ensures var p := Run(Init(groups, workers), ss); InList(p.delivered, Only(t)) == 1 && p.raised == []
  {
    hide Init;
    ReachableInv(groups, workers, ss);
    CountExact(groups, workers, ss);
    var p := Run(Init(groups, workers), ss);
    hide Run;
    assert Places(p, Only(t)) == 1;
    FewerOfOneQueue(p.queues, t);
    FewerOfOneWorker(p.workers, t);
    FewerOfOneResult(p.results, t);
  }

  lemma {:induction false} RaisedStays(p: Pool, ss: seq<Step>)
    requires ValidRun(p, ss)
    ensures |p.raised| <= |Run(p, ss).raised|
    decreases |ss|
  {
    if ss != [] { RaisedStays(Apply(p, ss[0]), ss[1..]); }
  }

  /** Once an error has been raised, `finished()` stays false. */
  lemma NeverFinishedAfterError(groups: nat, workers: seq<nat>, ss: seq<Step>, more: seq<Step>)
    requires ValidRun(Init(groups, workers), ss) && Run(Init(groups, workers), ss).raised != []
    requires ValidRun(Run(Init(groups, workers), ss), more)
    ensures var q := Run(Run(Init(groups, workers), ss), more); q.producer.Idle? ==> !Finished(q)
  {
    hide Init;
    var p := Run(Init(groups, workers), ss);
    ReachableInv(groups, workers, ss);
    RunKeepsInv(p, more);
    RaisedStays(p, more);
    var q := Run(p, more);
    assert Places(q, All) == q.next;
    ListLength(q.delivered);
    ListLength(q.raised);
  }

  // -------------------------------------------------------------------------
  // No stuck get_result
  // -------------------------------------------------------------------------

  lemma {:induction false} SomeDeath(ws: seq<Worker>, i: nat)
    requires i < |ws| && ws[i].phase.Dead?
    ensures Deaths(ws) > 0
  {
    if i > 0 { SomeDeath(ws[1..], i - 1); }
  }

  lemma {:induction false} NothingQueued(qs: seq<seq<nat>>)
    requires forall g :: 0 <= g < |qs| ==> qs[g] == []
    ensures InQueues(qs, All) == 0
  {
    if qs != [] { NothingQueued(qs[1..]); }
  }

  lemma {:induction false} NothingRunning(ws: seq<Worker>)
    requires forall i :: 0 <= i < |ws| ==> ws[i].phase.Waiting? || ws[i].phase.Dead?
    ensures InWorkers(ws, All) == 0
  {
    if ws != [] { NothingRunning(ws[1..]); }
  }

  /** Every group has at least one worker. */
  ghost predicate Staffed(p: Pool) {
    forall g :: 0 <= g < |p.queues| ==> HasWorker(p.workers, g)
  }

  ghost predicate HasWorker(ws: seq<Worker>, g: nat) {
    exists i :: 0 <= i < |ws| && ws[i].group == g
  }

  /** Worker `w` has a step to take. */
  predicate CanStep(queues: seq<seq<nat>>, workers: seq<Worker>, w: nat) {
    && w < |workers|
    && match workers[w].phase
       case Waiting => workers[w].group < |queues| && queues[workers[w].group] != []
       case Dead => false
       case _ => true
  }

  lemma SomeoneCanStep(p: Pool) returns (w: nat)
    requires Inv(p) && p.producer.Idle? && !Finished(p) && p.raised == [] && p.results == [] && Staffed(p)
    ensures CanStep(p.queues, p.workers, w)
  {
    CountHere(p);
    w := 0;
    if i :| 0 <= i < |p.workers| && (p.workers[i].phase.Running? || p.workers[i].phase.Putting?) {
      w := i;
    } else if g :| 0 <= g < |p.queues| && p.queues[g] != [] {
      assert HasWorker(p.workers, g);
      var i :| 0 <= i < |p.workers| && p.workers[i].group == g;
      if p.workers[i].phase.Dead? { SomeDeath(p.workers, i); }
      w := i;
    } else {
      NothingQueued(p.queues);
      NothingRunning(p.workers);
    }
  }

  /**
   If no error has been raised and every group has a worker, a caller of `get_result` that still has
   tasks to wait for finds a result or a worker that can take a step.
   */
  lemma NoStuckGet(groups: nat, workers: seq<nat>, ss: seq<Step>)
    requires ValidRun(Init(groups, workers), ss)
    requires var p := Run(Init(groups, workers), ss);
             p.producer.Idle? && !Finished(p) && p.raised == [] && p.results == [] && Staffed(p)
    ensures exists s :: WorkerEnabled(Run(Init(groups, workers), ss), s)
  {
    hide Init;
    ReachableInv(groups, workers, ss);
    var p := Run(Init(groups, workers), ss);
    hide Run, Inv;
    var w := SomeoneCanStep(p);
    assert WorkerEnabled(p, match p.workers[w].phase case Waiting => Start(w) case Running(_) => End(w, false) case _ => Report(w));
  }

  /** Worker steps that are still possible without the producer. */
  function Rank(p: Pool): nat {
    3 * InQueues(p.queues, All) + Effort(p.workers)
  }

  function PhaseEffort(ph: Phase): nat {
    match ph
    case Running(_) => 2
    case Putting(_) => 1
    case _ => 0
  }

  function Effort(ws: seq<Worker>): nat {
    if ws == [] then 0 else PhaseEffort(ws[0].phase) + Effort(ws[1..])
  }

  lemma {:induction false} EffortChanged(ws: seq<Worker>, w: nat, x: Worker)
    requires w < |ws|
    ensures Effort(ws[w := x]) == Effort(ws) - PhaseEffort(ws[w].phase) + PhaseEffort(x.phase)
  {
    var after := ws[w := x];
    if w == 0 {
      assert after[1..] == ws[1..];
    } else {
      assert after[1..] == ws[1..][w - 1 := x];
      EffortChanged(ws[1..], w - 1, x);
    }
  }

  /** Every step of a worker brings its task closer to the result queue, so a result arrives in time. */
  lemma WorkerStepLowersRank(p: Pool, s: Step)
    requires WorkerEnabled(p, s) && |p.started| == |p.queues|
    ensures Rank(Apply(p, s)) < Rank(p)
  {
    match s
    case Start(w) =>
      var g := p.workers[w].group;
      ListHead(p.queues[g], All);
      QueueChanged(p.queues, g, p.queues[g][1..], All);
      EffortChanged(p.workers, w, p.workers[w].(phase := Running(p.queues[g][0])));
    case End(w, raises) =>
      var t := p.workers[w].phase.task;
      EffortChanged(p.workers, w, p.workers[w].(phase := Putting(if raises then Error(t) else Value(t))));
    case Report(w) =>
      var o := p.workers[w].phase.o;
      EffortChanged(p.workers, w, p.workers[w].(phase := if o.Error? then Dead else Waiting));
  }

  // -------------------------------------------------------------------------
  // The pool as its producer sees it
  // -------------------------------------------------------------------------

  /** The tasks that have been added and whose result has not been delivered or raised. */
  function Outstanding(p: Pool): set<nat> {
    Below(p.next) - Members(p.delivered) - Members(p.raised)
  }

  function Below(n: nat): (s: set<nat>)
    ensures |s| == n && forall t: nat :: t in s <==> t < n
  {
    if n == 0 then {} else Below(n - 1) + {n - 1}
  }

  function Members(ts: seq<nat>): (s: set<nat>)
    ensures forall t: nat :: t in s <==> t in ts
  {
    if ts == [] then {} else Members(ts[..|ts| - 1]) + {ts[|ts| - 1]}
  }

  lemma {:induction false} InListMember(ts: seq<nat>, t: nat)
    ensures InList(ts, Only(t)) > 0 <==> t in ts
  {
    if ts != [] {
      InListMember(ts[..|ts| - 1], t);
      assert ts == ts[..|ts| - 1] + [ts[|ts| - 1]];
    }
  }

  lemma {:induction false} InListAppend(a: seq<nat>, b: seq<nat>, k: Which)
    ensures InList(a + b, k) == InList(a, k) + InList(b, k)
  {
    if b == [] {
      assert a + b == a;
    } else {
      InListAppend(a, b[..|b| - 1], k);
      assert (a + b)[..|a + b| - 1] == a + b[..|b| - 1];
    }
  }

  lemma {:induction false} DistinctList(ts: seq<nat>)
    requires forall t :: InList(ts, Only(t)) <= 1
    ensures |Members(ts)| == |ts|
  {
    if ts != [] {
      var front, last := ts[..|ts| - 1], ts[|ts| - 1];
      forall t ensures InList(front, Only(t)) <= 1 { assert InList(ts, Only(t)) <= 1; }
      DistinctList(front);
      InListMember(front, last);
      assert InList(ts, Only(last)) == InList(front, Only(last)) + 1;
    }
  }

  /** Delivered and raised tasks are different ones, and all have been added. */
  lemma OverOnce(p: Pool, t: nat)
    requires Conserved(p)
    ensures InList(p.delivered + p.raised, Only(t)) <= 1
    ensures t in p.delivered + p.raised ==> t < p.next
  {
    InListAppend(p.delivered, p.raised, Only(t));
    InListMember(p.delivered + p.raised, t);
    assert Places(p, Only(t)) <= 1;
    assert Places(p, Only(t)) > 0 ==> t < p.next;
  }

  /** Between calls of the producer, the counter is the number of outstanding and of raised tasks. */
  lemma OutstandingCounted(p: Pool)
    requires Inv(p) && p.producer.Idle?
    ensures p.numTasks == |Outstanding(p)| + |p.raised|
  {
    hide Conserved;
    var over := p.delivered + p.raised;
    forall t: nat ensures InList(over, Only(t)) <= 1 && (t in over ==> t < p.next) { OverOnce(p, t); }
    DistinctList(over);
    assert Members(over) <= Below(p.next);
    assert Outstanding(p) == Below(p.next) - Members(over);
  }

  /**
   `add_task` makes the new task outstanding, `get_result` takes exactly the delivered or raised one off,
   which was outstanding, and no step of a worker changes anything.
   */
  lemma ProducerView(p: Pool, s: Step)
    requires Inv(p) && Enabled(p, s)
    ensures (s.Start? || s.End? || s.Report? || s.Count? || s.Take?) ==> Outstanding(Apply(p, s)) == Outstanding(p)
    ensures s.Put? ==> Outstanding(Apply(p, s)) == Outstanding(p) + {p.next} && p.next !in Outstanding(p)
    ensures s.Deliver? ==> var t := p.producer.o.task; t in Outstanding(p) && Outstanding(Apply(p, s)) == Outstanding(p) - {t}
  {
    hide Conserved, Fifo, Sharded, Accounted, Grouped;
    match s
    case Put(_) => assert p.next !in p.delivered + p.raised by { OverOnce(p, p.next); }
    case Deliver =>
      InHandsOnce(p);
      assert forall x :: x in p.delivered + [p.producer.o.task] <==> x in p.delivered || x == p.producer.o.task;
      assert forall x :: x in p.raised + [p.producer.o.task] <==> x in p.raised || x == p.producer.o.task;
    case _ =>
  }

  lemma InHandsOnce(p: Pool)
    requires Conserved(p) && p.producer.Took?
    ensures p.producer.o.task < p.next && p.producer.o.task !in p.delivered && p.producer.o.task !in p.raised
  {
    var t := p.producer.o.task;
    assert Places(p, Only(t)) == if t < p.next then 1 else 0;
    InListMember(p.delivered, t);
    InListMember(p.raised, t);
  }

  lemma SameQueues(p: Pool)
    requires Inv(p)
    ensures |p.queues| == |p.added| == |p.started|
  {
  }

  lemma AddKeeps(p: Pool, g: nat)
    requires Inv(p) && p.producer.Idle?
    ensures |p.queues| == |p.added| == |p.started|
    ensures g < |p.queues| ==>
              var q := Apply(Apply(p, Put(g)), Count);
              Inv(q) && Outstanding(q) == Outstanding(p) + {p.next}
  {
    if g < |p.queues| {
      StepKeepsInv(p, Put(g));
      ProducerView(p, Put(g));
      StepKeepsInv(Apply(p, Put(g)), Count);
      ProducerView(Apply(p, Put(g)), Count);
    }
  }

  lemma GetKeeps(p: Pool)
    requires Inv(p) && p.producer.Idle? && p.results != []
    ensures |p.started| == |p.queues|
    ensures var q := Apply(Apply(p, Take), Deliver); var t := p.results[0].task;
            Inv(q) && t in Outstanding(p) && Outstanding(q) == Outstanding(p) - {t}
  {
    StepKeepsInv(p, Take);
    ProducerView(p, Take);
    StepKeepsInv(Apply(p, Take), Deliver);
    ProducerView(Apply(p, Take), Deliver);
  }

  // -------------------------------------------------------------------------
  // The object
  // -------------------------------------------------------------------------

  /** The queue as an object: each call is the steps that the producer or a worker takes for it. */
  class ShardingWorkQueue {
    var queues: seq<seq<nat>>
    var workers: seq<Worker>
    var results: seq<Outcome>
    var numTasks: int
    var next: nat
    ghost var groupOf: seq<nat>
    ghost var added: seq<seq<nat>>
    ghost var started: seq<seq<nat>>
    ghost var delivered: seq<nat>
    ghost var raised: seq<nat>

    ghost function View(): Pool
      reads this
    {
      Pool(queues, workers, results, numTasks, Idle, next, groupOf, added, started, delivered, raised)
    }

    constructor (groups: nat, devices: seq<nat>)
      ensures View() == Init(groups, devices)
    {
      queues := NoTasks(groups);
      workers := seq(|devices|, i requires 0 <= i < |devices| => Worker(devices[i], Waiting));
      results, numTasks, next := [], 0, 0;
      groupOf, added, started, delivered, raised := [], NoTasks(groups), NoTasks(groups), [], [];
      new;
      assert workers == Init(groups, devices).workers;
    }

    /** A group that has no queue raises a KeyError and changes nothing. */
    method AddTask(group: nat) returns (known: bool)
      requires Inv(View())
      modifies this
      ensures known <==> group < |old(queues)|
      ensures known ==> View() == Apply(Apply(old(View()), Put(group)), Count)
      ensures known ==> Outstanding(View()) == Outstanding(old(View())) + {old(next)}
      ensures !known ==> View() == old(View())
      ensures Inv(View())
    {
      hide Inv, Outstanding;
      AddKeeps(View(), group);
      known := group < |queues|;
      if known {
        queues := queues[group := queues[group] + [next]];
        added := added[group := added[group] + [next]];
        groupOf := groupOf + [group];
        next := next + 1;
        numTasks := numTasks + 1;
      }
    }

    /** Takes the first result; an error is raised to the caller and leaves the counter alone. */
    method GetResult() returns (o: Outcome)
      requires Inv(View()) && results != []
      modifies this
      ensures o == old(results[0])
      ensures View() == Apply(Apply(old(View()), Take), Deliver)
      ensures numTasks == old(numTasks) - (if o.Value? then 1 else 0)
      ensures o.task in Outstanding(old(View())) && Outstanding(View()) == Outstanding(old(View())) - {o.task}
      ensures Inv(View())
    {
      hide Inv, Outstanding;
      GetKeeps(View());
      o := results[0];
      results := results[1..];
      if o.Value? {
        numTasks := numTasks - 1;
        delivered := delivered + [o.task];
      } else {
        raised := raised + [o.task];
      }
    }

    /** True exactly if every task has been delivered and none has raised. */
    method IsFinished() returns (r: bool)
      requires Inv(View())
      ensures r <==> Outstanding(View()) == {} && raised == []
    {
      OutstandingCounted(View());
      r := numTasks == 0;
    }

    /** The worker takes the first task of the queue of its group. */
    method StartTask(w: nat)
      requires Inv(View()) && WorkerEnabled(View(), Start(w))
      modifies this
      ensures View() == Apply(old(View()), Start(w)) && Inv(View())
    {
      hide Inv, Fifo;
      SameQueues(View());
      StepKeepsInv(View(), Start(w));
      var g := workers[w].group;
      var t := queues[g][0];
      queues := queues[g := queues[g][1..]];
      started := started[g := started[g] + [t]];
      workers := workers[w := workers[w].(phase := Running(t))];
    }

    method EndTask(w: nat, raises: bool)
      requires Inv(View()) && WorkerEnabled(View(), End(w, raises))
      modifies this
      ensures View() == Apply(old(View()), End(w, raises)) && Inv(View())
    {
      hide Inv, Fifo;
      SameQueues(View());
      StepKeepsInv(View(), End(w, raises));
      var t := workers[w].phase.task;
      workers := workers[w := workers[w].(phase := Putting(if raises then Error(t) else Value(t)))];
    }

    /** `put_result`; after an exception the worker leaves its loop. */
    method ReportResult(w: nat)
      requires Inv(View()) && WorkerEnabled(View(), Report(w))
      modifies this
      ensures View() == Apply(old(View()), Report(w)) && Inv(View())
    {
      hide Inv, Fifo;
      SameQueues(View());
      StepKeepsInv(View(), Report(w));
      var o := workers[w].phase.o;
      workers := workers[w := workers[w].(phase := if o.Error? then Dead else Waiting)];
      results := results + [o];
    }

    /** One round of the main loop of a worker, for a task that raises or does not. */
    method WorkOnce(w: nat, raises: bool)
      requires Inv(View()) && WorkerEnabled(View(), Start(w))
      modifies this
      ensures View() == Apply(Apply(Apply(old(View()), Start(w)), End(w, raises)), Report(w)) && Inv(View())
      ensures Outstanding(View()) == Outstanding(old(View()))
    {
      ProducerView(View(), Start(w));
      StartTask(w);
      ProducerView(View(), End(w, raises));
      EndTask(w, raises);
      ProducerView(View(), Report(w));
      ReportResult(w);
    }
  }
}
