/** The work queue of a build: tasks are modules, and what becomes of each is up to its build (`checkbuild.py`). */
module BuildPool {
  import opened Deps
  import opened Manager
  import Q = WorkQueue

  /** How the build of a module ends. */
  datatype Fate = Succeeds | Fails | Raises

  /** What `get_result` gives to the build: a module that has been built or not, or an exception. */
  datatype TaskResult = Result(ok: bool, m: Module) | Raised

  /** A worker raises exactly if the task it was given does. */
  ghost predicate Told(o: Q.Outcome, modules: seq<Module>, fate: Module -> Fate) {
    o.task < |modules| && (o.Error? <==> fate(modules[o.task]).Raises?)
  }

  ghost predicate Fated(workers: seq<Q.Worker>, results: seq<Q.Outcome>, modules: seq<Module>, fate: Module -> Fate) {
    && (forall w :: 0 <= w < |workers| && workers[w].phase.Running? ==> workers[w].phase.task < |modules|)
    && (forall w :: 0 <= w < |workers| && workers[w].phase.Putting? ==> Told(workers[w].phase.o, modules, fate))
    && (forall i :: 0 <= i < |results| ==> Told(results[i], modules, fate))
  }

  /** All tasks in the queues are known. */
  ghost predicate Queueable(queues: seq<seq<nat>>, n: nat) {
    forall g, i :: 0 <= g < |queues| && 0 <= i < |queues[g]| ==> queues[g][i] < n
  }

  lemma QueuedAreKnown(p: Q.Pool)
    requires Q.Inv(p)
    ensures Queueable(p.queues, p.next)
  {
    hide Q.Conserved, Q.Sharded, Q.Accounted;
    forall g, i | 0 <= g < |p.queues| && 0 <= i < |p.queues[g]| ensures p.queues[g][i] < p.next {
      assert p.started[g] + p.queues[g] == p.added[g];
      assert p.added[g][|p.started[g]| + i] == p.queues[g][i];
    }
  }

  class TaskPool {
    const queue: Q.ShardingWorkQueue
    const fate: Module -> Fate
    var modules: seq<Module>  // the module of each task

    ghost predicate Valid()
      reads this, queue
    {
      && Q.Inv(queue.View()) && |modules| == queue.next && NoRepeats(modules)
      && |queue.queues| == 1 && Q.Staffed(queue.View())
      && Fated(queue.workers, queue.results, modules, fate)
    }

    /** The modules whose result has not been delivered. */
    ghost function Tasks(): set<Module>
      requires Valid()
      reads this, queue
    {
      set t | t in Q.Outstanding(queue.View()) && t < |modules| :: modules[t]
    }

    /** `WorkQueue(jobs)`: one group of workers. */
    constructor (jobs: nat, fate: Module -> Fate)
      requires jobs >= 1
      ensures Valid() && Tasks() == {} && modules == [] && queue.raised == [] && this.fate == fate && fresh(queue)
    {
      var q := new Q.ShardingWorkQueue(1, seq(jobs, i => 0));
      queue, this.fate, modules := q, fate, [];
      new;
      Q.InitInv(1, seq(jobs, i => 0));
      assert q.workers[0].group == 0;
      assert Q.HasWorker(q.workers, 0);
    }

    method AddTask(m: Module)
      requires Valid() && m !in modules
      modifies this, queue
      ensures Valid() && Tasks() == old(Tasks()) + {m} && modules == old(modules) + [m]
      ensures queue.raised == old(queue.raised)
    {
      hide Q.Inv, Q.Outstanding;
      ghost var before := queue.View();
      var _ := queue.AddTask(0);
      modules := modules + [m];
      assert queue.workers == before.workers;
    }

    /** Every task has been delivered, if none has raised. */
    method IsFinished() returns (r: bool)
      requires Valid() && queue.raised == []
      ensures r <==> Tasks() == {}
    {
      r := queue.IsFinished();
      assert forall t :: t in Q.Outstanding(queue.View()) ==> t < |modules|;
      if !r {
        ghost var t :| t in Q.Outstanding(queue.View());
        assert modules[t] in Tasks();
      }
    }

    /** A worker that can do so takes a step. */
    method Step(w: nat)
      requires Valid() && Q.CanStep(queue.queues, queue.workers, w)
      modifies queue
      ensures Valid() && Tasks() == old(Tasks()) && queue.raised == old(queue.raised)
      ensures Q.Rank(queue.View()) < old(Q.Rank(queue.View()))
    {
      hide Q.Inv, Q.Outstanding, Q.Rank, NoRepeats;
      ghost var p := queue.View();
      Q.SameQueues(p);
      QueuedAreKnown(p);
      ghost var s: Q.Step;
      match queue.workers[w].phase {
        case Waiting =>
          s := Q.Start(w);
          queue.StartTask(w);
        case Running(task) =>
          s := Q.End(w, fate(modules[task]).Raises?);
          queue.EndTask(w, fate(modules[task]).Raises?);
        case Putting(_) =>
          s := Q.Report(w);
          queue.ReportResult(w);
      }
      Q.ProducerView(p, s);
      Q.WorkerStepLowersRank(p, s);
      StillStaffed(p, s);
      StillFated(p, s, modules, fate);
    }

    /** The workers go on in any order, for as long as it takes to have a result and maybe longer. */
    method Progress()
      requires Valid() && Tasks() != {} && queue.raised == []
      modifies queue
      ensures Valid() && Tasks() == old(Tasks()) && queue.raised == [] && queue.results != []
    {
      hide Q.Inv, Q.Outstanding, Q.Rank, NoRepeats, Q.CanStep;
      var more: bool := *;
      while queue.results == [] || (more && exists w :: 0 <= w < |queue.workers| && Q.CanStep(queue.queues, queue.workers, w))
        invariant Valid() && Tasks() == old(Tasks()) && queue.raised == []
        decreases Q.Rank(queue.View())
      {
        if queue.results == [] {
          SomeWorker();
        }
        var w :| 0 <= w < |queue.workers| && Q.CanStep(queue.queues, queue.workers, w);
        Step(w);
        more := *;
      }
    }

    lemma SomeWorker()
      requires Valid() && Tasks() != {} && queue.raised == [] && queue.results == []
      ensures exists w :: 0 <= w < |queue.workers| && Q.CanStep(queue.queues, queue.workers, w)
    {
      hide NoRepeats, Fated, Q.Inv;
      Q.OutstandingCounted(queue.View());
      var w := Q.SomeoneCanStep(queue.View());
    }

    /**
     Takes delivery of some task, in whatever order the workers end them: one that is outstanding, with the
     result of its build; or raises what some outstanding task raised.
     */
    method GetResult() returns (r: TaskResult, ghost m: Module)
      requires Valid() && Tasks() != {} && queue.raised == []
      modifies queue
      ensures Valid() && m in old(Tasks())
      ensures r.Raised? <==> fate(m).Raises?
      ensures r.Result? ==> r.m == m && (r.ok <==> fate(m).Succeeds?)
      ensures r.Result? ==> queue.raised == [] && Tasks() == old(Tasks()) - {m}
    {
      hide Q.Inv, Q.Outstanding, NoRepeats, Q.HasWorker;
      Progress();
      ghost var p := queue.View();
      assert Told(queue.results[0], modules, fate);
      var o := queue.GetResult();
      m := modules[o.task];
      r := if o.Error? then Raised else Result(fate(modules[o.task]).Succeeds?, modules[o.task]);
      TaskGone(Q.Outstanding(p), modules, o.task);
    }
  }

  lemma StillStaffed(p: Q.Pool, s: Q.Step)
    requires Q.Staffed(p) && Q.Enabled(p, s) && |p.started| == |p.queues|
    ensures Q.Staffed(Q.Apply(p, s))
  {
    var q := Q.Apply(p, s);
    forall g | 0 <= g < |q.queues| ensures Q.HasWorker(q.workers, g) {
      assert Q.HasWorker(p.workers, g);
      var i :| 0 <= i < |p.workers| && p.workers[i].group == g;
      assert q.workers[i].group == g;
    }
  }

  lemma StillFated(p: Q.Pool, s: Q.Step, modules: seq<Module>, fate: Module -> Fate)
    requires Q.WorkerEnabled(p, s) && |p.started| == |p.queues| && |modules| == p.next
    requires Queueable(p.queues, p.next) && Fated(p.workers, p.results, modules, fate)
    requires s.End? ==> s.raises == fate(modules[p.workers[s.w].phase.task]).Raises?
    ensures var q := Q.Apply(p, s); Fated(q.workers, q.results, modules, fate)
  {
  }

  lemma TaskGone(out: set<nat>, modules: seq<Module>, t: nat)
    requires NoRepeats(modules) && t < |modules|
    ensures (set x | x in out - {t} && x < |modules| :: modules[x])
            == (set x | x in out && x < |modules| :: modules[x]) - {modules[t]}
  {
  }
}
