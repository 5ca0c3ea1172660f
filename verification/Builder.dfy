/** The driver of a build: it launches what may be built and waits for results (`checkbuild.py`). */
module Builder {
  import opened Deps
  import opened Manager
  import opened BuildPool
  import opened BuildTrace

  /** What is left of a blocked set after a completion, and what has become buildable. */
  lemma ReleaseShrinks(s: Schedule, n: string, waiting: set<Module>)
    ensures var r := Release(s, n, waiting);
            && r.blocked.Keys <= s.blocked.Keys
            && (r.blocked.Keys == s.blocked.Keys ==> r.buildable == s.buildable)
  {
    var r := Release(s, n, waiting);
    if r.blocked.Keys == s.blocked.Keys {
      assert r.buildable == s.buildable;
    }
  }

  /** What completing a module comes to, in terms of the transitions of a build. */
  lemma CompletionOutcome(modules: seq<Module>, skip: set<Module>, s: State, log: seq<Event>, m: Module, e: Event)
    requires BuildInv(Elements(modules), skip, s, log) && Completes(s, skip, m, e)
    ensures Named(Elements(modules), m.name)
    ensures var after := AfterCompletion(Elements(modules), s, m);
            if AllWaitFor(Elements(modules), s.schedule, m.name)
            then
              && BuildInv(Elements(modules), skip, after, log + [e])
              && after.schedule == Release(s.schedule, m.name, set x | x in modules && m.name in x.deps)
              && after.schedule.blocked.Keys <= s.schedule.blocked.Keys
              && (after.schedule.blocked.Keys == s.schedule.blocked.Keys ==> after.schedule.buildable == s.schedule.buildable)
            else !SplitSafe(Elements(modules))
  {
    var ms := Elements(modules);
    assert m in ms by { assert m in s.held || m in s.tasks; }
    if AllWaitFor(ms, s.schedule, m.name) {
      Completed(ms, skip, s, log, m, e);
      hide Release, BuildInv, Completes;
      assert (set x | x in ms && m.name in x.deps) == set x | x in modules && m.name in x.deps;
      ReleaseShrinks(s.schedule, m.name, set x | x in ms && m.name in x.deps);
    } else {
      KeyErrorMeansUnsafe(ms, skip, s, log, m);
    }
  }

  /** The manager and the work queue are where the history says, and no task has raised. */
  ghost predicate Running(deps: DependencyManager, pool: TaskPool, skip: set<Module>, s: State, log: seq<Event>)
    reads deps, pool, pool.queue
  {
    && Going(deps, pool, skip, s, log) && pool.Tasks() == s.tasks
  }

  ghost predicate Going(deps: DependencyManager, pool: TaskPool, skip: set<Module>, s: State, log: seq<Event>)
    reads deps, pool, pool.queue
  {
    && deps.Valid() && pool.Valid() && pool.queue.raised == []
    && s.schedule == deps.View() && Elements(pool.modules) == QueuedIn(log)
    && BuildInv(Elements(deps.modules), skip, s, log) && Successful(log, pool.fate)
  }

  lemma SoFar(deps: DependencyManager, pool: TaskPool, skip: set<Module>, s: State, log: seq<Event>)
    requires Going(deps, pool, skip, s, log)
    ensures Recorded(Elements(deps.modules), skip, pool.fate, log)
    ensures s.tasks == QueuedIn(log) - DoneIn(log)
  {
  }

  lemma HeldApart(ms: set<Module>, skip: set<Module>, s: State, log: seq<Event>, m: Module)
    requires BuildInv(ms, skip, s, log) && m in s.held
    ensures m in ms && m !in s.tasks && s.tasks - {m} == s.tasks && m !in QueuedIn(log)
  {
  }

  lemma TaskApart(ms: set<Module>, skip: set<Module>, s: State, log: seq<Event>, m: Module)
    requires BuildInv(ms, skip, s, log) && m in s.tasks
    ensures m in ms && m !in s.held && s.held - {m} == s.held
  {
  }

  lemma LogGrows(log: seq<Event>, e: Event, fate: Module -> Fate)
    requires Successful(log, fate) && (e.Finished? ==> fate(e.m).Succeeds?)
    ensures Successful(log + [e], fate)
    ensures QueuedIn(log + [e]) == QueuedIn(log) + if e.Queued? then {e.m} else {}
  {
    LogExtended(log, e);
  }

  /** `deps.complete`, seen from a running build. `ok` is false for a KeyError. */
  method CompleteOne(deps: DependencyManager, skip: set<Module>, m: Module, ghost s: State, ghost log: seq<Event>, ghost e: Event)
    returns (ok: bool)
    requires deps.Valid() && s.schedule == deps.View() && BuildInv(Elements(deps.modules), skip, s, log)
    requires Completes(s, skip, m, e)
    modifies deps
    ensures ok ==>
              && AfterCompletion(Elements(deps.modules), s, m).schedule == deps.View()
              && BuildInv(Elements(deps.modules), skip, AfterCompletion(Elements(deps.modules), s, m), log + [e])
              && deps.blocked.Keys <= old(deps.blocked.Keys)
              && (deps.blocked.Keys == old(deps.blocked.Keys) ==> deps.buildable == old(deps.buildable))
    ensures !ok ==> !SplitSafe(Elements(deps.modules))
  {
    CompletionOutcome(deps.modules, skip, s, log, m, e);
    hide BuildInv, Release, SplitSafe, Named, Completes, AfterCompletion;
    ok := deps.Complete(m);
  }

  method SkipOne(deps: DependencyManager, pool: TaskPool, skip: set<Module>, m: Module, ghost s: State, ghost log: seq<Event>)
    returns (ok: bool)
    requires Running(deps, pool, skip, s, log) && m in s.held && m in skip
    modifies deps
    ensures ok ==> Running(deps, pool, skip, AfterCompletion(Elements(deps.modules), s, m), log + [Skipped(m)])
    ensures ok ==> deps.blocked.Keys <= old(deps.blocked.Keys)
    ensures ok && deps.blocked.Keys == old(deps.blocked.Keys) ==> deps.buildable == old(deps.buildable)
    ensures !ok ==> !SplitSafe(Elements(deps.modules))
  {
    hide BuildInv, SplitSafe, Release, QueuedIn, Successful;
    HeldApart(Elements(deps.modules), skip, s, log, m);
    LogGrows(log, Skipped(m), pool.fate);
    ok := CompleteOne(deps, skip, m, s, log, Skipped(m));
  }

  method QueueOne(deps: DependencyManager, pool: TaskPool, skip: set<Module>, m: Module, ghost s: State, ghost log: seq<Event>)
    requires Running(deps, pool, skip, s, log) && m in s.held && m !in skip
    modifies pool, pool.queue
    ensures Running(deps, pool, skip, State(s.schedule, s.held - {m}, s.tasks + {m}), log + [Queued(m)])
  {
    hide BuildInv, QueuedIn, Successful;
    HeldApart(Elements(deps.modules), skip, s, log, m);
    TaskQueued(Elements(deps.modules), skip, s, log, m);
    LogGrows(log, Queued(m), pool.fate);
    pool.AddTask(m);
  }

  /** The modules that `get_buildable` handed out are skipped or queued. `ok` is false for a KeyError. */
  method LaunchHeld(deps: DependencyManager, pool: TaskPool, skip: set<Module>, held: set<Module>, ghost s: State, ghost log: seq<Event>)
    returns (ok: bool, ghost s': State, ghost log': seq<Event>)
    requires Running(deps, pool, skip, s, log) && s.held == held
    modifies deps, pool, pool.queue
    ensures ok ==> Running(deps, pool, skip, s', log') && s'.held == {}
    ensures ok ==> deps.blocked.Keys <= old(deps.blocked.Keys)
    ensures ok && deps.blocked.Keys == old(deps.blocked.Keys) ==> deps.buildable == old(deps.buildable)
    ensures log <= log' && Recorded(Elements(deps.modules), skip, pool.fate, log')
    ensures !ok ==> !SplitSafe(Elements(deps.modules))
  {
    hide BuildInv, QueuedIn, Successful, Recorded, SplitSafe, Going;
    s', log' := s, log;
    var todo := held;
    SoFarRunning(deps, pool, skip, s', log');
    while todo != {}
      invariant Running(deps, pool, skip, s', log') && s'.held == todo && log <= log'
      invariant Recorded(Elements(deps.modules), skip, pool.fate, log')
      invariant deps.blocked.Keys <= old(deps.blocked.Keys)
      invariant deps.blocked.Keys == old(deps.blocked.Keys) ==> deps.buildable == old(deps.buildable)
      decreases todo
    {
      var m :| m in todo;
      if m in skip {
        HeldStay(deps, pool, skip, s', log', m);
        ok := SkipOne(deps, pool, skip, m, s', log');
        if !ok {
          return;
        }
        s', log' := AfterCompletion(Elements(deps.modules), s', m), log' + [Skipped(m)];
      } else {
        QueueOne(deps, pool, skip, m, s', log');
        s', log' := State(s'.schedule, s'.held - {m}, s'.tasks + {m}), log' + [Queued(m)];
      }
      SoFarRunning(deps, pool, skip, s', log');
      todo := todo - {m};
    }
    ok := true;
  }

  lemma SoFarRunning(deps: DependencyManager, pool: TaskPool, skip: set<Module>, s: State, log: seq<Event>)
    requires Running(deps, pool, skip, s, log)
    ensures Recorded(Elements(deps.modules), skip, pool.fate, log)
    ensures s.tasks == QueuedIn(log) - DoneIn(log)
  {
    SoFar(deps, pool, skip, s, log);
  }

  lemma HeldStay(deps: DependencyManager, pool: TaskPool, skip: set<Module>, s: State, log: seq<Event>, m: Module)
    requires Running(deps, pool, skip, s, log) && m in s.held
    ensures AfterCompletion(Elements(deps.modules), s, m).held == s.held - {m}
  {
  }

  method HandOut(deps: DependencyManager, pool: TaskPool, skip: set<Module>, ghost s: State, ghost log: seq<Event>)
    returns (held: set<Module>)
    requires Running(deps, pool, skip, s, log) && s.held == {}
    modifies deps
    ensures held == old(deps.buildable) && deps.buildable == {} && deps.blocked == old(deps.blocked)
    ensures Running(deps, pool, skip, State(deps.View(), held, s.tasks), log)
  {
    hide BuildInv;
    HandedOut(Elements(deps.modules), skip, s, log);
    held := deps.GetBuildable();
  }

  /** Queues everything that may be built, completing skipped modules on the way. */
  method LaunchBuildable(deps: DependencyManager, pool: TaskPool, skip: set<Module>, ghost s: State, ghost log: seq<Event>)
    returns (ok: bool, ghost s': State, ghost log': seq<Event>)
    requires Running(deps, pool, skip, s, log) && s.held == {}
    modifies deps, pool, pool.queue
    ensures ok ==> Running(deps, pool, skip, s', log') && s'.held == {} && deps.buildable == {}
    ensures log <= log' && Recorded(Elements(deps.modules), skip, pool.fate, log')
    ensures !ok ==> !SplitSafe(Elements(deps.modules))
  {
    hide Running, Recorded, SplitSafe;
    SoFarRunning(deps, pool, skip, s, log);
    s', log' := s, log;
    while deps.buildable != {}
      invariant Running(deps, pool, skip, s', log') && s'.held == {} && log <= log'
      invariant Recorded(Elements(deps.modules), skip, pool.fate, log')
      decreases deps.blocked.Keys, deps.buildable
    {
      var held := HandOut(deps, pool, skip, s', log');
      s' := State(deps.View(), held, s'.tasks);
      ok, s', log' := LaunchHeld(deps, pool, skip, held, s', log');
      if !ok {
        return;
      }
    }
    ok := true;
  }

  /** How a build ends. */
  datatype Outcome = Built | BuildFailed(m: Module) | TaskRaised | KeyError | StoppedEarly | NotStarted(why: Creation)

  /** A module that was queued and not finished, with the fate that is to blame. */
  ghost predicate ToBlame(fate: Module -> Fate, log: seq<Event>, m: Module, f: Fate) {
    m in QueuedIn(log) && m !in DoneIn(log) && fate(m) == f
  }

  /** What an outcome says about the history of the build. */
  ghost predicate Explained(ms: set<Module>, fate: Module -> Fate, log: seq<Event>, out: Outcome) {
    match out
    case BuildFailed(m) => ToBlame(fate, log, m, Fails)
    case TaskRaised => exists m :: ToBlame(fate, log, m, Raises)
    case KeyError => !SplitSafe(ms)
    case _ => true
  }

  /** A completed module has not been completed before. */
  lemma Progress(ms: set<Module>, skip: set<Module>, s: State, log: seq<Event>, m: Module, log': seq<Event>)
    requires BuildInv(ms, skip, s, log) && m in s.tasks && log + [Finished(m)] <= log'
    ensures m in ms - DoneIn(log) && DoneIn(log) + {m} <= DoneIn(log')
  {
    LogExtended(log, Finished(m));
    DoneGrows(log + [Finished(m)], log');
  }

  lemma {:induction false} DoneGrows(log: seq<Event>, more: seq<Event>)
    requires log <= more
    ensures DoneIn(log) <= DoneIn(more)
    decreases |more|
  {
    if |log| < |more| {
      DoneGrows(log, more[..|more| - 1]);
    } else {
      assert log == more;
    }
  }

  method FinishOne(deps: DependencyManager, pool: TaskPool, skip: set<Module>, m: Module, ghost s: State, ghost log: seq<Event>)
    returns (ok: bool)
    requires Going(deps, pool, skip, s, log) && m in s.tasks && pool.Tasks() == s.tasks - {m} && pool.fate(m).Succeeds?
    modifies deps
    ensures ok ==> Running(deps, pool, skip, AfterCompletion(Elements(deps.modules), s, m), log + [Finished(m)])
    ensures ok ==> AfterCompletion(Elements(deps.modules), s, m).held == s.held
    ensures !ok ==> !SplitSafe(Elements(deps.modules))
  {
    hide BuildInv, SplitSafe, Release, QueuedIn, Successful;
    TaskApart(Elements(deps.modules), skip, s, log, m);
    LogGrows(log, Finished(m), pool.fate);
    ok := CompleteOne(deps, skip, m, s, log, Finished(m));
  }

  function Unfinished(modules: seq<Module>, log: seq<Event>): set<Module> {
    Elements(modules) - DoneIn(log)
  }

  /** A module whose build has succeeded is completed, and what that frees is launched. */
  method TakeSuccess(deps: DependencyManager, pool: TaskPool, skip: set<Module>, m: Module, ghost s: State, ghost log: seq<Event>)
    returns (ok: bool, ghost s': State, ghost log': seq<Event>)
    requires Going(deps, pool, skip, s, log) && s.held == {} && m in s.tasks
    requires pool.Tasks() == s.tasks - {m} && pool.fate(m).Succeeds?
    modifies deps, pool, pool.queue
    ensures ok ==> Running(deps, pool, skip, s', log') && s'.held == {} && deps.buildable == {}
    ensures ok ==> Unfinished(deps.modules, log') < Unfinished(deps.modules, log)
    ensures Recorded(Elements(deps.modules), skip, pool.fate, log')
    ensures !ok ==> !SplitSafe(Elements(deps.modules))
  {
    hide BuildInv, Recorded, SplitSafe, DoneIn, QueuedIn, AfterCompletion, Successful, Running;
    SoFar(deps, pool, skip, s, log);
    ok := FinishOne(deps, pool, skip, m, s, log);
    if ok {
      ok, s', log' := LaunchBuildable(deps, pool, skip, AfterCompletion(Elements(deps.modules), s, m), log + [Finished(m)]);
      Progress(Elements(deps.modules), skip, s, log, m, log');
    } else {
      s', log' := s, log;
    }
  }

  /** One round of the loop of `wait_for_build`: some task ends, and its result decides how to go on. */
  method TakeResult(deps: DependencyManager, pool: TaskPool, skip: set<Module>, ghost s: State, ghost log: seq<Event>)
    returns (out: Outcome, ghost s': State, ghost log': seq<Event>)
    requires Running(deps, pool, skip, s, log) && s.held == {} && deps.buildable == {} && s.tasks != {}
    modifies deps, pool, pool.queue
    ensures out.Built? ==> Running(deps, pool, skip, s', log') && s'.held == {} && deps.buildable == {}
    ensures out.Built? ==> Unfinished(deps.modules, log') < Unfinished(deps.modules, log)
    ensures Recorded(Elements(deps.modules), skip, pool.fate, log') && Explained(Elements(deps.modules), pool.fate, log', out)
    ensures out.Built? || out.BuildFailed? || out.TaskRaised? || out.KeyError?
  {
    hide BuildInv, Recorded, SplitSafe, DoneIn, QueuedIn, Successful;
    SoFarRunning(deps, pool, skip, s, log);
    var r;
    ghost var m;
    r, m := pool.GetResult();
    s', log' := s, log;
    if r.Raised? {
      assert ToBlame(pool.fate, log, m, Raises);
      out := TaskRaised;
    } else if !r.ok {
      out := BuildFailed(r.m);
    } else {
      var ok;
      ok, s', log' := TakeSuccess(deps, pool, skip, r.m, s, log);
      out := if ok then Built else KeyError;
    }
  }

  /** Waits for one result after the other, in whatever order they arrive, and launches what they free. */
  method WaitForBuild(deps: DependencyManager, pool: TaskPool, skip: set<Module>, ghost s: State, ghost log: seq<Event>)
    returns (out: Outcome, ghost s': State, ghost log': seq<Event>)
    requires Running(deps, pool, skip, s, log) && s.held == {} && deps.buildable == {}
    modifies deps, pool, pool.queue
    ensures out.Built? ==> Running(deps, pool, skip, s', log') && s'.held == s'.tasks == deps.buildable == {}
    ensures Recorded(Elements(deps.modules), skip, pool.fate, log') && Explained(Elements(deps.modules), pool.fate, log', out)
    ensures out.Built? || out.BuildFailed? || out.TaskRaised? || out.KeyError?
  {
    hide Running, Recorded, Explained;
    SoFarRunning(deps, pool, skip, s, log);
    s', log' := s, log;
    out := Built;
    NothingToExplain(Elements(deps.modules), pool.fate, log);
    var finished := CheckFinished(deps, pool, skip, s', log');
    while out.Built? && !finished
      invariant out.Built? ==> Running(deps, pool, skip, s', log') && s'.held == {} && deps.buildable == {}
      invariant out.Built? ==> (finished <==> s'.tasks == {})
      invariant Recorded(Elements(deps.modules), skip, pool.fate, log') && Explained(Elements(deps.modules), pool.fate, log', out)
      invariant out.Built? || out.BuildFailed? || out.TaskRaised? || out.KeyError?
      decreases out.Built?, Unfinished(deps.modules, log')
    {
      out, s', log' := TakeResult(deps, pool, skip, s', log');
      if out.Built? {
        finished := CheckFinished(deps, pool, skip, s', log');
      }
    }
  }

  lemma NothingToExplain(ms: set<Module>, fate: Module -> Fate, log: seq<Event>)
    ensures Explained(ms, fate, log, Built)
  {
  }

  /** `workqueue.finished()`. */
  method CheckFinished(deps: DependencyManager, pool: TaskPool, skip: set<Module>, ghost s: State, ghost log: seq<Event>)
    returns (finished: bool)
    requires Running(deps, pool, skip, s, log)
    ensures finished <==> s.tasks == {}
  {
    hide BuildInv;
    finished := pool.IsFinished();
  }

  /** The dependency manager accepts these modules. */
  ghost predicate Startable(modules: seq<Module>) {
    modules != [] && DepClosed(Elements(modules)) && AcyclicModules(Elements(modules))
  }

  /** All builds that are not skipped succeed. */
  ghost predicate AllSucceed(ms: set<Module>, skip: set<Module>, fate: Module -> Fate) {
    forall m :: m in ms && m !in skip ==> fate(m).Succeeds?
  }

  /**
   The whole of a build, for any modules, any modules to be skipped, any number of jobs, whatever becomes of
   each build and in whatever order the results arrive. Modules are queued after their dependencies have been
   completed, never twice and never if skipped. The build ends well if and only if it could start, all builds
   succeed and nobody depends on a name that two modules share; it has then queued everything that is not
   skipped, and nothing is left blocked. If all succeed and it does not end well, it raises KeyError. A failure
   or an exception is that of a module that was queued. The final check for modules that are still buildable
   never fails.
   */
  method BuildNdk(modules: seq<Module>, skip: set<Module>, jobs: nat, fate: Module -> Fate) returns (out: Outcome, ghost log: seq<Event>)
    requires NoRepeats(modules) && jobs >= 1
    ensures Recorded(Elements(modules), skip, fate, log) && Explained(Elements(modules), fate, log, out)
    ensures out.Built? ==> QueuedIn(log) == Elements(modules) - skip && DoneIn(log) == Elements(modules)
    ensures out.Built? <==> Startable(modules) && AllSucceed(Elements(modules), skip, fate) && SplitSafe(Elements(modules))
    ensures AllSucceed(Elements(modules), skip, fate) ==> (out.KeyError? <==> Startable(modules) && !SplitSafe(Elements(modules)))
    ensures out.NotStarted? <==> !Startable(modules)
    ensures !out.StoppedEarly?
  {
    hide Running, Recorded, SplitSafe, DepClosed, AcyclicModules, AllSucceed, BuildInv;
    log := [];
    ghost var ms := Elements(modules);
    NothingRecorded(ms, skip, fate);
    var creation := Create(modules);
    if !creation.Created? {
      return NotStarted(creation), log;
    }
    var deps := creation.manager;
    var pool := new TaskPool(jobs, fate);
    ghost var s := State(Initial(ms), {}, {});
    BuildBegins(deps, pool, skip, s);
    var ok;
    ok, s, log := LaunchBuildable(deps, pool, skip, s, log);
    if ok {
      out, s, log := WaitForBuild(deps, pool, skip, s, log);
      if out.Built? {
        BuildEnds(deps, pool, skip, s, log);
        var left := deps.GetBuildable();
        if left != {} {
          out := StoppedEarly;
        }
      }
    } else {
      out := KeyError;
    }
    if AllSucceed(ms, skip, fate) {
      NobodyToBlame(ms, skip, fate, log);
    }
  }

  lemma NothingRecorded(ms: set<Module>, skip: set<Module>, fate: Module -> Fate)
    ensures Recorded(ms, skip, fate, [])
  {
  }

  lemma BuildBegins(deps: DependencyManager, pool: TaskPool, skip: set<Module>, s: State)
    requires deps.Valid() && deps.View() == Initial(Elements(deps.modules)) && s == State(deps.View(), {}, {})
    requires pool.Valid() && pool.queue.raised == [] && pool.Tasks() == {} && pool.modules == []
    ensures Running(deps, pool, skip, s, [])
  {
    Started(Elements(deps.modules), skip);
  }

  lemma NobodyToBlame(ms: set<Module>, skip: set<Module>, fate: Module -> Fate, log: seq<Event>)
    requires Recorded(ms, skip, fate, log) && AllSucceed(ms, skip, fate)
    ensures forall m :: !ToBlame(fate, log, m, Fails) && !ToBlame(fate, log, m, Raises)
  {
    QueuedExactly(log, skip);
  }

  /** A finished build leaves nothing behind, and everything in it has succeeded. */
  lemma BuildEnds(deps: DependencyManager, pool: TaskPool, skip: set<Module>, s: State, log: seq<Event>)
    requires Running(deps, pool, skip, s, log) && s.held == s.tasks == deps.buildable == {}
    requires DepClosed(Elements(deps.modules)) && AcyclicModules(Elements(deps.modules))
    ensures var ms := Elements(deps.modules);
            && QueuedIn(log) == ms - skip && DoneIn(log) == ms && SplitSafe(ms) && AllSucceed(ms, skip, pool.fate)
  {
    hide BuildInv, SplitSafe, DepClosed, AcyclicModules, QueuedIn, DoneIn, Successful;
    var ms := Elements(deps.modules);
    SoFarRunning(deps, pool, skip, s, log);
    NothingLeftBehind(ms, skip, s, log);
    QueuedExactly(log, skip);
    forall m | m in ms && m !in skip ensures pool.fate(m).Succeeds? {
      FinishedSucceeds(log, skip, pool.fate, m);
    }
  }

  lemma {:induction false} FinishedSucceeds(log: seq<Event>, skip: set<Module>, fate: Module -> Fate, m: Module)
    requires GoodLog(log, skip) && Successful(log, fate) && m in DoneIn(log) && m !in skip
    ensures fate(m).Succeeds?
  {
    var front, e := log[..|log| - 1], log[|log| - 1];
    assert Allowed(e, front, skip);
    if m in DoneIn(front) {
      assert forall k :: 0 <= k < |front| ==> front[k] == log[k] && front[..k] == log[..k];
      FinishedSucceeds(front, skip, fate, m);
    }
  }
}
