/**
 The history of a build: which modules were queued, finished and skipped, and in what order. The
 transitions below are the ones that `launch_buildable` and `wait_for_build` make (`checkbuild.py`).
 */
module BuildTrace {
  import opened Deps
  import opened Manager
  import opened BuildPool

  datatype Event = Queued(m: Module) | Finished(m: Module) | Skipped(m: Module)

  function QueuedIn(log: seq<Event>): set<Module> {
    if log == [] then {}
    else
      var e := log[|log| - 1];
      QueuedIn(log[..|log| - 1]) + if e.Queued? then {e.m} else {}
  }

  /** The modules that have been completed, by being built or by being skipped. */
  function DoneIn(log: seq<Event>): set<Module> {
    if log == [] then {}
    else
      var e := log[|log| - 1];
      DoneIn(log[..|log| - 1]) + if e.Queued? then {} else {e.m}
  }

  /** The dependencies of `m` have all been completed in `log`. */
  ghost predicate Ready(m: Module, log: seq<Event>) {
    forall d :: d in m.deps ==> Named(DoneIn(log), d)
  }

  /**
   A module is queued or skipped only after its dependencies have been completed, neither twice nor
   both, and it is finished once, after it has been queued. Exactly the modules of `skip` are skipped.
   */
  ghost predicate Allowed(e: Event, before: seq<Event>, skip: set<Module>) {
    && e.m !in DoneIn(before)
    && (e.Finished? <==> e.m in QueuedIn(before))
    && (!e.Finished? ==> Ready(e.m, before) && (e.Skipped? <==> e.m in skip))
  }

  ghost predicate GoodLog(log: seq<Event>, skip: set<Module>) {
    forall k :: 0 <= k < |log| ==> Allowed(log[k], log[..k], skip)
  }

  /** Only builds that succeed are finished. */
  ghost predicate Successful(log: seq<Event>, fate: Module -> Fate) {
    forall k :: 0 <= k < |log| && log[k].Finished? ==> fate(log[k].m).Succeeds?
  }

  /** A good log about these modules and what becomes of them. */
  ghost predicate Recorded(ms: set<Module>, skip: set<Module>, fate: Module -> Fate, log: seq<Event>) {
    GoodLog(log, skip) && QueuedIn(log) + DoneIn(log) <= ms && Successful(log, fate)
  }

  /** No module shares its name with another while something depends on that name. */
  ghost predicate SplitSafe(ms: set<Module>) {
    forall a, b :: a in ms && b in ms && a != b && a.name == b.name ==> !NeededBy(ms, a.name)
  }

  /**
   Where a build stands: the manager's schedule, the modules handed out by `get_buildable` but not yet
   dealt with, and the tasks whose results have not been delivered.
   */
  datatype State = State(schedule: Schedule, held: set<Module>, tasks: set<Module>)

  ghost predicate Accounted(ms: set<Module>, s: State, log: seq<Event>) {
    && ms == s.schedule.buildable + s.schedule.blocked.Keys + s.held + s.tasks + DoneIn(log)
    && s.schedule.buildable !! s.schedule.blocked.Keys !! s.held !! s.tasks !! DoneIn(log)
    && s.tasks == QueuedIn(log) - DoneIn(log)
  }

  /** A blocked module waits for exactly those of its dependencies that are not completed. */
  ghost predicate WaitsExactly(m: Module, waits: set<string>, log: seq<Event>) {
    waits != {} && forall d :: d in waits <==> d in m.deps && !Named(DoneIn(log), d)
  }

  ghost predicate Waiting(s: State, log: seq<Event>) {
    && (forall m :: m in s.schedule.blocked ==> WaitsExactly(m, s.schedule.blocked[m], log))
    && (forall m :: m in s.schedule.buildable || m in s.held || m in s.tasks || m in DoneIn(log) ==> Ready(m, log))
  }

  /** Names that something depends on have been completed at most once. */
  ghost predicate CompletedOnce(ms: set<Module>, log: seq<Event>) {
    forall a, b :: a in DoneIn(log) && b in DoneIn(log) && a != b && a.name == b.name ==> !NeededBy(ms, a.name)
  }

  ghost predicate BuildInv(ms: set<Module>, skip: set<Module>, s: State, log: seq<Event>) {
    Accounted(ms, s, log) && Waiting(s, log) && CompletedOnce(ms, log) && GoodLog(log, skip)
  }

  /** Everything that depends on `n` waits for it, so completing it raises no error. */
  ghost predicate AllWaitFor(ms: set<Module>, s: Schedule, n: string) {
    forall m :: m in ms && n in m.deps ==> m in s.blocked && n in s.blocked[m]
  }

  // -------------------------------------------------------------------------
  // Appending an event
  // -------------------------------------------------------------------------

  lemma LogExtended(log: seq<Event>, e: Event)
    ensures (log + [e])[..|log|] == log
    ensures QueuedIn(log + [e]) == QueuedIn(log) + if e.Queued? then {e.m} else {}
    ensures DoneIn(log + [e]) == DoneIn(log) + if e.Queued? then {} else {e.m}
  {
    assert (log + [e])[..|log|] == log;
  }

  lemma GoodLogExtended(log: seq<Event>, skip: set<Module>, e: Event)
    requires GoodLog(log, skip)
    requires Allowed(e, log, skip)
    ensures GoodLog(log + [e], skip)
  {
    var more := log + [e];
    forall k | 0 <= k < |more|
      ensures more[..k] == log[..k] && (k < |log| ==> more[k] == log[k]) && (k == |log| ==> more[k] == e && log[..k] == log)
    {
    }
  }

  // -------------------------------------------------------------------------
  // The transitions
  // -------------------------------------------------------------------------

  lemma Started(ms: set<Module>, skip: set<Module>)
    ensures BuildInv(ms, skip, State(Initial(ms), {}, {}), [])
  {
  }

  lemma HandedOut(ms: set<Module>, skip: set<Module>, s: State, log: seq<Event>)
    requires BuildInv(ms, skip, s, log) && s.held == {}
    ensures BuildInv(ms, skip, State(Schedule({}, s.schedule.blocked), s.schedule.buildable, s.tasks), log)
  {
  }

  lemma TaskQueued(ms: set<Module>, skip: set<Module>, s: State, log: seq<Event>, m: Module)
    requires BuildInv(ms, skip, s, log) && m in s.held && m !in skip
    ensures BuildInv(ms, skip, State(s.schedule, s.held - {m}, s.tasks + {m}), log + [Queued(m)])
  {
    LogExtended(log, Queued(m));
    GoodLogExtended(log, skip, Queued(m));
  }

  /** A module may be completed: by skipping one that was handed out, or by finishing a task. */
  ghost predicate Completes(s: State, skip: set<Module>, m: Module, e: Event) {
    (e == Skipped(m) && m in s.held && m in skip) || (e == Finished(m) && m in s.tasks)
  }

  /** The state after `m` has been completed. */
  ghost function AfterCompletion(ms: set<Module>, s: State, m: Module): State {
    State(Release(s.schedule, m.name, set x | x in ms && m.name in x.deps), s.held - {m}, s.tasks - {m})
  }

  lemma CompletionAccounted(ms: set<Module>, skip: set<Module>, s: State, log: seq<Event>, m: Module, e: Event)
    requires Accounted(ms, s, log) && Completes(s, skip, m, e)
    ensures Accounted(ms, AfterCompletion(ms, s, m), log + [e])
  {
    LogExtended(log, e);
    var r := AfterCompletion(ms, s, m).schedule;
    assert r.buildable + r.blocked.Keys == s.schedule.buildable + s.schedule.blocked.Keys;
    assert r.buildable !! r.blocked.Keys;
  }

  lemma CompletionReady(log: seq<Event>, e: Event, m: Module)
    requires Ready(m, log)
    ensures Ready(m, log + [e])
  {
    LogExtended(log, e);
    forall d | d in m.deps
      ensures Named(DoneIn(log + [e]), d)
    {
      assert Named(DoneIn(log), d);
    }
  }

  lemma CompletedNames(log: seq<Event>, e: Event, n: string)
    requires !e.Queued?
    ensures Named(DoneIn(log + [e]), n) <==> Named(DoneIn(log), n) || n == e.m.name
  {
    LogExtended(log, e);
    assert e.m in DoneIn(log + [e]);
    assert Named(DoneIn(log + [e]), n) ==> Named(DoneIn(log), n) || n == e.m.name;
  }

  /** What a module waits for once `e.m` has been completed. */
  lemma WaitsLess(x: Module, waits: set<string>, log: seq<Event>, e: Event)
    requires WaitsExactly(x, waits, log) && !e.Queued? && (e.m.name in x.deps ==> e.m.name in waits)
    ensures waits != {e.m.name} ==> WaitsExactly(x, waits - {e.m.name}, log + [e])
    ensures waits == {e.m.name} ==> Ready(x, log + [e])
  {
    var n := e.m.name;
    forall d ensures Named(DoneIn(log + [e]), d) <==> Named(DoneIn(log), d) || d == n { CompletedNames(log, e, d); }
  }

  lemma CompletionWaiting(ms: set<Module>, skip: set<Module>, s: State, log: seq<Event>, m: Module, e: Event)
    requires Accounted(ms, s, log) && Waiting(s, log) && AllWaitFor(ms, s.schedule, m.name) && Completes(s, skip, m, e)
    ensures Waiting(AfterCompletion(ms, s, m), log + [e])
  {
    var t := AfterCompletion(ms, s, m);
    LogExtended(log, e);
    forall x | x in s.schedule.blocked
      ensures x in t.schedule.blocked ==> WaitsExactly(x, t.schedule.blocked[x], log + [e])
      ensures x in t.schedule.buildable && x !in s.schedule.buildable ==> Ready(x, log + [e])
    {
      WaitsLess(x, s.schedule.blocked[x], log, e);
      if m.name !in x.deps { assert s.schedule.blocked[x] - {m.name} == s.schedule.blocked[x]; }
    }
    forall x | x in s.schedule.buildable || x in s.held || x in s.tasks || x in DoneIn(log)
      ensures Ready(x, log + [e])
    {
      CompletionReady(log, e, x);
    }
    hide Release, WaitsExactly, Ready;
  }

  lemma CompletionOnce(ms: set<Module>, skip: set<Module>, s: State, log: seq<Event>, m: Module, e: Event)
    requires Accounted(ms, s, log) && Waiting(s, log) && CompletedOnce(ms, log)
    requires AllWaitFor(ms, s.schedule, m.name) && Completes(s, skip, m, e)
    ensures CompletedOnce(ms, log + [e])
  {
    LogExtended(log, e);
    assert forall x :: x in s.schedule.blocked ==> WaitsExactly(x, s.schedule.blocked[x], log);
    assert Named(DoneIn(log), m.name) ==> !NeededBy(ms, m.name);
  }

  lemma CompletionLogged(ms: set<Module>, skip: set<Module>, s: State, log: seq<Event>, m: Module, e: Event)
    requires Accounted(ms, s, log) && Waiting(s, log) && GoodLog(log, skip) && Completes(s, skip, m, e)
    ensures GoodLog(log + [e], skip)
  {
    GoodLogExtended(log, skip, e);
  }

  lemma Completed(ms: set<Module>, skip: set<Module>, s: State, log: seq<Event>, m: Module, e: Event)
    requires BuildInv(ms, skip, s, log) && AllWaitFor(ms, s.schedule, m.name) && Completes(s, skip, m, e)
    ensures BuildInv(ms, skip, AfterCompletion(ms, s, m), log + [e])
  {
    hide Accounted, Waiting, CompletedOnce, GoodLog, AllWaitFor, Completes, AfterCompletion;
    CompletionAccounted(ms, skip, s, log, m, e);
    CompletionWaiting(ms, skip, s, log, m, e);
    CompletionOnce(ms, skip, s, log, m, e);
    CompletionLogged(ms, skip, s, log, m, e);
  }

  // -------------------------------------------------------------------------
  // What the transitions add up to
  // -------------------------------------------------------------------------

  /** If completing a module would raise an error, a split module is being depended on. */
  lemma KeyErrorMeansUnsafe(ms: set<Module>, skip: set<Module>, s: State, log: seq<Event>, m: Module)
    requires BuildInv(ms, skip, s, log) && (m in s.held || m in s.tasks) && !AllWaitFor(ms, s.schedule, m.name)
    ensures !SplitSafe(ms)
  {
    var x :| x in ms && m.name in x.deps && !(x in s.schedule.blocked && m.name in s.schedule.blocked[x]);
    assert NeededBy(ms, m.name);
    if x in s.schedule.blocked {
      assert WaitsExactly(x, s.schedule.blocked[x], log);
    } else {
      assert Ready(x, log);
    }
    assert Named(DoneIn(log), m.name);
    var other :| other in DoneIn(log) && other.name == m.name;
    assert other != m;
  }

  lemma DepsBelow(ms: set<Module>, order: seq<string>, k: nat, m: Module)
    requires BuildOrder(ms, order) && k < |order| && m in ms && m.name == order[k]
    ensures forall d :: d in m.deps ==> d in order[..k]
  {
    var p :| 0 <= p < |order| && order[p] == m.name && forall d :: d in m.deps ==> d in order[..p];
    assert p == k;
  }

  /** A module with no blocked dependency cannot be blocked for ever: follow the build order down. */
  lemma {:induction false} NothingBlockedBelow(ms: set<Module>, skip: set<Module>, s: State, log: seq<Event>, order: seq<string>, k: nat)
    requires BuildInv(ms, skip, s, log) && s.schedule.buildable == s.held == s.tasks == {}
    requires DepClosed(ms) && BuildOrder(ms, order) && k <= |order|
    ensures forall m :: m in ms && m.name in order[..k] ==> m in DoneIn(log)
  {
    if k > 0 {
      NothingBlockedBelow(ms, skip, s, log, order, k - 1);
      forall m | m in ms && m.name == order[k - 1]
        ensures m in DoneIn(log)
      {
        DepsBelow(ms, order, k - 1, m);
        assert Ready(m, log) by {
          forall d | d in m.deps
            ensures Named(DoneIn(log), d)
          {
            assert Named(ms, d);
            var x :| x in ms && x.name == d;
            assert x in DoneIn(log);
          }
        }
      }
      assert forall n :: n in order[..k] ==> n in order[..k - 1] || n == order[k - 1];
    }
  }

  /** A build with nothing left to hand out and no task outstanding is complete. */
  lemma NothingLeftBehind(ms: set<Module>, skip: set<Module>, s: State, log: seq<Event>)
    requires BuildInv(ms, skip, s, log) && s.schedule.buildable == s.held == s.tasks == {}
    requires DepClosed(ms) && AcyclicModules(ms)
    ensures s.schedule.blocked == map[] && DoneIn(log) == ms && SplitSafe(ms)
  {
    var order :| BuildOrder(ms, order);
    NothingBlockedBelow(ms, skip, s, log, order, |order|);
    forall m | m in ms ensures m in DoneIn(log) { assert m.name in order[..|order|]; }
    assert s.schedule.blocked.Keys == {};
  }

  /** In a good log, what is queued is not skipped and what is skipped was to be skipped. */
  lemma {:induction false} QueuedExactly(log: seq<Event>, skip: set<Module>)
    requires GoodLog(log, skip)
    ensures QueuedIn(log) !! skip && DoneIn(log) <= QueuedIn(log) + skip
  {
    if log != [] {
      var front, e := log[..|log| - 1], log[|log| - 1];
      assert forall k :: 0 <= k < |front| ==> front[k] == log[k] && front[..k] == log[..k];
      QueuedExactly(front, skip);
      assert Allowed(e, front, skip);
    }
  }
}
