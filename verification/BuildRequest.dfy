/** From the requested names to the finished build (`checkbuild.py`). */
module BuildRequest {
  import opened Deps
  import opened Manager
  import opened BuildPool
  import opened BuildTrace
  import opened Builder
  import opened Closure

  /** A registered module as it goes to a worker; `arch` is empty unless it is built per architecture. */
  function Unsplit(x: Spec): Module {
    Module(x.name, "", x.deps)
  }

  function ForArch(x: Spec, arch: string): Module {
    Module(x.name, arch, x.deps)
  }

  /** What is built for `modules`: one module each, or one per architecture. */
  function BuildModules(modules: set<Spec>, arches: seq<string>): set<Module> {
    (set x | x in modules && !x.split :: Unsplit(x)) +
    (set x, a | x in modules && x.split && a in arches :: ForArch(x, a))
  }

  function SplitModule(x: Spec, arches: seq<string>): seq<Module> {
    if x.split then seq(|arches|, i requires 0 <= i < |arches| => ForArch(x, arches[i])) else [Unsplit(x)]
  }

  ghost predicate DistinctArches(arches: seq<string>) {
    arches != [] && (forall i, j :: 0 <= i < j < |arches| ==> arches[i] != arches[j]) && "" !in arches
  }

  /** Different registered modules have different names. */
  ghost predicate DistinctNames(modules: set<Spec>) {
    forall x, y :: x in modules && y in modules && x.name == y.name ==> x == y
  }

  lemma SplitModuleExact(x: Spec, arches: seq<string>)
    requires DistinctArches(arches)
    ensures NoRepeats(SplitModule(x, arches))
    ensures Elements(SplitModule(x, arches)) == BuildModules({x}, arches)
    ensures forall m :: m in SplitModule(x, arches) ==> m.name == x.name
  {
    var list := SplitModule(x, arches);
    if x.split {
      assert forall i :: 0 <= i < |arches| ==> list[i] == ForArch(x, arches[i]);
      forall m | m in BuildModules({x}, arches)
        ensures m in list
      {
        var a :| a in arches && m == ForArch(x, a);
        var i :| 0 <= i < |arches| && arches[i] == a;
        assert list[i] == m;
      }
    }
  }

  lemma BuildModulesUnion(a: set<Spec>, b: set<Spec>, arches: seq<string>)
    ensures BuildModules(a + b, arches) == BuildModules(a, arches) + BuildModules(b, arches)
  {
  }

  lemma NoRepeatsAppend(a: seq<Module>, b: seq<Module>)
    requires NoRepeats(a) && NoRepeats(b) && Elements(a) !! Elements(b)
    ensures NoRepeats(a + b) && Elements(a + b) == Elements(a) + Elements(b)
  {
    forall i, j | 0 <= i < j < |a + b|
      ensures (a + b)[i] != (a + b)[j]
    {
      if i < |a| <= j { assert a[i] in Elements(a) && b[j - |a|] in Elements(b); }
    }
  }

  lemma DifferentModules(done: set<Spec>, x: Spec, arches: seq<string>)
    requires forall y :: y in done ==> y.name != x.name
    ensures BuildModules(done, arches) !! BuildModules({x}, arches)
  {
  }

  /** The list of modules to build, each once. */
  method SplitByArch(modules: set<Spec>, arches: seq<string>) returns (list: seq<Module>)
    requires DistinctArches(arches) && DistinctNames(modules)
    ensures NoRepeats(list) && Elements(list) == BuildModules(modules, arches)
  {
    hide NoRepeats, BuildModules, DistinctArches;
    list := [];
    var todo := modules;
    ghost var done := {};
    EmptyList(arches);
    while todo != {}
      invariant todo !! done && todo + done == modules
      invariant NoRepeats(list) && Elements(list) == BuildModules(done, arches)
      decreases todo
    {
      var x :| x in todo;
      SplitModuleExact(x, arches);
      DifferentModules(done, x, arches);
      BuildModulesUnion(done, {x}, arches);
      NoRepeatsAppend(list, SplitModule(x, arches));
      list := list + SplitModule(x, arches);
      todo, done := todo - {x}, done + {x};
    }
    assert done == modules;
  }

  lemma EmptyList(arches: seq<string>)
    ensures NoRepeats([]) && Elements([]) == BuildModules({}, arches)
  {
  }

  /** Nothing that is built depends on something that is not. */
  lemma RequestDepClosed(db: map<string, Spec>, modules: set<Spec>, arches: seq<string>)
    requires WellNamed(db) && Closed(db, modules) && DistinctArches(arches)
    requires forall x :: x in modules ==> x.deps <= db.Keys
    ensures DepClosed(BuildModules(modules, arches))
  {
    var ms := BuildModules(modules, arches);
    forall m, d | m in ms && d in m.deps
      ensures Named(ms, d)
    {
      var x :| x in modules && m.deps == x.deps;
      var y := db[d];
      assert Needs(db, x, y) && y in modules;
      assert (if y.split then ForArch(y, arches[0]) else Unsplit(y)) in ms;
    }
  }

  /** The registered module behind a module to build. */
  lemma Origin(modules: set<Spec>, arches: seq<string>, m: Module) returns (x: Spec)
    requires m in BuildModules(modules, arches)
    ensures x in modules && m == (if x.split then ForArch(x, m.arch) else Unsplit(x)) && (x.split ==> m.arch in arches)
  {
    if x :| x in modules && !x.split && m == Unsplit(x) {
      return x;
    }
    var y, a :| y in modules && y.split && a in arches && m == ForArch(y, a);
    x := y;
  }

  lemma Represented(modules: set<Spec>, arches: seq<string>, x: Spec) returns (m: Module)
    requires DistinctArches(arches) && x in modules
    ensures m in BuildModules(modules, arches) && m.name == x.name && m.deps == x.deps
  {
    m := if x.split then ForArch(x, arches[0]) else Unsplit(x);
  }

  /** A split module that something needs is a name completed twice. */
  lemma NeededSplitUnsafe(modules: set<Spec>, arches: seq<string>, x: Spec, y: Spec)
    requires DistinctArches(arches) && x in modules && x.split && |arches| >= 2 && y in modules && x.name in y.deps
    ensures !SplitSafe(BuildModules(modules, arches))
  {
    var ms := BuildModules(modules, arches);
    var a, b := ForArch(x, arches[0]), ForArch(x, arches[1]);
    assert a in ms && b in ms && a != b;
    var m := Represented(modules, arches, y);
    assert NeededBy(ms, x.name);
  }

  /** The only modules with a name in common are those of one split module. */
  lemma SharedNameIsSplit(modules: set<Spec>, arches: seq<string>, a: Module, b: Module) returns (x: Spec)
    requires DistinctNames(modules) && a in BuildModules(modules, arches) && b in BuildModules(modules, arches)
    requires a != b && a.name == b.name
    ensures x in modules && x.split && x.name == a.name && |arches| >= 2
  {
    hide BuildModules;
    x := Origin(modules, arches, a);
    var y := Origin(modules, arches, b);
    assert x == y && a.arch != b.arch;
    assert arches != [a.arch] && arches != [];
  }

  /** A module that is built for several architectures is needed by another. */
  ghost predicate SplitNeeded(modules: set<Spec>, arches: seq<string>) {
    |arches| >= 2 && exists x, y :: x in modules && x.split && y in modules && x.name in y.deps
  }

  /** Two modules share a name that something depends on exactly if a split module is needed. */
  lemma SplitSafeExactly(modules: set<Spec>, arches: seq<string>)
    requires DistinctNames(modules) && DistinctArches(arches)
    ensures SplitSafe(BuildModules(modules, arches)) <==> !SplitNeeded(modules, arches)
  {
    hide BuildModules, DistinctArches, DistinctNames;
    var ms := BuildModules(modules, arches);
    if x, y :| x in modules && x.split && |arches| >= 2 && y in modules && x.name in y.deps {
      NeededSplitUnsafe(modules, arches, x, y);
    }
    if a, b, m :| a in ms && b in ms && a != b && a.name == b.name && m in ms && a.name in m.deps {
      var x := SharedNameIsSplit(modules, arches, a, b);
      var y := Origin(modules, arches, m);
    }
  }

  /** `--skip-deps` compares a module with the unsplit dependencies, so it never skips one built per architecture. */
  lemma SplitNeverSkipped(modules: set<Spec>, depsOnly: set<Spec>, arches: seq<string>, x: Spec, a: string)
    requires DistinctArches(arches) && x in modules && x.split && a in arches
    ensures ForArch(x, a) in BuildModules(modules, arches)
    ensures ForArch(x, a) !in set d | d in depsOnly :: Unsplit(d)
  {
  }

  /** All of `x`, in every form in which it is built. */
  ghost predicate BuiltOrSkipped(x: Spec, arches: seq<string>, log: seq<Event>) {
    if x.split then forall a :: a in arches ==> ForArch(x, a) in QueuedIn(log) && ForArch(x, a) in DoneIn(log)
    else Unsplit(x) in DoneIn(log)
  }

  /** What `--skip-deps` skips. */
  function Skippable(skipDeps: bool, depsOnly: set<Spec>): set<Module> {
    if skipDeps then set d | d in depsOnly :: Unsplit(d) else {}
  }

  /**
   A whole request, whatever becomes of each build and in whatever order. It selects the requested modules
   and everything they need, or says which names are unknown. What it selects is built to the end if and only
   if there is something to build, there is no cycle, all builds succeed, and no module that is built for
   several architectures is needed; it raises KeyError, if all builds succeed, exactly in the last case. If it
   ends well, everything wanted has been built, or skipped if that was asked for and nobody requested it by
   name; what is built per architecture has been built for each of them. However it ends: `--skip-deps` skips
   every module that is not requested by name, unless it is built per architecture, and nothing else is ever
   skipped; and nothing is queued or skipped before everything that it depends on has been completed.
   */
  method BuildRequested(db: map<string, Spec>, names: seq<string>, arches: seq<string>, skipDeps: bool, jobs: nat, fate: Module -> Fate)
    returns (r: Selection, out: Outcome, ghost log: seq<Event>)
    requires WellNamed(db) && DistinctArches(arches) && jobs >= 1
    ensures SelectionOf(db, names, r)
    ensures !r.Selected? ==> out.NotStarted? && log == []
    ensures r.Selected? ==>
              var ms, skip := BuildModules(r.modules, arches), Skippable(skipDeps, r.depsOnly);
              && Recorded(ms, skip, fate, log) && Explained(ms, fate, log, out)
              && (out.NotStarted? <==> names == [] || !AcyclicModules(ms))
              && (out.Built? <==> names != [] && AcyclicModules(ms) && AllSucceed(ms, skip, fate) && !SplitNeeded(r.modules, arches))
              && (AllSucceed(ms, skip, fate) ==> (out.KeyError? <==> names != [] && AcyclicModules(ms) && SplitNeeded(r.modules, arches)))
    ensures r.Selected? && out.Built? ==>
              && DoneIn(log) == BuildModules(r.modules, arches)
              && (forall x :: Wanted(db, names, x) ==> BuiltOrSkipped(x, arches, log))
              && (forall x :: Wanted(db, names, x) && (!skipDeps || x.name in names) && !x.split ==> Unsplit(x) in QueuedIn(log))
    ensures r.Selected? && skipDeps ==>
              forall x :: Wanted(db, names, x) && x.name !in names && !x.split ==> Unsplit(x) !in QueuedIn(log)
    ensures r.Selected? ==>
              forall k :: 0 <= k < |log| && log[k].Skipped? ==>
                skipDeps && exists x :: Wanted(db, names, x) && x.name !in names && !x.split && log[k].m == Unsplit(x)
    ensures r.Selected? ==> DepsFirst(db, names, log)
  {
    hide GoodLog, Wanted, Closed, DistinctArches, QueuedIn, DoneIn, AcyclicModules, DepClosed, SplitSafe, BuildModules,
         BuiltOrSkipped, AllSucceed, Recorded, Explained, SplitNeeded, SelectionOf, DepsFirst;
    log := [];
    r := GetModulesToBuild(db, names);
    if !r.Selected? {
      out := NotStarted(NoModules);
      return;
    }
    SelectedMeans(db, names, r);
    SelectedNames(db, names, r.modules);
    var list := SplitByArch(r.modules, arches);
    RequestDepClosed(db, r.modules, arches);
    SplitSafeExactly(r.modules, arches);
    ListEmptyExactly(db, names, r.modules, arches, list);
    var skip := Skippable(skipDeps, r.depsOnly);
    out, log := BuildNdk(list, skip, jobs, fate);
    SkippedExactly(r.modules, r.depsOnly, arches, skipDeps, fate, log);
    SpecsInOrder(db, names, r.modules, arches, skip, fate, log);
    if out.Built? {
      forall x | x in r.modules
        ensures BuiltOrSkipped(x, arches, log)
        ensures (!skipDeps || x.name in names) && !x.split ==> Unsplit(x) in QueuedIn(log)
      {
        OneBuilt(r.modules, arches, x, skip, log, r.depsOnly);
      }
    }
  }

  /** What is queued or skipped comes after everything that it depends on, as registered. */
  ghost predicate DepsFirst(db: map<string, Spec>, names: seq<string>, log: seq<Event>) {
    forall k, x, d :: 0 <= k < |log| && !log[k].Finished? && Wanted(db, names, x) && x.name == log[k].m.name && d in x.deps
      ==> Named(DoneIn(log[..k]), d)
  }

  lemma EventRecorded(ms: set<Module>, skip: set<Module>, fate: Module -> Fate, log: seq<Event>, k: nat)
    requires Recorded(ms, skip, fate, log) && k < |log|
    ensures log[k].m in ms && Allowed(log[k], log[..k], skip)
  {
    assert log[..k + 1] == log[..k] + [log[k]];
    LogExtended(log[..k], log[k]);
    DoneGrows(log[..k + 1], log);
    QueuedGrows(log[..k + 1], log);
  }

  lemma {:induction false} QueuedGrows(log: seq<Event>, more: seq<Event>)
    requires log <= more
    ensures QueuedIn(log) <= QueuedIn(more)
    decreases |more|
  {
    if |log| < |more| {
      QueuedGrows(log, more[..|more| - 1]);
    } else {
      assert log == more;
    }
  }

  /** What is skipped is what was asked for: unrequested modules that are not built per architecture. */
  lemma SkippedExactly(modules: set<Spec>, depsOnly: set<Spec>, arches: seq<string>, skipDeps: bool, fate: Module -> Fate, log: seq<Event>)
    requires Recorded(BuildModules(modules, arches), Skippable(skipDeps, depsOnly), fate, log)
    requires DistinctNames(modules) && DistinctArches(arches) && depsOnly <= modules
    ensures skipDeps ==> forall x :: x in depsOnly && !x.split ==> Unsplit(x) !in QueuedIn(log)
    ensures forall k :: 0 <= k < |log| && log[k].Skipped? ==> skipDeps && exists x :: x in depsOnly && !x.split && log[k].m == Unsplit(x)
  {
    hide Recorded, QueuedIn;
    var ms, skip := BuildModules(modules, arches), Skippable(skipDeps, depsOnly);
    NothingSkippedQueued(ms, skip, fate, log);
    forall k | 0 <= k < |log| && log[k].Skipped?
      ensures skipDeps && exists x :: x in depsOnly && !x.split && log[k].m == Unsplit(x)
    {
      EventRecorded(ms, skip, fate, log, k);
      var d :| d in depsOnly && log[k].m == Unsplit(d);
      var x := Origin(modules, arches, log[k].m);
      assert x == d;
    }
  }

  lemma NothingSkippedQueued(ms: set<Module>, skip: set<Module>, fate: Module -> Fate, log: seq<Event>)
    requires Recorded(ms, skip, fate, log)
    ensures QueuedIn(log) !! skip
  {
    QueuedExactly(log, skip);
  }

  lemma SpecsInOrder(db: map<string, Spec>, names: seq<string>, modules: set<Spec>, arches: seq<string>, skip: set<Module>,
                     fate: Module -> Fate, log: seq<Event>)
    requires Recorded(BuildModules(modules, arches), skip, fate, log) && DistinctNames(modules)
    requires forall x :: x in modules <==> Wanted(db, names, x)
    ensures DepsFirst(db, names, log)
  {
    hide Recorded, Wanted, BuildModules, DoneIn, Named;
    forall k, x, d | 0 <= k < |log| && !log[k].Finished? && Wanted(db, names, x) && x.name == log[k].m.name && d in x.deps
      ensures Named(DoneIn(log[..k]), d)
    {
      EventRecorded(BuildModules(modules, arches), skip, fate, log, k);
      var y := Origin(modules, arches, log[k].m);
      assert y == x;
    }
  }

  lemma SelectedMeans(db: map<string, Spec>, names: seq<string>, r: Selection)
    requires SelectionOf(db, names, r) && r.Selected?
    ensures forall x :: x in r.modules <==> Wanted(db, names, x)
    ensures forall x :: x in r.depsOnly <==> Wanted(db, names, x) && x.name !in names
    ensures (forall x :: x in r.modules ==> x.deps <= db.Keys) && Closed(db, r.modules)
    ensures forall i :: 0 <= i < |names| ==> names[i] in db
  {
  }

  lemma SelectedNames(db: map<string, Spec>, names: seq<string>, modules: set<Spec>)
    requires WellNamed(db) && forall x :: x in modules <==> Wanted(db, names, x)
    ensures DistinctNames(modules)
  {
    forall x | x in modules
      ensures x.name in db && db[x.name] == x
    {
      var i :| 0 <= i < |names| && names[i] in db && Reaches(db, db[names[i]], x);
      var p :| Path(db, p) && p[0] == db[names[i]] && p[|p| - 1] == x;
      if |p| > 1 { assert Needs(db, p[|p| - 2], p[|p| - 1]); }
    }
  }

  lemma OneBuilt(modules: set<Spec>, arches: seq<string>, x: Spec, skip: set<Module>, log: seq<Event>, depsOnly: set<Spec>)
    requires x in modules && DistinctArches(arches)
    requires skip <= set d | d in depsOnly :: Unsplit(d)
    requires QueuedIn(log) == BuildModules(modules, arches) - skip && DoneIn(log) == BuildModules(modules, arches)
    ensures BuiltOrSkipped(x, arches, log)
    ensures Unsplit(x) !in skip && !x.split ==> Unsplit(x) in QueuedIn(log)
  {
    hide QueuedIn, DoneIn;
  }

  /** Nothing is built exactly if nothing is requested. */
  lemma ListEmptyExactly(db: map<string, Spec>, names: seq<string>, modules: set<Spec>, arches: seq<string>, list: seq<Module>)
    requires DistinctArches(arches) && Elements(list) == BuildModules(modules, arches)
    requires (forall x :: x in modules <==> Wanted(db, names, x)) && forall i :: 0 <= i < |names| ==> names[i] in db
    ensures list == [] <==> names == []
  {
    if names != [] {
      var x := db[names[0]];
      ReachesItself(db, x);
      assert Wanted(db, names, x);
      var m := Represented(modules, arches, x);
      assert m in list;
    } else if list != [] {
      var x := Origin(modules, arches, list[0]);
    }
  }

  // -------------------------------------------------------------------------
  // A request that ends in a KeyError
  // -------------------------------------------------------------------------

  /** A module `a` that is built for each architecture, and a module `b` that needs it. */
  function NeededSplit(): map<string, Spec> {
    map["a" := Spec("a", {}, true), "b" := Spec("b", {"a"}, false)]
  }

  lemma NeededSplitSelected(r: Selection)
    requires SelectionOf(NeededSplit(), ["b"], r)
    ensures r.Selected? && r.modules == {Spec("a", {}, true), Spec("b", {"a"}, false)}
  {
    var db, a, b := NeededSplit(), Spec("a", {}, true), Spec("b", {"a"}, false);
    assert ["b"][0] == "b" && db["b"] == b && db["a"] == a;
    forall x ensures Wanted(db, ["b"], x) <==> x == a || x == b {
      assert Path(db, [b]) && Path(db, [b, a]) && [b, a][1] == a;
      if Wanted(db, ["b"], x) {
        var p :| Path(db, p) && p[0] == b && p[|p| - 1] == x;
        assert Closed(db, {a, b});
        ClosedContains(db, {a, b}, p);
      }
    }
  }

  lemma NeededSplitAcyclic(arches: seq<string>)
    ensures AcyclicModules(BuildModules({Spec("a", {}, true), Spec("b", {"a"}, false)}, arches))
  {
    var ms, order := BuildModules({Spec("a", {}, true), Spec("b", {"a"}, false)}, arches), ["a", "b"];
    assert order[0] == "a" && order[1] == "b" && "a" in order[..1];
    assert BuildOrder(ms, order);
  }

  /** With two architectures, requesting `b` always ends in a KeyError, although every build succeeds. */
  method NeededSplitRaises(skipDeps: bool, jobs: nat) returns (out: Outcome)
    requires jobs >= 1
    ensures out.KeyError?
  {
    var arches := ["arm", "x86"];
    var r;
    ghost var log;
    r, out, log := BuildRequested(NeededSplit(), ["b"], arches, skipDeps, jobs, m => Succeeds);
    NeededSplitSelected(r);
    NeededSplitAcyclic(arches);
    assert SplitNeeded(r.modules, arches);
  }
}
