/** The dependency manager: which modules may be built next (`ndk/deps.py`). */
module Manager {
  import opened Graph
  import opened Deps

  /** The modules that may be built and, for the others, the dependencies they still wait for. */
  datatype Schedule = Schedule(buildable: set<Module>, blocked: map<Module, set<string>>)

  function Initial(ms: set<Module>): Schedule {
    Schedule(set m | m in ms && m.deps == {}, map m | m in ms && m.deps != {} :: m.deps)
  }

  /** The modules of `waiting` stop waiting for `n`; those that waited for nothing else become buildable. */
  function Release(s: Schedule, n: string, waiting: set<Module>): Schedule {
    Schedule(
      s.buildable + (set m | m in s.blocked && m in waiting && s.blocked[m] == {n}),
      map m | m in s.blocked && !(m in waiting && s.blocked[m] == {n})
        :: if m in waiting then s.blocked[m] - {n} else s.blocked[m])
  }

  /** The modules that depend on `n`, in the order of the list. */
  function Dependents(ms: seq<Module>, n: string): seq<Module> {
    if ms == [] then []
    else
      var last := ms[|ms| - 1];
      Dependents(ms[..|ms| - 1], n) + (if n in last.deps then [last] else [])
  }

  ghost predicate NoRepeats(ms: seq<Module>) {
    forall i, j :: 0 <= i < j < |ms| ==> ms[i] != ms[j]
  }

  lemma {:induction false} DependentsExact(ms: seq<Module>, n: string, m: Module)
    ensures m in Dependents(ms, n) <==> m in ms && n in m.deps
  {
    if ms != [] {
      assert ms == ms[..|ms| - 1] + [ms[|ms| - 1]];
      DependentsExact(ms[..|ms| - 1], n, m);
    }
  }

  lemma {:induction false} DependentsDistinct(ms: seq<Module>, n: string)
    requires NoRepeats(ms)
    ensures NoRepeats(Dependents(ms, n))
  {
    if ms != [] {
      var front := ms[..|ms| - 1];
      DependentsDistinct(front, n);
      DependentsExact(front, n, ms[|ms| - 1]);
      assert ms[|ms| - 1] !in front;
    }
  }

  /** Appends `m` to the dependents of each of its dependencies. */
  method AddDependent(map0: map<string, seq<Module>>, m: Module) returns (r: map<string, seq<Module>>)
    requires m.deps <= map0.Keys
    ensures r.Keys == map0.Keys
    ensures forall n :: n in map0 ==> r[n] == map0[n] + if n in m.deps then [m] else []
  {
    r := map0;
    var todo := m.deps;
    while todo != {}
      invariant todo <= m.deps && r.Keys == map0.Keys
      invariant forall n :: n in map0 ==> r[n] == map0[n] + if n in m.deps - todo then [m] else []
      decreases todo
    {
      var dep :| dep in todo;
      r := r[dep := r[dep] + [m]];
      todo := todo - {dep};
    }
  }

  method ReverseMap(ms: seq<Module>) returns (r: map<string, seq<Module>>)
    requires DepClosed(Elements(ms))
    ensures forall n :: n in r <==> Named(Elements(ms), n)
    ensures forall n :: n in r ==> r[n] == Dependents(ms, n)
  {
    var _, outs := NewNodes(ms);
    r := map n | n in outs :: [];
    for i := 0 to |ms|
      invariant forall n :: n in r <==> Named(Elements(ms), n)
      invariant forall n :: n in r ==> r[n] == Dependents(ms[..i], n)
    {
      assert ms[i] in Elements(ms);
      r := AddDependent(r, ms[i]);
      assert ms[..i + 1][..i] == ms[..i];
    }
    assert ms[..|ms|] == ms;
  }

  datatype Creation = Created(manager: DependencyManager) | NoModules | Rejected(verdict: Verdict)

  class DependencyManager {
    var buildable: set<Module>
    var blocked: map<Module, set<string>>
    const dependents: map<string, seq<Module>>
    ghost const modules: seq<Module>

    ghost predicate Valid() {
      && NoRepeats(modules)
      && (forall n :: n in dependents <==> Named(Elements(modules), n))
      && forall n :: n in dependents ==> dependents[n] == Dependents(modules, n)
    }

    ghost function View(): Schedule
      reads this
    {
      Schedule(buildable, blocked)
    }

    constructor (ms: seq<Module>, reverse: map<string, seq<Module>>)
      requires NoRepeats(ms)
      requires forall n :: n in reverse <==> Named(Elements(ms), n)
      requires forall n :: n in reverse ==> reverse[n] == Dependents(ms, n)
      ensures modules == ms && Valid() && View() == Initial(Elements(ms))
    {
      buildable := set m | m in ms && m.deps == {};
      blocked := map m | m in ms && m.deps != {} :: m.deps;
      dependents := reverse;
      modules := ms;
    }

    /** Hands out the buildable modules and forgets them. */
    method GetBuildable() returns (r: set<Module>)
      modifies this
      ensures r == old(buildable)
      ensures View() == Schedule({}, old(blocked))
    {
      r := buildable;
      buildable := {};
    }

    /** Completing raises no error: the name is known, and everything that depends on it waits for it. */
    ghost predicate CanComplete(n: string)
      reads this
    {
      && Named(Elements(modules), n)
      && forall m :: m in modules && n in m.deps ==> m in blocked && n in blocked[m]
    }

    /** The body of the loop of `complete`. */
    method Unblock(m: Module, n: string)
      requires m in blocked && n in blocked[m]
      modifies this
      ensures View() == Release(old(View()), n, {m})
    {
      ReleaseOne(View(), n, m);
      var left := blocked[m] - {n};
      if left != {} {
        blocked := blocked[m := left];
      } else {
        blocked := map x | x in blocked && x != m :: blocked[x];
        buildable := buildable + {m};
      }
    }

    /** Every module that depends on the completed one stops waiting for it; `ok` is false for a KeyError. */
    method Complete(built: Module) returns (ok: bool)
      requires Valid()
      modifies this
      ensures ok <==> old(CanComplete(built.name))
      ensures ok ==> View() == Release(old(View()), built.name, set m | m in modules && built.name in m.deps)
    {
      hide Release, Dependents, NoRepeats;
      if built.name !in dependents {
        return false;
      }
      var n, waiting := built.name, dependents[built.name];
      ghost var before := View();
      DependentsDistinct(modules, n);
      forall m ensures m in waiting <==> m in modules && n in m.deps { DependentsExact(modules, n, m); }
      ReleaseNone(before, n);
      assert Elements(waiting[..0]) == {};
      for i := 0 to |waiting|
        invariant View() == Release(before, n, Elements(waiting[..i]))
        invariant forall k :: 0 <= k < i ==> waiting[k] in before.blocked && n in before.blocked[waiting[k]]
      {
        var m := waiting[i];
        NotYet(waiting, i);
        ReleaseElsewhere(before, n, Elements(waiting[..i]), m);
        if m !in blocked || n !in blocked[m] {
          assert m in modules && n in m.deps;
          return false;
        }
        ReleaseOneMore(before, n, Elements(waiting[..i]), m);
        Unblock(m, n);
      }
      ok := true;
      assert Elements(waiting[..|waiting|]) == set m | m in modules && n in m.deps;
    }
  }

  lemma NotYet(ms: seq<Module>, i: nat)
    requires NoRepeats(ms) && i < |ms|
    ensures ms[i] !in Elements(ms[..i]) && Elements(ms[..i + 1]) == Elements(ms[..i]) + {ms[i]}
  {
  }

  lemma ReleaseNone(s: Schedule, n: string)
    ensures Release(s, n, {}) == s
  {
    assert Release(s, n, {}).buildable == s.buildable && Release(s, n, {}).blocked == s.blocked;
  }

  /** Modules that are not released keep what they wait for. */
  lemma ReleaseElsewhere(s: Schedule, n: string, some: set<Module>, m: Module)
    requires m !in some
    ensures m in Release(s, n, some).blocked <==> m in s.blocked
    ensures m in s.blocked ==> Release(s, n, some).blocked[m] == s.blocked[m]
  {
  }

  /** Removing a name from the set of one module. */
  lemma ReleaseOne(s: Schedule, n: string, m: Module)
    requires m in s.blocked && n in s.blocked[m]
    ensures Release(s, n, {m}) ==
              if s.blocked[m] - {n} != {} then Schedule(s.buildable, s.blocked[m := s.blocked[m] - {n}])
              else Schedule(s.buildable + {m}, map x | x in s.blocked && x != m :: s.blocked[x])
  {
    var after := Release(s, n, {m});
    assert s.blocked[m] - {n} == {} <==> s.blocked[m] == {n};
    if s.blocked[m] - {n} != {} {
      assert after.buildable == s.buildable;
      assert after.blocked == s.blocked[m := s.blocked[m] - {n}];
    } else {
      assert after.buildable == s.buildable + {m};
      assert after.blocked == map x | x in s.blocked && x != m :: s.blocked[x];
    }
  }

  lemma ReleaseOneMore(s: Schedule, n: string, some: set<Module>, m: Module)
    requires m !in some
    ensures Release(s, n, some + {m}) == Release(Release(s, n, some), n, {m})
  {
    var a, b := Release(s, n, some + {m}), Release(Release(s, n, some), n, {m});
    assert a.buildable == b.buildable;
    assert a.blocked == b.blocked;
  }

  /** Raises for no modules, for an unknown dependency and for a cycle, and otherwise never. */
  method Create(ms: seq<Module>) returns (r: Creation)
    requires NoRepeats(ms)
    ensures r.Created? <==> ms != [] && DepClosed(Elements(ms)) && AcyclicModules(Elements(ms))
    ensures r.NoModules? <==> ms == []
    ensures r.Created? ==> fresh(r.manager) && r.manager.modules == ms && r.manager.Valid() && r.manager.View() == Initial(Elements(ms))
  {
    if ms == [] {
      return NoModules;
    }
    var v := ProveAcyclic(ms);
    if !v.AcyclicGraph? {
      return Rejected(v);
    }
    var reverse := ReverseMap(ms);
    var manager := new DependencyManager(ms, reverse);
    r := Created(manager);
  }
}
