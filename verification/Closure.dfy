/** Which modules a build needs (`checkbuild.py`). */
module Closure {
  /** A module as registered: its name, the names it depends on, whether it is built once per architecture. */
  datatype Spec = Spec(name: string, deps: set<string>, split: bool)

  /** Registered modules, by name. */
  ghost predicate WellNamed(db: map<string, Spec>) {
    forall n :: n in db ==> db[n].name == n
  }

  /** `a` depends on the registered module `b`. */
  ghost predicate Needs(db: map<string, Spec>, a: Spec, b: Spec) {
    b.name in a.deps && b.name in db && db[b.name] == b
  }

  ghost predicate Path(db: map<string, Spec>, p: seq<Spec>) {
    p != [] && forall i :: 0 <= i < |p| - 1 ==> Needs(db, p[i], p[i + 1])
  }

  /** `b` is `a` or needed by it, directly or not. */
  ghost predicate Reaches(db: map<string, Spec>, a: Spec, b: Spec) {
    exists p :: Path(db, p) && p[0] == a && p[|p| - 1] == b
  }

  lemma ReachesItself(db: map<string, Spec>, a: Spec)
    ensures Reaches(db, a, a)
  {
    assert Path(db, [a]);
  }

  lemma ReachesFurther(db: map<string, Spec>, a: Spec, b: Spec, c: Spec)
    requires Needs(db, a, b) && Reaches(db, b, c)
    ensures Reaches(db, a, c)
  {
    var p :| Path(db, p) && p[0] == b && p[|p| - 1] == c;
    var q := [a] + p;
    assert forall i :: 0 < i < |q| ==> q[i] == p[i - 1];
    assert Path(db, q) && q[0] == a && q[|q| - 1] == c;
  }

  /** A set with everything that its members need contains everything they reach. */
  ghost predicate Closed(db: map<string, Spec>, s: set<Spec>) {
    forall a, b :: a in s && Needs(db, a, b) ==> b in s
  }

  lemma {:induction false} ClosedContains(db: map<string, Spec>, s: set<Spec>, p: seq<Spec>)
    requires Closed(db, s) && Path(db, p) && p[0] in s
    ensures p[|p| - 1] in s
    decreases |p|
  {
    if |p| > 1 {
      assert Needs(db, p[0], p[1]);
      var rest := p[1..];
      assert forall i :: 0 <= i < |rest| ==> rest[i] == p[i + 1];
      ClosedContains(db, s, rest);
    }
  }

  // -------------------------------------------------------------------------
  // The recursive walk
  // -------------------------------------------------------------------------

  /** The sets that the recursive calls share. */
  class Walk {
    var deps: set<Spec>
    var unknown: set<string>
    var seen: set<Spec>

    constructor ()
      ensures deps == {} && unknown == {} && seen == {}
    {
      deps, unknown, seen := {}, {}, {};
    }

    ghost function View(): Sets
      reads this
    {
      Sets(deps, unknown, seen)
    }
  }

  /** The names mentioned by `some` that are not registered. */
  function UnknownNames(db: map<string, Spec>, some: set<Spec>): set<string> {
    set m, n | m in some && n in m.deps && n !in db :: n
  }

  /** Everything seen has had its needs seen, except for the modules the walk is still inside. */
  ghost predicate ClosedBut(db: map<string, Spec>, seen: set<Spec>, inside: set<Spec>) {
    forall a, b :: a in seen && a !in inside && Needs(db, a, b) ==> b in seen
  }

  /** What the shared sets hold at some point of a walk. */
  datatype Sets = Sets(deps: set<Spec>, unknown: set<string>, seen: set<Spec>)

  /** From `s0` to `s1`, the walk has seen `m` and everything that it reaches and that was not seen before. */
  ghost predicate Walked(db: map<string, Spec>, m: Spec, s0: Sets, s1: Sets) {
    && s0.seen + {m} <= s1.seen <= s0.seen + {m} + db.Values
    && (forall x :: x in s1.seen && x !in s0.seen ==> Reaches(db, m, x))
    && s1.deps == s0.deps + (s1.seen - s0.seen - {m})
    && s1.unknown == s0.unknown + UnknownNames(db, s1.seen - s0.seen)
  }

  /** The same in the middle of the loop, with the dependencies in `todo` still to be followed. */
  ghost predicate Walking(db: map<string, Spec>, m: Spec, s0: Sets, s1: Sets, inside: set<Spec>, todo: set<string>) {
    && s0.seen + {m} <= s1.seen <= s0.seen + {m} + db.Values
    && (forall x :: x in s1.seen && x !in s0.seen ==> Reaches(db, m, x))
    && s1.deps == s0.deps + (s1.seen - s0.seen - {m})
    && s1.unknown == s0.unknown + UnknownNames(db, s1.seen - s0.seen - {m}) + (set n | n in m.deps - todo && n !in db)
    && ClosedBut(db, s1.seen, inside + {m})
    && forall n :: n in m.deps - todo && n in db ==> db[n] in s1.seen
  }

  lemma WalkBegins(db: map<string, Spec>, m: Spec, s0: Sets, inside: set<Spec>)
    requires m !in s0.seen && ClosedBut(db, s0.seen, inside)
    ensures Walking(db, m, s0, s0.(seen := s0.seen + {m}), inside, m.deps)
  {
    ReachesItself(db, m);
    assert UnknownNames(db, {}) == {};
    assert s0.seen + {m} - s0.seen - {m} == {};
  }

  lemma WalkSkips(db: map<string, Spec>, m: Spec, s0: Sets, s1: Sets, inside: set<Spec>, todo: set<string>, n: string)
    requires Walking(db, m, s0, s1, inside, todo) && n in todo && todo <= m.deps && n in db && db[n] in s1.seen
    ensures Walking(db, m, s0, s1, inside, todo - {n})
  {
    assert (set x | x in m.deps - (todo - {n}) && x !in db) == set x | x in m.deps - todo && x !in db;
  }

  lemma WalkNotes(db: map<string, Spec>, m: Spec, s0: Sets, s1: Sets, inside: set<Spec>, todo: set<string>, n: string)
    requires Walking(db, m, s0, s1, inside, todo) && n in todo && todo <= m.deps && n !in db
    ensures Walking(db, m, s0, s1.(unknown := s1.unknown + {n}), inside, todo - {n})
  {
    assert (set x | x in m.deps - (todo - {n}) && x !in db) == (set x | x in m.deps - todo && x !in db) + {n};
  }

  lemma ReachesThrough(db: map<string, Spec>, m: Spec, dep: Spec, found: set<Spec>)
    requires dep.name in m.deps && dep.name in db && db[dep.name] == dep
    requires forall x :: x in found ==> Reaches(db, dep, x)
    ensures forall x :: x in found ==> Reaches(db, m, x)
  {
    forall x | x in found ensures Reaches(db, m, x) { ReachesFurther(db, m, dep, x); }
  }

  lemma WalkFollows(db: map<string, Spec>, m: Spec, s0: Sets, s1: Sets, s2: Sets, inside: set<Spec>, todo: set<string>, n: string)
    requires Walking(db, m, s0, s1, inside, todo) && n in todo && todo <= m.deps && n in db && db[n] !in s1.seen && db[n].name == n
    requires Walked(db, db[n], s1.(deps := s1.deps + {db[n]}), s2) && ClosedBut(db, s2.seen, inside + {m})
    ensures Walking(db, m, s0, s2, inside, todo - {n})
  {
    hide Reaches, UnknownNames, ClosedBut;
    ReachesThrough(db, m, db[n], s2.seen - s1.seen);
    UnknownSplit(db, s1.seen - s0.seen - {m}, s2.seen - s1.seen);
    assert s2.seen - s0.seen - {m} == (s1.seen - s0.seen - {m}) + (s2.seen - s1.seen);
    assert (set x | x in m.deps - (todo - {n}) && x !in db) == set x | x in m.deps - todo && x !in db;
  }

  lemma WalkEnds(db: map<string, Spec>, m: Spec, s0: Sets, s1: Sets, inside: set<Spec>)
    requires WellNamed(db) && Walking(db, m, s0, s1, inside, {}) && m !in s0.seen
    ensures Walked(db, m, s0, s1) && ClosedBut(db, s1.seen, inside)
  {
    UnknownSplit(db, s1.seen - s0.seen - {m}, {m});
    assert s1.seen - s0.seen == (s1.seen - s0.seen - {m}) + {m};
    assert UnknownNames(db, {m}) == set n | n in m.deps && n !in db;
  }

  method CollectDeps(db: map<string, Spec>, m: Spec, walk: Walk, ghost inside: set<Spec>)
    requires WellNamed(db) && m !in walk.seen && ClosedBut(db, walk.seen, inside)
    modifies walk
    ensures Walked(db, m, old(walk.View()), walk.View()) && ClosedBut(db, walk.seen, inside)
    decreases db.Values + {m} - walk.seen
  {
    hide Walking, Walked, ClosedBut;
    WalkBegins(db, m, walk.View(), inside);
    walk.seen := walk.seen + {m};
    var todo := m.deps;
    while todo != {}
      invariant todo <= m.deps && m in walk.seen
      invariant Walking(db, m, old(walk.View()), walk.View(), inside, todo)
      decreases todo
    {
      var name :| name in todo;
      ghost var s1 := walk.View();
      if name !in db {
        WalkNotes(db, m, old(walk.View()), s1, inside, todo, name);
        walk.unknown := walk.unknown + {name};
      } else if db[name] in walk.seen {
        WalkSkips(db, m, old(walk.View()), s1, inside, todo, name);
      } else {
        InsideGrows(db, m, old(walk.View()), s1, inside, todo);
        walk.deps := walk.deps + {db[name]};
        CollectDeps(db, db[name], walk, inside + {m});
        WalkedGrows(db, db[name], s1.(deps := s1.deps + {db[name]}), walk.View());
        WalkFollows(db, m, old(walk.View()), s1, walk.View(), inside, todo, name);
      }
      todo := todo - {name};
    }
    WalkEnds(db, m, old(walk.View()), walk.View(), inside);
  }

  lemma InsideGrows(db: map<string, Spec>, m: Spec, s0: Sets, s1: Sets, inside: set<Spec>, todo: set<string>)
    requires Walking(db, m, s0, s1, inside, todo)
    ensures ClosedBut(db, s1.seen, inside + {m}) && s0.seen <= s1.seen
  {
  }

  lemma WalkedGrows(db: map<string, Spec>, m: Spec, s0: Sets, s1: Sets)
    requires Walked(db, m, s0, s1)
    ensures s0.seen <= s1.seen
  {
  }

  lemma UnknownSplit(db: map<string, Spec>, a: set<Spec>, b: set<Spec>)
    ensures UnknownNames(db, a + b) == UnknownNames(db, a) + UnknownNames(db, b)
  {
  }

  /**
   Exactly the modules reachable from `m`, other than `m` itself even if it is on a cycle, and exactly
   the unregistered names that `m` and those modules mention.
   */
  method TransitiveDeps(db: map<string, Spec>, m: Spec) returns (deps: set<Spec>, unknown: set<string>)
    requires WellNamed(db)
    ensures forall x :: x in deps <==> x != m && Reaches(db, m, x)
    ensures unknown == UnknownNames(db, deps + {m})
    ensures Closed(db, deps + {m})
  {
    var walk := new Walk();
    CollectDeps(db, m, walk, {});
    deps, unknown := walk.deps, walk.unknown;
    assert walk.seen == deps + {m};
    forall x | Reaches(db, m, x)
      ensures x in walk.seen
    {
      var p :| Path(db, p) && p[0] == m && p[|p| - 1] == x;
      ClosedContains(db, walk.seen, p);
    }
  }

  // -------------------------------------------------------------------------
  // The modules to build
  // -------------------------------------------------------------------------

  /** The requested modules and everything they need. */
  ghost predicate Wanted(db: map<string, Spec>, names: seq<string>, x: Spec) {
    exists i :: 0 <= i < |names| && names[i] in db && Reaches(db, db[names[i]], x)
  }

  datatype Selection =
    | Selected(modules: set<Spec>, depsOnly: set<Spec>)
    | MissingKey(name: string)           // KeyError on the first requested name that is not registered
    | UnknownModules(names: set<string>) // exit with the list of unregistered dependencies

  /** What a request comes to; `names` may hold unregistered names, and so may the dependencies. */
  ghost predicate SelectionOf(db: map<string, Spec>, names: seq<string>, r: Selection) {
    match r
    case MissingKey(name) =>
      exists i :: 0 <= i < |names| && names[i] == name && name !in db && forall j :: 0 <= j < i ==> names[j] in db
    case UnknownModules(unknown) =>
      && (forall i :: 0 <= i < |names| ==> names[i] in db)
      && unknown != {} && forall n :: n in unknown <==> n !in db && exists x :: Wanted(db, names, x) && n in x.deps
    case Selected(modules, depsOnly) =>
      && (forall i :: 0 <= i < |names| ==> names[i] in db)
      && (forall x :: x in modules <==> Wanted(db, names, x))
      && (forall x :: x in depsOnly <==> Wanted(db, names, x) && x.name !in names)
      && (forall x :: x in modules ==> x.deps <= db.Keys)
      && Closed(db, modules)
  }

  /**
   Selects the requested modules with everything they need. The dependencies that were not requested
   are also returned on their own. A requested name that is not registered raises at once, although the
   source means to collect such names; unregistered dependencies are collected and reported together.
   */
  method GetModulesToBuild(db: map<string, Spec>, names: seq<string>) returns (r: Selection)
    requires WellNamed(db)
    ensures SelectionOf(db, names, r)
  {
    hide Selecting, Closed, Wanted, UnknownNames, Reaches;
    var unknown, modules, depsOnly := {}, {}, {};
    SelectingNone(db, names);
    for i := 0 to |names|
      invariant forall j :: 0 <= j < i ==> names[j] in db
      invariant Selecting(db, names, names[..i], modules, depsOnly, unknown)
    {
      var name := names[i];
      if name !in db {
        return MissingKey(name);
      }
      var m := db[name];
      var deps, unknownDeps := TransitiveDeps(db, m);
      SelectingMore(db, names, i, modules, depsOnly, unknown, deps, unknownDeps);
      modules := modules + {m} + deps;
      depsOnly := depsOnly + set d | d in deps && d.name !in names;
      unknown := unknown + unknownDeps;
    }
    assert names[..|names|] == names;
    SelectingAll(db, names, modules, depsOnly, unknown);
    r := if unknown != {} then UnknownModules(unknown) else Selected(modules, depsOnly);
  }

  /** What the sets hold once the names in `some` have been dealt with. */
  ghost predicate Selecting(db: map<string, Spec>, names: seq<string>, some: seq<string>,
                            modules: set<Spec>, depsOnly: set<Spec>, unknown: set<string>) {
    && (forall x :: x in modules <==> Wanted(db, some, x))
    && depsOnly == (set x | x in modules && x.name !in names)
    && unknown == UnknownNames(db, modules)
    && Closed(db, modules)
  }

  lemma SelectingNone(db: map<string, Spec>, names: seq<string>)
    ensures Selecting(db, names, names[..0], {}, {}, {})
  {
  }

  lemma SelectingMore(db: map<string, Spec>, names: seq<string>, i: nat, modules: set<Spec>, depsOnly: set<Spec>, unknown: set<string>,
                      deps: set<Spec>, unknownDeps: set<string>)
    requires WellNamed(db) && i < |names| && names[i] in db && Selecting(db, names, names[..i], modules, depsOnly, unknown)
    requires forall x :: x in deps <==> x != db[names[i]] && Reaches(db, db[names[i]], x)
    requires unknownDeps == UnknownNames(db, deps + {db[names[i]]}) && Closed(db, deps + {db[names[i]]})
    ensures Selecting(db, names, names[..i + 1], modules + {db[names[i]]} + deps,
                      depsOnly + (set d | d in deps && d.name !in names), unknown + unknownDeps)
  {
    hide Reaches, Wanted, UnknownNames, Closed;
    var m := db[names[i]];
    ReachesItself(db, m);
    UnknownSplit(db, modules, deps + {m});
    ClosedUnion(db, modules, deps + {m});
    assert modules + {m} + deps == modules + (deps + {m});
    forall x
      ensures Wanted(db, names[..i + 1], x) <==> Wanted(db, names[..i], x) || Reaches(db, m, x)
    {
      WantedMore(db, names, i, x);
    }
  }

  lemma ClosedUnion(db: map<string, Spec>, a: set<Spec>, b: set<Spec>)
    requires Closed(db, a) && Closed(db, b)
    ensures Closed(db, a + b)
  {
  }

  lemma WantedMore(db: map<string, Spec>, names: seq<string>, i: nat, x: Spec)
    requires i < |names| && names[i] in db
    ensures Wanted(db, names[..i + 1], x) <==> Wanted(db, names[..i], x) || Reaches(db, db[names[i]], x)
  {
    var more := names[..i + 1];
    assert more[i] == names[i];
    assert forall j :: 0 <= j < i ==> more[j] == names[..i][j];
    if Wanted(db, names[..i], x) {
      var j :| 0 <= j < i && names[..i][j] in db && Reaches(db, db[names[..i][j]], x);
      assert more[j] in db && Reaches(db, db[more[j]], x);
    }
  }

  lemma SelectingAll(db: map<string, Spec>, names: seq<string>, modules: set<Spec>, depsOnly: set<Spec>, unknown: set<string>)
    requires Selecting(db, names, names, modules, depsOnly, unknown)
    ensures forall n :: n in unknown <==> n !in db && exists x :: Wanted(db, names, x) && n in x.deps
    ensures forall x :: x in modules <==> Wanted(db, names, x)
    ensures forall x :: x in depsOnly <==> Wanted(db, names, x) && x.name !in names
    ensures unknown == {} ==> forall x :: x in modules ==> x.deps <= db.Keys
    ensures Closed(db, modules)
  {
    if unknown == {} {
      forall x, n | x in modules && n in x.deps
        ensures n in db
      {
        assert n !in UnknownNames(db, modules);
      }
    }
  }
}
