/** Dependency tracking between modules (`ndk/deps.py`). */
module Deps {
  import opened Wrappers
  import opened Graph

  /**
   A module of the build. A module that is built once per architecture is in the list once for each
   of them, under one name; `arch` is empty for the others. Dependencies are names.
   */
  datatype Module = Module(name: string, arch: string, deps: set<string>)

  ghost predicate Named(ms: set<Module>, n: string) {
    exists m :: m in ms && m.name == n
  }

  ghost predicate NeededBy(ms: set<Module>, n: string) {
    exists m :: m in ms && n in m.deps
  }

  /** Every dependency is among the modules. */
  ghost predicate DepClosed(ms: set<Module>) {
    forall m, d :: m in ms && d in m.deps ==> Named(ms, d)
  }

  /** Every module comes after the modules it depends on. */
  ghost predicate BuildOrder(ms: set<Module>, order: seq<string>) {
    && Distinct(order)
    && forall m :: m in ms ==> exists k :: 0 <= k < |order| && order[k] == m.name && forall d :: d in m.deps ==> d in order[..k]
  }

  ghost predicate AcyclicModules(ms: set<Module>) {
    exists order :: BuildOrder(ms, order)
  }

  function Elements(ms: seq<Module>): set<Module> {
    set m | m in ms
  }

  // -------------------------------------------------------------------------
  // prove_acyclic
  // -------------------------------------------------------------------------

  datatype Verdict = AcyclicGraph | UnknownDep(name: string) | CyclicDep(cycle: seq<string>)

  /** Some module called `a` depends on `b`. */
  ghost predicate DependsOn(ms: set<Module>, a: string, b: string) {
    exists m :: m in ms && m.name == a && b in m.deps
  }

  /** Each name on the way depends on the next. */
  ghost predicate DepWalk(ms: set<Module>, names: seq<string>) {
    forall i :: 0 <= i < |names| - 1 ==> DependsOn(ms, names[i], names[i + 1])
  }

  /** The edges of the graph are the dependencies of the modules. */
  ghost predicate Represents(outs: map<string, seq<string>>, ms: set<Module>) {
    forall a, b :: a in outs ==> (b in outs[a] <==> DependsOn(ms, a, b))
  }

  lemma OrderOfGraph(g: Digraph, ms: set<Module>, order: seq<string>)
    requires forall m :: m in ms ==> m.name in g.outs
    requires Represents(g.outs, ms) && Topological(g, order)
    ensures BuildOrder(ms, order)
  {
    forall m | m in ms
      ensures exists k :: 0 <= k < |order| && order[k] == m.name && forall d :: d in m.deps ==> d in order[..k]
    {
      var k :| 0 <= k < |order| && order[k] == m.name;
      forall d | d in m.deps ensures d in order[..k] { assert DependsOn(ms, m.name, d); }
    }
  }

  lemma WalkOfGraph(g: Digraph, ms: set<Module>, c: seq<string>)
    requires Represents(g.outs, ms) && Walk(g, c)
    ensures DepWalk(ms, c)
  {
    forall i | 0 <= i < |c| - 1
      ensures DependsOn(ms, c[i], c[i + 1])
    {
      assert Edge(g, c[i], c[i + 1]);
    }
  }

  lemma DependsGoesBack(ms: set<Module>, order: seq<string>, i: nat, b: string) returns (k: nat)
    requires BuildOrder(ms, order) && i < |order| && DependsOn(ms, order[i], b)
    ensures k < i && order[k] == b
  {
    var m :| m in ms && m.name == order[i] && b in m.deps;
    var p :| 0 <= p < |order| && order[p] == m.name && forall d :: d in m.deps ==> d in order[..p];
    assert p == i;
    k :| 0 <= k < i && order[k] == b;
  }

  lemma {:induction false} DepWalkGoesBack(ms: set<Module>, order: seq<string>, walk: seq<string>, i: nat, j: nat)
    requires BuildOrder(ms, order) && DepWalk(ms, walk) && |walk| >= 2
    requires i < |order| && j < |order| && order[i] == walk[0] && order[j] == walk[|walk| - 1]
    ensures j < i
    decreases |walk|
  {
    var k := DependsGoesBack(ms, order, i, walk[1]);
    if |walk| > 2 {
      var rest := walk[1..];
      assert forall m :: 0 <= m < |rest| ==> rest[m] == walk[m + 1];
      DepWalkGoesBack(ms, order, rest, k, j);
    }
  }

  /** A cycle of dependencies leaves no order to build in. */
  lemma DepCycleExcludesOrder(ms: set<Module>, c: seq<string>)
    requires |c| >= 2 && c[0] == c[|c| - 1] && DepWalk(ms, c)
    ensures !AcyclicModules(ms)
  {
    if AcyclicModules(ms) {
      var order :| BuildOrder(ms, order);
      assert DependsOn(ms, c[0], c[1]);
      var m :| m in ms && m.name == c[0];
      var i :| 0 <= i < |order| && order[i] == m.name;
      DepWalkGoesBack(ms, order, c, i, i);
    }
  }

  /** Adds the edges of one module; stops at the first dependency that is not a node. */
  method AddEdges(outs: map<string, seq<string>>, m: Module) returns (r: map<string, seq<string>>, unknown: Option<string>)
    requires m.name in outs
    ensures unknown.Some? ==> unknown.value in m.deps && unknown.value !in outs
    ensures unknown.None? ==>
              && r.Keys == outs.Keys && m.deps <= outs.Keys
              && (forall a :: a in outs && a != m.name ==> r[a] == outs[a])
              && (forall b :: b in r[m.name] <==> b in outs[m.name] || b in m.deps)
  {
    r := outs;
    var todo := m.deps;
    while todo != {}
      invariant todo <= m.deps && r.Keys == outs.Keys && m.deps - todo <= outs.Keys
      invariant forall a :: a in outs && a != m.name ==> r[a] == outs[a]
      invariant forall b :: b in r[m.name] <==> b in outs[m.name] || b in m.deps - todo
      decreases todo
    {
      var dep :| dep in todo;
      if dep !in r {
        return r, Some(dep);
      }
      r := r[m.name := r[m.name] + [dep]];
      todo := todo - {dep};
    }
    unknown := None;
  }

  /**
   Reports an unknown dependency, or a cycle of dependencies, or that the modules can be built in
   some order. The last exactly when such an order exists and nothing is missing.
   */
  method ProveAcyclic(modules: seq<Module>) returns (v: Verdict)
    ensures v.AcyclicGraph? <==> DepClosed(Elements(modules)) && AcyclicModules(Elements(modules))
    ensures v.UnknownDep? ==> NeededBy(Elements(modules), v.name) && !Named(Elements(modules), v.name)
    ensures v.CyclicDep? ==>
              && |v.cycle| >= 2 && v.cycle[0] == v.cycle[|v.cycle| - 1]
              && DepWalk(Elements(modules), v.cycle)
  {
    ghost var ms := Elements(modules);
    var nodes, outs := NewNodes(modules);
    var i := 0;
    while i < |modules|
      invariant i <= |modules|
      invariant forall n :: n in outs <==> Named(ms, n)
      invariant Represents(outs, Elements(modules[..i]))
      invariant forall m, d :: m in modules[..i] && d in m.deps ==> d in outs
    {
      var m := modules[i];
      assert m in ms;
      var more, unknown := AddEdges(outs, m);
      if unknown.Some? {
        return UnknownDep(unknown.value);
      }
      EdgesAdded(outs, more, modules, i);
      outs := more;
      i := i + 1;
    }
    assert modules[..i] == modules;
    EdgesStayInside(nodes, outs, ms);
    var g := Digraph(nodes, outs);
    var cycle := FindCycle(g);
    if cycle.Some? {
      WalkOfGraph(g, ms, cycle.value);
      DepCycleExcludesOrder(ms, cycle.value);
      return CyclicDep(cycle.value);
    }
    ghost var order :| Topological(g, order);
    OrderOfGraph(g, ms, order);
    v := AcyclicGraph;
  }

  /** `nodes`: one node per name, without edges. */
  method NewNodes(modules: seq<Module>) returns (nodes: seq<string>, outs: map<string, seq<string>>)
    ensures forall n :: n in outs <==> Named(Elements(modules), n)
    ensures forall n :: n in nodes <==> n in outs
    ensures forall n :: n in outs ==> outs[n] == []
  {
    nodes, outs := [], map[];
    for i := 0 to |modules|
      invariant forall n :: n in outs <==> Named(Elements(modules[..i]), n)
      invariant forall n :: n in nodes <==> n in outs
      invariant forall n :: n in outs ==> outs[n] == []
    {
      if modules[i].name !in outs {
        nodes := nodes + [modules[i].name];
      }
      outs := outs[modules[i].name := []];
      assert Elements(modules[..i + 1]) == Elements(modules[..i]) + {modules[i]};
    }
    assert modules[..|modules|] == modules;
  }

  lemma EdgesStayInside(nodes: seq<string>, outs: map<string, seq<string>>, ms: set<Module>)
    requires forall n :: n in nodes <==> n in outs
    requires Represents(outs, ms)
    requires forall m, d :: m in ms && d in m.deps ==> d in outs
    ensures WellFormed(Digraph(nodes, outs))
  {
    forall n, i | n in outs && 0 <= i < |outs[n]|
      ensures outs[n][i] in outs
    {
      assert DependsOn(ms, n, outs[n][i]);
    }
  }

  lemma EdgesAdded(outs: map<string, seq<string>>, more: map<string, seq<string>>, modules: seq<Module>, i: nat)
    requires i < |modules| && modules[i].name in outs && more.Keys == outs.Keys
    requires Represents(outs, Elements(modules[..i]))
    requires forall a :: a in outs && a != modules[i].name ==> more[a] == outs[a]
    requires forall b :: b in more[modules[i].name] <==> b in outs[modules[i].name] || b in modules[i].deps
    ensures Represents(more, Elements(modules[..i + 1]))
  {
    var m := modules[i];
    var before, after := Elements(modules[..i]), Elements(modules[..i + 1]);
    assert after == before + {m};
    forall a, b | a in more
      ensures b in more[a] <==> DependsOn(after, a, b)
    {
      assert DependsOn(after, a, b) <==> DependsOn(before, a, b) || (a == m.name && b in m.deps);
    }
  }
}
