/** Cycle detection in a directed graph by depth-first search (`ndk/graph.py`). */
module Graph {
  import opened Wrappers


  /** A graph: every node, in some order, and the nodes its edges lead to. */
  datatype Digraph = Digraph(nodes: seq<string>, outs: map<string, seq<string>>)

  /** The node list is complete and no edge leaves the graph. */
  ghost predicate WellFormed(g: Digraph) {
    && (forall n :: n in g.nodes <==> n in g.outs)
    && forall n :: n in g.outs ==> forall i :: 0 <= i < |g.outs[n]| ==> g.outs[n][i] in g.outs
  }

  ghost predicate Edge(g: Digraph, a: string, b: string) {
    a in g.outs && b in g.outs[a]
  }

  /** Consecutive nodes are joined by edges. */
  ghost predicate Walk(g: Digraph, path: seq<string>) {
    forall i :: 0 <= i < |path| - 1 ==> Edge(g, path[i], path[i + 1])
  }

  ghost predicate Distinct(s: seq<string>) {
    forall i, j :: 0 <= i < j < |s| ==> s[i] != s[j]
  }

  /** A closed walk that repeats no node but its first, which is also its last. */
  ghost predicate SimpleCycle(g: Digraph, c: seq<string>) {
    |c| >= 2 && c[0] == c[|c| - 1] && Walk(g, c) && Distinct(c[1..])
  }

  /** Every edge out of a node of `order` leads to an earlier node of `order`. */
  ghost predicate DepsFirst(g: Digraph, order: seq<string>) {
    forall k :: 0 <= k < |order| ==>
      order[k] in g.outs && forall n :: n in g.outs[order[k]] ==> n in order[..k]
  }

  /** A topological order of the whole graph. */
  ghost predicate Topological(g: Digraph, order: seq<string>) {
    Distinct(order) && DepsFirst(g, order) && forall n :: n in g.outs ==> n in order
  }

  ghost predicate Acyclic(g: Digraph) {
    exists order :: Topological(g, order)
  }

  /** In a topological order, a walk goes strictly backwards. */
  lemma {:induction false} WalkGoesBack(g: Digraph, order: seq<string>, walk: seq<string>, i: nat, j: nat)
    requires Distinct(order) && DepsFirst(g, order) && Walk(g, walk) && |walk| >= 2
    requires i < |order| && j < |order| && order[i] == walk[0] && order[j] == walk[|walk| - 1]
    ensures j < i
    decreases |walk|
  {
    assert Edge(g, walk[0], walk[1]);
    assert walk[1] in order[..i];
    var k: nat :| k < i && order[k] == walk[1];
    if |walk| > 2 {
      var rest := walk[1..];
      assert forall m :: 0 <= m < |rest| ==> rest[m] == walk[m + 1];
      WalkGoesBack(g, order, rest, k, j);
    }
  }

  /** A closed walk and a topological order exclude each other. */
  lemma CycleExcludesOrder(g: Digraph, c: seq<string>)
    requires |c| >= 2 && c[0] == c[|c| - 1] && Walk(g, c)
    ensures !Acyclic(g)
  {
    if Acyclic(g) {
      var order :| Topological(g, order);
      assert Edge(g, c[0], c[1]);
      var i :| 0 <= i < |order| && order[i] == c[0];
      WalkGoesBack(g, order, c, i, i);
    }
  }

  /** The sets that the recursive calls of one search share. */
  class Search {
    var visited: set<string>
    var path: seq<string>
    ghost var finished: seq<string>  // the nodes the search is done with, in that order

    constructor ()
      ensures visited == {} && path == [] && finished == []
    {
      visited, path, finished := {}, [], [];
    }

    ghost predicate Valid(g: Digraph)
      reads this
    {
      SearchInv(g, visited, path, finished)
    }
  }

  /** The nodes seen are those on the way from the start and those the search is done with. */
  ghost predicate SearchInv(g: Digraph, visited: set<string>, path: seq<string>, finished: seq<string>) {
    && (forall n :: n in visited <==> n in path || n in finished)
    && (forall n :: n in path ==> n !in finished)
    && visited <= g.outs.Keys
    && Distinct(path) && Distinct(finished)
    && Walk(g, path)
    && DepsFirst(g, finished)
  }

  lemma NodeEntered(g: Digraph, visited: set<string>, path: seq<string>, finished: seq<string>, node: string)
    requires SearchInv(g, visited, path, finished) && node in g.outs && node !in visited
    requires path != [] ==> Edge(g, path[|path| - 1], node)
    ensures SearchInv(g, visited + {node}, path + [node], finished)
  {
    WalkExtended(g, path, node);
  }

  lemma NodeLeft(g: Digraph, visited: set<string>, path: seq<string>, finished: seq<string>, node: string)
    requires SearchInv(g, visited, path + [node], finished)
    requires forall n :: n in g.outs[node] ==> n in finished
    ensures SearchInv(g, visited, path, finished + [node])
  {
    assert (path + [node])[|path|] == node;
    assert node in path + [node] && node !in finished;
    assert forall i :: 0 <= i < |path| ==> (path + [node])[i] == path[i];
    assert forall k :: 0 <= k <= |finished| ==> (finished + [node])[..k] == finished[..k];
  }

  /** The first place of `node` in `path`. */
  method IndexOf(path: seq<string>, node: string) returns (k: nat)
    requires node in path
    ensures k < |path| && path[k] == node && node !in path[..k]
  {
    k := 0;
    while path[k] != node
      invariant k < |path| && node in path[k..] && node !in path[..k]
      decreases |path| - k
    {
      k := k + 1;
    }
  }

  lemma WalkExtended(g: Digraph, path: seq<string>, node: string)
    requires Walk(g, path) && (path != [] ==> Edge(g, path[|path| - 1], node))
    ensures Walk(g, path + [node])
  {
  }

  /** Meeting a node of the path again closes a simple cycle. */
  lemma CycleClosed(g: Digraph, path: seq<string>, node: string, k: nat)
    requires Walk(g, path + [node]) && Distinct(path) && k < |path| && path[k] == node
    ensures SimpleCycle(g, (path + [node])[k..])
  {
    var c := (path + [node])[k..];
    assert forall i :: 0 <= i < |c| ==> c[i] == (path + [node])[k + i];
    assert c[0] == node && c[|c| - 1] == node;
  }

  method FindCycleFromNode(g: Digraph, node: string, search: Search) returns (cycle: Option<seq<string>>)
    requires WellFormed(g) && node in g.outs && search.Valid(g)
    requires search.path != [] ==> Edge(g, search.path[|search.path| - 1], node)
    modifies search
    ensures cycle.Some? ==> SimpleCycle(g, cycle.value)
    ensures cycle.None? ==>
              && search.Valid(g) && search.path == old(search.path)
              && old(search.finished) <= search.finished && node in search.finished
    decreases g.outs.Keys - search.visited
  {
    hide Walk, Distinct, DepsFirst, SimpleCycle;
    ghost var before := search.path;
    WalkExtended(g, search.path, node);
    search.path := search.path + [node];
    if node in search.path[..|search.path| - 1] {
      var k := IndexOf(search.path, node);
      CycleClosed(g, before, node, k);
      return Some(search.path[k..]);
    }
    if node in search.visited {
      search.path := search.path[..|search.path| - 1];
      return None;
    }
    NodeEntered(g, search.visited, before, search.finished, node);
    search.visited := search.visited + {node};
    var outs := g.outs[node];
    var i := 0;
    while i < |outs|
      invariant i <= |outs|
      invariant search.Valid(g) && search.path == before + [node]
      invariant old(search.finished) <= search.finished
      invariant forall k :: 0 <= k < i ==> outs[k] in search.finished
      invariant old(search.visited) + {node} <= search.visited
    {
      assert search.path[|search.path| - 1] == node;
      cycle := FindCycleFromNode(g, outs[i], search);
      if cycle.Some? {
        return;
      }
      i := i + 1;
    }
    NodeLeft(g, search.visited, before, search.finished, node);
    search.path := search.path[..|search.path| - 1];
    search.finished := search.finished + [node];
    cycle := None;
  }

  /** Finds a cycle exactly when there is one. */
  method FindCycle(g: Digraph) returns (cycle: Option<seq<string>>)
    requires WellFormed(g)
    ensures cycle.Some? ==> SimpleCycle(g, cycle.value)
    ensures cycle.None? <==> Acyclic(g)
  {
    var search := new Search();
    var i := 0;
    while i < |g.nodes|
      invariant i <= |g.nodes| && search.Valid(g) && search.path == []
      invariant forall k :: 0 <= k < i ==> g.nodes[k] in search.finished
    {
      cycle := FindCycleFromNode(g, g.nodes[i], search);
      if cycle.Some? {
        CycleExcludesOrder(g, cycle.value);
        return;
      }
      i := i + 1;
    }
    assert Topological(g, search.finished);
    cycle := None;
  }
}
