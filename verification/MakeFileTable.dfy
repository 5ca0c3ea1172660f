/** The table of file records of GNU make, without double-colon rules (`file.c`). */
module MakeFileTable {
  import opened Wrappers

  type Dep = string

  type Commands = nat

  datatype Flag = Precious | TriedImplicit | Updating | Updated | IsTarget | CmdTarget | Phony | IgnoreVpath

  /** A file record; records are told apart by their place. */
  datatype File = File(
    name: string,
    hname: string,
    deps: seq<Dep>,
    cmds: Option<Commands>,
    lastMtime: nat,
    mtimeBeforeUpdate: nat,
    flags: set<Flag>,
    renamed: Option<nat>)

  function NewFile(name: string): File {
    File(name, name, [], None, 0, 0, {}, None)
  }

  /** What is left of a file that takes in another one. */
  function Merged(into: File, from: File): File {
    into.(
      deps := into.deps + from.deps,
      cmds := if into.cmds.None? then from.cmds else into.cmds,
      lastMtime := if from.lastMtime > into.lastMtime then from.lastMtime else into.lastMtime,
      mtimeBeforeUpdate := from.mtimeBeforeUpdate,
      flags := into.flags + from.flags)
  }

  /**
   What a file is once it has taken in another one: its own commands win over the other's, it is as new as the newer
   one, it was what the other one was before any update, and it is whatever either was.
   */
  ghost predicate TakesIn(before: File, other: File, after: File) {
    && after.name == before.name && after.hname == before.hname && after.renamed == before.renamed
    && after.deps == before.deps + other.deps
    && (before.cmds.Some? ==> after.cmds == before.cmds) && (before.cmds.None? ==> after.cmds == other.cmds)
    && after.lastMtime >= before.lastMtime && after.lastMtime >= other.lastMtime
    && (after.lastMtime == before.lastMtime || after.lastMtime == other.lastMtime)
    && after.mtimeBeforeUpdate == other.mtimeBeforeUpdate
    && forall f :: f in after.flags <==> f in before.flags || f in other.flags
  }

  lemma MergeTakesIn(into: File, from: File)
    ensures TakesIn(into, from, Merged(into, from))
  {
  }

  /** Files that turn out to be the same may be merged in either order of time. */
  lemma MergeAssociates(a: File, b: File, c: File)
    ensures Merged(Merged(a, b), c) == Merged(a, Merged(b, c))
  {
    assert (a.deps + b.deps) + c.deps == a.deps + (b.deps + c.deps);
    assert (a.flags + b.flags) + c.flags == a.flags + (b.flags + c.flags);
  }

  // -------------------------------------------------------------------------
  // Consistency
  // -------------------------------------------------------------------------

  /** The table holds the records that have not been merged into others, each under its own name. */
  ghost predicate Stored(files: seq<File>, table: map<string, nat>) {
    && (forall n :: n in table ==> table[n] < |files| && files[table[n]].renamed.None? && files[table[n]].hname == n)
    && forall i :: 0 <= i < |files| && files[i].renamed.None? ==> files[i].hname in table && table[files[i].hname] == i
  }

  /** From the record `i` one gets in `depth[i]` steps to `live[i]`, and no further. */
  ghost predicate Leads(files: seq<File>, live: seq<nat>, depth: seq<nat>, i: nat)
    requires |live| == |depth| == |files| && i < |files|
  {
    && live[i] < |files| && files[live[i]].renamed.None?
    && match files[i].renamed
       case None => live[i] == i && depth[i] == 0
       case Some(j) => j < |files| && live[j] == live[i] && depth[i] == depth[j] + 1
  }

  ghost predicate Chains(files: seq<File>, live: seq<nat>, depth: seq<nat>) {
    && |live| == |depth| == |files|
    && forall i :: 0 <= i < |files| ==> Leads(files, live, depth, i)
  }

  /** What was given through the records that lead to `l`. */
  function GivenTo(live: seq<nat>, given: seq<multiset<Dep>>, l: nat): multiset<Dep>
    requires |live| == |given|
  {
    if live == [] then multiset{}
    else
      var n := |live| - 1;
      GivenTo(live[..n], given[..n], l) + if live[n] == l then given[n] else multiset{}
  }

  /** A record in the table has exactly the dependencies that were given through the records that lead to it. */
  ghost predicate Owned(files: seq<File>, live: seq<nat>, given: seq<multiset<Dep>>) {
    && |live| == |given| == |files|
    && forall l :: 0 <= l < |files| && files[l].renamed.None? ==> multiset(files[l].deps) == GivenTo(live, given, l)
  }

  // -------------------------------------------------------------------------
  // Moving and merging
  // -------------------------------------------------------------------------

  function MovedFiles(files: seq<File>, h: nat, to: string): seq<File>
    requires h < |files|
  {
    files[h := files[h].(hname := to)]
  }

  function MergedFiles(files: seq<File>, h: nat, to: string, t: nat): seq<File>
    requires h < |files| && t < |files|
  {
    files[h := files[h].(hname := to, renamed := Some(t))][t := Merged(files[t], files[h])]
  }

  function Redirected(live: seq<nat>, h: nat, t: nat): seq<nat> {
    seq(|live|, i requires 0 <= i < |live| => if live[i] == h then t else live[i])
  }

  function Deeper(live: seq<nat>, depth: seq<nat>, h: nat): seq<nat>
    requires |live| == |depth|
  {
    seq(|depth|, i requires 0 <= i < |depth| => if live[i] == h then depth[i] + 1 else depth[i])
  }

  /** Only the renamings matter for the chains. */
  lemma ChainsSame(files: seq<File>, after: seq<File>, live: seq<nat>, depth: seq<nat>)
    requires Chains(files, live, depth) && |after| == |files|
    requires forall i :: 0 <= i < |files| ==> after[i].renamed == files[i].renamed
    ensures Chains(after, live, depth)
  {
    forall i | 0 <= i < |files| ensures Leads(after, live, depth, i) {
      assert Leads(files, live, depth, i);
    }
  }

  lemma MoveStored(files: seq<File>, table: map<string, nat>, h: nat, to: string)
    requires Stored(files, table) && h < |files| && files[h].renamed.None? && to !in table
    ensures Stored(MovedFiles(files, h, to), (table - {files[h].hname})[to := h])
  {
    var after, moved := MovedFiles(files, h, to), (table - {files[h].hname})[to := h];
    forall n | n in moved
      ensures moved[n] < |after| && after[moved[n]].renamed.None? && after[moved[n]].hname == n
    {
      if n != to { assert table[n] != h; }
    }
    forall i | 0 <= i < |after| && after[i].renamed.None? ensures after[i].hname in moved && moved[after[i].hname] == i {
      if i != h { assert files[i].hname in table && files[i].hname != files[h].hname; }
    }
  }

  lemma MergeStored(files: seq<File>, table: map<string, nat>, h: nat, to: string)
    requires Stored(files, table) && h < |files| && files[h].renamed.None? && to in table && to != files[h].hname
    ensures table[to] < |files| && Stored(MergedFiles(files, h, to, table[to]), table - {files[h].hname})
  {
    var t := table[to];
    var after, left := MergedFiles(files, h, to, t), table - {files[h].hname};
    forall n | n in left
      ensures left[n] < |after| && after[left[n]].renamed.None? && after[left[n]].hname == n
    {
      assert table[n] != h;
    }
    forall i | 0 <= i < |after| && after[i].renamed.None? ensures after[i].hname in left && left[after[i].hname] == i {
      assert i != h && after[i].hname == files[i].hname && files[i].hname != files[h].hname;
    }
  }

  lemma MergeChains(files: seq<File>, after: seq<File>, live: seq<nat>, depth: seq<nat>, h: nat, t: nat)
    requires Chains(files, live, depth) && |after| == |files| && h < |files| && t < |files| && h != t
    requires files[h].renamed.None? && files[t].renamed.None?
    requires forall i :: 0 <= i < |files| ==> after[i].renamed == if i == h then Some(t) else files[i].renamed
    ensures Chains(after, Redirected(live, h, t), Deeper(live, depth, h))
  {
    assert Leads(files, live, depth, t) && Leads(files, live, depth, h);
    forall i | 0 <= i < |files| ensures Leads(after, Redirected(live, h, t), Deeper(live, depth, h), i) {
      assert Leads(files, live, depth, i);
    }
  }

  lemma EnterStored(files: seq<File>, table: map<string, nat>, f: File)
    requires Stored(files, table) && f.hname !in table && f.renamed.None?
    ensures Stored(files + [f], table[f.hname := |files|])
  {
    var after, more := files + [f], table[f.hname := |files|];
    forall n | n in more
      ensures more[n] < |after| && after[more[n]].renamed.None? && after[more[n]].hname == n
    {
    }
    forall i | 0 <= i < |after| && after[i].renamed.None? ensures after[i].hname in more && more[after[i].hname] == i {
      if i < |files| { assert files[i].hname in table; }
    }
  }

  lemma EnterChains(files: seq<File>, live: seq<nat>, depth: seq<nat>, f: File)
    requires Chains(files, live, depth) && f.renamed.None?
    ensures Chains(files + [f], live + [|files|], depth + [0])
  {
    forall i | 0 <= i < |files + [f]| ensures Leads(files + [f], live + [|files|], depth + [0], i) {
      if i < |files| { assert Leads(files, live, depth, i); }
    }
  }

  lemma {:induction false} GivenToNobody(live: seq<nat>, given: seq<multiset<Dep>>, l: nat)
    requires |live| == |given| && forall i :: 0 <= i < |live| ==> live[i] != l
    ensures GivenTo(live, given, l) == multiset{}
  {
    if live != [] { GivenToNobody(live[..|live| - 1], given[..|live| - 1], l); }
  }

  lemma {:induction false} GivenMore(live: seq<nat>, given: seq<multiset<Dep>>, h: nat, more: multiset<Dep>, l: nat)
    requires |live| == |given| && h < |live|
    ensures GivenTo(live, given[h := given[h] + more], l) == GivenTo(live, given, l) + if live[h] == l then more else multiset{}
    decreases |live|
  {
    var n := |live| - 1;
    var after := given[h := given[h] + more];
    if h == n {
      assert after[..n] == given[..n];
    } else {
      assert after[..n] == given[..n][h := given[h] + more];
      GivenMore(live[..n], given[..n], h, more, l);
    }
  }

  /** Two classes of records become one. */
  lemma {:induction false} GivenJoined(live: seq<nat>, given: seq<multiset<Dep>>, h: nat, t: nat)
    requires |live| == |given| && h != t
    ensures GivenTo(Redirected(live, h, t), given, t) == GivenTo(live, given, t) + GivenTo(live, given, h)
    decreases |live|
  {
    if live != [] {
      var n := |live| - 1;
      assert Redirected(live, h, t)[..n] == Redirected(live[..n], h, t);
      GivenJoined(live[..n], given[..n], h, t);
      var a, b := GivenTo(live[..n], given[..n], t), GivenTo(live[..n], given[..n], h);
      assert (a + b) + given[n] == (a + given[n]) + b == a + (b + given[n]);
    }
  }

  lemma {:induction false} GivenApart(live: seq<nat>, given: seq<multiset<Dep>>, h: nat, t: nat, l: nat)
    requires |live| == |given| && l != t && l != h
    ensures GivenTo(Redirected(live, h, t), given, l) == GivenTo(live, given, l)
    decreases |live|
  {
    if live != [] {
      var n := |live| - 1;
      assert Redirected(live, h, t)[..n] == Redirected(live[..n], h, t);
      GivenApart(live[..n], given[..n], h, t, l);
    }
  }

  lemma EnterOwned(files: seq<File>, live: seq<nat>, given: seq<multiset<Dep>>, f: File)
    requires Owned(files, live, given) && f.deps == [] && f.renamed.None? && forall i :: 0 <= i < |live| ==> live[i] < |files|
    ensures Owned(files + [f], live + [|files|], given + [multiset{}])
  {
    var after, live', given' := files + [f], live + [|files|], given + [multiset{}];
    forall l | 0 <= l < |after| && after[l].renamed.None? ensures multiset(after[l].deps) == GivenTo(live', given', l) {
      assert live'[..|files|] == live && given'[..|files|] == given;
      if l == |files| { GivenToNobody(live, given, l); }
    }
  }

  function Lines(line: Option<Dep>): seq<Dep> {
    if line.Some? then [line.value] else []
  }

  /**
   A file with one more line of dependencies: at the end, but in front of the last line if the file has commands
   and the new line comes without any.
   */
  function Placed(f: File, line: Option<Dep>, cmds: Option<Commands>): seq<Dep> {
    if f.deps != [] && cmds.None? && f.cmds.Some?
    then f.deps[..|f.deps| - 1] + Lines(line) + [f.deps[|f.deps| - 1]]
    else f.deps + Lines(line)
  }

  /** A rule makes a file a target, maybe with a line of dependencies and maybe with commands. */
  function Ruled(f: File, line: Option<Dep>, cmds: Option<Commands>): File {
    f.(deps := Placed(f, line, cmds), cmds := if cmds.Some? then cmds else f.cmds,
       flags := f.flags + {IsTarget} + if line.Some? && cmds.Some? then {Updating} else {})
  }

  /** Wherever the line goes, nothing else comes or goes. */
  lemma PlacedAll(f: File, line: Option<Dep>, cmds: Option<Commands>)
    ensures multiset(Placed(f, line, cmds)) == multiset(f.deps) + multiset(Lines(line))
  {
    if f.deps != [] {
      var n := |f.deps| - 1;
      assert f.deps == f.deps[..n] + [f.deps[n]];
    }
  }

  lemma PlacedIs(f: File, line: Option<Dep>, cmds: Option<Commands>)
    ensures line.None? ==> Placed(f, line, cmds) == f.deps
    ensures var n := |f.deps|;
            line.Some? && n > 0 && cmds.None? && f.cmds.Some? ==>
              && Placed(f, line, cmds) == f.deps[..n - 1] + [line.value] + f.deps[n - 1..]
              && Placed(f, line, cmds) == f.deps[..n - 1] + [line.value, f.deps[n - 1]]
  {
  }

  lemma GiveOwned(files: seq<File>, live: seq<nat>, given: seq<multiset<Dep>>, h: nat, line: Option<Dep>, cmds: Option<Commands>)
    requires Owned(files, live, given) && h < |files| && live[h] == h
    ensures Owned(files[h := Ruled(files[h], line, cmds)], live, given[h := given[h] + multiset(Lines(line))])
  {
    var after := files[h := Ruled(files[h], line, cmds)];
    forall l | 0 <= l < |after| && after[l].renamed.None?
      ensures multiset(after[l].deps) == GivenTo(live, given[h := given[h] + multiset(Lines(line))], l)
    {
      GivenMore(live, given, h, multiset(Lines(line)), l);
      PlacedAll(files[h], line, cmds);
    }
  }

  /** Only the dependencies and the renamings matter for the owners. */
  lemma OwnedSame(files: seq<File>, after: seq<File>, live: seq<nat>, given: seq<multiset<Dep>>)
    requires Owned(files, live, given) && |after| == |files|
    requires forall i :: 0 <= i < |files| ==> after[i].renamed == files[i].renamed && after[i].deps == files[i].deps
    ensures Owned(after, live, given)
  {
  }

  lemma MergeOwned(files: seq<File>, live: seq<nat>, given: seq<multiset<Dep>>, h: nat, to: string, t: nat)
    requires Owned(files, live, given) && h < |files| && t < |files| && h != t
    requires files[h].renamed.None? && files[t].renamed.None?
    ensures Owned(MergedFiles(files, h, to, t), Redirected(live, h, t), given)
  {
    var after := MergedFiles(files, h, to, t);
    forall l | 0 <= l < |after| && after[l].renamed.None?
      ensures multiset(after[l].deps) == GivenTo(Redirected(live, h, t), given, l)
    {
      assert l != h;
      if l == t { GivenJoined(live, given, h, t); } else { GivenApart(live, given, h, t, l); }
    }
  }

  // -------------------------------------------------------------------------
  // What happens to the table
  // -------------------------------------------------------------------------

  /** The records and the table, and for each record where it leads and what was given through it. */
  datatype State = State(files: seq<File>, table: map<string, nat>, live: seq<nat>, depth: seq<nat>, given: seq<multiset<Dep>>)

  ghost predicate InOrder(st: State) {
    Stored(st.files, st.table) && Chains(st.files, st.live, st.depth) && Owned(st.files, st.live, st.given)
  }

  function Entered(st: State, name: string): State {
    if name in st.table then st
    else
      var n := |st.files|;
      State(st.files + [NewFile(name)], st.table[name := n], st.live + [n], st.depth + [0], st.given + [multiset{}])
  }

  function Given(st: State, h: nat, line: Option<Dep>, cmds: Option<Commands>): State
    requires h < |st.files| && |st.given| == |st.files|
  {
    st.(files := st.files[h := Ruled(st.files[h], line, cmds)], given := st.given[h := st.given[h] + multiset(Lines(line))])
  }

  /** The record at the end of the chain goes by another name than the one through which it is to be renamed. */
  predicate Lost(st: State, h: nat, to: string)
    requires |st.live| == |st.files| && h < |st.files| && st.live[h] < |st.files|
  {
    st.files[h].hname != to && st.files[st.live[h]].hname != st.files[h].hname
  }

  function Rehashed(st: State, h: nat, to: string): State
    requires |st.live| == |st.depth| == |st.files| && h < |st.files| && st.live[h] < |st.files|
    requires to in st.table ==> st.table[to] < |st.files|
  {
    var l, name := st.live[h], st.files[h].hname;
    if name == to then st
    else if to in st.table then
      st.(files := MergedFiles(st.files, l, to, st.table[to]), table := st.table - {name},
          live := Redirected(st.live, l, st.table[to]), depth := Deeper(st.live, st.depth, l))
    else st.(files := MovedFiles(st.files, l, to), table := (st.table - {name})[to := l])
  }

  function NameUpdated(st: State, h: nat): State
    requires h < |st.files|
  {
    st.(files := st.files[h := st.files[h].(name := st.files[h].hname)])
  }

  /** The facts about lengths and places that every state in order has. */
  lemma Bounds(st: State, h: nat, to: string)
    requires InOrder(st)
    ensures |st.live| == |st.depth| == |st.given| == |st.files|
    ensures to in st.table ==> st.table[to] < |st.files| && st.files[st.table[to]].renamed.None? && st.files[st.table[to]].hname == to
    ensures h < |st.files| ==> st.live[h] < |st.files| && st.files[st.live[h]].renamed.None? && (st.files[h].renamed.None? <==> st.live[h] == h)
    ensures h < |st.files| ==> var n := st.files[st.live[h]].hname; n in st.table && st.table[n] == st.live[h]
  {
    if h < |st.files| { assert Leads(st.files, st.live, st.depth, h); }
  }

  lemma EnterKeeps(st: State, name: string)
    requires InOrder(st)
    ensures InOrder(Entered(st, name))
  {
    hide Stored, Chains, Owned;
    if name !in st.table {
      EnterStored(st.files, st.table, NewFile(name));
      EnterChains(st.files, st.live, st.depth, NewFile(name));
      LiveBelow(st);
      EnterOwned(st.files, st.live, st.given, NewFile(name));
    }
  }

  lemma LiveBelow(st: State)
    requires InOrder(st)
    ensures forall i :: 0 <= i < |st.live| ==> st.live[i] < |st.files|
  {
    forall i | 0 <= i < |st.live| ensures st.live[i] < |st.files| {
      assert Leads(st.files, st.live, st.depth, i);
    }
  }

  lemma GiveKeeps(st: State, h: nat, line: Option<Dep>, cmds: Option<Commands>)
    requires InOrder(st) && h < |st.files| && st.files[h].renamed.None?
    ensures |st.given| == |st.files| && InOrder(Given(st, h, line, cmds))
  {
    hide Chains, Owned;
    Bounds(st, h, "");
    ChainsSame(st.files, Given(st, h, line, cmds).files, st.live, st.depth);
    GiveOwned(st.files, st.live, st.given, h, line, cmds);
  }

  lemma RehashKeeps(st: State, h: nat, to: string)
    requires InOrder(st) && h < |st.files|
    ensures |st.live| == |st.depth| == |st.files| && st.live[h] < |st.files| && (to in st.table ==> st.table[to] < |st.files|)
    ensures !Lost(st, h, to) ==> InOrder(Rehashed(st, h, to))
  {
    hide Stored, Chains, Owned;
    Bounds(st, h, to);
    if !Lost(st, h, to) && st.files[h].hname != to {
      var l := st.live[h];
      if to in st.table {
        var t := st.table[to];
        MergeStored(st.files, st.table, l, to);
        MergeChains(st.files, MergedFiles(st.files, l, to, t), st.live, st.depth, l, t);
        MergeOwned(st.files, st.live, st.given, l, to, t);
      } else {
        var after := MovedFiles(st.files, l, to);
        MoveStored(st.files, st.table, l, to);
        ChainsSame(st.files, after, st.live, st.depth);
        OwnedSame(st.files, after, st.live, st.given);
      }
    }
  }

  lemma NameKeeps(st: State, h: nat)
    requires InOrder(st) && h < |st.files|
    ensures InOrder(NameUpdated(st, h))
  {
    hide Chains, Owned;
    ChainsSame(st.files, NameUpdated(st, h).files, st.live, st.depth);
    OwnedSame(st.files, NameUpdated(st, h).files, st.live, st.given);
  }

  /** A rule for a named file; a record met before is stored under another name, or also renamed. */
  datatype Op = Rule(target: string, line: Option<Dep>, cmds: Option<Commands>) | Rename(h: nat, to: string) | Rehash(h: nat, to: string)

  /** The operation gives up. */
  ghost predicate Aborts(st: State, op: Op)
    requires InOrder(st)
  {
    if op.Rule? || op.h >= |st.files| then false
    else
      Bounds(st, op.h, op.to);
      Lost(st, op.h, op.to)
  }

  ghost function ApplyOp(st: State, op: Op): State
    requires InOrder(st) && !Aborts(st, op)
    ensures InOrder(ApplyOp(st, op))
  {
    if op.Rule? then
      EnterKeeps(st, op.target);
      var u := Entered(st, op.target);
      Bounds(u, 0, op.target);
      GiveKeeps(u, u.table[op.target], op.line, op.cmds);
      Given(u, u.table[op.target], op.line, op.cmds)
    else if op.h >= |st.files| then st
    else
      RehashKeeps(st, op.h, op.to);
      var u := Rehashed(st, op.h, op.to);
      if op.Rehash? then u else NameKeeps(u, op.h); NameUpdated(u, op.h)
  }

  const EMPTY := State([], map[], [], [], [])

  /** The state after a run; an operation that gives up, and with it the run, changes nothing. */
  ghost function After(ops: seq<Op>): (st: State)
    ensures InOrder(st)
  {
    if ops == [] then EMPTY
    else
      var before, op := After(ops[..|ops| - 1]), ops[|ops| - 1];
      if Aborts(before, op) then before else ApplyOp(before, op)
  }

  function Sum(given: seq<multiset<Dep>>): multiset<Dep> {
    if given == [] then multiset{} else Sum(given[..|given| - 1]) + given[|given| - 1]
  }

  lemma {:induction false} SumMore(given: seq<multiset<Dep>>, h: nat, more: multiset<Dep>)
    requires h < |given|
    ensures Sum(given[h := given[h] + more]) == Sum(given) + more
    decreases |given|
  {
    var n := |given| - 1;
    var after := given[h := given[h] + more];
    if h == n {
      assert after[..n] == given[..n];
    } else {
      assert after[..n] == given[..n][h := given[h] + more];
      SumMore(given[..n], h, more);
    }
  }

  function GivenBy(ops: seq<Op>): multiset<Dep> {
    if ops == [] then multiset{}
    else
      var last := ops[|ops| - 1];
      GivenBy(ops[..|ops| - 1]) + if last.Rule? then multiset(Lines(last.line)) else multiset{}
  }

  /** No dependency is lost or made up: what the records have been given is what the rules gave. */
  lemma {:induction false} AllGiven(ops: seq<Op>)
    ensures Sum(After(ops).given) == GivenBy(ops)
  {
    hide InOrder, ApplyOp, Aborts, Sum;
    if ops == [] {
      NothingGiven();
    } else {
      AllGiven(ops[..|ops| - 1]);
      OpGives(After(ops[..|ops| - 1]), ops[|ops| - 1]);
    }
  }

  lemma NothingGiven()
    ensures Sum(EMPTY.given) == multiset{}
  {
  }

  lemma OpGives(st: State, op: Op)
    requires InOrder(st)
    ensures op.Rule? ==> !Aborts(st, op) && Sum(ApplyOp(st, op).given) == Sum(st.given) + multiset(Lines(op.line))
    ensures !op.Rule? && !Aborts(st, op) ==> ApplyOp(st, op).given == st.given
  {
    hide InOrder, Sum;
    if op.Rule? { RuleGives(st, op.target, op.line, op.cmds); }
  }

  lemma RuleGives(st: State, target: string, line: Option<Dep>, cmds: Option<Commands>)
    requires InOrder(st)
    ensures Sum(ApplyOp(st, Rule(target, line, cmds)).given) == Sum(st.given) + multiset(Lines(line))
  {
    hide InOrder, Sum;
    var u := Entered(st, target);
    EnterKeeps(st, target);
    Bounds(u, 0, target);
    SumMore(u.given, u.table[target], multiset(Lines(line)));
    SumNew(st.given);
  }

  lemma SumNew(given: seq<multiset<Dep>>)
    ensures Sum(given + [multiset{}]) == Sum(given)
  {
    assert (given + [multiset{}])[..|given|] == given;
  }

  /** The rule is one with commands for the file whose record is `l`. */
  ghost predicate GivesCommands(st: State, op: Op, l: nat) {
    op.Rule? && op.cmds.Some? && op.target in st.table && st.table[op.target] == l
  }

  lemma RuleKeepsCommands(st: State, target: string, line: Option<Dep>, cmds: Option<Commands>, l: nat)
    requires InOrder(st) && l < |st.files| && st.files[l].cmds.Some? && !GivesCommands(st, Rule(target, line, cmds), l)
    ensures var after := ApplyOp(st, Rule(target, line, cmds)); l < |after.files| && after.files[l].cmds == st.files[l].cmds
  {
    hide InOrder;
    EnterKeeps(st, target);
    Bounds(Entered(st, target), 0, target);
  }

  lemma RehashKeepsCommands(st: State, h: nat, to: string, l: nat)
    requires InOrder(st) && h < |st.files| && l < |st.files| && st.files[l].cmds.Some?
    ensures |st.live| == |st.depth| == |st.files| && st.live[h] < |st.files| && (to in st.table ==> st.table[to] < |st.files|)
    ensures var after := Rehashed(st, h, to); |after.files| == |st.files| && after.files[l].cmds == st.files[l].cmds
  {
    hide InOrder;
    Bounds(st, h, to);
  }

  lemma OpKeepsCommands(st: State, op: Op, l: nat)
    requires InOrder(st) && !Aborts(st, op) && l < |st.files| && st.files[l].cmds.Some? && !GivesCommands(st, op, l)
    ensures var after := ApplyOp(st, op); l < |after.files| && after.files[l].cmds == st.files[l].cmds
  {
    hide InOrder, Rehashed;
    if op.Rule? {
      RuleKeepsCommands(st, op.target, op.line, op.cmds, l);
    } else if op.h < |st.files| {
      RehashKeepsCommands(st, op.h, op.to, l);
    }
  }

  /**
   A file that has commands keeps them, through all renamings and whatever is merged into it or it is merged into,
   until a rule gives it others.
   */
  lemma {:induction false} CommandsStay(ops: seq<Op>, more: seq<Op>, l: nat)
    requires l < |After(ops).files| && After(ops).files[l].cmds.Some?
    requires forall k :: 0 <= k < |more| ==> !GivesCommands(After(ops + more[..k]), more[k], l)
    ensures var after := After(ops + more); l < |after.files| && after.files[l].cmds == After(ops).files[l].cmds
    decreases |more|
  {
    hide InOrder, ApplyOp, Aborts, GivesCommands, After;
    if more == [] {
      assert ops + more == ops;
    } else {
      var n := |more| - 1;
      var front, all := more[..n], ops + more;
      assert forall k :: 0 <= k < n ==> front[k] == more[k] && front[..k] == more[..k];
      CommandsStay(ops, front, l);
      assert all[..|all| - 1] == ops + front && all[|all| - 1] == more[n] && all[..|all|] == all;
      OneMore(all, |all| - 1);
      if !Aborts(After(ops + front), more[n]) {
        OpKeepsCommands(After(ops + front), more[n], l);
      }
    }
  }

  // -------------------------------------------------------------------------
  // The table
  // -------------------------------------------------------------------------

  class FileTable {
    var files: seq<File>
    var table: map<string, nat>
    ghost var live: seq<nat>
    ghost var depth: seq<nat>
    ghost var given: seq<multiset<Dep>>

    ghost function View(): State
      reads this
    {
      State(files, table, live, depth, given)
    }

    constructor ()
      ensures View() == EMPTY
    {
      files, table, live, depth, given := [], map[], [], [], [];
    }

    method EnterFile(name: string) returns (h: nat)
      requires InOrder(View()) && name != ""
      modifies this
      ensures View() == Entered(old(View()), name) && InOrder(View()) && name in table && h == table[name]
      ensures name in old(table) ==> files == old(files)
      ensures name !in old(table) ==> h == |old(files)| && files == old(files) + [File(name, name, [], None, 0, 0, {}, None)]
    {
      hide InOrder;
      EnterKeeps(View(), name);
      if name in table {
        return table[name];
      }
      h := |files|;
      files, table := files + [NewFile(name)], table[name := h];
      live, depth, given := live + [h], depth + [0], given + [multiset{}];
    }

    /**
     `record_files` for one target: its commands replace those of an earlier rule; the line of the rule with the
     commands stays behind those of rules without.
     */
    method AddRule(h: nat, line: Option<Dep>, cmds: Option<Commands>)
      requires InOrder(View()) && h < |files| && files[h].renamed.None?
      modifies this
      ensures |old(given)| == |old(files)| && View() == Given(old(View()), h, line, cmds) && InOrder(View())
      ensures h < |files| && IsTarget in files[h].flags && files[h].cmds == if cmds.Some? then cmds else old(files)[h].cmds
      ensures var before := old(files)[h].deps;
              && (line.None? ==> files[h].deps == before)
              && (line.Some? && (cmds.Some? || old(files)[h].cmds.None? || before == []) ==> files[h].deps == before + [line.value])
              && (line.Some? && cmds.None? && old(files)[h].cmds.Some? && before != [] ==>
                    files[h].deps == before[..|before| - 1] + [line.value, before[|before| - 1]])
    {
      hide InOrder;
      GiveKeeps(View(), h, line, cmds);
      var f := files[h];
      var updating: set<Flag> := {};
      if line.Some? {
        var n := |f.deps|;
        if n == 0 || cmds.Some? || f.cmds.None? {
          f := f.(deps := f.deps + [line.value]);
        } else {
          f := f.(deps := f.deps[..n - 1] + [line.value] + f.deps[n - 1..]);
        }
        if cmds.Some? {
          updating := {Updating};
        }
      }
      if cmds.Some? {
        f := f.(cmds := cmds);
      }
      f := f.(flags := f.flags + {IsTarget} + updating);
      PlacedIs(files[h], line, cmds);
      assert f == Ruled(files[h], line, cmds);
      files := files[h := f];
      given := given[h := given[h] + multiset(Lines(line))];
    }

    /** `check_renamed`: follows the renamings to the record that is in the table. */
    method CheckRenamed(h: nat) returns (l: nat)
      requires InOrder(View()) && h < |files|
      ensures |live| == |files| && l == live[h] && l < |files| && files[l].renamed.None?
      ensures files[l].hname in table && table[files[l].hname] == l
    {
      hide Owned;
      l := h;
      assert Leads(files, live, depth, l);
      while files[l].renamed.Some?
        invariant l < |files| && live[l] == live[h] && Leads(files, live, depth, l)
        decreases depth[l]
      {
        l := files[l].renamed.value;
      }
    }

    /**
     `rehash_file`: stores a file under another name, merging it into the file that has that name. It gives
     up exactly when the name of the record is not the one by which it is found.
     */
    method RehashFile(h: nat, to: string) returns (aborted: bool)
      requires InOrder(View()) && h < |files|
      modifies this
      ensures InOrder(View()) && (aborted <==> Aborts(old(View()), Rehash(h, to)))
      ensures View() == if aborted then old(View()) else ApplyOp(old(View()), Rehash(h, to))
      ensures |files| == |old(files)| && |old(live)| == |files| && old(live[h]) < |files|
      ensures !aborted && old(files)[h].hname != to && to in old(table) ==>
                var t := old(table)[to];
                && t < |files| && TakesIn(old(files)[t], old(files)[old(live[h])], files[t])
                && files[old(live[h])] == old(files)[old(live[h])].(hname := to, renamed := Some(t))
                && (forall i :: 0 <= i < |files| && i != t && i != old(live[h]) ==> files[i] == old(files)[i])
      ensures !aborted && old(files)[h].hname != to && to !in old(table) ==>
                files == old(files)[old(live[h]) := old(files)[old(live[h])].(hname := to)]
    {
      hide Stored, Chains, Owned;
      RehashKeeps(View(), h, to);
      Bounds(View(), h, to);
      var l := CheckRenamed(h);
      aborted := false;
      if files[h].hname != to {
        if files[l].hname != files[h].hname {
          return true;
        }
        var name := files[l].hname;
        if table[name] != l {
          assert false;
        }
        if to in table {
          var t := table[to];
          MergeTakesIn(files[t], files[l]);
          files, table := MergedFiles(files, l, to, t), table - {name};
          live, depth := Redirected(live, l, t), Deeper(live, depth, l);
        } else {
          files, table := MovedFiles(files, l, to), (table - {name})[to := l];
        }
      }
    }

    /**
     `rename_file`: also gives the record that it was called with the name under which it is stored. The record
     in the table gets it exactly if it is that record.
     */
    method RenameFile(h: nat, to: string) returns (aborted: bool)
      requires InOrder(View()) && h < |files|
      modifies this
      ensures InOrder(View()) && (aborted <==> Aborts(old(View()), Rename(h, to)))
      ensures View() == if aborted then old(View()) else ApplyOp(old(View()), Rename(h, to))
      ensures |files| == |old(files)| && |old(live)| == |files| && old(live[h]) < |files|
      ensures !aborted && old(files)[h].hname != to ==>
                && files[old(live[h])].hname == to
                && (files[old(live[h])].name == to <==> old(live[h]) == h || old(files)[old(live[h])].name == to)
    {
      hide Stored, Chains, Owned;
      Bounds(View(), h, to);
      aborted := RehashFile(h, to);
      if !aborted {
        NameKeeps(View(), h);
        files := files[h := files[h].(name := files[h].hname)];
      }
    }
  }

  /** One operation on the table. */
  method Apply(t: FileTable, op: Op) returns (aborted: bool)
    requires InOrder(t.View()) && (op.Rule? ==> op.target != "")
    modifies t
    ensures InOrder(t.View()) && (aborted <==> Aborts(old(t.View()), op))
    ensures t.View() == if aborted then old(t.View()) else ApplyOp(old(t.View()), op)
  {
    hide Stored, Chains, Owned;
    aborted := false;
    match op
    case Rule(target, line, cmds) =>
      EnterKeeps(t.View(), target);
      Bounds(Entered(t.View(), target), 0, target);
      var f := t.EnterFile(target);
      t.AddRule(f, line, cmds);
    case Rename(h, to) =>
      if h < |t.files| {
        aborted := t.RenameFile(h, to);
      }
    case Rehash(h, to) =>
      if h < |t.files| {
        aborted := t.RehashFile(h, to);
      }
  }

  /**
   Whatever is entered and renamed, through whatever records: the run goes on until an operation gives up, and
   leaves the records and the table as the operations say. `After` is in order: each table entry is stored under
   its own name, every chain of renamings ends in the table, and each file there has exactly the dependencies
   that were given through the records that lead to it.
   */
  method RunOps(ops: seq<Op>) returns (files: seq<File>, table: map<string, nat>, done: nat)
    requires forall i :: 0 <= i < |ops| && ops[i].Rule? ==> ops[i].target != ""
    ensures done <= |ops| && files == After(ops[..done]).files && table == After(ops[..done]).table
    ensures forall k :: 0 <= k < done ==> !Aborts(After(ops[..k]), ops[k])
    ensures done < |ops| ==> Aborts(After(ops[..done]), ops[done])
  {
    hide InOrder, ApplyOp, Aborts;
    var t := new FileTable();
    done := 0;
    var aborted := false;
    NothingYet();
    while done < |ops| && !aborted
      invariant done <= |ops| && fresh(t) && t.View() == After(ops[..done])
      invariant forall k :: 0 <= k < done ==> !Aborts(After(ops[..k]), ops[k])
      invariant aborted ==> done < |ops| && Aborts(After(ops[..done]), ops[done])
      decreases |ops| - done, !aborted
    {
      OneMore(ops, done);
      aborted := Apply(t, ops[done]);
      if !aborted {
        done := done + 1;
      }
    }
    files, table := t.files, t.table;
  }

  lemma NothingYet()
    ensures InOrder(EMPTY) && After([]) == EMPTY
  {
  }

  lemma OneMore(ops: seq<Op>, k: nat)
    requires k < |ops|
    ensures After(ops[..k + 1]) == if Aborts(After(ops[..k]), ops[k]) then After(ops[..k]) else ApplyOp(After(ops[..k]), ops[k])
  {
    assert ops[..k + 1][..k] == ops[..k];
  }

  // -------------------------------------------------------------------------
  // The order of the lines
  // -------------------------------------------------------------------------

  /** A file after rules for it, each with a line of dependencies, with commands, or with both. */
  function RuledBy(f: File, rules: seq<(Option<Dep>, Option<Commands>)>): File {
    if rules == [] then f
    else
      var last := rules[|rules| - 1];
      Ruled(RuledBy(f, rules[..|rules| - 1]), last.0, last.1)
  }

  /** The last rule that brings both a line and commands. */
  predicate Principal(rules: seq<(Option<Dep>, Option<Commands>)>, i: nat) {
    && i < |rules| && rules[i].0.Some? && rules[i].1.Some?
    && forall k :: i < k < |rules| ==> rules[k].0.None? || rules[k].1.None?
  }

  /**
   The line of the last rule that came with commands is the last of all, so that its first dependency is found
   where the commands look for it, whatever other rules there are before and after it.
   */
  lemma {:induction false} PrincipalLast(f: File, rules: seq<(Option<Dep>, Option<Commands>)>, i: nat)
    requires Principal(rules, i)
    ensures var r := RuledBy(f, rules); r.deps != [] && r.deps[|r.deps| - 1] == rules[i].0.value && r.cmds.Some? && Updating in r.flags
    decreases |rules|
  {
    var front, last := rules[..|rules| - 1], rules[|rules| - 1];
    if i < |rules| - 1 {
      assert forall k :: 0 <= k < |front| ==> front[k] == rules[k];
      PrincipalLast(f, front, i);
      PlacedIs(RuledBy(f, front), last.0, last.1);
    }
  }

  /** Without commands, lines stay in the order of the rules. */
  lemma {:induction false} LinesInOrder(f: File, rules: seq<(Option<Dep>, Option<Commands>)>)
    requires f.cmds.None? && forall k :: 0 <= k < |rules| ==> rules[k].1.None?
    ensures RuledBy(f, rules).deps == f.deps + AllLines(rules) && RuledBy(f, rules).cmds.None?
    decreases |rules|
  {
    if rules != [] {
      LinesInOrder(f, rules[..|rules| - 1]);
    }
  }

  function AllLines(rules: seq<(Option<Dep>, Option<Commands>)>): seq<Dep> {
    if rules == [] then [] else AllLines(rules[..|rules| - 1]) + Lines(rules[|rules| - 1].0)
  }

  // -------------------------------------------------------------------------
  // A renaming that gives up
  // -------------------------------------------------------------------------

  /** The file `a` turns out to be `b`, and `b` to be `c`. */
  const STALE := [Rule("a", Some("x"), Some(1)), Rule("b", Some("y"), Some(2)), Rehash(0, "b"), Rehash(1, "c")]

  function Target(name: string, deps: seq<Dep>, cmds: Commands): File {
    NewFile(name).(deps := deps, cmds := Some(cmds), flags := {IsTarget, Updating})
  }

  lemma NewRule(st: State, name: string, dep: Dep, cmds: Commands)
    requires InOrder(st) && name !in st.table
    ensures var n := |st.files|;
            ApplyOp(st, Rule(name, Some(dep), Some(cmds)))
            == State(st.files + [Target(name, [dep], cmds)], st.table[name := n], st.live + [n], st.depth + [0], st.given + [multiset{dep}])
  {
    hide InOrder;
    Bounds(st, 0, name);
    EnterKeeps(st, name);
    var n := |st.files|;
    var u := Entered(st, name);
    assert u.files[n] == NewFile(name) && [] + [dep] == [dep] && multiset{} + multiset([dep]) == multiset{dep};
    assert {} + {IsTarget} + {Updating} == {IsTarget, Updating};
    assert Ruled(NewFile(name), Some(dep), Some(cmds)) == Target(name, [dep], cmds);
    assert u.files[n := Target(name, [dep], cmds)] == st.files + [Target(name, [dep], cmds)];
    assert u.given[n := multiset{dep}] == st.given + [multiset{dep}];
  }

  /** After two rules for different files. */
  function TwoFiles(): State {
    State([Target("a", ["x"], 1), Target("b", ["y"], 2)], map["a" := 0, "b" := 1], [0, 1], [0, 0], [multiset{"x"}, multiset{"y"}])
  }

  lemma TwoRules()
    ensures After(STALE[..2]) == TwoFiles()
  {
    hide InOrder, ApplyOp;
    NothingYet();
    OneMore(STALE, 0);
    OneMore(STALE, 1);
    assert STALE[..0] == [];
    NewRule(EMPTY, "a", "x", 1);
    var st := State([Target("a", ["x"], 1)], map["a" := 0], [0], [0], [multiset{"x"}]);
    assert After(STALE[..1]) == st;
    NewRule(st, "b", "y", 2);
    assert [0] + [1] == [0, 1] && [0] + [0] == [0, 0] && map["a" := 0]["b" := 1] == map["a" := 0, "b" := 1];
    assert st.files + [Target("b", ["y"], 2)] == TwoFiles().files;
    assert st.given + [multiset{"y"}] == TwoFiles().given;
  }

  /** The second file has taken in the first one. */
  function Merging(): State {
    State([Target("a", ["x"], 1).(hname := "b", renamed := Some(1)), Target("b", ["y", "x"], 2)], map["b" := 1], [1, 1], [1, 0],
          [multiset{"x"}, multiset{"y"}])
  }

  lemma FirstRehash()
    ensures Rehashed(TwoFiles(), 0, "b") == Merging() && !Lost(TwoFiles(), 0, "b")
  {
    var st := TwoFiles();
    assert ["y"] + ["x"] == ["y", "x"];
    assert Redirected([0, 1], 0, 1) == [1, 1] && Deeper([0, 1], [0, 0], 0) == [1, 0];
    assert map["a" := 0, "b" := 1] - {"a"} == map["b" := 1];
    assert st.files[1].flags + st.files[0].flags == {IsTarget, Updating};
    assert Merged(st.files[1], st.files[0]) == Target("b", ["y", "x"], 2);
  }

  lemma SecondRehash()
    ensures !Lost(Merging(), 1, "c")
    ensures var st := Rehashed(Merging(), 1, "c");
            st == Merging().(files := Merging().files[1 := Merging().files[1].(hname := "c")], table := map["c" := 1])
  {
    assert (map["b" := 1] - {"b"})["c" := 1] == map["c" := 1];
  }

  /**
   After that, a renaming through the first record gives up; the file in the table has both dependencies and the
   commands of its own rule.
   */
  lemma StaleHandleLost()
    ensures var st := After(STALE);
            && Aborts(st, Rename(0, "d")) && !Aborts(st, Rename(1, "d"))
            && st.table == map["c" := 1] && |st.files| == 2 && st.files[1].deps == ["y", "x"] && st.files[1].cmds == Some(2)
  {
    hide InOrder, Rehashed;
    TwoRules();
    OneMore(STALE, 2);
    OneMore(STALE, 3);
    assert STALE[..4] == STALE;
    FirstRehash();
    SecondRehash();
  }
}
