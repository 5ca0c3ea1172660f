/** Absolute file names of GNU make (`abspath` in `function.c`). */
module MakeAbspath {
  import opened Wrappers

  // -------------------------------------------------------------------------
  // What a file name means: a walk through a stack of components
  // -------------------------------------------------------------------------

  function PartLength(s: string): (n: nat)
    ensures n <= |s| && '/' !in s[..n] && (n < |s| ==> s[n] == '/')
  {
    if s == "" || s[0] == '/' then 0
    else
      var k := PartLength(s[1..]);
      assert s[..1 + k] == [s[0]] + s[1..][..k];
      1 + k
  }

  /** The components of a file name. */
  function Parts(s: string): seq<string>
    decreases |s|
  {
    if s == "" then []
    else if s[0] == '/' then Parts(s[1..])
    else [s[..PartLength(s)]] + Parts(s[PartLength(s)..])
  }

  /** A component that names something. */
  predicate Proper(c: string) {
    c != "" && '/' !in c && c != "." && c != ".."
  }

  predicate AllProper(stack: seq<string>) {
    forall i :: 0 <= i < |stack| ==> Proper(stack[i])
  }

  /** Where one component leads; a parent of the root is the root. */
  function Step(stack: seq<string>, c: string): seq<string> {
    if c == "." then stack
    else if c == ".." then if stack == [] then [] else stack[..|stack| - 1]
    else stack + [c]
  }

  /** The canonical name of a stack. */
  function Render(stack: seq<string>): (s: string)
    ensures |s| > 0 && s[0] == '/'
  {
    if |stack| == 0 then "/"
    else if |stack| == 1 then "/" + stack[0]
    else Render(stack[..|stack| - 1]) + "/" + stack[|stack| - 1]
  }

  /** Where a list of components leads, if no name on the way reaches `limit` characters. */
  function Walk(stack: seq<string>, parts: seq<string>, limit: nat): Option<seq<string>>
    decreases |parts|
  {
    if parts == [] then Some(stack)
    else
      var next := Step(stack, parts[0]);
      if |next| > |stack| && |Render(next)| >= limit then None
      else Walk(next, parts[1..], limit)
  }

  /** The canonical name of `name` as seen from the directory `from`, if there is one. */
  function Absolute(name: string, from: Option<seq<string>>, limit: nat): Option<string> {
    if name == "" || (name[0] != '/' && from.None?) then None
    else
      match Walk(if name[0] == '/' then [] else from.value, Parts(name), limit)
      case None => None
      case Some(stack) => Some(Render(stack))
  }

  // -------------------------------------------------------------------------
  // The loop
  // -------------------------------------------------------------------------

  /** What stands in the buffer while the walk is at `stack`. */
  predicate Holds(s: string, stack: seq<string>) {
    s == Render(stack) || (stack != [] && s == Render(stack) + "/")
  }

  /** The part of the name in front of the last component. */
  function Base(stack: seq<string>): (s: string)
    requires stack != []
    ensures |s| > 0 && s[|s| - 1] == '/'
    ensures Render(stack) == s + stack[|stack| - 1]
    ensures AllProper(stack) ==> Holds(s, stack[..|stack| - 1])
  {
    if |stack| == 1 then "/" else Render(stack[..|stack| - 1]) + "/"
  }

  lemma RenderPush(stack: seq<string>, c: string)
    ensures Render(stack + [c]) == (if stack == [] then "/" else Render(stack) + "/") + c
  {
    assert (stack + [c])[..|stack|] == stack;
  }

  lemma {:induction false} RenderLast(stack: seq<string>)
    requires AllProper(stack)
    ensures Render(stack)[|Render(stack)| - 1] == '/' <==> stack == []
  {
    if stack != [] {
      var c := stack[|stack| - 1];
      assert Proper(c);
      assert c[|c| - 1] in c;
      assert Render(stack) == Base(stack) + c;
    }
  }

  lemma HoldsLast(s: string, stack: seq<string>)
    requires AllProper(stack) && Holds(s, stack)
    ensures s[|s| - 1] == '/' <==> stack == [] || s == Render(stack) + "/"
    ensures |s| > 1 <==> stack != []
  {
    RenderLast(stack);
    if stack != [] { assert Render(stack) == Base(stack) + stack[|stack| - 1] && Proper(stack[|stack| - 1]); }
  }

  lemma {:induction false} PartLengthIs(s: string, n: nat)
    requires n <= |s| && '/' !in s[..n] && (n < |s| ==> s[n] == '/')
    ensures PartLength(s) == n
  {
    if n > 0 {
      assert s[0] == s[..n][0];
      assert s[1..][..n - 1] == s[..n][1..];
      PartLengthIs(s[1..], n - 1);
    }
  }

  lemma {:induction false} SkipSlashes(s: string, i: nat, b: nat)
    requires i <= b <= |s| && forall k :: i <= k < b ==> s[k] == '/'
    ensures Parts(s[i..]) == Parts(s[b..])
    decreases b - i
  {
    if i < b {
      assert s[i..][1..] == s[i + 1..];
      SkipSlashes(s, i + 1, b);
    }
  }

  lemma FirstPart(s: string, b: nat, e: nat)
    requires b < e <= |s| && '/' !in s[b..e] && (e < |s| ==> s[e] == '/')
    ensures Parts(s[b..]) == [s[b..e]] + Parts(s[e..])
  {
    assert s[b..][..e - b] == s[b..e] && s[b..][e - b..] == s[e..];
    PartLengthIs(s[b..], e - b);
    assert s[b..e][0] == s[b];
  }

  lemma WalkOn(stack: seq<string>, c: string, rest: seq<string>, limit: nat)
    ensures Walk(stack, [c] + rest, limit) ==
              if |Step(stack, c)| > |stack| && |Render(Step(stack, c))| >= limit then None
              else Walk(Step(stack, c), rest, limit)
  {
    assert ([c] + rest)[1..] == rest;
  }

  /** Where the last component stands in the buffer. */
  lemma LastPart(a: string, stack: seq<string>)
    requires AllProper(stack) && Holds(a, stack) && |a| > 1
    ensures stack != []
    ensures var base, last := Base(stack), stack[|stack| - 1];
            && '/' !in last && |base| + |last| <= |a| && a[..|base|] == base && a[|base|..|base| + |last|] == last
            && |base| < |a| <= |base| + |last| + 1 && Holds(base, Step(stack, ".."))
  {
    HoldsLast(a, stack);
    hide Render;
    var base, last := Base(stack), stack[|stack| - 1];
    assert Proper(last);
    assert a[..|base| + |last|] == base + last;
  }

  /** Takes the last component off the buffer, looking for the separator in front of it. */
  method BackUp(apath: array<char>, dest: nat, ghost stack: seq<string>) returns (d: nat)
    requires dest <= apath.Length && AllProper(stack) && Holds(apath[..dest], stack)
    ensures d <= dest && Holds(apath[..d], Step(stack, ".."))
  {
    hide Render, Holds, Base, Step;
    d := dest;
    if d > 1 {
      ghost var a := apath[..dest];
      LastPart(a, stack);
      ghost var base, last := Base(stack), stack[|stack| - 1];
      d := d - 1;
      while apath[d - 1] != '/'
        invariant |base| <= d < dest && d <= |base| + |last|
        decreases d
      {
        d := d - 1;
      }
      BackedUp(a, base, last, d);
      assert apath[..d] == a[..d];
    } else {
      AtRoot(apath[..dest], stack);
    }
  }

  lemma AtRoot(a: string, stack: seq<string>)
    requires AllProper(stack) && Holds(a, stack) && |a| <= 1
    ensures Holds(a, Step(stack, ".."))
  {
    HoldsLast(a, stack);
  }

  lemma BackedUp(a: string, base: string, last: string, d: nat)
    requires |base| > 0 && base[|base| - 1] == '/' && '/' !in last && |base| + |last| <= |a|
    requires a[..|base|] == base && a[|base|..|base| + |last|] == last
    requires |base| <= d <= |base| + |last| && a[d - 1] == '/'
    ensures d == |base|
  {
    forall k | |base| <= k < |base| + |last| ensures a[k] != '/' {
      assert a[k] == a[|base|..|base| + |last|][k - |base|];
      assert a[k] in last;
    }
  }

  /** Writes a separator, unless there is one. */
  method PutSlash(apath: array<char>, dest: nat, ghost stack: seq<string>) returns (d: nat)
    requires dest < apath.Length && AllProper(stack) && Holds(apath[..dest], stack)
    modifies apath
    ensures d <= apath.Length && apath[..d] == if stack == [] then "/" else Render(stack) + "/"
  {
    hide Render;
    d := dest;
    HoldsLast(apath[..dest], stack);
    RootName();
    if apath[d - 1] != '/' {
      apath[d] := '/';
      d := d + 1;
    }
  }

  /** Writes a separator and a component; gives up when there is no room. */
  method Push(apath: array<char>, dest: nat, c: string, ghost stack: seq<string>) returns (d: nat, fits: bool)
    requires dest < apath.Length && AllProper(stack) && Holds(apath[..dest], stack) && Proper(c)
    modifies apath
    ensures fits <==> |Render(stack + [c])| < apath.Length
    ensures fits ==> d < apath.Length && apath[..d] == Render(stack + [c])
  {
    hide Render, Holds, Proper, AllProper;
    RenderPush(stack, c);
    d := PutSlash(apath, dest, stack);
    ghost var written := apath[..d];
    fits := d + |c| < apath.Length;
    if fits {
      forall i | 0 <= i < |c| {
        apath[d + i] := c[i];
      }
      assert apath[..d] == written;
      assert apath[..d + |c|] == apath[..d] + c;
      d := d + |c|;
    }
  }

  lemma RootName()
    ensures Render([]) == "/"
  {
  }

  /** The name of a component at the start of the rest of the name. */
  method NextPart(name: string, i: nat) returns (b: nat, e: nat)
    requires i <= |name|
    ensures i <= b <= e <= |name|
    ensures b == e ==> Parts(name[i..]) == []
    ensures b < e ==> Parts(name[i..]) == [name[b..e]] + Parts(name[e..]) && name[b..e] != "" && '/' !in name[b..e]
  {
    hide Parts;
    b := i;
    while b < |name| && name[b] == '/'
      invariant i <= b <= |name| && forall k :: i <= k < b ==> name[k] == '/'
    {
      b := b + 1;
    }
    SkipSlashes(name, i, b);
    e := b;
    while e < |name| && name[e] != '/'
      invariant b <= e <= |name| && '/' !in name[b..e]
    {
      e := e + 1;
    }
    if b < e {
      FirstPart(name, b, e);
    } else {
      assert b == |name|;
      EndOfName(name);
    }
  }

  /**
   `abspath`: with a buffer of the size of the limit, and a working directory in canonical form that fits,
   nothing is written outside the buffer, and the buffer holds the canonical name if there is one.
   */
  method Abspath(name: string, from: Option<string>, apath: array<char>, ghost cwd: seq<string>) returns (r: Option<string>)
    requires apath.Length >= 2
    requires from.Some? ==> AllProper(cwd) && from.value == Render(cwd) && |from.value| < apath.Length
    modifies apath
    ensures r == Absolute(name, if from.None? then None else Some(cwd), apath.Length)
    ensures r.Some? ==> |r.value| < apath.Length && apath[..|r.value|] == r.value
  {
    hide Render, Walk, Parts;
    r := None;
    if name != "" && (name[0] == '/' || from.Some?) {
      ghost var stack: seq<string> := [];
      var dest: nat := 1;
      if name[0] != '/' {
        dest := |from.value|;
        forall i | 0 <= i < |from.value| {
          apath[i] := from.value[i];
        }
        stack := cwd;
        assert apath[..dest] == from.value;
      } else {
        apath[0] := '/';
        RootName();
      }
      ghost var root := stack;
      var i, fits := 0, true;
      assert name[0..] == name;
      ghost var limit := apath.Length;
      while i < |name| && fits
        invariant i <= |name|
        invariant fits ==> 0 < dest < apath.Length && AllProper(stack) && Holds(apath[..dest], stack)
        invariant Walk(root, Parts(name), limit) == if fits then Walk(stack, Parts(name[i..]), limit) else None
        decreases |name| - i, fits
      {
        var b, e := NextPart(name, i);
        var c := name[b..e];
        if b == e {
          EndOfName(name);
          i := |name|;
        } else {
          WalkOn(stack, c, Parts(name[e..]), limit);
          i := e;
          if c == "." {
          } else if c == ".." {
            dest := BackUp(apath, dest, stack);
            stack := Step(stack, "..");
            HoldsLast(apath[..dest], stack);
          } else {
            dest, fits := Push(apath, dest, c, stack);
            stack := stack + [c];
          }
        }
      }
      EndOfName(name);
      if fits {
        WalkEnds(stack, limit);
        HoldsLast(apath[..dest], stack);
        if dest > 1 && apath[dest - 1] == '/' {
          dest := dest - 1;
        }
        assert apath[..dest] == Render(stack);
        r := Some(apath[..dest]);
        assert apath[..dest] == r.value;
      }
    }
  }

  lemma EndOfName(name: string)
    ensures Parts(name[|name|..]) == []
  {
  }

  lemma WalkEnds(stack: seq<string>, limit: nat)
    ensures Walk(stack, [], limit) == Some(stack)
  {
  }

  // -------------------------------------------------------------------------
  // What the names promise
  // -------------------------------------------------------------------------

  lemma {:induction false} PartsAreParts(s: string)
    ensures forall i :: 0 <= i < |Parts(s)| ==> Parts(s)[i] != "" && '/' !in Parts(s)[i]
    decreases |s|
  {
    if s != "" {
      if s[0] == '/' {
        PartsAreParts(s[1..]);
      } else {
        PartsAreParts(s[PartLength(s)..]);
      }
    }
  }

  lemma {:induction false} PartsAppend(a: string, b: string)
    requires b == "" || b[0] == '/' || a == "" || a[|a| - 1] == '/'
    ensures Parts(a + b) == Parts(a) + Parts(b)
    decreases |a|
  {
    hide Parts, PartLength;
    if a == "" {
      assert a + b == b;
      EndOfName("");
      assert [] + Parts(b) == Parts(b);
    } else if b == "" {
      assert a + b == a;
      EndOfName("");
      assert Parts(a) + [] == Parts(a);
    } else if a[0] == '/' {
      assert (a + b)[1..] == a[1..] + b && (a + b)[0] == a[0];
      SlashInFront(a);
      SlashInFront(a + b);
      PartsAppend(a[1..], b);
    } else {
      var n := PartLength(a);
      SplitPart(a, b);
      PartsAppend(a[n..], b);
      PartsConcat(a[..n], a[n..], b);
    }
  }

  lemma SlashInFront(s: string)
    requires s != "" && s[0] == '/'
    ensures Parts(s) == Parts(s[1..])
  {
  }

  lemma SplitPart(a: string, b: string)
    requires a != "" && a[0] != '/' && (b == "" || b[0] == '/' || a[|a| - 1] == '/')
    ensures var n := PartLength(a);
            0 < n <= |a| && Parts(a) == [a[..n]] + Parts(a[n..]) && Parts(a + b) == [a[..n]] + Parts(a[n..] + b)
  {
    hide PartLength, Parts;
    var n := PartLength(a);
    assert n > 0;
    TakePart(a, n);
    var s := a + b;
    assert s[..n] == a[..n] && s[n..] == a[n..] + b;
    NextSlash(a, b, n);
    TakePart(s, n);
  }

  lemma NextSlash(a: string, b: string, n: nat)
    requires 0 < n <= |a| && '/' !in a[..n] && (n < |a| ==> a[n] == '/')
    requires b == "" || b[0] == '/' || a[|a| - 1] == '/'
    ensures n < |a + b| ==> (a + b)[n] == '/'
  {
    if n == |a| { assert a[|a| - 1] == a[..n][n - 1]; }
  }

  lemma TakePart(s: string, n: nat)
    requires 0 < n <= |s| && '/' !in s[..n] && (n < |s| ==> s[n] == '/')
    ensures Parts(s) == [s[..n]] + Parts(s[n..])
  {
    PartLengthIs(s, n);
    assert s[0] == s[..n][0];
  }

  lemma PartsConcat(head: string, a: string, b: string)
    ensures [head] + (Parts(a) + Parts(b)) == ([head] + Parts(a)) + Parts(b)
  {
  }

  lemma PartsOfPart(c: string)
    requires c != "" && '/' !in c
    ensures Parts(c) == [c]
  {
    assert c[..|c|] == c && c[|c|..] == "";
    PartLengthIs(c, |c|);
    assert c[0] in c;
  }

  /** A canonical name stands for its stack. */
  lemma {:induction false} PartsOfRender(stack: seq<string>)
    requires AllProper(stack)
    ensures Parts(Render(stack)) == stack
    decreases |stack|
  {
    if stack == [] {
      assert "/"[1..] == "";
    } else {
      var front, c := stack[..|stack| - 1], stack[|stack| - 1];
      assert Proper(c);
      PartsOfRender(front);
      PartsOfPart(c);
      PartsAppend(Base(stack), c);
      assert Parts(Base(stack)) == front by {
        if front != [] {
          PartsAppend(Render(front), "/");
          assert "/"[1..] == "";
          assert front + Parts("") == front;
        } else {
          assert "/"[1..] == "";
        }
      }
      assert front + [c] == stack;
    }
  }

  lemma {:induction false} RenderGrows(stack: seq<string>, k: nat)
    requires AllProper(stack) && k <= |stack|
    ensures |Render(stack[..k])| <= |Render(stack)|
    decreases |stack|
  {
    if k < |stack| {
      var front := stack[..|stack| - 1];
      RenderGrows(front, k);
      assert front[..k] == stack[..k];
      assert Render(stack) == Base(stack) + stack[|stack| - 1] && Proper(stack[|stack| - 1]);
    } else {
      assert stack[..k] == stack;
    }
  }

  /** A walk stays among proper components, and at every place the name has room. */
  lemma {:induction false} WalkProper(stack: seq<string>, parts: seq<string>, limit: nat)
    requires AllProper(stack) && |Render(stack)| < limit
    requires forall i :: 0 <= i < |parts| ==> parts[i] != "" && '/' !in parts[i]
    ensures var r := Walk(stack, parts, limit); r.Some? ==> AllProper(r.value) && |Render(r.value)| < limit
    decreases |parts|
  {
    hide Render;
    if parts != [] {
      var c := parts[0];
      var next := Step(stack, c);
      StepProper(stack, c, limit);
      if |next| <= |stack| || |Render(next)| < limit {
        WalkProper(next, parts[1..], limit);
      }
    }
  }

  lemma StepProper(stack: seq<string>, c: string, limit: nat)
    requires AllProper(stack) && |Render(stack)| < limit && c != "" && '/' !in c
    ensures AllProper(Step(stack, c)) && (|Step(stack, c)| <= |stack| ==> |Render(Step(stack, c))| < limit)
  {
    hide Render;
    if c == ".." && stack != [] { RenderGrows(stack, |stack| - 1); }
  }

  /** Walking down from the root to a canonical place does not leave the way. */
  lemma {:induction false} WalkDown(stack: seq<string>, k: nat, limit: nat)
    requires AllProper(stack) && |Render(stack)| < limit && k <= |stack|
    ensures Walk(stack[..k], stack[k..], limit) == Some(stack)
    decreases |stack| - k
  {
    if k < |stack| {
      assert Proper(stack[k]);
      assert stack[..k] + [stack[k]] == stack[..k + 1] && stack[k..][1..] == stack[k + 1..];
      RenderGrows(stack, k + 1);
      WalkDown(stack, k + 1, limit);
    } else {
      assert stack[..k] == stack;
    }
  }

  lemma {:induction false} WalkAppend(stack: seq<string>, p: seq<string>, q: seq<string>, limit: nat)
    ensures Walk(stack, p + q, limit) ==
              var m := Walk(stack, p, limit); if m.None? then None else Walk(m.value, q, limit)
    decreases |p|
  {
    if p == [] {
      assert p + q == q;
    } else {
      assert (p + q)[1..] == p[1..] + q;
      WalkAppend(Step(stack, p[0]), p[1..], q, limit);
    }
  }

  /** A working directory: canonical, and short enough for the buffer. */
  predicate Directory(from: Option<seq<string>>, limit: nat) {
    from.Some? ==> AllProper(from.value) && |Render(from.value)| < limit
  }

  /**
   The result is canonical: it is the name of its components, none of which is empty, `.` or `..`, so that
   no separator is repeated or stands at the end of a name other than the root's; and it fits the buffer.
   */
  lemma CanonicalName(name: string, from: Option<seq<string>>, limit: nat)
    requires Directory(from, limit) && limit >= 2
    ensures var r := Absolute(name, from, limit);
            r.Some? ==> |r.value| < limit && AllProper(Parts(r.value)) && r.value == Render(Parts(r.value))
  {
    var r := Absolute(name, from, limit);
    if r.Some? {
      var root := if name[0] == '/' then [] else from.value;
      PartsAreParts(name);
      WalkProper(root, Parts(name), limit);
      PartsOfRender(Walk(root, Parts(name), limit).value);
    }
  }

  /** A canonical name is left alone, wherever one stands. */
  lemma AbsoluteIdempotent(name: string, from: Option<seq<string>>, other: Option<seq<string>>, limit: nat)
    requires Directory(from, limit) && limit >= 2
    ensures var r := Absolute(name, from, limit); r.Some? ==> Absolute(r.value, other, limit) == r
  {
    var r := Absolute(name, from, limit);
    if r.Some? {
      CanonicalName(name, from, limit);
      var stack := Parts(r.value);
      WalkDown(stack, 0, limit);
      assert stack[..0] == [] && stack[0..] == stack;
    }
  }

  /** A name is resolved from left to right: `a/b` is `b` as seen from `a`. */
  lemma AbsoluteComposes(a: string, b: string, from: Option<seq<string>>, limit: nat)
    requires Directory(from, limit) && limit >= 2
    requires a != "" && b != "" && b[0] != '/'
    ensures Absolute(a + "/" + b, from, limit) ==
              var r := Absolute(a, from, limit);
              if r.None? then None else Absolute(b, Some(Parts(r.value)), limit)
  {
    hide Walk, Parts, Render;
    if a[0] == '/' || from.Some? {
      var root := if a[0] == '/' then [] else from.value;
      assert a + "/" + b == a + ("/" + b);
      PartsAppend(a, "/" + b);
      PartsAppend("/", b);
      SlashOnly();
      assert [] + Parts(b) == Parts(b);
      WalkAppend(root, Parts(a), Parts(b), limit);
      PartsAreParts(a);
      RootName();
      WalkProper(root, Parts(a), limit);
      var m := Walk(root, Parts(a), limit);
      if m.Some? { PartsOfRender(m.value); }
    }
  }

  lemma SlashOnly()
    ensures Parts("/") == []
  {
    assert "/"[1..] == "";
  }

  /** A canonical name that fits stands for itself. */
  lemma CanonicalStays(stack: seq<string>, from: Option<seq<string>>, limit: nat)
    requires AllProper(stack) && |Render(stack)| < limit
    ensures Absolute(Render(stack), from, limit) == Some(Render(stack))
  {
    PartsOfRender(stack);
    WalkDown(stack, 0, limit);
    assert stack[..0] == [] && stack[0..] == stack;
  }

  function WithoutDots(parts: seq<string>): seq<string> {
    if parts == [] then []
    else (if parts[0] == "." then [] else [parts[0]]) + WithoutDots(parts[1..])
  }

  lemma {:induction false} DotsLeadNowhere(stack: seq<string>, parts: seq<string>, limit: nat)
    ensures Walk(stack, parts, limit) == Walk(stack, WithoutDots(parts), limit)
    decreases |parts|
  {
    hide Render;
    if parts != [] {
      DotsLeadNowhere(Step(stack, parts[0]), parts[1..], limit);
      var rest := WithoutDots(parts[1..]);
      WalkOn(stack, parts[0], rest, limit);
      assert [] + rest == rest;
    }
  }

  /** Where two names start, and are resolved, alike. */
  lemma SameWay(a: string, b: string, from: Option<seq<string>>, limit: nat)
    requires (a == "") == (b == "") && (a != "" && b != "" ==> (a[0] == '/') == (b[0] == '/'))
    requires forall root :: Walk(root, Parts(a), limit) == Walk(root, Parts(b), limit)
    ensures Absolute(a, from, limit) == Absolute(b, from, limit)
  {
    hide Walk, Parts, Render;
  }

  /** Components `.` make no difference: two names that differ only in them are the same name. */
  lemma DotsIgnored(a: string, b: string, from: Option<seq<string>>, limit: nat)
    requires (a == "") == (b == "") && (a != "" && b != "" ==> (a[0] == '/') == (b[0] == '/'))
    requires WithoutDots(Parts(a)) == WithoutDots(Parts(b))
    ensures Absolute(a, from, limit) == Absolute(b, from, limit)
  {
    hide Walk, Parts, Render, WithoutDots;
    forall root ensures Walk(root, Parts(a), limit) == Walk(root, Parts(b), limit) {
      DotsLeadNowhere(root, Parts(a), limit);
      DotsLeadNowhere(root, Parts(b), limit);
    }
    SameWay(a, b, from, limit);
  }

  lemma PartsBehindSlash(a: string, b: string)
    ensures Parts(a + "/" + b) == Parts(a) + Parts(b)
  {
    hide Parts;
    assert a + "/" + b == a + ("/" + b);
    PartsAppend(a, "/" + b);
    PartsAppend("/", b);
    SlashOnly();
    assert [] + Parts(b) == Parts(b);
  }

  /** `a/./b` is `a/b`. */
  lemma DotInside(a: string, b: string, from: Option<seq<string>>, limit: nat)
    ensures Absolute(a + "/" + ("." + "/" + b), from, limit) == Absolute(a + "/" + b, from, limit)
  {
    hide Walk, Parts, Render, Absolute;
    PartsBehindSlash(a, "." + "/" + b);
    PartsBehindSlash(".", b);
    PartsBehindSlash(a, b);
    PartsOfPart(".");
    DotBetween(Parts(a), Parts(b));
    DotsIgnored(a + "/" + ("." + "/" + b), a + "/" + b, from, limit);
  }

  lemma {:induction false} DotBetween(p: seq<string>, q: seq<string>)
    ensures WithoutDots(p + (["."] + q)) == WithoutDots(p + q)
  {
    if p == [] {
      assert p + (["."] + q) == ["."] + q && (["."] + q)[1..] == q && p + q == q;
    } else {
      assert (p + (["."] + q))[1..] == p[1..] + (["."] + q) && (p + q)[1..] == p[1..] + q;
      DotBetween(p[1..], q);
    }
  }

  lemma StepDownAndUp(stack: seq<string>, c: string, rest: seq<string>, limit: nat)
    requires Proper(c)
    ensures Walk(stack, [c] + ([".."] + rest), limit)
            == if |Render(stack + [c])| < limit then Walk(stack, rest, limit) else None
    ensures Walk(stack, [c], limit) == if |Render(stack + [c])| < limit then Some(stack + [c]) else None
  {
    hide Walk, Render;
    WalkOn(stack, c, [".."] + rest, limit);
    WalkOn(stack + [c], "..", rest, limit);
    WalkOn(stack, c, [], limit);
    WalkEnds(stack + [c], limit);
    assert (stack + [c])[..|stack|] == stack;
    assert [c] + [] == [c];
  }

  /** `a/c/../b` is `a/b` if there is room for `a/c` on the way, and nothing otherwise. */
  lemma DownAndUp(a: string, c: string, b: string, from: Option<seq<string>>, limit: nat)
    requires Proper(c)
    ensures Absolute(a + "/" + (c + "/" + (".." + "/" + b)), from, limit)
            == if Absolute(a + "/" + c, from, limit).Some? then Absolute(a + "/" + b, from, limit) else None
  {
    hide Walk, Parts, Render, Proper;
    DownAndUpParts(a, c, b);
    PartsBehindSlash(a, b);
    PartsBehindSlash(a, c);
    var slashed := a == "" || a[0] == '/';
    if slashed || from.Some? {
      var root := if slashed then [] else from.value;
      WalkAppend(root, Parts(a), [c] + ([".."] + Parts(b)), limit);
      WalkAppend(root, Parts(a), [c], limit);
      WalkAppend(root, Parts(a), Parts(b), limit);
      var m := Walk(root, Parts(a), limit);
      if m.Some? { StepDownAndUp(m.value, c, Parts(b), limit); }
    }
  }

  lemma DownAndUpParts(a: string, c: string, b: string)
    requires Proper(c)
    ensures Parts(a + "/" + (c + "/" + (".." + "/" + b))) == Parts(a) + ([c] + ([".."] + Parts(b))) && Parts(c) == [c]
  {
    hide Parts;
    PartsBehindSlash(a, c + "/" + (".." + "/" + b));
    PartsBehindSlash(c, ".." + "/" + b);
    PartsBehindSlash("..", b);
    PartsOfPart("..");
    PartsOfPart(c);
  }

  /**
   One component as seen from a directory: `.` is the directory, `..` its parent, or the root if it is the
   root, and any other is one further, if its name fits.
   */
  lemma OneComponent(stack: seq<string>, c: string, limit: nat)
    requires Proper(c)
    ensures Absolute(".", Some(stack), limit) == Some(Render(stack))
    ensures Absolute("..", Some(stack + [c]), limit) == Some(Render(stack)) && Absolute("..", Some([]), limit) == Some("/")
    ensures Absolute(c, Some(stack), limit)
            == if |Render(stack + [c])| < limit then Some(Render(stack + [c])) else None
    ensures Absolute("", Some(stack), limit) == None && Absolute(c, None, limit) == None
  {
    hide Walk, Parts, Render;
    OnePart(".", stack, limit);
    OnePart("..", stack + [c], limit);
    OnePart("..", [], limit);
    OnePart(c, stack, limit);
    assert (stack + [c])[..|stack|] == stack;
    RootName();
    assert c[0] in c;
  }

  lemma OnePart(c: string, stack: seq<string>, limit: nat)
    requires c != "" && '/' !in c
    ensures var next := Step(stack, c);
            Absolute(c, Some(stack), limit) == if |next| > |stack| && |Render(next)| >= limit then None else Some(Render(next))
  {
    hide Walk, Parts, Render;
    PartsOfPart(c);
    assert c[0] in c;
    WalkOn(stack, c, [], limit);
    assert [c] + [] == [c];
    WalkEnds(Step(stack, c), limit);
  }

  /** Repeated separators, and separators at the end, make no difference. */
  lemma SlashesIgnored(a: string, b: string, from: Option<seq<string>>, limit: nat)
    ensures Absolute(a + "/" + ("/" + b), from, limit) == Absolute(a + "/" + b, from, limit)
    ensures a != "" ==> Absolute(a + "/", from, limit) == Absolute(a, from, limit)
  {
    hide Walk, Parts, Render, Absolute;
    PartsBehindSlash(a, "/" + b);
    PartsAppend("/", b);
    SlashOnly();
    assert [] + Parts(b) == Parts(b);
    PartsBehindSlash(a, b);
    SameWay(a + "/" + ("/" + b), a + "/" + b, from, limit);
    if a != "" {
      PartsAppend(a, "/");
      assert Parts(a) + [] == Parts(a);
      SameWay(a + "/", a, from, limit);
    }
  }

  /** No two separators stand next to each other, and none at the end. */
  predicate CleanName(s: string) {
    && s != "" && s[0] == '/' && (|s| > 1 ==> s[|s| - 1] != '/')
    && forall i :: 1 <= i < |s| ==> s[i] != '/' || s[i - 1] != '/'
  }

  lemma {:induction false} RenderClean(stack: seq<string>)
    requires AllProper(stack)
    ensures CleanName(Render(stack))
    decreases |stack|
  {
    if stack != [] {
      var front, c := stack[..|stack| - 1], stack[|stack| - 1];
      RenderClean(front);
      RenderLast(front);
      assert Proper(c) && forall i :: 0 <= i < |c| ==> c[i] in c;
      CleanPush(Render(front), c, front == []);
      RenderPush(front, c);
      assert front + [c] == stack;
    }
  }

  lemma CleanPush(s: string, c: string, root: bool)
    requires CleanName(s) && c != "" && (forall i :: 0 <= i < |c| ==> c[i] != '/')
    requires if root then s == "/" else s[|s| - 1] != '/'
    ensures CleanName((if root then "/" else s + "/") + c)
  {
  }

  /** What comes out has no repeated separators. */
  lemma CleanResult(name: string, from: Option<seq<string>>, limit: nat)
    requires Directory(from, limit) && limit >= 2
    ensures var r := Absolute(name, from, limit); r.Some? ==> CleanName(r.value)
  {
    hide Absolute, CleanName, Render;
    CanonicalName(name, from, limit);
    var r := Absolute(name, from, limit);
    if r.Some? { RenderClean(Parts(r.value)); }
  }
}
