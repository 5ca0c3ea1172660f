/** The meaning of variable references in GNU make (`expand.c`). */
module MakeExpand {
  import opened Wrappers
  import opened MakeText
  import opened MakePattern
  import opened MakePatsubst

  datatype Variable = Variable(recursive: bool, value: string)

  type Variables = map<string, Variable>

  // -------------------------------------------------------------------------
  // What a text consists of
  // -------------------------------------------------------------------------

  /**
   A text taken apart at its references. The name of a computed reference is itself a text with references;
   a reference whose parenthesis is never closed ends everything.
   */
  datatype Template =
    | End
    | Unterminated
    | Plain(text: string, rest: Template)
    | Reference(name: string, rest: Template)
    | Computed(inner: Template, rest: Template)

  /** The place where `count` open parentheses and one more have been closed. */
  function Closing(s: string, open: char, close: char, count: nat): (m: Option<nat>)
    ensures m.Some? ==> m.value < |s| && s[m.value] == close
  {
    if s == "" then None
    else if s[0] == close && s[0] != open && count == 0 then Some(0)
    else
      var c := if s[0] == open then count + 1 else if s[0] == close then count - 1 else count;
      match Closing(s[1..], open, close, c)
      case None => None
      case Some(m) => Some(m + 1)
  }

  function CloseOf(open: char): char {
    if open == '(' then ')' else '}'
  }

  function Parse(s: string): Template
    decreases |s|, 1
  {
    var i := First(s, '$');
    if i == |s| then Plain(s, End) else Plain(s[..i], ParseDollar(s[i + 1..]))
  }

  /** What follows a dollar sign. */
  function ParseDollar(t: string): Template
    decreases |t|, 2
  {
    if t == "" then End
    else if t[0] == '$' then Plain("$", Parse(t[1..]))
    else if t[0] == '(' || t[0] == '{' then ParseParen(t[1..], t[0])
    else Reference([t[0]], Parse(t[1..]))
  }

  /** What follows an opening parenthesis or brace. */
  function ParseParen(s: string, open: char): Template
    decreases |s|, 3
  {
    var e := First(s, CloseOf(open));
    if e == |s| then Unterminated
    else if First(s[..e], '$') == e then Reference(s[..e], Parse(s[e + 1..]))
    else
      match Closing(s, open, CloseOf(open), 0)
      case None => Reference(s[..e], End)
      case Some(m) => Computed(Parse(s[..m]), Parse(s[m + 1..]))
  }

  // -------------------------------------------------------------------------
  // References
  // -------------------------------------------------------------------------

  /** A reference: to a variable as it is, or with its words substituted. */
  datatype Target = Whole(variable: string) | Substitution(variable: string, pattern: string, replace: string)

  function TargetOf(name: string): Target {
    var colon := First(name, ':');
    if colon == |name| then Whole(name)
    else
      var rest := name[colon + 1..];
      var eq := First(rest, '=');
      if eq == |rest| then Whole(name) else Substitution(name[..colon], rest[..eq], rest[eq + 1..])
  }

  /** What a reference makes of the value of its variable. */
  function Transform(t: Target, value: string): string {
    match t
    case Whole(_) => value
    case Substitution(_, a, b) =>
      match PatternOf(a)
      case Percent(pre, post) => PatsubstText(pre, post, PatternOf(b), value)
      case Literal(suffix) => PatsubstText("", suffix, Percent("", b), value)
  }

  datatype Outcome = Ok(text: string) | SelfReference(name: string) | Missing | OutOfFuel

  /** One piece of text in front of what follows. */
  function Then(head: string, tail: Outcome): Outcome {
    if tail.Ok? then Ok(head + tail.text) else tail
  }

  function Transformed(t: Target, value: Outcome): Outcome {
    if value.Ok? then Ok(Transform(t, value.text)) else value
  }

  /** A variable that is not set, or set to nothing, and one that is not expanded again. */
  predicate Flat(vars: Variables, v: string) {
    v !in vars || vars[v].value == "" || !vars[v].recursive
  }

  function FlatOutcome(vars: Variables, t: Target): Outcome {
    if t.variable !in vars || vars[t.variable].value == "" then Ok("") else Ok(Transform(t, vars[t.variable].value))
  }

  // -------------------------------------------------------------------------
  // Two meanings
  // -------------------------------------------------------------------------

  /** The simple meaning: variables are expanded wherever they occur, to a depth of at most `fuel`. */
  function Simple(vars: Variables, fuel: nat, t: Template): (r: Outcome)
    ensures !r.SelfReference?
    decreases fuel, 1, t
  {
    match t
    case End => Ok("")
    case Unterminated => Missing
    case Plain(s, rest) => Then(s, Simple(vars, fuel, rest))
    case Reference(name, rest) =>
      var r := SimpleRef(vars, fuel, TargetOf(name));
      if r.Ok? then Then(r.text, Simple(vars, fuel, rest)) else r
    case Computed(inner, rest) =>
      var n := Simple(vars, fuel, inner);
      if !n.Ok? then n
      else
        var r := SimpleRef(vars, fuel, TargetOf(n.text));
        if r.Ok? then Then(r.text, Simple(vars, fuel, rest)) else r
  }

  function SimpleRef(vars: Variables, fuel: nat, t: Target): (r: Outcome)
    ensures !r.SelfReference?
    decreases fuel, 0
  {
    if Flat(vars, t.variable) then FlatOutcome(vars, t)
    else if fuel == 0 then OutOfFuel
    else Transformed(t, Simple(vars, fuel - 1, Parse(vars[t.variable].value)))
  }

  /** The meaning with guards: no variable is expanded inside itself. */
  function Guarded(vars: Variables, expanding: set<string>, t: Template): (r: Outcome)
    ensures !r.OutOfFuel?
    decreases vars.Keys - expanding, 1, t
  {
    match t
    case End => Ok("")
    case Unterminated => Missing
    case Plain(s, rest) => Then(s, Guarded(vars, expanding, rest))
    case Reference(name, rest) =>
      var r := GuardedRef(vars, expanding, TargetOf(name));
      if r.Ok? then Then(r.text, Guarded(vars, expanding, rest)) else r
    case Computed(inner, rest) =>
      var n := Guarded(vars, expanding, inner);
      if !n.Ok? then n
      else
        var r := GuardedRef(vars, expanding, TargetOf(n.text));
        if r.Ok? then Then(r.text, Guarded(vars, expanding, rest)) else r
  }

  function GuardedRef(vars: Variables, expanding: set<string>, t: Target): (r: Outcome)
    ensures !r.OutOfFuel?
    decreases vars.Keys - expanding, 0
  {
    if Flat(vars, t.variable) then FlatOutcome(vars, t)
    else if t.variable in expanding then SelfReference(t.variable)
    else Transformed(t, Guarded(vars, expanding + {t.variable}, Parse(vars[t.variable].value)))
  }

  // -------------------------------------------------------------------------
  // The guards only ever stop an expansion that would not end
  // -------------------------------------------------------------------------

  /** More fuel does not change an outcome. */
  lemma {:induction false} MoreFuel(vars: Variables, n: nat, m: nat, t: Template)
    requires n <= m && Simple(vars, n, t) != OutOfFuel
    ensures Simple(vars, m, t) == Simple(vars, n, t)
    decreases n, 1, t
  {
    match t
    case End =>
    case Unterminated =>
    case Plain(_, rest) =>
      MoreFuel(vars, n, m, rest);
    case Reference(name, rest) =>
      MoreFuelRef(vars, n, m, TargetOf(name));
      if SimpleRef(vars, n, TargetOf(name)).Ok? { MoreFuel(vars, n, m, rest); }
    case Computed(inner, rest) =>
      MoreFuel(vars, n, m, inner);
      var name := Simple(vars, n, inner);
      if name.Ok? {
        MoreFuelRef(vars, n, m, TargetOf(name.text));
        if SimpleRef(vars, n, TargetOf(name.text)).Ok? { MoreFuel(vars, n, m, rest); }
      }
  }

  lemma {:induction false} MoreFuelRef(vars: Variables, n: nat, m: nat, t: Target)
    requires n <= m && SimpleRef(vars, n, t) != OutOfFuel
    ensures SimpleRef(vars, m, t) == SimpleRef(vars, n, t)
    decreases n, 0
  {
    if !Flat(vars, t.variable) {
      MoreFuel(vars, n - 1, m - 1, Parse(vars[t.variable].value));
    }
  }

  /** An expansion that the guards let through needs no more depth than there are variables left. */
  lemma {:induction false} LetThrough(vars: Variables, expanding: set<string>, t: Template)
    requires !Guarded(vars, expanding, t).SelfReference?
    ensures Simple(vars, |vars.Keys - expanding|, t) == Guarded(vars, expanding, t)
    decreases vars.Keys - expanding, 1, t
  {
    match t
    case End =>
    case Unterminated =>
    case Plain(_, rest) =>
      LetThrough(vars, expanding, rest);
    case Reference(name, rest) =>
      LetThroughRef(vars, expanding, TargetOf(name));
      if GuardedRef(vars, expanding, TargetOf(name)).Ok? { LetThrough(vars, expanding, rest); }
    case Computed(inner, rest) =>
      LetThrough(vars, expanding, inner);
      var name := Guarded(vars, expanding, inner);
      if name.Ok? {
        LetThroughRef(vars, expanding, TargetOf(name.text));
        if GuardedRef(vars, expanding, TargetOf(name.text)).Ok? { LetThrough(vars, expanding, rest); }
      }
  }

  lemma {:induction false} LetThroughRef(vars: Variables, expanding: set<string>, t: Target)
    requires !GuardedRef(vars, expanding, t).SelfReference?
    ensures SimpleRef(vars, |vars.Keys - expanding|, t) == GuardedRef(vars, expanding, t)
    decreases vars.Keys - expanding, 0
  {
    if !Flat(vars, t.variable) {
      var more := expanding + {t.variable};
      LetThrough(vars, more, Parse(vars[t.variable].value));
      assert vars.Keys - expanding == (vars.Keys - more) + {t.variable};
    }
  }

  /** The variables being expanded have not come to an end with less than `n` fuel. */
  ghost predicate Unfinished(vars: Variables, expanding: set<string>, n: nat) {
    forall v :: v in expanding && !Flat(vars, v) && n > 0 ==> Simple(vars, n - 1, Parse(vars[v].value)) == OutOfFuel
  }

  lemma UnfinishedBefore(vars: Variables, expanding: set<string>, n: nat)
    requires n > 0 && Unfinished(vars, expanding, n)
    ensures Unfinished(vars, expanding, n - 1)
  {
    forall v | v in expanding && !Flat(vars, v) && n - 1 > 0
      ensures Simple(vars, n - 2, Parse(vars[v].value)) == OutOfFuel
    {
      if Simple(vars, n - 2, Parse(vars[v].value)) != OutOfFuel {
        MoreFuel(vars, n - 2, n - 1, Parse(vars[v].value));
      }
    }
  }

  /** With any fuel, the simple meaning of what the guards let through is the same or not there yet. */
  lemma AgreesWhenDone(vars: Variables, expanding: set<string>, t: Template, n: nat)
    requires !Guarded(vars, expanding, t).SelfReference?
    ensures Simple(vars, n, t) == OutOfFuel || Simple(vars, n, t) == Guarded(vars, expanding, t)
  {
    LetThrough(vars, expanding, t);
    var k := |vars.Keys - expanding|;
    if n > k {
      MoreFuel(vars, k, n, t);
    } else if Simple(vars, n, t) != OutOfFuel {
      MoreFuel(vars, n, k, t);
    }
  }

  lemma AgreesWhenDoneRef(vars: Variables, expanding: set<string>, t: Target, n: nat)
    requires !GuardedRef(vars, expanding, t).SelfReference?
    ensures SimpleRef(vars, n, t) == OutOfFuel || SimpleRef(vars, n, t) == GuardedRef(vars, expanding, t)
  {
    if !Flat(vars, t.variable) && n > 0 {
      AgreesWhenDone(vars, expanding + {t.variable}, Parse(vars[t.variable].value), n - 1);
    }
  }

  /** An expansion that the guards stop does not come to an end. */
  lemma {:induction false} Stopped(vars: Variables, expanding: set<string>, t: Template, n: nat)
    requires Guarded(vars, expanding, t).SelfReference? && Unfinished(vars, expanding, n)
    ensures Simple(vars, n, t) == OutOfFuel
    decreases vars.Keys - expanding, 1, t
  {
    match t
    case Plain(_, rest) =>
      Stopped(vars, expanding, rest, n);
    case Reference(name, rest) =>
      StoppedRef(vars, expanding, TargetOf(name), n);
      if GuardedRef(vars, expanding, TargetOf(name)).Ok? { Stopped(vars, expanding, rest, n); }
    case Computed(inner, rest) =>
      var name := Guarded(vars, expanding, inner);
      if name.Ok? {
        AgreesWhenDone(vars, expanding, inner, n);
        StoppedRef(vars, expanding, TargetOf(name.text), n);
        if GuardedRef(vars, expanding, TargetOf(name.text)).Ok? { Stopped(vars, expanding, rest, n); }
      } else {
        Stopped(vars, expanding, inner, n);
      }
  }

  lemma {:induction false} StoppedRef(vars: Variables, expanding: set<string>, t: Target, n: nat)
    requires Unfinished(vars, expanding, n)
    ensures var r := GuardedRef(vars, expanding, t);
            SimpleRef(vars, n, t) == OutOfFuel || (!r.SelfReference? && SimpleRef(vars, n, t) == r)
    decreases vars.Keys - expanding, 0, n
  {
    if GuardedRef(vars, expanding, t).SelfReference? {
      if t.variable !in expanding && n > 0 { StoppedValue(vars, expanding, t, n - 1); }
    } else {
      AgreesWhenDoneRef(vars, expanding, t, n);
    }
  }

  lemma {:induction false} StoppedValue(vars: Variables, expanding: set<string>, t: Target, k: nat)
    requires Unfinished(vars, expanding, k + 1) && t.variable !in expanding && GuardedRef(vars, expanding, t).SelfReference?
    ensures Simple(vars, k, Parse(vars[t.variable].value)) == OutOfFuel
    decreases vars.Keys - expanding, 0, k
  {
    UnfinishedBefore(vars, expanding, k + 1);
    if k > 0 { StoppedValue(vars, expanding, t, k - 1); }
    Stopped(vars, expanding + {t.variable}, Parse(vars[t.variable].value), k);
  }

  /** Some depth suffices for the simple meaning to come to the end `r`. */
  ghost predicate Converges(vars: Variables, t: Template, r: Outcome) {
    exists n: nat :: Simple(vars, n, t) == r && r != OutOfFuel
  }

  /**
   Expansion with guards gives the simple meaning wherever there is one, and reports a self-reference if
   and only if the simple expansion would never end.
   */
  lemma GuardsAreExact(vars: Variables, s: string)
    ensures var r := Guarded(vars, {}, Parse(s));
            && (forall x :: Converges(vars, Parse(s), x) <==> x == r && !r.SelfReference?)
            && (r.SelfReference? <==> forall n: nat :: Simple(vars, n, Parse(s)) == OutOfFuel)
  {
    var t := Parse(s);
    var r := Guarded(vars, {}, t);
    if r.SelfReference? {
      forall n: nat ensures Simple(vars, n, t) == OutOfFuel {
        Stopped(vars, {}, t, n);
      }
    } else {
      LetThrough(vars, {}, t);
      forall n: nat ensures Simple(vars, n, t) == OutOfFuel || Simple(vars, n, t) == r {
        AgreesWhenDone(vars, {}, t, n);
      }
      assert Simple(vars, |vars.Keys - {}|, t) == r;
    }
  }

  // -------------------------------------------------------------------------
  // Where references end, and how to write a text without any
  // -------------------------------------------------------------------------

  function Sign(c: char, open: char, close: char): int {
    if c == open then 1 else if c == close then -1 else 0
  }

  /** How many more parentheses are opened than closed. */
  function Depth(s: string, open: char, close: char): int {
    if s == "" then 0 else Sign(s[0], open, close) + Depth(s[1..], open, close)
  }

  lemma DepthOfPrefix(s: string, open: char, close: char, k: nat)
    requires 1 <= k <= |s|
    ensures Depth(s[..k], open, close) == Sign(s[0], open, close) + Depth(s[1..][..k - 1], open, close)
  {
    assert s[..k][1..] == s[1..][..k - 1];
  }

  /** At `m` stands the first parenthesis that closes more than has been opened. */
  ghost predicate ClosesAt(s: string, open: char, close: char, count: nat, m: nat) {
    && m < |s| && s[m] == close && count + Depth(s[..m], open, close) == 0
    && forall k: nat :: k <= m ==> count + Depth(s[..k], open, close) >= 0
  }

  lemma ClosesLater(s: string, open: char, close: char, count: nat, m: nat)
    requires 0 < m && s != "" && count + Sign(s[0], open, close) >= 0
    ensures ClosesAt(s, open, close, count, m)
            <==> ClosesAt(s[1..], open, close, count + Sign(s[0], open, close), m - 1)
  {
    var c := count + Sign(s[0], open, close);
    if ClosesAt(s, open, close, count, m) {
      DepthOfPrefix(s, open, close, m);
      forall k: nat | k <= m - 1 ensures c + Depth(s[1..][..k], open, close) >= 0 {
        DepthOfPrefix(s, open, close, k + 1);
        assert count + Depth(s[..k + 1], open, close) >= 0;
      }
    }
    if ClosesAt(s[1..], open, close, c, m - 1) {
      DepthOfPrefix(s, open, close, m);
      forall k: nat | k <= m ensures count + Depth(s[..k], open, close) >= 0 {
        if k > 0 {
          DepthOfPrefix(s, open, close, k);
          assert c + Depth(s[1..][..k - 1], open, close) >= 0;
        }
      }
    }
  }

  /** The parenthesis that ends a computed name is the first that closes more than has been opened. */
  lemma {:induction false} ClosingExactly(s: string, open: char, close: char, count: nat, m: nat)
    requires open != close
    ensures Closing(s, open, close, count) == Some(m) <==> ClosesAt(s, open, close, count, m)
    decreases |s|
  {
    if s != "" {
      var c := count + Sign(s[0], open, close);
      if c < 0 {
        DepthOfPrefix(s, open, close, 1);
        assert count + Depth(s[..1], open, close) < 0;
      } else if m > 0 {
        ClosingExactly(s[1..], open, close, c, m - 1);
        ClosesLater(s, open, close, count, m);
      }
    }
  }

  /** A text in which each dollar sign is doubled. */
  function Escaped(s: string): string {
    if s == "" then "" else (if s[0] == '$' then "$$" else [s[0]]) + Escaped(s[1..])
  }

  /** What the doubled text looks like from its first dollar sign on. */
  function EscapedTail(s: string, i: nat): string
    requires i <= |s|
  {
    if i == |s| then "" else "$$" + Escaped(s[i + 1..])
  }

  lemma {:induction false} EscapedShape(s: string)
    ensures Escaped(s) == s[..First(s, '$')] + EscapedTail(s, First(s, '$'))
  {
    if s != "" && s[0] != '$' {
      hide EscapedTail;
      var r := s[1..];
      var i := First(r, '$');
      EscapedShape(r);
      TailShifts(s, i);
      assert s[..i + 1] == [s[0]] + r[..i];
      assert [s[0]] + (r[..i] + EscapedTail(r, i)) == ([s[0]] + r[..i]) + EscapedTail(r, i);
    }
  }

  lemma EscapedAtDollar(s: string)
    ensures var i := First(s, '$'); First(Escaped(s), '$') == i && Escaped(s) == s[..i] + EscapedTail(s, i)
  {
    hide First, Escaped;
    EscapedShape(s);
    var i, e := First(s, '$'), Escaped(s);
    assert e[..i] == s[..i];
    FirstIs(e, '$', i);
  }

  lemma TailShifts(s: string, i: nat)
    requires s != "" && i <= |s[1..]|
    ensures EscapedTail(s, i + 1) == EscapedTail(s[1..], i)
  {
    if i < |s[1..]| { assert s[1..][i + 1..] == s[i + 2..]; }
  }

  /** Every text can be written: doubling its dollar signs protects it, whatever the variables are. */
  lemma {:induction false} EscapedStandsForItself(vars: Variables, expanding: set<string>, s: string)
    ensures Guarded(vars, expanding, Parse(Escaped(s))) == Ok(s)
    decreases |s|
  {
    hide *;
    EscapedAtDollar(s);
    var i := First(s, '$');
    EscapedTailIs(s, i);
    if i == |s| {
      assert s[..i] == s && s + "" == s;
      PlainOnly(vars, expanding, s);
    } else {
      var more := Escaped(s[i + 1..]);
      EscapedStandsForItself(vars, expanding, s[i + 1..]);
      DoubledDollar(vars, expanding, s[..i], more, s[i + 1..]);
      assert s == s[..i] + ("$" + s[i + 1..]);
    }
  }

  lemma EscapedTailIs(s: string, i: nat)
    requires i <= |s|
    ensures EscapedTail(s, i) == if i == |s| then "" else "$$" + Escaped(s[i + 1..])
  {
  }

  lemma PlainOnly(vars: Variables, expanding: set<string>, s: string)
    requires First(s, '$') == |s|
    ensures Guarded(vars, expanding, Parse(s)) == Ok(s)
  {
    hide First;
    assert s + "" == s;
  }

  lemma DoubledDollar(vars: Variables, expanding: set<string>, head: string, more: string, text: string)
    requires First(head + ("$$" + more), '$') == |head| && Guarded(vars, expanding, Parse(more)) == Ok(text)
    ensures Guarded(vars, expanding, Parse(head + ("$$" + more))) == Ok(head + ("$" + text))
  {
    hide First;
    var e := head + ("$$" + more);
    var after := e[|head| + 1..];
    assert e[..|head|] == head && after == "$" + more && after[1..] == more;
    assert Parse(e) == Plain(head, ParseDollar(after));
    assert ParseDollar(after) == Plain("$", Parse(more));
  }

  /** Also a blank behind a dollar sign is the name of a variable. */
  lemma DollarBlank(c: char, s: string)
    requires Blank(c)
    ensures ParseDollar([c] + s) == Reference([c], Parse(s))
  {
    assert ([c] + s)[1..] == s;
  }
}
