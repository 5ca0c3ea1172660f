/** What references stand for, written out as they stand in a makefile (`expand.c` of GNU make). */
module MakeReferences {
  import opened Wrappers
  import opened MakeText
  import opened MakePattern
  import opened MakePatsubst
  import opened MakeExpand

  /** The expansion of a text while the variables in `expanding` are being expanded. */
  function Expansion(vars: Variables, expanding: set<string>, s: string): Outcome {
    Guarded(vars, expanding, Parse(s))
  }

  /** A text without any of the characters that mean something inside a reference. */
  predicate Nameable(s: string) {
    forall i :: 0 <= i < |s| ==> s[i] !in "$:(){}"
  }

  /** A text that does not end a reference or start another one. */
  predicate Inert(s: string) {
    forall i :: 0 <= i < |s| ==> s[i] !in "$(){}"
  }

  /** One outcome followed by another; an error is the end. */
  function AndThen(a: Outcome, b: Outcome): Outcome {
    if !a.Ok? then a else if b.Ok? then Ok(a.text + b.text) else b
  }

  predicate Parens(open: char, close: char) {
    (open == '(' && close == ')') || (open == '{' && close == '}')
  }

  // -------------------------------------------------------------------------
  // How the texts are taken apart
  // -------------------------------------------------------------------------

  lemma InertHas(s: string, c: char)
    requires Inert(s) && c in "$(){}"
    ensures c !in s
  {
  }

  lemma ParsedDollar(t: string)
    ensures Parse("$" + t) == Plain("", ParseDollar(t))
  {
    assert ("$" + t)[0] == '$' && ("$" + t)[1..] == t && ("$" + t)[..0] == "";
    FirstIs("$" + t, '$', 0);
  }

  lemma ParsedReference(n: string, rest: string, open: char, close: char)
    requires Inert(n) && Parens(open, close)
    ensures Parse("$" + ([open] + (n + [close] + rest))) == Plain("", Reference(n, Parse(rest)))
  {
    hide First, Parse;
    var s := n + [close] + rest;
    ParsedDollar([open] + s);
    assert ([open] + s)[0] == open && ([open] + s)[1..] == s;
    InertHas(n, close);
    InertHas(n, '$');
    assert s[..|n|] == n && s[|n|] == close && s[|n| + 1..] == rest;
    FirstIs(s, close, |n|);
    assert n[..|n|] == n;
    FirstIs(n, '$', |n|);
  }

  /** A text in front of what is to be expanded is copied. */
  lemma PlainPrefix(vars: Variables, expanding: set<string>, pre: string, s: string)
    requires '$' !in pre
    ensures Expansion(vars, expanding, pre + s) == AndThen(Ok(pre), Expansion(vars, expanding, s))
  {
    hide First, ParseDollar;
    var i := First(s, '$');
    var t := pre + s;
    assert t[..|pre| + i] == pre + s[..i];
    FirstIs(t, '$', |pre| + i);
    if i < |s| {
      assert t[|pre| + i + 1..] == s[i + 1..];
      var tail := Guarded(vars, expanding, ParseDollar(s[i + 1..]));
      if tail.Ok? { assert (pre + s[..i]) + tail.text == pre + (s[..i] + tail.text); }
    } else {
      assert s[..i] == s && t[..|t|] == t;
      assert (pre + s) + "" == pre + (s + "");
    }
  }

  lemma ReferenceFirst(vars: Variables, expanding: set<string>, name: string, rest: Template)
    ensures Guarded(vars, expanding, Plain("", Reference(name, rest)))
            == AndThen(GuardedRef(vars, expanding, TargetOf(name)), Guarded(vars, expanding, rest))
  {
    var r, more := GuardedRef(vars, expanding, TargetOf(name)), Guarded(vars, expanding, rest);
    if r.Ok? && more.Ok? { assert "" + (r.text + more.text) == r.text + more.text; }
  }

  lemma WholeName(n: string)
    requires ':' !in n
    ensures TargetOf(n) == Whole(n)
  {
    assert n[..|n|] == n;
    FirstIs(n, ':', |n|);
  }

  // -------------------------------------------------------------------------
  // Plain references
  // -------------------------------------------------------------------------

  /** What is to be written for the variable `n` where the variables in `expanding` are being expanded. */
  ghost predicate StandsFor(vars: Variables, expanding: set<string>, n: string, r: Outcome) {
    && (n !in vars ==> r == Ok(""))
    && (n in vars && !vars[n].recursive ==> r == Ok(vars[n].value))
    && (n in vars && vars[n].recursive && n !in expanding ==> r == Expansion(vars, expanding + {n}, vars[n].value))
    && (n in vars && vars[n].recursive && vars[n].value == "" ==> r == Ok(""))
    && (n in vars && vars[n].recursive && vars[n].value != "" && n in expanding ==> r == SelfReference(n))
  }

  lemma WholeStandsFor(vars: Variables, expanding: set<string>, n: string)
    ensures StandsFor(vars, expanding, n, GuardedRef(vars, expanding, Whole(n)))
  {
    hide Parse;
    if n in vars && vars[n].recursive {
      if vars[n].value == "" {
        EmptyExpansion(vars, expanding + {n});
      } else if n !in expanding {
        var r := Guarded(vars, expanding + {n}, Parse(vars[n].value));
        assert Transformed(Whole(n), r) == r;
      }
    }
  }

  lemma EmptyExpansion(vars: Variables, expanding: set<string>)
    ensures Expansion(vars, expanding, "") == Ok("")
  {
    assert Parse("") == Plain("", End);
    NothingMore(vars, expanding);
  }

  /** `$(n)` and `${n}` stand for the variable `n`. */
  lemma PlainReference(vars: Variables, expanding: set<string>, n: string, rest: string, open: char, close: char) returns (r: Outcome)
    requires Nameable(n) && Parens(open, close)
    ensures StandsFor(vars, expanding, n, r)
    ensures Expansion(vars, expanding, "$" + ([open] + (n + [close] + rest))) == AndThen(r, Expansion(vars, expanding, rest))
  {
    hide Parse, Guarded, GuardedRef, StandsFor, AndThen;
    ParsedReference(n, rest, open, close);
    ReferenceFirst(vars, expanding, n, Parse(rest));
    WholeName(n);
    WholeStandsFor(vars, expanding, n);
    r := GuardedRef(vars, expanding, Whole(n));
  }

  /** `$c` stands for the variable whose name is that one character. */
  lemma OneLetterReference(vars: Variables, expanding: set<string>, c: char, rest: string) returns (r: Outcome)
    requires c != '$' && c != '(' && c != '{'
    ensures StandsFor(vars, expanding, [c], r)
    ensures Expansion(vars, expanding, "$" + ([c] + rest)) == AndThen(r, Expansion(vars, expanding, rest))
  {
    hide Parse, Guarded, GuardedRef, StandsFor, AndThen;
    ParsedDollar([c] + rest);
    assert ([c] + rest)[0] == c && ([c] + rest)[1..] == rest;
    ReferenceFirst(vars, expanding, [c], Parse(rest));
    OneCharacter(c);
    WholeStandsFor(vars, expanding, [c]);
    r := GuardedRef(vars, expanding, Whole([c]));
  }

  lemma OneCharacter(c: char)
    ensures TargetOf([c]) == Whole([c])
  {
  }

  /** A dollar sign at the end stands for nothing, and a reference that is never closed is an error. */
  lemma BrokenReference(vars: Variables, expanding: set<string>, s: string, open: char, close: char)
    requires Parens(open, close) && close !in s
    ensures Expansion(vars, expanding, "$") == Ok("")
    ensures Expansion(vars, expanding, "$" + ([open] + s)) == Missing
  {
    ParsedDollar("");
    assert "$" + "" == "$";
    ParsedDollar([open] + s);
    assert ([open] + s)[0] == open && ([open] + s)[1..] == s && s[..|s|] == s;
    FirstIs(s, close, |s|);
    assert ParseDollar([open] + s) == Unterminated;
    NothingMore(vars, expanding);
  }

  lemma NothingMore(vars: Variables, expanding: set<string>)
    ensures Guarded(vars, expanding, Plain("", End)) == Ok("")
    ensures Guarded(vars, expanding, Plain("", Unterminated)) == Missing
  {
    assert "" + "" == "";
  }

  // -------------------------------------------------------------------------
  // Substitution references
  // -------------------------------------------------------------------------

  /** A word `pre`, stem, `post` becomes `a`, stem, `b`; any other word stays. */
  function Rewritten(w: string, pre: string, post: string, a: string, b: string): string {
    if |pre| + |post| <= |w| && w[..|pre|] == pre && w[|w| - |post|..] == post
    then a + w[|pre|..|w| - |post|] + b
    else w
  }

  /** Each word rewritten, and dropped if nothing is left of it. */
  function RewrittenWords(ws: seq<string>, pre: string, post: string, a: string, b: string): seq<string> {
    if ws == [] then []
    else
      var last := Rewritten(ws[|ws| - 1], pre, post, a, b);
      RewrittenWords(ws[..|ws| - 1], pre, post, a, b) + if last == "" then [] else [last]
  }

  lemma {:induction false} RewrittenIsSubst(ws: seq<string>, pre: string, post: string, a: string, b: string)
    ensures SubstWords(pre, post, Percent(a, b), ws) == RewrittenWords(ws, pre, post, a, b)
  {
    if ws != [] {
      hide Rewritten, SubstWord;
      RewrittenIsSubst(ws[..|ws| - 1], pre, post, a, b);
      WordRewritten(ws[|ws| - 1], pre, post, a, b);
    }
  }

  lemma WordRewritten(w: string, pre: string, post: string, a: string, b: string)
    ensures SubstWord(pre, post, Percent(a, b), w) == Rewritten(w, pre, post, a, b)
  {
    hide Matches, Stem;
    MatchesShape(w, pre, post);
  }

  lemma MatchesShape(w: string, pre: string, post: string)
    ensures var p := Percent(pre, post);
            && (Matches(p, w) <==> |pre| + |post| <= |w| && w[..|pre|] == pre && w[|w| - |post|..] == post)
            && (Matches(p, w) ==> Stem(p, w) == w[|pre|..|w| - |post|])
  {
    if |pre| <= |w| { PrefixTest(w, pre); }
  }

  lemma SubstitutionName(n: string, a: string, b: string)
    requires ':' !in n && '=' !in a
    ensures TargetOf(n + ":" + a + "=" + b) == Substitution(n, a, b)
  {
    hide First;
    var q := n + ":" + a + "=" + b;
    var more := a + "=" + b;
    assert q == n + ":" + more;
    assert q[..|n|] == n && q[|n| + 1..] == more;
    FirstIs(q, ':', |n|);
    assert more[..|a|] == a && more[|a| + 1..] == b;
    FirstIs(more, '=', |a|);
  }

  /** `x` is the outcome `r` with its words rewritten. */
  ghost predicate RewrittenOutcome(r: Outcome, x: Outcome, pre: string, post: string, a: string, b: string) {
    if r.Ok? then x.Ok? && Words(x.text) == RewrittenWords(Words(r.text), pre, post, a, b) else x == r
  }

  lemma TransformedValue(vars: Variables, expanding: set<string>, t: Target, r: Outcome)
    requires StandsFor(vars, expanding, t.variable, r) && Transform(t, "") == ""
    ensures GuardedRef(vars, expanding, t) == Transformed(t, r)
  {
    hide Transform;
    WholeStandsFor(vars, expanding, t.variable);
    WholeUnique(vars, expanding, t.variable, r);
  }

  lemma WholeUnique(vars: Variables, expanding: set<string>, n: string, r: Outcome)
    requires StandsFor(vars, expanding, n, r)
    ensures r == GuardedRef(vars, expanding, Whole(n))
  {
    hide Transform;
    WholeStandsFor(vars, expanding, n);
  }

  lemma TransformRewrites(n: string, p: string, q: string, pre: string, post: string, a: string, b: string, value: string)
    requires BlankFree(a) && BlankFree(b)
    requires (PatternOf(p) == Percent(pre, post) && PatternOf(q) == Percent(a, b))
          || (PatternOf(p) == Literal(post) && pre == "" && a == "" && b == q)
    ensures Words(Transform(Substitution(n, p, q), value)) == RewrittenWords(Words(value), pre, post, a, b)
    ensures Transform(Substitution(n, p, q), "") == ""
  {
    hide PatternOf, PatsubstText, Words;
    PatsubstWords(pre, post, Percent(a, b), value);
    RewrittenIsSubst(Words(value), pre, post, a, b);
    PatsubstNothing(pre, post, Percent(a, b));
  }

  lemma PatsubstNothing(pre: string, post: string, replace: Pattern)
    ensures PatsubstText(pre, post, replace, "") == ""
  {
  }

  lemma SubstitutionOutcome(vars: Variables, expanding: set<string>, n: string, p: string, q: string,
                            pre: string, post: string, a: string, b: string) returns (r: Outcome)
    requires BlankFree(a) && BlankFree(b)
    requires (PatternOf(p) == Percent(pre, post) && PatternOf(q) == Percent(a, b))
          || (PatternOf(p) == Literal(post) && pre == "" && a == "" && b == q)
    ensures StandsFor(vars, expanding, n, r)
    ensures RewrittenOutcome(r, GuardedRef(vars, expanding, Substitution(n, p, q)), pre, post, a, b)
  {
    hide PatternOf, StandsFor, GuardedRef, Transform, Words, RewrittenWords;
    WholeStandsFor(vars, expanding, n);
    r := GuardedRef(vars, expanding, Whole(n));
    TransformRewrites(n, p, q, pre, post, a, b, if r.Ok? then r.text else "");
    TransformedValue(vars, expanding, Substitution(n, p, q), r);
  }

  lemma InertTogether(n: string, p: string, q: string)
    requires Inert(n) && Inert(p) && Inert(q)
    ensures Inert(n + ":" + p + "=" + q)
  {
  }

  lemma WrittenSubstitution(vars: Variables, expanding: set<string>, n: string, p: string, q: string, rest: string,
                            open: char, close: char)
    requires Nameable(n) && Inert(p) && Inert(q) && '=' !in p && Parens(open, close)
    ensures Expansion(vars, expanding, "$" + ([open] + ((n + ":" + p + "=" + q) + [close] + rest)))
            == AndThen(GuardedRef(vars, expanding, Substitution(n, p, q)), Expansion(vars, expanding, rest))
  {
    hide Parse, Guarded, GuardedRef, AndThen, TargetOf;
    InertTogether(n, p, q);
    ParsedReference(n + ":" + p + "=" + q, rest, open, close);
    ReferenceFirst(vars, expanding, n + ":" + p + "=" + q, Parse(rest));
    SubstitutionName(n, p, q);
  }

  /** `$(n:a=b)` is the value of `n` with the suffix `a` of its words replaced by `b`. */
  lemma SuffixReference(vars: Variables, expanding: set<string>, n: string, a: string, b: string, rest: string,
                        open: char, close: char) returns (r: Outcome, x: Outcome)
    requires Nameable(n) && Inert(a) && Inert(b) && '=' !in a && '%' !in a && BlankFree(b) && Parens(open, close)
    ensures StandsFor(vars, expanding, n, r) && RewrittenOutcome(r, x, "", a, "", b)
    ensures Expansion(vars, expanding, "$" + ([open] + ((n + ":" + a + "=" + b) + [close] + rest)))
            == AndThen(x, Expansion(vars, expanding, rest))
  {
    hide Expansion, StandsFor, RewrittenOutcome, AndThen, Unquoted;
    WrittenSubstitution(vars, expanding, n, a, b, rest, open, close);
    NoPercentAtAll(a);
    r := SubstitutionOutcome(vars, expanding, n, a, b, "", a, "", b);
    x := GuardedRef(vars, expanding, Substitution(n, a, b));
  }

  /** `$(n:p%q=a%b)` is the value of `n` with `p` and `q` around its words replaced by `a` and `b`. */
  lemma PercentReference(vars: Variables, expanding: set<string>, n: string, p: string, q: string, a: string, b: string,
                         rest: string, open: char, close: char) returns (r: Outcome, x: Outcome)
    requires Nameable(n) && Inert(p) && Inert(q) && Inert(a) && Inert(b) && Parens(open, close)
    requires '=' !in p && '=' !in q && '%' !in p && '%' !in a && BlankFree(a) && BlankFree(b)
    requires (p != "" ==> p[|p| - 1] != '\\') && (a != "" ==> a[|a| - 1] != '\\')
    ensures StandsFor(vars, expanding, n, r) && RewrittenOutcome(r, x, p, q, a, b)
    ensures Expansion(vars, expanding, "$" + ([open] + ((n + ":" + (p + "%" + q) + "=" + (a + "%" + b)) + [close] + rest)))
            == AndThen(x, Expansion(vars, expanding, rest))
  {
    hide Expansion, StandsFor, RewrittenOutcome, AndThen, PatternOf;
    WrittenSubstitution(vars, expanding, n, p + "%" + q, a + "%" + b, rest, open, close);
    PercentWritten(p, q);
    PercentWritten(a, b);
    r := SubstitutionOutcome(vars, expanding, n, p + "%" + q, a + "%" + b, p, q, a, b);
    x := GuardedRef(vars, expanding, Substitution(n, p + "%" + q, a + "%" + b));
  }

  // -------------------------------------------------------------------------
  // Computed names
  // -------------------------------------------------------------------------

  /** `n` characters later. */
  function Later(n: nat, m: Option<nat>): Option<nat> {
    if m.Some? then Some(n + m.value) else None
  }

  lemma {:induction false} ClosingSkips(x: string, s: string, open: char, close: char, count: nat)
    requires open !in x && close !in x
    ensures Closing(x + s, open, close, count) == Later(|x|, Closing(s, open, close, count))
  {
    if x == "" {
      assert x + s == s;
    } else {
      assert (x + s)[1..] == x[1..] + s && x[0] in x;
      ClosingSkips(x[1..], s, open, close, count);
    }
  }

  lemma {:induction false} NeverCloses(s: string, open: char, close: char, count: nat)
    requires close !in s
    ensures Closing(s, open, close, count) == None
  {
    if s != "" {
      NeverCloses(s[1..], open, close, if s[0] == open then count + 1 else count);
    }
  }

  /** A reference inside a name, whatever its parentheses, does not close the name. */
  lemma ClosingInner(m: string, s: string, open: char, close: char, o: char, c: char)
    requires Inert(m) && Parens(open, close) && Parens(o, c)
    ensures Closing([o] + (m + ([c] + s)), open, close, 0) == Later(|m| + 2, Closing(s, open, close, 0))
  {
    hide Closing, Inert;
    InertHas(m, open);
    InertHas(m, close);
    if o == open {
      ClosingSame(m, s, open, close);
    } else {
      ClosingOther(m, s, open, close, o, c);
    }
  }

  lemma ClosingSame(m: string, s: string, open: char, close: char)
    requires open != close && open !in m && close !in m
    ensures Closing([open] + (m + ([close] + s)), open, close, 0) == Later(|m| + 2, Closing(s, open, close, 0))
  {
    hide Closing;
    ClosingOpen(m + ([close] + s), open, close, 0);
    ClosingSkips(m, [close] + s, open, close, 1);
    ClosingClose(s, open, close, 0);
  }

  lemma ClosingOther(m: string, s: string, open: char, close: char, o: char, c: char)
    requires o != open && o != close && c != open && c != close && open !in m && close !in m
    ensures Closing([o] + (m + ([c] + s)), open, close, 0) == Later(|m| + 2, Closing(s, open, close, 0))
  {
    hide Closing;
    var inner := [o] + m + [c];
    assert inner + s == [o] + (m + ([c] + s));
    ClosingSkips(inner, s, open, close, 0);
  }

  lemma ClosingOpen(s: string, open: char, close: char, count: nat)
    requires open != close
    ensures Closing([open] + s, open, close, count) == Later(1, Closing(s, open, close, count + 1))
  {
    assert ([open] + s)[1..] == s;
  }

  lemma ClosingClose(s: string, open: char, close: char, count: nat)
    requires open != close
    ensures Closing([close] + s, open, close, count + 1) == Later(1, Closing(s, open, close, count))
    ensures Closing([close] + s, open, close, 0) == Some(0)
  {
    assert ([close] + s)[1..] == s;
  }

  /** A name with one reference in it. */
  function NameAround(a: string, o: char, m: string, c: char, b: string): string {
    a + "$" + [o] + m + [c] + b
  }

  lemma NameCloses(a: string, o: char, m: string, c: char, b: string, rest: string, open: char, close: char)
    requires Inert(a) && Inert(m) && Inert(b) && Parens(open, close) && Parens(o, c)
    ensures var name := NameAround(a, o, m, c, b);
            Closing(name + [close] + rest, open, close, 0) == Some(|name|)
  {
    hide Closing, Inert;
    InertHas(a, open);
    InertHas(a, close);
    InertHas(b, open);
    InertHas(b, close);
    var tail := [close] + rest;
    assert NameAround(a, o, m, c, b) + [close] + rest == (a + "$") + ([o] + (m + ([c] + (b + tail))));
    ClosingSkips(a + "$", [o] + (m + ([c] + (b + tail))), open, close, 0);
    ClosingInner(m, b + tail, open, close, o, c);
    ClosingSkips(b, tail, open, close, 0);
    ClosingClose(rest, open, close, 0);
  }

  /** A name with a dollar sign in it, up to its own closing parenthesis, is expanded first. */
  lemma ParsedComputed(name: string, rest: string, open: char, close: char, k: nat)
    requires Parens(open, close) && k < |name| && name[k] == '$' && close !in name[..k]
    requires Closing(name + [close] + rest, open, close, 0) == Some(|name|)
    ensures Parse("$" + ([open] + (name + [close] + rest))) == Plain("", Computed(Parse(name), Parse(rest)))
  {
    hide First, Closing, Parse;
    var s := name + [close] + rest;
    ParsedDollar([open] + s);
    assert ([open] + s)[0] == open && ([open] + s)[1..] == s;
    assert s[..|name|] == name && s[|name| + 1..] == rest && s[|name|] == close;
    var e := First(s, close);
    assert forall i :: 0 <= i < k ==> name[..k][i] == s[i];
    assert forall i :: 0 <= i < e ==> s[..e][i] == s[i];
    assert k < e <= |name|;
    assert s[..e][k] == '$';
    assert First(s[..e], '$') != e;
  }

  lemma ComputedFirst(vars: Variables, expanding: set<string>, inner: Template, rest: Template)
    ensures var n := Guarded(vars, expanding, inner);
            Guarded(vars, expanding, Plain("", Computed(inner, rest)))
            == if n.Ok? then AndThen(GuardedRef(vars, expanding, TargetOf(n.text)), Guarded(vars, expanding, rest)) else n
  {
    var n := Guarded(vars, expanding, inner);
    if n.Ok? { ReferenceFirst(vars, expanding, n.text, rest); }
  }

  /** A name with a reference in it has the value of that variable in its place. */
  lemma NameExpands(vars: Variables, expanding: set<string>, a: string, o: char, m: string, c: char, b: string) returns (r: Outcome)
    requires Inert(a) && Nameable(m) && Inert(b) && Parens(o, c)
    ensures StandsFor(vars, expanding, m, r)
    ensures Expansion(vars, expanding, NameAround(a, o, m, c, b)) == if r.Ok? then Ok(a + r.text + b) else r
  {
    hide StandsFor, Parse, Guarded, Inert, Nameable;
    InertHas(a, '$');
    InertHas(b, '$');
    var s := "$" + ([o] + (m + [c] + b));
    assert NameAround(a, o, m, c, b) == a + s;
    PlainPrefix(vars, expanding, a, s);
    r := PlainReference(vars, expanding, m, b, o, c);
    assert b[..|b|] == b;
    FirstIs(b, '$', |b|);
    PlainOnly(vars, expanding, b);
    if r.Ok? { assert a + (r.text + b) == a + r.text + b; }
  }

  /**
   A reference in the name of a reference: the value of the inner variable takes its place, and what
   comes out is the name of the variable that is meant.
   */
  lemma ComputedReference(vars: Variables, expanding: set<string>, a: string, o: char, m: string, c: char, b: string,
                          rest: string, open: char, close: char) returns (inner: Outcome, r: Outcome)
    requires Nameable(a) && Nameable(m) && Nameable(b) && Parens(open, close) && Parens(o, c)
    ensures StandsFor(vars, expanding, m, inner)
    ensures inner.Ok? && ':' !in inner.text ==> StandsFor(vars, expanding, a + inner.text + b, r)
    ensures !inner.Ok? ==> r == inner
    ensures Expansion(vars, expanding, "$" + ([open] + (NameAround(a, o, m, c, b) + [close] + rest)))
            == AndThen(r, Expansion(vars, expanding, rest))
  {
    hide StandsFor, Parse, Guarded, GuardedRef, TargetOf, NameAround, Closing;
    var name := NameAround(a, o, m, c, b);
    NameCloses(a, o, m, c, b, rest, open, close);
    DollarIn(a, o, m, c, b, close);
    ParsedComputed(name, rest, open, close, |a|);
    ComputedFirst(vars, expanding, Parse(name), Parse(rest));
    inner := NameExpands(vars, expanding, a, o, m, c, b);
    r := inner;
    if inner.Ok? {
      var v := a + inner.text + b;
      r := GuardedRef(vars, expanding, TargetOf(v));
      if ':' !in inner.text {
        WholeName(v);
        WholeStandsFor(vars, expanding, v);
      }
    }
  }

  /** A reference with a reference in its name, be it a substitution or not, means the one with the name filled in. */
  lemma FilledIn(vars: Variables, expanding: set<string>, a: string, o: char, m: string, c: char, b: string,
                 rest: string, open: char, close: char) returns (inner: Outcome)
    requires Inert(a) && Nameable(m) && Inert(b) && Parens(open, close) && Parens(o, c)
    ensures StandsFor(vars, expanding, m, inner)
    ensures inner.Ok? && Inert(inner.text) ==>
              Expansion(vars, expanding, "$" + ([open] + (NameAround(a, o, m, c, b) + [close] + rest)))
              == Expansion(vars, expanding, "$" + ([open] + ((a + inner.text + b) + [close] + rest)))
  {
    hide StandsFor, Parse, Guarded, GuardedRef, TargetOf, NameAround, Closing;
    var name := NameAround(a, o, m, c, b);
    inner := NameExpands(vars, expanding, a, o, m, c, b);
    if inner.Ok? && Inert(inner.text) {
      NameCloses(a, o, m, c, b, rest, open, close);
      DollarIn(a, o, m, c, b, close);
      ParsedComputed(name, rest, open, close, |a|);
      ComputedFirst(vars, expanding, Parse(name), Parse(rest));
      ParsedReference(a + inner.text + b, rest, open, close);
      ReferenceFirst(vars, expanding, a + inner.text + b, Parse(rest));
    }
  }

  lemma DollarIn(a: string, o: char, m: string, c: char, b: string, close: char)
    requires Inert(a) && close in "$(){}"
    ensures var name := NameAround(a, o, m, c, b); |a| < |name| && name[|a|] == '$' && close !in name[..|a|]
  {
    InertHas(a, close);
    assert NameAround(a, o, m, c, b)[..|a|] == a;
  }

  /**
   Without its own closing parenthesis a reference with another one in its name ends at the inner one's: that
   is a variable with an odd name, and whatever follows is lost.
   */
  lemma UnmatchedReference(vars: Variables, expanding: set<string>, n: string, rest: string, open: char, close: char) returns (r: Outcome)
    requires Nameable(n) && Parens(open, close) && close !in rest
    ensures StandsFor(vars, expanding, "$" + [open] + n, r)
    ensures Expansion(vars, expanding, "$" + ([open] + (("$" + [open] + n) + [close] + rest))) == r
  {
    hide StandsFor, Parse, Guarded, GuardedRef, TargetOf, Closing;
    var name := "$" + [open] + n;
    ParsedUnmatched(n, rest, open, close);
    ReferenceFirst(vars, expanding, name, End);
    WholeName(name);
    WholeStandsFor(vars, expanding, name);
    r := GuardedRef(vars, expanding, Whole(name));
    EndOfText(vars, expanding, r);
  }

  lemma EndOfText(vars: Variables, expanding: set<string>, r: Outcome)
    ensures AndThen(r, Guarded(vars, expanding, End)) == r
  {
    if r.Ok? { assert r.text + "" == r.text; }
  }

  lemma ParsedUnmatched(n: string, rest: string, open: char, close: char)
    requires Inert(n) && Parens(open, close) && close !in rest
    ensures var name := "$" + [open] + n;
            Parse("$" + ([open] + (name + [close] + rest))) == Plain("", Reference(name, End))
  {
    hide First, Closing, Parse;
    var name := "$" + [open] + n;
    var s := name + [close] + rest;
    ParsedDollar([open] + s);
    assert ([open] + s)[0] == open && ([open] + s)[1..] == s;
    InertHas(n, close);
    assert s[..|name|] == name && s[|name|] == close;
    FirstIs(s, close, |name|);
    assert name[0] == '$';
    UnmatchedNeverCloses(n, rest, open, close);
  }

  lemma UnmatchedNeverCloses(n: string, rest: string, open: char, close: char)
    requires Inert(n) && Parens(open, close) && close !in rest
    ensures Closing(("$" + [open] + n) + [close] + rest, open, close, 0) == None
  {
    hide Closing, Inert;
    InertHas(n, open);
    InertHas(n, close);
    var inner := [open] + (n + ([close] + rest));
    assert ("$" + [open] + n) + [close] + rest == "$" + inner;
    ClosingSkips("$", inner, open, close, 0);
    ClosingSame(n, rest, open, close);
    NeverCloses(rest, open, close, 0);
  }
}
