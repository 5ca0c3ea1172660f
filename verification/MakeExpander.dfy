/** Expanding variable references in a buffer (`expand.c` of GNU make). */
module MakeExpander {
  import opened Wrappers
  import opened MakeText
  import opened MakePattern
  import opened MakePatsubst
  import opened MakeExpand

  /** `strchr` and `lindex`: the first `c` at or behind `from`, or the end. */
  method Index(s: string, from: nat, c: char) returns (i: nat)
    requires from <= |s|
    ensures i == from + First(s[from..], c) && from <= i <= |s| && (i < |s| ==> s[i] == c)
  {
    i := from;
    while i < |s| && s[i] != c
      invariant from <= i <= |s| && c !in s[from..i]
    {
      i := i + 1;
    }
    assert s[from..][..i - from] == s[from..i];
    FirstIs(s[from..], c, i - from);
  }

  /** Counts parentheses until one more has been closed than opened. */
  method CountParens(s: string, open: char, close: char) returns (m: Option<nat>)
    requires open != close
    ensures m == Closing(s, open, close, 0)
  {
    hide Closing;
    var p, count := 0, 0;
    assert s[0..] == s;
    while p < |s|
      invariant p <= |s| && count >= 0
      invariant Closing(s, open, close, 0) == Shifted(Closing(s[p..], open, close, count), p)
    {
      ClosingStep(s, p, open, close, count);
      if s[p] == open {
        count := count + 1;
      } else if s[p] == close {
        count := count - 1;
        if count < 0 {
          return Some(p);
        }
      }
      p := p + 1;
    }
    ClosingEnd(s, open, close, count);
    return None;
  }

  lemma ClosingStep(s: string, p: nat, open: char, close: char, count: nat)
    requires open != close && p < |s|
    ensures var c := count + Sign(s[p], open, close);
            Closing(s[p..], open, close, count) == if c < 0 then Some(0) else Shifted(Closing(s[p + 1..], open, close, c), 1)
  {
    assert s[p..][1..] == s[p + 1..];
  }

  lemma ClosingEnd(s: string, open: char, close: char, count: nat)
    ensures Closing(s[|s|..], open, close, count) == None
  {
  }

  function Shifted(m: Option<nat>, n: nat): Option<nat> {
    match m
    case None => None
    case Some(k) => Some(k + n)
  }

  // -------------------------------------------------------------------------
  // Progress through a template
  // -------------------------------------------------------------------------

  /** After the part that came out as `r`, the rest of `t` is `rest`. */
  predicate Continues(vars: Variables, expanding: set<string>, t: Template, r: Outcome, rest: Template) {
    Guarded(vars, expanding, t) == if r.Ok? then Then(r.text, Guarded(vars, expanding, rest)) else r
  }

  lemma ContinuesOn(vars: Variables, expanding: set<string>, t: Template, a: string, u: Template, r: Outcome, v: Template)
    requires Continues(vars, expanding, t, Ok(a), u) && Continues(vars, expanding, u, r, v)
    ensures Continues(vars, expanding, t, Then(a, r), v)
  {
    hide Guarded;
    var last := Guarded(vars, expanding, v);
    if r.Ok? && last.Ok? { assert a + (r.text + last.text) == (a + r.text) + last.text; }
  }

  lemma NothingExpanded(vars: Variables, expanding: set<string>, t: Template)
    ensures Continues(vars, expanding, t, Ok(""), t)
  {
    hide Guarded;
    var r := Guarded(vars, expanding, t);
    if r.Ok? { assert "" + r.text == r.text; }
  }

  lemma AllDone(vars: Variables, expanding: set<string>, t: Template, r: Outcome)
    requires Continues(vars, expanding, t, r, End)
    ensures Guarded(vars, expanding, t) == r
  {
    if r.Ok? { assert r.text + "" == r.text; }
  }

  lemma PlainDone(vars: Variables, expanding: set<string>, s: string, rest: Template)
    ensures Continues(vars, expanding, Plain(s, rest), Ok(s), rest)
  {
  }

  lemma ReferenceDone(vars: Variables, expanding: set<string>, name: string, rest: Template)
    ensures Continues(vars, expanding, Reference(name, rest), GuardedRef(vars, expanding, TargetOf(name)), rest)
  {
  }

  lemma ComputedDone(vars: Variables, expanding: set<string>, inner: Template, rest: Template)
    ensures var n := Guarded(vars, expanding, inner);
            Continues(vars, expanding, Computed(inner, rest),
                      if n.Ok? then GuardedRef(vars, expanding, TargetOf(n.text)) else n, rest)
  {
  }

  /** The rest of a text, unless it has been given up. */
  function Remaining(s: string, p: nat, more: bool): Template
    requires p <= |s|
  {
    if more then Parse(s[p..]) else End
  }

  // -------------------------------------------------------------------------
  // The expander
  // -------------------------------------------------------------------------

  class Expander {
    const vars: Variables
    var expanding: set<string>
    var buffer: string

    constructor (vars: Variables)
      ensures this.vars == vars && expanding == {} && buffer == ""
    {
      this.vars := vars;
      expanding, buffer := {}, "";
    }

    /** `recursively_expand_for_file`: guards the variable while its value is expanded. */
    method RecursivelyExpand(v: string) returns (r: Outcome)
      requires !Flat(vars, v)
      modifies this
      ensures r == if v in old(expanding) then SelfReference(v)
                   else Guarded(vars, old(expanding) + {v}, Parse(vars[v].value))
      ensures r.Ok? ==> expanding == old(expanding) && buffer == old(buffer)
      decreases vars.Keys - expanding, 0, 0
    {
      if v in expanding {
        return SelfReference(v);
      }
      expanding := expanding + {v};
      r := AllocatedVariableExpand(vars[v].value);
      expanding := expanding - {v};
    }

    /** `allocated_variable_expand_for_file`: expands into a buffer of its own. */
    method AllocatedVariableExpand(s: string) returns (r: Outcome)
      modifies this
      ensures r == Guarded(vars, old(expanding), Parse(s))
      ensures r.Ok? ==> expanding == old(expanding) && buffer == old(buffer)
      decreases vars.Keys - expanding, 1, |s|, 4
    {
      var obuf := buffer;
      buffer := "";
      r := VariableExpandString(s);
      if r.Ok? {
        r := Ok(buffer);
      }
      buffer := obuf;
    }

    /** `reference_variable`. */
    method ReferenceVariable(name: string) returns (r: Outcome)
      modifies this
      ensures r == GuardedRef(vars, old(expanding), Whole(name))
      ensures r.Ok? ==> expanding == old(expanding) && buffer == old(buffer) + r.text
      decreases vars.Keys - expanding, 0, 1
    {
      r := Ok("");
      if name in vars && vars[name].value != "" {
        if vars[name].recursive {
          r := RecursivelyExpand(name);
        } else {
          r := Ok(vars[name].value);
        }
      }
      if r.Ok? {
        buffer := buffer + r.text;
      }
    }

    /** A reference with a pattern and a replacement. */
    method SubstitutionReference(name: string, a: string, b: string) returns (r: Outcome)
      modifies this
      ensures r == GuardedRef(vars, old(expanding), Substitution(name, a, b))
      ensures r.Ok? ==> expanding == old(expanding) && buffer == old(buffer) + r.text
      decreases vars.Keys - expanding, 0, 1
    {
      hide PatsubstText, Unquoted;
      r := Ok("");
      if name in vars && vars[name].value != "" {
        if vars[name].recursive {
          r := RecursivelyExpand(name);
        } else {
          r := Ok(vars[name].value);
        }
        if r.Ok? {
          var text := Substitute(r.text, a, b);
          r := Ok(text);
        }
      }
      if r.Ok? {
        buffer := buffer + r.text;
      }
    }

    /** A reference whose name is known: looks for a colon and an equals sign in it. */
    method Dereference(name: string) returns (r: Outcome)
      modifies this
      ensures r == GuardedRef(vars, old(expanding), TargetOf(name))
      ensures r.Ok? ==> expanding == old(expanding) && buffer == old(buffer) + r.text
      decreases vars.Keys - expanding, 0, 2
    {
      hide GuardedRef, First;
      assert name[0..] == name;
      var colon := Index(name, 0, ':');
      if colon < |name| {
        var eq := Index(name, colon + 1, '=');
        if eq < |name| {
          assert name[colon + 1..][..eq - colon - 1] == name[colon + 1..eq];
          assert name[colon + 1..][eq - colon..] == name[eq + 1..];
          r := SubstitutionReference(name[..colon], name[colon + 1..eq], name[eq + 1..]);
          return;
        }
      }
      r := ReferenceVariable(name);
    }

    /** What follows an opening parenthesis at `beg - 1`; goes on at `q` if there is more. */
    method ExpandParen(s: string, beg: nat, open: char) returns (r: Outcome, q: nat, more: bool)
      requires beg <= |s| && (open == '(' || open == '{')
      modifies this
      ensures beg <= q <= |s|
      ensures Continues(vars, old(expanding), ParseParen(s[beg..], open), r, Remaining(s, q, more))
      ensures r.Ok? ==> expanding == old(expanding) && buffer == old(buffer) + r.text
      decreases vars.Keys - expanding, 1, |s|, 1
    {
      hide Guarded, GuardedRef, First, Parse, Closing, TargetOf, Continues;
      var text := s[beg..];
      var end := Index(text, 0, CloseOf(open));
      assert text[0..] == text;
      if end == |text| {
        UnterminatedDone(vars, expanding, s);
        return Missing, |s|, false;
      }
      var dollar := Index(text[..end], 0, '$');
      assert text[..end][0..] == text[..end];
      var name := text[..end];
      if dollar == end {
        r := Dereference(name);
        q, more := beg + end + 1, true;
        assert text[end + 1..] == s[q..];
        ReferenceDone(vars, old(expanding), name, Parse(s[q..]));
      } else {
        var m := CountParens(text, open, CloseOf(open));
        if m.None? {
          r := Dereference(name);
          q, more := |s|, false;
          ReferenceDone(vars, old(expanding), name, End);
        } else {
          q, more := beg + m.value + 1, true;
          assert text[m.value + 1..] == s[q..];
          ComputedDone(vars, expanding, Parse(text[..m.value]), Parse(s[q..]));
          r := AllocatedVariableExpand(text[..m.value]);
          if r.Ok? {
            r := Dereference(r.text);
          }
        }
      }
    }

    /** What follows a dollar sign at `p - 1`. */
    method ExpandDollar(s: string, p: nat) returns (r: Outcome, q: nat, more: bool)
      requires p <= |s|
      modifies this
      ensures p <= q <= |s|
      ensures Continues(vars, old(expanding), ParseDollar(s[p..]), r, Remaining(s, q, more))
      ensures r.Ok? ==> expanding == old(expanding) && buffer == old(buffer) + r.text
      decreases vars.Keys - expanding, 1, |s|, 2
    {
      hide Guarded, GuardedRef, First, Parse, ParseParen, TargetOf, Continues;
      if p == |s| {
        NothingExpanded(vars, expanding, End);
        return Ok(""), p, false;
      }
      assert s[p..][1..] == s[p + 1..] && s[p..][0] == s[p];
      if s[p] == '$' {
        buffer := buffer + "$";
        PlainDone(vars, expanding, "$", Parse(s[p + 1..]));
        r, q, more := Ok("$"), p + 1, true;
      } else if s[p] == '(' || s[p] == '{' {
        r, q, more := ExpandParen(s, p + 1, s[p]);
      } else {
        r := ReferenceVariable([s[p]]);
        q, more := p + 1, true;
        ReferenceDone(vars, old(expanding), [s[p]], Parse(s[p + 1..]));
        OneCharacter(s[p]);
      }
    }

    /**
     `variable_expand_string`: appends the expansion of `s` to the buffer, or reports why there is none.
     Every guard that is set on the way is taken off again.
     */
    method VariableExpandString(s: string) returns (r: Outcome)
      modifies this
      ensures r == Guarded(vars, old(expanding), Parse(s))
      ensures r.Ok? ==> expanding == old(expanding) && buffer == old(buffer) + r.text
      decreases vars.Keys - expanding, 1, |s|, 3
    {
      hide Guarded, GuardedRef, First, Parse, ParseDollar, Continues;
      ghost var e0 := expanding;
      var p, more := 0, true;
      r := Ok("");
      assert s[0..] == s;
      NothingExpanded(vars, expanding, Parse(s));
      while more
        invariant p <= |s|
        invariant r.Ok? ==> expanding == e0 && buffer == old(buffer) + r.text
        invariant Continues(vars, e0, Parse(s), r, Remaining(s, p, more))
        invariant more ==> r.Ok?
        decreases more, |s| - p
      {
        var i := Index(s, p, '$');
        ghost var a, u := r.text, Parse(s[p..]);
        ghost var before := old(buffer);
        assert (before + r.text) + s[p..i] == before + (r.text + s[p..i]);
        buffer := buffer + s[p..i];
        ParseAt(s, p, i);
        ghost var rest := if i == |s| then End else ParseDollar(s[i + 1..]);
        PlainDone(vars, e0, s[p..i], rest);
        ContinuesOn(vars, e0, Parse(s), a, u, Ok(s[p..i]), rest);
        r := Ok(r.text + s[p..i]);
        if i == |s| {
          p, more := i, false;
        } else {
          ghost var b := r.text;
          var d;
          d, p, more := ExpandDollar(s, i + 1);
          if !d.Ok? {
            FailedAnyhow(vars, e0, rest, d, Remaining(s, p, more), End);
          }
          ContinuesOn(vars, e0, Parse(s), b, rest, d, Remaining(s, p, more && d.Ok?));
          assert d.Ok? ==> (before + b) + d.text == before + (b + d.text);
          r := Then(r.text, d);
          more := more && d.Ok?;
        }
      }
      AllDone(vars, e0, Parse(s), r);
    }
  }

  lemma FailedAnyhow(vars: Variables, expanding: set<string>, t: Template, r: Outcome, u: Template, v: Template)
    requires Continues(vars, expanding, t, r, u) && !r.Ok?
    ensures Continues(vars, expanding, t, r, v)
  {
  }

  lemma UnterminatedDone(vars: Variables, expanding: set<string>, s: string)
    ensures Continues(vars, expanding, Unterminated, Missing, Remaining(s, |s|, false))
  {
  }

  lemma OneCharacter(c: char)
    ensures TargetOf([c]) == Whole([c])
  {
  }

  lemma ParseAt(s: string, p: nat, i: nat)
    requires p <= |s| && i == p + First(s[p..], '$') && i <= |s|
    ensures Parse(s[p..]) == Plain(s[p..i], if i == |s| then End else ParseDollar(s[i + 1..]))
  {
    assert s[p..][..i - p] == s[p..i];
    assert i < |s| ==> s[p..][i - p + 1..] == s[i + 1..];
  }

  /** The substitution of a reference: the pattern stands for a suffix if it has no percent sign. */
  method Substitute(value: string, a: string, b: string) returns (text: string)
    ensures text == Transform(Substitution("", a, b), value)
  {
    hide PatsubstText, Unquoted;
    UnquotedInRange(a);
    UnquotedInRange(b);
    var pattern, percent := FindPercent(a);
    if percent.Some? {
      var k := percent.value;
      var replace, at := FindPercent(b);
      text := PatsubstPercent("", value, pattern[..k], pattern[k + 1..], AsPattern(Scan(replace, at)));
    } else {
      text := PatsubstPercent("", value, "", pattern, Percent("", b));
    }
    EmptyPrefix(text);
  }

  lemma EmptyPrefix(s: string)
    ensures "" + s == s
  {
  }
}
