/** `filter` and `filter-out` of GNU make (`func_filter_filterout` in `function.c`). */
module MakeFilter {
  import opened Wrappers
  import opened MakeText
  import opened MakePattern

  /**
   When a pattern of the list selects a word. The length of a pattern is taken before its quoting
   backslashes are removed, and a pattern without percent sign has to have the length of the word.
   */
  predicate Selects(pat: string, w: string) {
    match PatternOf(pat)
    case Percent(_, _) => Matches(PatternOf(pat), w)
    case Literal(t) => w == t && |w| == |pat|
  }

  predicate AnySelects(pats: seq<string>, w: string) {
    exists i :: 0 <= i < |pats| && Selects(pats[i], w)
  }

  /** The words, in order, that some pattern selects, or that none does. */
  function Chosen(ws: seq<string>, pats: seq<string>, keep: bool): seq<string> {
    if ws == [] then []
    else
      var w := ws[|ws| - 1];
      Chosen(ws[..|ws| - 1], pats, keep) + if AnySelects(pats, w) == keep then [w] else []
  }

  // -------------------------------------------------------------------------
  // What the functions promise
  // -------------------------------------------------------------------------

  /** `filter` and `filter-out` share the words out between them, each as often as it occurs. */
  lemma {:induction false} Partition(ws: seq<string>, pats: seq<string>)
    ensures multiset(Chosen(ws, pats, true)) + multiset(Chosen(ws, pats, false)) == multiset(ws)
  {
    hide AnySelects;
    if ws != [] {
      var front, w := ws[..|ws| - 1], ws[|ws| - 1];
      Partition(front, pats);
      var a, b := Chosen(front, pats, true), Chosen(front, pats, false);
      assert multiset(ws) == multiset(front + [w]) == multiset(a) + multiset(b) + multiset{w} by { assert ws == front + [w]; }
      if AnySelects(pats, w) {
        assert Chosen(ws, pats, true) == a + [w] && Chosen(ws, pats, false) == b + [];
        assert b + [] == b;
      } else {
        assert Chosen(ws, pats, true) == a + [] && Chosen(ws, pats, false) == b + [w];
        assert a + [] == a;
      }
    }
  }

  lemma {:induction false} ChosenExactly(ws: seq<string>, pats: seq<string>, keep: bool, w: string)
    ensures w in Chosen(ws, pats, keep) <==> w in ws && AnySelects(pats, w) == keep
  {
    if ws != [] {
      ChosenExactly(ws[..|ws| - 1], pats, keep, w);
      assert ws == ws[..|ws| - 1] + [ws[|ws| - 1]];
    }
  }

  /** Words are chosen one by one, and keep their order. */
  lemma {:induction false} ChosenInOrder(a: seq<string>, b: seq<string>, pats: seq<string>, keep: bool)
    ensures Chosen(a + b, pats, keep) == Chosen(a, pats, keep) + Chosen(b, pats, keep)
    decreases |b|
  {
    hide AnySelects;
    if b == [] {
      assert a + b == a;
    } else {
      ChosenInOrder(a, b[..|b| - 1], pats, keep);
      assert (a + b)[..|a + b| - 1] == a + b[..|b| - 1];
    }
  }

  /** The words of the result are the chosen words, for any text. */
  lemma FilteredWords(text: string, pats: seq<string>, keep: bool)
    ensures var chosen := Chosen(Words(text), pats, keep); Words(Joined(chosen)) == chosen
  {
    hide Words, Joined;
    var chosen := Chosen(Words(text), pats, keep);
    forall i | 0 <= i < |chosen| ensures chosen[i] != "" && BlankFree(chosen[i]) {
      ChosenExactly(Words(text), pats, keep, chosen[i]);
      WordsAreWords(text, chosen[i]);
    }
    WordsOfJoined(chosen);
  }

  /**
   A pattern selects what it matches, for all words, if and only if it has a percent sign or nothing in it
   was quoted; a literal with a quoted percent sign selects nothing at all.
   */
  lemma QuotedLiteralSelectsNothing(pat: string)
    ensures (forall w :: Selects(pat, w) <==> Matches(PatternOf(pat), w))
            <==> PatternOf(pat).Percent? || |Unquoted(pat).text| == |pat|
    ensures PatternOf(pat).Literal? && |Unquoted(pat).text| != |pat| ==> forall w :: !Selects(pat, w)
  {
    if PatternOf(pat).Literal? && |Unquoted(pat).text| != |pat| {
      assert Matches(PatternOf(pat), Unquoted(pat).text) && !Selects(pat, Unquoted(pat).text);
    }
  }

  // -------------------------------------------------------------------------
  // The lists
  // -------------------------------------------------------------------------

  /** A pattern as the function keeps it. */
  datatype PatternEntry = PatternEntry(text: string, percent: Option<nat>, length: nat)

  predicate EntryOf(e: PatternEntry, pat: string) {
    Scan(e.text, e.percent) == Unquoted(pat) && e.length == |pat|
  }

  method Tokens(text: string) returns (ws: seq<string>)
    ensures ws == Words(text)
  {
    hide Words;
    ws := [];
    var i := 0;
    assert text[0..] == text;
    while true
      invariant i <= |text| && ws + Words(text[i..]) == Words(text)
      decreases |text| - i
    {
      var b := NextToken(text, i);
      SkipBlanks(text, i, b);
      if b == |text| {
        assert text[b..] == "";
        WordsOfBlankFree("");
        return;
      }
      var e := EndOfToken(text, b);
      FirstWord(text, b, e);
      ws := ws + [text[b..e]];
      i := e;
    }
  }

  method Entries(pats: seq<string>) returns (es: seq<PatternEntry>, literals: nat)
    ensures |es| == |pats| && forall k :: 0 <= k < |pats| ==> EntryOf(es[k], pats[k])
  {
    es, literals := [], 0;
    for k := 0 to |pats|
      invariant |es| == k && forall j :: 0 <= j < k ==> EntryOf(es[j], pats[j])
    {
      var t, percent := FindPercent(pats[k]);
      es := es + [PatternEntry(t, percent, |pats[k]|)];
      if percent.None? {
        literals := literals + 1;
      }
    }
  }

  // -------------------------------------------------------------------------
  // The chained hash table
  // -------------------------------------------------------------------------

  /** The table holds the last place of each word; each place is chained to the one before. */
  ghost predicate Chained(ws: seq<string>, n: nat, table: map<string, nat>, chain: seq<Option<nat>>)
    requires n <= |ws|
  {
    && |chain| == n
    && (forall w :: w in table ==> table[w] < n && ws[table[w]] == w)
    && (forall i :: 0 <= i < n ==> ws[i] in table && i <= table[ws[i]])
    && forall i :: 0 <= i < n ==> Linked(ws, chain, i)
  }

  ghost predicate Linked(ws: seq<string>, chain: seq<Option<nat>>, i: nat)
    requires i < |chain| <= |ws|
  {
    match chain[i]
    case None => forall j :: 0 <= j < i ==> ws[j] != ws[i]
    case Some(k) => k < i && ws[k] == ws[i] && forall j :: k < j < i ==> ws[j] != ws[i]
  }

  method BuildTable(ws: seq<string>) returns (table: map<string, nat>, chain: seq<Option<nat>>)
    ensures Chained(ws, |ws|, table, chain)
  {
    table, chain := map[], [];
    for i := 0 to |ws|
      invariant Chained(ws, i, table, chain)
    {
      var w := ws[i];
      ghost var before := chain;
      chain := chain + [if w in table then Some(table[w]) else None];
      table := table[w := i];
      assert forall j :: 0 <= j < i ==> Linked(ws, before, j) && chain[j] == before[j];
    }
  }

  /** Marks every place of a word, following the chain from its last place. */
  method MarkChain(ws: seq<string>, table: map<string, nat>, chain: seq<Option<nat>>, e: PatternEntry, matched: array<bool>)
    requires Chained(ws, |ws|, table, chain) && matched.Length == |ws|
    modifies matched
    ensures forall i :: 0 <= i < |ws| ==> matched[i] == (old(matched[i]) || (ws[i] == e.text && |ws[i]| == e.length))
  {
    if e.text in table && |e.text| == e.length {
      var at: Option<nat> := Some(table[e.text]);
      while at.Some?
        invariant at.Some? ==> at.value < |ws| && ws[at.value] == e.text
        invariant forall i :: 0 <= i < |ws| ==>
          matched[i] == (old(matched[i]) || (ws[i] == e.text && (at.None? || at.value < i)))
        decreases if at.Some? then at.value + 1 else 0
      {
        var k := at.value;
        assert Linked(ws, chain, k);
        matched[k] := true;
        at := chain[k];
      }
    }
  }

  /** Runs one pattern through all words. */
  method MarkScan(ws: seq<string>, e: PatternEntry, matched: array<bool>)
    requires matched.Length == |ws|
    requires e.percent.Some? ==> e.percent.value < |e.text|
    modifies matched
    ensures forall i :: 0 <= i < |ws| ==> matched[i] == (old(matched[i]) || EntrySelects(e, ws[i]))
  {
    for k := 0 to |ws|
      invariant forall i :: 0 <= i < |ws| ==> matched[i] == (old(matched[i]) || (i < k && EntrySelects(e, ws[i])))
    {
      if e.percent.Some? {
        var pre, post := e.text[..e.percent.value], e.text[e.percent.value + 1..];
        TestsAgree(ws[k], pre, post);
        matched[k] := matched[k] || PatternMatches(ws[k], pre, post);
      } else {
        matched[k] := matched[k] || (|ws[k]| == e.length && ws[k] == e.text);
      }
    }
  }

  predicate EntrySelects(e: PatternEntry, w: string)
    requires e.percent.Some? ==> e.percent.value < |e.text|
  {
    match e.percent
    case Some(p) => Matches(Percent(e.text[..p], e.text[p + 1..]), w)
    case None => w == e.text && |w| == e.length
  }

  lemma EntryMeaning(e: PatternEntry, pat: string, w: string)
    requires EntryOf(e, pat)
    ensures e.percent.Some? ==> e.percent.value < |e.text|
    ensures EntrySelects(e, w) <==> Selects(pat, w)
  {
    UnquotedInRange(pat);
  }

  /** Marks the words that some pattern selects, with or without the table. */
  method MarkWords(ws: seq<string>, pats: seq<string>, matched: array<bool>)
    requires matched.Length == |ws| && forall i :: 0 <= i < |ws| ==> !matched[i]
    modifies matched
    ensures forall i :: 0 <= i < |ws| ==> matched[i] == AnySelects(pats, ws[i])
  {
    hide Selects, EntryOf, Chained, EntrySelects;
    var es, literals := Entries(pats);
    var hashing := literals >= 2 && literals * |ws| >= 10;
    var table, chain := map[], [];
    if hashing {
      table, chain := BuildTable(ws);
    }
    for k := 0 to |pats|
      invariant forall i :: 0 <= i < |ws| ==> matched[i] == AnySelects(pats[..k], ws[i])
    {
      var e := es[k];
      forall w ensures (e.percent.Some? ==> e.percent.value < |e.text|) && (EntrySelects(e, w) <==> Selects(pats[k], w)) {
        EntryMeaning(e, pats[k], w);
      }
      ghost var before := matched[..];
      EntryMeaning(e, pats[k], "");
      if e.percent.None? && hashing {
        MarkChain(ws, table, chain, e, matched);
        LiteralSelects(e);
      } else {
        MarkScan(ws, e, matched);
      }
      forall w ensures AnySelects(pats[..k + 1], w) <==> AnySelects(pats[..k], w) || Selects(pats[k], w) {
        OnePatternMore(pats, k, w);
      }
      assert forall i :: 0 <= i < |ws| ==> matched[i] == (before[i] || Selects(pats[k], ws[i]));
    }
    assert pats[..|pats|] == pats;
  }

  lemma LiteralSelects(e: PatternEntry)
    requires e.percent.None?
    ensures forall w :: EntrySelects(e, w) <==> w == e.text && |w| == e.length
  {
  }

  lemma OnePatternMore(pats: seq<string>, k: nat, w: string)
    requires k < |pats|
    ensures AnySelects(pats[..k + 1], w) <==> AnySelects(pats[..k], w) || Selects(pats[k], w)
  {
    assert pats[..k + 1] == pats[..k] + [pats[k]];
    if Selects(pats[k], w) {
      assert pats[..k + 1][k] == pats[k];
    }
    if AnySelects(pats[..k], w) {
      var i :| 0 <= i < k && Selects(pats[..k][i], w);
      assert pats[..k + 1][i] == pats[..k][i];
    }
  }

  /** `filter` (`keep`) and `filter-out`: the chosen words, in order, with single spaces between them. */
  method FilterFilterout(o: string, pats: string, text: string, keep: bool) returns (r: string)
    ensures r == o + Joined(Chosen(Words(text), Words(pats), keep))
  {
    hide AnySelects, Words, Chosen, Spaced, Joined;
    var patterns := Tokens(pats);
    var ws := Tokens(text);
    var matched := new bool[|ws|](i => false);
    MarkWords(ws, patterns, matched);
    var out := "";
    var doneany := false;
    NoWordsChosen(ws, patterns, keep);
    assert Spaced("", []) by { NothingSpaced(); }
    for k := 0 to |ws|
      invariant forall i :: 0 <= i < |ws| ==> matched[i] == AnySelects(patterns, ws[i])
      invariant doneany <==> Chosen(ws[..k], patterns, keep) != []
      invariant Spaced(out, Chosen(ws[..k], patterns, keep))
    {
      OneWordMore(ws, patterns, keep, k);
      if matched[k] == keep {
        SpacedOne(out, Chosen(ws[..k], patterns, keep), ws[k]);
        out := out + ws[k];
        out := out + " ";
        doneany := true;
      }
    }
    assert ws[..|ws|] == ws;
    SpacedJoined(out, Chosen(ws, patterns, keep));
    if doneany {
      out := out[..|out| - 1];
    }
    r := o + out;
  }

  lemma NoWordsChosen(ws: seq<string>, pats: seq<string>, keep: bool)
    ensures Chosen(ws[..0], pats, keep) == []
  {
  }

  lemma OneWordMore(ws: seq<string>, pats: seq<string>, keep: bool, k: nat)
    requires k < |ws|
    ensures Chosen(ws[..k + 1], pats, keep)
            == if AnySelects(pats, ws[k]) == keep then Chosen(ws[..k], pats, keep) + [ws[k]] else Chosen(ws[..k], pats, keep)
  {
    assert ws[..k + 1][..k] == ws[..k];
  }

  /** The words, each with a space behind it. */
  predicate Spaced(out: string, ws: seq<string>) {
    out == if ws == [] then "" else Joined(ws) + " "
  }

  lemma NothingSpaced()
    ensures Spaced("", [])
  {
  }

  lemma SpacedOne(out: string, ws: seq<string>, w: string)
    requires Spaced(out, ws)
    ensures Spaced(out + w + " ", ws + [w])
  {
    assert (ws + [w])[..|ws|] == ws;
    assert out + w == Joined(ws + [w]);
  }

  lemma SpacedJoined(out: string, ws: seq<string>)
    requires Spaced(out, ws)
    ensures ws == [] ==> out == Joined(ws)
    ensures ws != [] ==> |out| > 0 && out[..|out| - 1] == Joined(ws)
  {
  }
}
