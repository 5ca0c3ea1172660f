/** Substitution of whole words in GNU make (`subst_expand` in `function.c`). */
module MakeSubst {
  import opened Wrappers
  import opened MakeText

  predicate OccursAt(text: string, subst: string, p: nat) {
    p + |subst| <= |text| && text[p..p + |subst|] == subst
  }

  /** `strstr`: the first occurrence at or after `t`. */
  method StrStr(text: string, subst: string, t: nat) returns (r: Option<nat>)
    requires t <= |text|
    ensures r.Some? ==> t <= r.value && OccursAt(text, subst, r.value) && forall k :: t <= k < r.value ==> !OccursAt(text, subst, k)
    ensures r.None? ==> forall k :: t <= k <= |text| ==> !OccursAt(text, subst, k)
  {
    var p := t;
    while p <= |text|
      invariant t <= p && forall k :: t <= k < p ==> !OccursAt(text, subst, k)
    {
      if OccursAt(text, subst, p) {
        return Some(p);
      }
      p := p + 1;
    }
    r := None;
  }

  // -------------------------------------------------------------------------
  // Substitution of whole words
  // -------------------------------------------------------------------------

  /** Replaces each word that is `subst` and keeps everything else, blanks included. */
  function MapWords(text: string, subst: string, replace: string): string
    decreases |text|
  {
    if text == "" then ""
    else if Blank(text[0]) then [text[0]] + MapWords(text[1..], subst, replace)
    else
      var n := TokenLength(text);
      (if text[..n] == subst then replace else text[..n]) + MapWords(text[n..], subst, replace)
  }

  /** Position `t` is inside or just after a word that began before it. */
  predicate InsideWord(text: string, t: nat)
    requires t <= |text|
  {
    t > 0 && !Blank(text[t - 1])
  }

  /** What is left to write at position `t`: the rest of a word begun earlier stays as it is. */
  function Remaining(text: string, t: nat, subst: string, replace: string): string
    requires t <= |text|
  {
    if InsideWord(text, t) then
      var e := t + TokenLength(text[t..]);
      text[t..e] + MapWords(text[e..], subst, replace)
    else MapWords(text[t..], subst, replace)
  }

  /** A word that is `subst` starts at `t`. */
  predicate WordAt(text: string, t: nat, subst: string)
    requires t <= |text|
  {
    !InsideWord(text, t) && OccursAt(text, subst, t) && (t + |subst| < |text| ==> Blank(text[t + |subst|]))
  }

  lemma MapFirstWord(s: string, n: nat, subst: string, replace: string)
    requires s != "" && !Blank(s[0]) && n == TokenLength(s)
    ensures 0 < n <= |s|
    ensures MapWords(s, subst, replace) == (if s[..n] == subst then replace else s[..n]) + MapWords(s[n..], subst, replace)
  {
    hide TokenLength;
  }

  /** What is left at the start of, or inside, a word. */
  lemma RemainingWord(text: string, t: nat, n: nat, subst: string, replace: string)
    requires t < |text| && !Blank(text[t]) && n == TokenLength(text[t..])
    ensures 0 < n && t + n <= |text|
    ensures Remaining(text, t, subst, replace)
            == (if !InsideWord(text, t) && text[t..t + n] == subst then replace else text[t..t + n]) + MapWords(text[t + n..], subst, replace)
  {
    hide TokenLength, MapWords;
    MapFirstWord(text[t..], n, subst, replace);
    assert text[t..][..n] == text[t..t + n] && text[t..][n..] == text[t + n..];
  }

  lemma RemainingBlank(text: string, t: nat, subst: string, replace: string)
    requires t < |text| && Blank(text[t])
    ensures Remaining(text, t, subst, replace) == [text[t]] + MapWords(text[t + 1..], subst, replace)
  {
    assert text[t..][1..] == text[t + 1..];
    assert text[t..t] == "";
  }

  lemma TokenShorter(text: string, t: nat)
    requires t < |text| && !Blank(text[t])
    ensures TokenLength(text[t + 1..]) == TokenLength(text[t..]) - 1
  {
    assert text[t..][1..] == text[t + 1..];
  }

  lemma RemainingInside(text: string, t: nat, subst: string, replace: string)
    requires t <= |text| && InsideWord(text, t)
    ensures var e := t + TokenLength(text[t..]);
            e <= |text| && Remaining(text, t, subst, replace) == text[t..e] + MapWords(text[e..], subst, replace)
  {
    hide MapWords, TokenLength;
  }

  lemma RemainingOutside(text: string, t: nat, subst: string, replace: string)
    requires t <= |text| && !InsideWord(text, t)
    ensures Remaining(text, t, subst, replace) == MapWords(text[t..], subst, replace)
  {
  }

  lemma StepPast(text: string, t: nat, subst: string, replace: string)
    requires t < |text| && subst != "" && !WordAt(text, t, subst)
    ensures Remaining(text, t, subst, replace) == [text[t]] + Remaining(text, t + 1, subst, replace)
  {
    hide Remaining, MapWords;
    if Blank(text[t]) {
      RemainingBlank(text, t, subst, replace);
      RemainingOutside(text, t + 1, subst, replace);
    } else {
      StepInside(text, t, subst, replace);
    }
  }

  lemma NotTheWord(text: string, t: nat, n: nat, subst: string)
    requires t < |text| && subst != "" && !WordAt(text, t, subst) && n == TokenLength(text[t..])
    ensures t + n <= |text| && (InsideWord(text, t) || text[t..t + n] != subst)
  {
    hide TokenLength;
    assert t + n < |text| ==> text[t..][n] == text[t + n];
  }

  lemma StepInside(text: string, t: nat, subst: string, replace: string)
    requires t < |text| && subst != "" && !WordAt(text, t, subst) && !Blank(text[t])
    ensures Remaining(text, t, subst, replace) == [text[t]] + Remaining(text, t + 1, subst, replace)
  {
    hide Remaining, MapWords, TokenLength, WordAt;
    var n := TokenLength(text[t..]);
    NotTheWord(text, t, n, subst);
    RemainingWord(text, t, n, subst, replace);
    RemainingInside(text, t + 1, subst, replace);
    TokenShorter(text, t);
    OneOff(text, t, n, MapWords(text[t + n..], subst, replace));
  }

  lemma OneOff(text: string, t: nat, n: nat, rest: string)
    requires 0 < n && t + n <= |text|
    ensures text[t..t + n] + rest == [text[t]] + (text[t + 1..t + n] + rest)
  {
    assert text[t..t + n] == [text[t]] + text[t + 1..t + n];
  }

  lemma {:induction false} StepPastAll(text: string, t: nat, p: nat, subst: string, replace: string)
    requires t <= p <= |text| && subst != "" && forall k :: t <= k < p ==> !WordAt(text, k, subst)
    ensures Remaining(text, t, subst, replace) == text[t..p] + Remaining(text, p, subst, replace)
    decreases p - t
  {
    hide Remaining, WordAt;
    if t < p {
      StepPast(text, t, subst, replace);
      StepPastAll(text, t + 1, p, subst, replace);
      assert text[t..p] == [text[t]] + text[t + 1..p];
    } else {
      assert text[t..p] == "";
    }
  }

  lemma ReplaceWord(text: string, p: nat, subst: string, replace: string)
    requires p <= |text| && subst != "" && BlankFree(subst) && WordAt(text, p, subst)
    ensures Remaining(text, p, subst, replace) == replace + Remaining(text, p + |subst|, subst, replace)
  {
    hide Remaining, MapWords, TokenLength;
    var q := p + |subst|;
    assert text[p..q] == subst && text[p..][..|subst|] == subst;
    TokenLengthIs(text[p..], |subst|);
    assert text[p] == subst[0] && text[q - 1] == subst[|subst| - 1];
    RemainingWord(text, p, |subst|, subst, replace);
    TokenLengthIs(text[q..], 0);
    RemainingInside(text, q, subst, replace);
    assert text[q..q] == "";
  }

  /** Inside an occurrence of a word without blanks, no other word starts. */
  lemma StruckOut(text: string, p: nat, subst: string, replace: string)
    requires subst != "" && BlankFree(subst) && OccursAt(text, subst, p) && !WordAt(text, p, subst)
    ensures Remaining(text, p, subst, replace) == subst + Remaining(text, p + |subst|, subst, replace)
  {
    hide Remaining;
    forall k | p < k < p + |subst|
      ensures !WordAt(text, k, subst)
    {
      assert text[k - 1] == text[p..p + |subst|][k - 1 - p];
    }
    StepPastAll(text, p, p + |subst|, subst, replace);
  }

  // -------------------------------------------------------------------------
  // Scanning for any text
  // -------------------------------------------------------------------------

  /** What stands at `p..p + n` has blanks or the ends of the text around it. */
  predicate Delimited(text: string, p: nat, n: nat)
    requires p + n <= |text|
  {
    (p > 0 ==> Blank(text[p - 1])) && (p + n < |text| ==> Blank(text[p + n]))
  }

  /**
   The occurrences of `subst` from the left, without overlap, each replaced; by words, only those with blanks
   or the ends of the text around them.
   */
  function Scanned(text: string, t: nat, subst: string, replace: string, byWord: bool): string
    requires t <= |text| && subst != ""
    decreases |text| - t
  {
    if t == |text| then ""
    else if OccursAt(text, subst, t) then
      (if byWord && !Delimited(text, t, |subst|) then subst else replace) + Scanned(text, t + |subst|, subst, replace, byWord)
    else [text[t]] + Scanned(text, t + 1, subst, replace, byWord)
  }

  lemma ScanOne(text: string, t: nat, subst: string, replace: string, byWord: bool)
    requires t < |text| && subst != "" && !OccursAt(text, subst, t)
    ensures Scanned(text, t, subst, replace, byWord) == [text[t]] + Scanned(text, t + 1, subst, replace, byWord)
  {
  }

  lemma {:induction false} ScanSkips(text: string, t: nat, p: nat, subst: string, replace: string, byWord: bool)
    requires t <= p <= |text| && subst != "" && forall k :: t <= k < p ==> !OccursAt(text, subst, k)
    ensures Scanned(text, t, subst, replace, byWord) == text[t..p] + Scanned(text, p, subst, replace, byWord)
    decreases p - t
  {
    hide OccursAt, Scanned;
    if t < p {
      ScanOne(text, t, subst, replace, byWord);
      ScanSkips(text, t + 1, p, subst, replace, byWord);
      assert text[t..p] == [text[t]] + text[t + 1..p];
    } else {
      assert text[t..p] == "";
    }
  }

  /** For a `subst` without blanks, scanning by words replaces the words that are equal to it and nothing else. */
  lemma {:induction false} ScannedByWord(text: string, t: nat, subst: string, replace: string)
    requires t <= |text| && subst != "" && BlankFree(subst)
    ensures Scanned(text, t, subst, replace, true) == Remaining(text, t, subst, replace)
    decreases |text| - t
  {
    hide Remaining;
    if t == |text| {
      NothingRemains(text, subst, replace);
    } else if OccursAt(text, subst, t) {
      ScannedByWord(text, t + |subst|, subst, replace);
      if Delimited(text, t, |subst|) {
        ReplaceWord(text, t, subst, replace);
      } else {
        StruckOut(text, t, subst, replace);
      }
    } else {
      ScannedByWord(text, t + 1, subst, replace);
      StepPast(text, t, subst, replace);
    }
  }

  /** Replacing a text by itself changes nothing. */
  lemma {:induction false} ScannedIdentity(text: string, t: nat, subst: string, byWord: bool)
    requires t <= |text| && subst != ""
    ensures Scanned(text, t, subst, subst, byWord) == text[t..]
    decreases |text| - t
  {
    if t < |text| {
      hide Scanned, OccursAt;
      if OccursAt(text, subst, t) {
        ScanTakes(text, t, subst, subst, byWord);
        ScannedIdentity(text, t + |subst|, subst, byWord);
        OccursFirst(text, subst, t);
      } else {
        ScanOne(text, t, subst, subst, byWord);
        ScannedIdentity(text, t + 1, subst, byWord);
        assert text[t..] == [text[t]] + text[t + 1..];
      }
    }
  }

  lemma OccursFirst(text: string, subst: string, t: nat)
    requires OccursAt(text, subst, t)
    ensures t + |subst| <= |text| && text[t..] == subst + text[t + |subst|..]
  {
    assert text[t..] == text[t..t + |subst|] + text[t + |subst|..];
  }

  /** `subst_expand` with a `subst` that is not empty. */
  method SubstNonEmpty(o: string, text: string, subst: string, replace: string, byWord: bool) returns (r: string)
    requires subst != ""
    ensures r == o + Scanned(text, 0, subst, replace, byWord)
  {
    hide Scanned, OccursAt;
    r := o;
    var t := 0;
    while true
      invariant t <= |text| && r + Scanned(text, t, subst, replace, byWord) == o + Scanned(text, 0, subst, replace, byWord)
      decreases |text| - t
    {
      var found := StrStr(text, subst, t);
      if found.None? {
        ScanSkips(text, t, |text|, subst, replace, byWord);
        NothingScanned(text, subst, replace, byWord);
        return r + text[t..];
      }
      var p := found.value;
      ScanSkips(text, t, p, subst, replace, byWord);
      ScanTakes(text, p, subst, replace, byWord);
      var put := replace;
      if byWord && ((p > 0 && !Blank(text[p - 1])) || (p + |subst| < |text| && !Blank(text[p + |subst|]))) {
        put := subst;
      }
      Regroup(r, text[t..p], put, Scanned(text, p + |subst|, subst, replace, byWord));
      r := r + text[t..p] + put;
      t := p + |subst|;
    }
  }

  lemma NothingScanned(text: string, subst: string, replace: string, byWord: bool)
    requires subst != ""
    ensures Scanned(text, |text|, subst, replace, byWord) == "" && forall t :: 0 <= t <= |text| ==> text[t..|text|] + "" == text[t..]
  {
  }

  lemma ScanTakes(text: string, p: nat, subst: string, replace: string, byWord: bool)
    requires subst != "" && OccursAt(text, subst, p)
    ensures p + |subst| <= |text|
    ensures Scanned(text, p, subst, replace, byWord)
            == (if byWord && !Delimited(text, p, |subst|) then subst else replace) + Scanned(text, p + |subst|, subst, replace, byWord)
  {
  }

  lemma Regroup(a: string, b: string, c: string, d: string)
    ensures (a + b + c) + d == a + (b + (c + d))
  {
  }

  lemma StartAtZero(text: string, subst: string, replace: string)
    ensures Remaining(text, 0, subst, replace) == MapWords(text, subst, replace)
  {
    assert text[0..] == text;
  }

  lemma NothingRemains(text: string, subst: string, replace: string)
    ensures Remaining(text, |text|, subst, replace) == ""
  {
    assert text[|text|..] == "";
  }

  /**
   `subst_expand` by words with an empty `subst`: it looks at the end of each word, where the character
   before is never a blank, so nothing is replaced there; but it also looks at the end of a text that is
   empty or ends with a blank, and there it writes the replacement.
   */
  method SubstEmptyByWord(o: string, text: string, replace: string) returns (r: string)
    ensures r == o + text + if text == "" || Blank(text[|text| - 1]) then replace else ""
  {
    hide TokenLength;
    r := o;
    var t := 0;
    while true
      invariant t <= |text| && r == o + text[..t]
      invariant t > 0 ==> t < |text| && !Blank(text[t - 1])
      decreases |text| - t
    {
      var b := NextToken(text, t);
      var p := EndOfToken(text, b);
      r := r + text[t..p];
      TokenBehind(text, t, b, p, o);
      // What follows the end of a token is a blank or the end, so only the character before it counts.
      if p == 0 || Blank(text[p - 1]) {
        r := r + replace;
      }
      t := p;
      if t == |text| {
        return;
      }
    }
  }

  lemma TokenBehind(text: string, t: nat, b: nat, p: nat, o: string)
    requires t <= b <= p <= |text| && BlankFree(text[b..p]) && (forall k :: t <= k < b ==> Blank(text[k]))
    requires b < |text| ==> !Blank(text[b])
    requires p < |text| ==> Blank(text[p])
    requires t > 0 ==> !Blank(text[t - 1]) && t < |text|
    ensures o + text[..t] + text[t..p] == o + text[..p] && (p == |text| ==> text[..p] == text)
    ensures p == 0 || Blank(text[p - 1]) ==> p == |text|
    ensures p < |text| && t > 0 ==> t < p
  {
    assert text[..t] + text[t..p] == text[..p];
    assert b < p ==> text[p - 1] == text[b..p][p - 1 - b];
  }

  /** Where an empty `subst` is found: at the end of the text, unless a word is there and words are looked for. */
  function Tail(text: string, replace: string, byWord: bool): string {
    if !byWord || text == "" || Blank(text[|text| - 1]) then replace else ""
  }

  /** What `subst_expand` writes. */
  function SubstText(text: string, subst: string, replace: string, byWord: bool): string {
    if subst == "" then text + Tail(text, replace, byWord) else Scanned(text, 0, subst, replace, byWord)
  }

  /** `subst_expand`. */
  method SubstExpand(o: string, text: string, subst: string, replace: string, byWord: bool) returns (r: string)
    ensures r == o + SubstText(text, subst, replace, byWord)
  {
    hide Scanned;
    if subst == "" && !byWord {
      r := o + text + replace;
    } else if subst == "" {
      r := SubstEmptyByWord(o, text, replace);
    } else {
      r := SubstNonEmpty(o, text, subst, replace, byWord);
    }
    assert (o + text) + Tail(text, replace, byWord) == o + (text + Tail(text, replace, byWord));
  }

  // -------------------------------------------------------------------------
  // The words of the result
  // -------------------------------------------------------------------------

  /** Each word replaced if it is `subst`, dropped if that leaves nothing. */
  function ReplacedWords(ws: seq<string>, subst: string, replace: string): seq<string> {
    if ws == [] then []
    else
      var w := if ws[0] == subst then replace else ws[0];
      (if w == "" then [] else [w]) + ReplacedWords(ws[1..], subst, replace)
  }

  /** `MapWords` does to the words what its name says. */
  lemma {:induction false} MapWordsWords(text: string, subst: string, replace: string)
    requires BlankFree(replace)
    ensures Words(MapWords(text, subst, replace)) == ReplacedWords(Words(text), subst, replace)
    decreases |text|
  {
    if text == "" {
    } else if Blank(text[0]) {
      MapWordsWords(text[1..], subst, replace);
      WordsAppend([text[0]], MapWords(text[1..], subst, replace));
      assert [text[0]][1..] == "";
    } else {
      var n := TokenLength(text);
      var w := if text[..n] == subst then replace else text[..n];
      var rest := MapWords(text[n..], subst, replace);
      MapWordsWords(text[n..], subst, replace);
      StartsBlank(text[n..], subst, replace);
      WordThenBlank(w, rest);
      assert Words(text)[1..] == Words(text[n..]);
    }
  }

  lemma StartsBlank(text: string, subst: string, replace: string)
    requires text != "" ==> Blank(text[0])
    ensures var m := MapWords(text, subst, replace); m != "" ==> Blank(m[0])
  {
  }

  /** A word in front of a blank, or at the end. */
  lemma WordThenBlank(w: string, rest: string)
    requires BlankFree(w) && (rest != "" ==> Blank(rest[0]))
    ensures Words(w + rest) == (if w == "" then [] else [w]) + Words(rest)
  {
    if w == "" {
      assert w + rest == rest;
    } else {
      assert (w + rest)[..|w|] == w && (w + rest)[|w|..] == rest;
      TokenLengthIs(w + rest, |w|);
    }
  }

  /**
   Replacing the empty word does what replacing words should do if and only if there is nothing to write
   or the text ends in a word.
   */
  lemma EmptySubstExact(text: string, replace: string)
    requires BlankFree(replace)
    ensures var r := text + if text == "" || Blank(text[|text| - 1]) then replace else "";
            Words(r) == Words(text) <==> replace == "" || (text != "" && !Blank(text[|text| - 1]))
  {
    if text == "" || Blank(text[|text| - 1]) {
      WordsAppend(text, replace);
      WordsOfBlankFree(replace);
    } else {
      assert text + "" == text;
    }
  }

  // -------------------------------------------------------------------------
  // What is replaced, and what is not
  // -------------------------------------------------------------------------

  lemma OccursLater(text: string, subst: string, t: nat, k: nat)
    requires t <= |text|
    ensures OccursAt(text, subst, t + k) <==> OccursAt(text[t..], subst, k)
  {
    if t + k + |subst| <= |text| { assert text[t..][k..k + |subst|] == text[t + k..t + k + |subst|]; }
  }

  /** Without regard to words, what stands before a place does not matter behind it. */
  lemma {:induction false} ScannedAlone(text: string, t: nat, k: nat, subst: string, replace: string)
    requires t + k <= |text| && subst != ""
    ensures Scanned(text, t + k, subst, replace, false) == Scanned(text[t..], k, subst, replace, false)
    decreases |text| - t - k
  {
    hide OccursAt;
    if t + k < |text| {
      OccursLater(text, subst, t, k);
      if OccursAt(text, subst, t + k) {
        ScanTakes(text, t + k, subst, replace, false);
        ScannedAlone(text, t, k + |subst|, subst, replace);
      } else {
        ScannedAlone(text, t, k + 1, subst, replace);
      }
    }
  }

  /**
   `$(subst …)`: the first occurrence is replaced and the rest treated alike; a text without any stays; and
   for nothing to look for the replacement is appended.
   */
  lemma SubstMeans(p: string, subst: string, rest: string, replace: string)
    ensures SubstText(p, "", replace, false) == p + replace
    ensures subst != "" && (forall k :: 0 <= k <= |p| ==> !OccursAt(p, subst, k)) ==> SubstText(p, subst, replace, false) == p
    ensures subst != "" && (forall k :: 0 <= k < |p| ==> !OccursAt(p + subst + rest, subst, k)) ==>
              SubstText(p + subst + rest, subst, replace, false) == p + replace + SubstText(rest, subst, replace, false)
  {
    hide Scanned, OccursAt;
    if subst != "" && forall k :: 0 <= k <= |p| ==> !OccursAt(p, subst, k) {
      ScanSkips(p, 0, |p|, subst, replace, false);
      NothingScanned(p, subst, replace, false);
      assert p[0..] == p;
    }
    if subst != "" && forall k :: 0 <= k < |p| ==> !OccursAt(p + subst + rest, subst, k) {
      FirstReplaced(p, subst, rest, replace);
    }
  }

  lemma FirstReplaced(p: string, subst: string, rest: string, replace: string)
    requires subst != "" && forall k :: 0 <= k < |p| ==> !OccursAt(p + subst + rest, subst, k)
    ensures Scanned(p + subst + rest, 0, subst, replace, false) == p + replace + Scanned(rest, 0, subst, replace, false)
  {
    hide Scanned, OccursAt;
    var text := p + subst + rest;
    var q := |p| + |subst|;
    ScanSkips(text, 0, |p|, subst, replace, false);
    assert text[0..|p|] == p;
    Here(p, subst, rest);
    ScanTakes(text, |p|, subst, replace, false);
    ScannedAlone(text, q, 0, subst, replace);
    assert text[q..] == rest;
    assert p + (replace + Scanned(rest, 0, subst, replace, false)) == p + replace + Scanned(rest, 0, subst, replace, false);
  }

  lemma Here(p: string, subst: string, rest: string)
    ensures OccursAt(p + subst + rest, subst, |p|)
  {
  }

  /** Replacing words, piece by piece: spaces and tabs stay where they are. */
  lemma {:induction false} MapWordsMeans(a: string, c: char, b: string, subst: string, replace: string)
    requires c == ' ' || c == '\t'
    ensures MapWords(a + [c] + b, subst, replace) == MapWords(a, subst, replace) + [c] + MapWords(b, subst, replace)
    decreases |a|
  {
    hide MapWords, TokenLength;
    if a == "" {
      BlankFirst(c, b, subst, replace);
      assert a + [c] + b == [c] + b;
    } else if Blank(a[0]) {
      assert a + [c] + b == [a[0]] + (a[1..] + [c] + b) && a == [a[0]] + a[1..];
      BlankFirst(a[0], a[1..] + [c] + b, subst, replace);
      BlankFirst(a[0], a[1..], subst, replace);
      MapWordsMeans(a[1..], c, b, subst, replace);
    } else {
      OneWordThen(a, c, b, subst, replace);
      MapWordsMeans(a[TokenLength(a)..], c, b, subst, replace);
    }
  }

  lemma BlankFirst(c: char, b: string, subst: string, replace: string)
    requires Blank(c)
    ensures MapWords("", subst, replace) == "" && MapWords([c] + b, subst, replace) == [c] + MapWords(b, subst, replace)
  {
    assert ([c] + b)[1..] == b;
  }

  /** A text that is one word. */
  lemma WholeWord(a: string, subst: string, replace: string)
    requires a != "" && BlankFree(a)
    ensures MapWords(a, subst, replace) == if a == subst then replace else a
  {
    TokenLengthIs(a, |a|);
    assert a[..|a|] == a && a[|a|..] == "";
  }

  lemma OneWordThen(a: string, c: char, b: string, subst: string, replace: string)
    requires a != "" && !Blank(a[0]) && Blank(c)
    ensures var n := TokenLength(a); var w := if a[..n] == subst then replace else a[..n];
            && 0 < n && MapWords(a, subst, replace) == w + MapWords(a[n..], subst, replace)
            && MapWords(a + [c] + b, subst, replace) == w + MapWords(a[n..] + [c] + b, subst, replace)
  {
    hide MapWords, TokenLength;
    var n, s := TokenLength(a), a + [c] + b;
    assert s[..n] == a[..n] && s[n..] == a[n..] + [c] + b;
    TokenLengthIs(s, n);
    MapFirstWord(a, n, subst, replace);
    MapFirstWord(s, n, subst, replace);
  }
}
