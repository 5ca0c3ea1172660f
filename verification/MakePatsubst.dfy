/** Pattern substitution on words in GNU make (`patsubst_expand` in `function.c`). */
module MakePatsubst {
  import opened Wrappers
  import opened MakeText
  import opened MakeSubst
  import opened MakePattern

  /** What becomes of one word when the pattern has a percent sign. */
  function SubstWord(pre: string, post: string, replace: Pattern, w: string): string {
    if !Matches(Percent(pre, post), w) then w
    else
      match replace
      case Literal(t) => t
      case Percent(a, b) => a + Stem(Percent(pre, post), w) + b
  }

  /** Each word substituted, dropped if that leaves nothing. */
  function SubstWords(pre: string, post: string, replace: Pattern, ws: seq<string>): seq<string> {
    if ws == [] then []
    else
      var last := SubstWord(pre, post, replace, ws[|ws| - 1]);
      SubstWords(pre, post, replace, ws[..|ws| - 1]) + if last == "" then [] else [last]
  }

  /** A word of the pattern's shape has its surroundings exchanged, or is replaced; any other word stays. */
  lemma SubstWordMeans(pre: string, post: string, replace: Pattern, w: string)
    ensures forall x :: w == pre + x + post ==>
              SubstWord(pre, post, replace, w) == if replace.Percent? then replace.pre + x + replace.post else replace.text
    ensures (forall x :: w != pre + x + post) ==> SubstWord(pre, post, replace, w) == w
  {
    hide Matches, Stem;
    forall x | w == pre + x + post
      ensures SubstWord(pre, post, replace, w) == if replace.Percent? then replace.pre + x + replace.post else replace.text
    {
      EveryStem(pre, x, post);
    }
    if Matches(Percent(pre, post), w) { StemRestores(Percent(pre, post), w); }
  }

  predicate BlankFreePattern(p: Pattern) {
    match p
    case Literal(t) => BlankFree(t)
    case Percent(a, b) => BlankFree(a) && BlankFree(b)
  }

  lemma SubstWordBlankFree(pre: string, post: string, replace: Pattern, w: string)
    requires BlankFreePattern(replace) && BlankFree(w)
    ensures BlankFree(SubstWord(pre, post, replace, w))
  {
  }

  /** A word that is replaced by nothing is not even followed by a space. */
  predicate Silent(pre: string, post: string, replace: Pattern, w: string) {
    Matches(Percent(pre, post), w) && replace == Literal("")
  }

  /** The words, substituted, each but the silent ones with a space behind it. */
  function Written(pre: string, post: string, replace: Pattern, ws: seq<string>): string {
    if ws == [] then ""
    else
      var w := ws[|ws| - 1];
      Written(pre, post, replace, ws[..|ws| - 1])
      + if Silent(pre, post, replace, w) then "" else SubstWord(pre, post, replace, w) + " "
  }

  /** What `patsubst_expand` writes for a pattern with a percent sign. */
  function PatsubstText(pre: string, post: string, replace: Pattern, text: string): string {
    var s := Written(pre, post, replace, Words(text));
    if s == "" then "" else s[..|s| - 1]
  }

  lemma OneMore(pre: string, post: string, replace: Pattern, done: seq<string>, w: string)
    ensures Written(pre, post, replace, done + [w])
            == Written(pre, post, replace, done)
               + if Silent(pre, post, replace, w) then "" else SubstWord(pre, post, replace, w) + " "
  {
    assert (done + [w])[..|done|] == done;
  }

  /** What is taken back at the end is a space. */
  lemma {:induction false} EndsWithSpace(pre: string, post: string, replace: Pattern, ws: seq<string>)
    ensures var s := Written(pre, post, replace, ws); s == "" || s[|s| - 1] == ' '
  {
    if ws != [] { EndsWithSpace(pre, post, replace, ws[..|ws| - 1]); }
  }

  /** One word more in the output, with its space. */
  lemma WordWritten(out: string, piece: string)
    requires (out == "" || out[|out| - 1] == ' ') && BlankFree(piece)
    ensures Words(out + (piece + " ")) == Words(out) + (if piece == "" then [] else [piece])
  {
    hide Words;
    WordsAppend(out, piece + " ");
    WordsBeforeBlank(piece, ' ');
    assert piece + [' '] == piece + " ";
    WordsOfBlankFree(piece);
  }

  lemma {:induction false} WrittenWords(pre: string, post: string, replace: Pattern, ws: seq<string>)
    requires BlankFreePattern(replace) && forall i :: 0 <= i < |ws| ==> BlankFree(ws[i])
    ensures Words(Written(pre, post, replace, ws)) == SubstWords(pre, post, replace, ws)
    decreases |ws|
  {
    hide Words, Matches, BlankFree;
    if ws == [] {
      NoWords();
    } else {
      var front, w := ws[..|ws| - 1], ws[|ws| - 1];
      WrittenWords(pre, post, replace, front);
      EndsWithSpace(pre, post, replace, front);
      SubstWordBlankFree(pre, post, replace, w);
      var piece := SubstWord(pre, post, replace, w);
      WordWritten(Written(pre, post, replace, front), piece);
      var before := Written(pre, post, replace, front);
      assert before + "" == before;
    }
  }

  lemma NoWords()
    ensures Words("") == []
  {
  }

  /**
   For a replacement without blanks, the words of what is written are the words of the text, each
   substituted if it matches and dropped if that leaves nothing.
   */
  lemma PatsubstWords(pre: string, post: string, replace: Pattern, text: string)
    requires BlankFreePattern(replace)
    ensures Words(PatsubstText(pre, post, replace, text)) == SubstWords(pre, post, replace, Words(text))
  {
    hide Words, Written, BlankFree;
    var ws := Words(text);
    forall i | 0 <= i < |ws| ensures BlankFree(ws[i]) { WordsAreWords(text, ws[i]); }
    WrittenWords(pre, post, replace, ws);
    EndsWithSpace(pre, post, replace, ws);
    var s := Written(pre, post, replace, ws);
    if s != "" {
      assert s == s[..|s| - 1] + [' '];
      WordsBeforeBlank(s[..|s| - 1], ' ');
    }
  }

  /** A word that comes to nothing although it is not replaced by nothing leaves a space behind. */
  predicate Traceless(pre: string, post: string, replace: Pattern, w: string) {
    SubstWord(pre, post, replace, w) == "" ==> Silent(pre, post, replace, w)
  }

  lemma {:induction false} WrittenJoined(pre: string, post: string, replace: Pattern, ws: seq<string>)
    requires forall i :: 0 <= i < |ws| ==> Traceless(pre, post, replace, ws[i])
    ensures var rs := SubstWords(pre, post, replace, ws);
            Written(pre, post, replace, ws) == if rs == [] then "" else Joined(rs) + " "
  {
    if ws != [] {
      hide SubstWord, Silent, Joined;
      var front, w := ws[..|ws| - 1], ws[|ws| - 1];
      WrittenJoined(pre, post, replace, front);
      assert Traceless(pre, post, replace, w);
      var rs, r := SubstWords(pre, post, replace, front), SubstWord(pre, post, replace, w);
      if Silent(pre, post, replace, w) {
        SilentIsNothing(pre, post, replace, w);
        assert rs + [] == rs && Written(pre, post, replace, front) + "" == Written(pre, post, replace, front);
      } else {
        OneJoined(rs, r);
      }
    }
  }

  lemma SilentIsNothing(pre: string, post: string, replace: Pattern, w: string)
    requires Silent(pre, post, replace, w)
    ensures SubstWord(pre, post, replace, w) == ""
  {
  }

  lemma OneJoined(rs: seq<string>, r: string)
    ensures (if rs == [] then "" else Joined(rs) + " ") + (r + " ") == Joined(rs + [r]) + " "
  {
    assert (rs + [r])[..|rs|] == rs;
  }

  /** Where nothing else comes to nothing, the substituted words are written with single spaces between them. */
  lemma PatsubstJoined(pre: string, post: string, replace: Pattern, text: string)
    requires forall i :: 0 <= i < |Words(text)| ==> Traceless(pre, post, replace, Words(text)[i])
    ensures PatsubstText(pre, post, replace, text) == Joined(SubstWords(pre, post, replace, Words(text)))
  {
    hide Words, Written, SubstWords, Traceless;
    WrittenJoined(pre, post, replace, Words(text));
  }

  /** `patsubst_expand` for a pattern with a percent sign, with the test written out. */
  method PatsubstPercent(o: string, text: string, pre: string, post: string, replace: Pattern) returns (r: string)
    ensures r == o + PatsubstText(pre, post, replace, text)
  {
    hide Words, Written, Matches, SubstWord;
    var out, doneany, i := "", false, 0;
    ghost var done := [];
    NothingDone(text, pre, post, replace);
    while true
      invariant i <= |text| && done + Words(text[i..]) == Words(text)
      invariant (doneany <==> out != "") && out == Written(pre, post, replace, done)
      decreases |text| - i
    {
      var b := NextToken(text, i);
      SkipBlanks(text, i, b);
      if b == |text| {
        NothingLeft(text, b, done);
        break;
      }
      var e := EndOfToken(text, b);
      FirstWord(text, b, e);
      var w := text[b..e];
      var fail := !InlineTest(w, pre, post);
      TestsAgree(w, pre, post);
      var piece := if fail then w
        else if replace.Literal? then replace.text
        else replace.pre + w[|pre|..|w| - |post|] + replace.post;
      IsSubstWord(pre, post, replace, w);
      OneMore(pre, post, replace, done, w);
      ghost var before := out;
      if fail || (if replace.Literal? then |replace.text| > 0 else |replace.pre| > 0 || |w| + |replace.post| > 0) {
        out := out + piece + " ";
        doneany := true;
        assert out == before + (piece + " ");
      } else {
        out := out + piece;
        assert piece == "";
      }
      done := done + [w];
      i := e;
    }
    if doneany {
      out := out[..|out| - 1];
    }
    r := o + out;
  }

  lemma IsSubstWord(pre: string, post: string, replace: Pattern, w: string)
    ensures SubstWord(pre, post, replace, w)
            == if !Matches(Percent(pre, post), w) then w
               else if replace.Literal? then replace.text
               else replace.pre + w[|pre|..|w| - |post|] + replace.post
  {
  }

  lemma NothingDone(text: string, pre: string, post: string, replace: Pattern)
    ensures [] + Words(text[0..]) == Words(text) && Written(pre, post, replace, []) == ""
  {
    assert text[0..] == text;
  }

  lemma NothingLeft(text: string, b: nat, done: seq<string>)
    requires b == |text|
    ensures done + Words(text[b..]) == done
  {
  }

  // -------------------------------------------------------------------------
  // Any pattern
  // -------------------------------------------------------------------------

  /** What becomes of the words, whether the pattern has a percent sign or not. */
  function Substituted(pattern: string, replace: string, ws: seq<string>): seq<string> {
    match PatternOf(pattern)
    case Percent(pre, post) => SubstWords(pre, post, PatternOf(replace), ws)
    case Literal(t) => ReplacedWords(ws, t, Unquoted(replace).text)
  }

  /** The one case in which the words are not what they should be. */
  predicate StrayReplacement(text: string, pattern: string, replace: string) {
    PatternOf(pattern) == Literal("") && Unquoted(replace).text != "" && (text == "" || Blank(text[|text| - 1]))
  }

  /** `$(patsubst ,x,a )` gives two words. */
  lemma StrayExample()
    ensures Substituted("", "x", Words("a ")) == ["a"] && Words(PatsubstResult("a ", "", "x")) == ["a", "x"]
  {
    assert Unquoted("") == Scan("", None);
    FirstIs("x", '%', 1);
    assert Unquoted("x") == Scan("x", None);
    TokenLengthIs("a ", 1);
    assert "a "[1..] == " " && "a "[..1] == "a" && " "[1..] == "";
    assert Words(" ") == [];
    assert Words("a ") == ["a"];
    WordsAppend("a ", "x");
    WordsOfBlankFree("x");
    assert ["a"] + ["x"] == ["a", "x"];
    NoEmptyWord(["a"], "x");
  }

  lemma {:induction false} NoEmptyWord(ws: seq<string>, replace: string)
    requires "" !in ws
    ensures ReplacedWords(ws, "", replace) == ws
  {
    if ws != [] { NoEmptyWord(ws[1..], replace); }
  }

  lemma {:induction false} NoEmptyIn(text: string)
    ensures "" !in Words(text)
  {
    if "" in Words(text) { WordsAreWords(text, ""); }
  }

  lemma UnquotedBlankFree(s: string)
    requires BlankFree(Unquoted(s).text)
    ensures BlankFreePattern(PatternOf(s))
  {
    UnquotedInRange(s);
  }

  /** What `patsubst_expand` writes. */
  function PatsubstResult(text: string, pattern: string, replace: string): string {
    match PatternOf(pattern)
    case Percent(pre, post) => PatsubstText(pre, post, PatternOf(replace), text)
    case Literal(t) => SubstText(text, t, Unquoted(replace).text, true)
  }

  /** `patsubst_expand`, for any pattern and replacement. */
  method PatsubstExpand(o: string, text: string, pattern: string, replace: string) returns (r: string)
    ensures r == o + PatsubstResult(text, pattern, replace)
  {
    hide Unquoted, PatsubstText, SubstText;
    UnquotedInRange(pattern);
    UnquotedInRange(replace);
    var rep, repPercent := FindPercent(replace);
    var pat, percent := FindPercent(pattern);
    if percent.Some? {
      var k := percent.value;
      r := PatsubstPercent(o, text, pat[..k], pat[k + 1..], AsPattern(Scan(rep, repPercent)));
    } else {
      r := SubstExpand(o, text, pat, rep, true);
    }
  }

  /**
   Without blanks in the replacement and in a literal pattern, the words of what is written are the words of the
   text, each substituted if it matches and dropped if that leaves nothing, exactly unless the pattern is empty,
   the replacement is not, and the text is empty or ends with a blank: then the replacement is a word of its own.
   */
  lemma ResultWords(text: string, pattern: string, replace: string)
    requires PatternOf(pattern).Literal? ==> BlankFree(Unquoted(pattern).text)
    requires BlankFree(Unquoted(replace).text)
    ensures Words(PatsubstResult(text, pattern, replace)) == Substituted(pattern, replace, Words(text))
            <==> !StrayReplacement(text, pattern, replace)
    ensures StrayReplacement(text, pattern, replace) ==>
              Words(PatsubstResult(text, pattern, replace)) == Words(text) + [Unquoted(replace).text]
  {
    hide Words, SubstWords, ReplacedWords, Unquoted, MapWords, PatsubstText, SubstText;
    UnquotedInRange(pattern);
    UnquotedBlankFree(replace);
    match PatternOf(pattern)
    case Percent(pre, post) => PatsubstWords(pre, post, PatternOf(replace), text);
    case Literal(t) => LiteralWords(text, t, Unquoted(replace).text);
  }

  lemma LiteralWords(text: string, pat: string, rep: string)
    requires BlankFree(pat) && BlankFree(rep)
    ensures Words(SubstText(text, pat, rep, true)) == ReplacedWords(Words(text), pat, rep)
            <==> !(pat == "" && rep != "" && (text == "" || Blank(text[|text| - 1])))
    ensures pat == "" && rep != "" && (text == "" || Blank(text[|text| - 1])) ==> Words(SubstText(text, pat, rep, true)) == Words(text) + [rep]
  {
    hide Words, ReplacedWords, MapWords, Scanned, Remaining;
    if pat != "" {
      ScannedByWord(text, 0, pat, rep);
      StartAtZero(text, pat, rep);
      MapWordsWords(text, pat, rep);
    } else {
      NoEmptyIn(text);
      NoEmptyWord(Words(text), rep);
      EmptySubstExact(text, rep);
      if Tail(text, rep, true) != "" {
        WordsAppend(text, rep);
        WordsOfBlankFree(rep);
      }
    }
  }
}
