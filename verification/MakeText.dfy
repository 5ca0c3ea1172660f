/** Words, tokens and patterns of GNU make (`misc.c`, `read.c`). */
module MakeText {
  predicate Blank(c: char) {
    c == ' ' || c == '\t'
  }

  predicate BlankFree(s: string) {
    forall i :: 0 <= i < |s| ==> !Blank(s[i])
  }

  /** The length of the token at the start of `s`. */
  function TokenLength(s: string): (n: nat)
    ensures n <= |s| && BlankFree(s[..n]) && (n < |s| ==> Blank(s[n]))
  {
    if s == [] || Blank(s[0]) then 0
    else
      var k := TokenLength(s[1..]);
      assert s[..1 + k] == [s[0]] + s[1..][..k];
      1 + k
  }

  /** The blank-separated words of a text. */
  function Words(s: string): seq<string>
    decreases |s|
  {
    if s == [] then []
    else if Blank(s[0]) then Words(s[1..])
    else [s[..TokenLength(s)]] + Words(s[TokenLength(s)..])
  }

  /** `next_token`. */
  method NextToken(s: string, i: nat) returns (b: nat)
    requires i <= |s|
    ensures i <= b <= |s| && (forall k :: i <= k < b ==> Blank(s[k])) && (b < |s| ==> !Blank(s[b]))
  {
    b := i;
    while b < |s| && Blank(s[b])
      invariant i <= b <= |s| && forall k :: i <= k < b ==> Blank(s[k])
    {
      b := b + 1;
    }
  }

  /** `end_of_token`. */
  method EndOfToken(s: string, b: nat) returns (e: nat)
    requires b <= |s|
    ensures e == b + TokenLength(s[b..]) && b <= e <= |s| && BlankFree(s[b..e]) && (e < |s| ==> Blank(s[e]))
  {
    e := b;
    while e < |s| && !Blank(s[e])
      invariant b <= e <= |s| && forall k :: b <= k < e ==> !Blank(s[k])
    {
      e := e + 1;
    }
    TokenLengthIs(s[b..], e - b);
  }

  lemma {:induction false} TokenLengthIs(s: string, n: nat)
    requires n <= |s| && BlankFree(s[..n]) && (n < |s| ==> Blank(s[n]))
    ensures TokenLength(s) == n
  {
    if n > 0 {
      assert s[0] == s[..n][0];
      assert s[1..][..n - 1] == s[..n][1..];
      TokenLengthIs(s[1..], n - 1);
    }
  }

  /** Blanks in front do not matter. */
  lemma {:induction false} SkipBlanks(s: string, i: nat, b: nat)
    requires i <= b <= |s| && forall k :: i <= k < b ==> Blank(s[k])
    ensures Words(s[i..]) == Words(s[b..])
    decreases b - i
  {
    if i < b {
      assert s[i..][1..] == s[i + 1..];
      SkipBlanks(s, i + 1, b);
    }
  }

  /** The first word of a text that does not start with a blank. */
  lemma FirstWord(s: string, b: nat, e: nat)
    requires b < |s| && !Blank(s[b]) && e == b + TokenLength(s[b..])
    ensures b < e <= |s| && Words(s[b..]) == [s[b..e]] + Words(s[e..])
  {
    assert s[b..][TokenLength(s[b..])..] == s[e..];
    assert s[b..][..TokenLength(s[b..])] == s[b..e];
  }

  lemma {:induction false} WordsOfBlankFree(w: string)
    requires BlankFree(w)
    ensures Words(w) == if w == "" then [] else [w]
  {
    if w != "" {
      TokenLengthIs(w, |w|);
      assert w[..|w|] == w && w[|w|..] == "";
    }
  }

  /** What is written after a blank, or at the start, is separate from what is there. */
  lemma {:induction false} WordsAppend(s: string, t: string)
    requires s == "" || Blank(s[|s| - 1])
    ensures Words(s + t) == Words(s) + Words(t)
    decreases |s|
  {
    hide Words, TokenLength;
    if s == "" {
      assert s + t == t;
      WordsOfBlankFree("");
      assert [] + Words(t) == Words(t);
    } else if Blank(s[0]) {
      assert (s + t)[1..] == s[1..] + t && (s + t)[0] == s[0];
      BlankInFront(s);
      BlankInFront(s + t);
      WordsAppend(s[1..], t);
    } else {
      var n := TokenLength(s);
      SplitFirst(s, t);
      WordsAppend(s[n..], t);
      assert [s[..n]] + (Words(s[n..]) + Words(t)) == ([s[..n]] + Words(s[n..])) + Words(t);
    }
  }

  lemma BlankInFront(s: string)
    requires s != "" && Blank(s[0])
    ensures Words(s) == Words(s[1..])
  {
  }

  /** The first word of a text that ends with a blank stays when something follows. */
  lemma SplitFirst(s: string, t: string)
    requires s != "" && !Blank(s[0]) && Blank(s[|s| - 1])
    ensures var n := TokenLength(s);
            0 < n < |s| && Words(s) == [s[..n]] + Words(s[n..]) && Words(s + t) == [s[..n]] + Words(s[n..] + t)
  {
    hide TokenLength;
    var n := TokenLength(s);
    assert s[..|s|] == s;
    assert (s + t)[..n] == s[..n] && (s + t)[n..] == s[n..] + t;
    TokenLengthIs(s + t, n);
  }

  lemma {:induction false} WordsBeforeBlank(s: string, c: char)
    requires Blank(c)
    ensures Words(s + [c]) == Words(s)
    decreases |s|
  {
    if s == "" {
      assert s + [c] == [c] && [c][1..] == "";
    } else if Blank(s[0]) {
      assert (s + [c])[1..] == s[1..] + [c];
      WordsBeforeBlank(s[1..], c);
    } else {
      var n := TokenLength(s);
      assert (s + [c])[..n] == s[..n] && (s + [c])[n..] == s[n..] + [c];
      TokenLengthIs(s + [c], n);
      WordsBeforeBlank(s[n..], c);
    }
  }

  lemma {:induction false} WordsAreWords(s: string, w: string)
    requires w in Words(s)
    ensures w != "" && BlankFree(w)
    decreases |s|
  {
    if Blank(s[0]) {
      WordsAreWords(s[1..], w);
    } else if w != s[..TokenLength(s)] {
      WordsAreWords(s[TokenLength(s)..], w);
    }
  }

  /** The place of the first `c`, or the length. */
  function First(s: string, c: char): (i: nat)
    ensures i <= |s| && (i < |s| ==> s[i] == c) && c !in s[..i]
  {
    if s == "" || s[0] == c then 0
    else
      var k := First(s[1..], c);
      assert s[..1 + k] == [s[0]] + s[1..][..k];
      1 + k
  }

  lemma {:induction false} FirstIs(s: string, c: char, i: nat)
    requires i <= |s| && c !in s[..i] && (i < |s| ==> s[i] == c)
    ensures First(s, c) == i
  {
    if i > 0 {
      assert s[..i][0] == s[0];
      assert s[1..][..i - 1] == s[..i][1..];
      FirstIs(s[1..], c, i - 1);
    }
  }

  // -------------------------------------------------------------------------
  // What words are
  // -------------------------------------------------------------------------

  /** Spaces and tabs separate words, and nothing else does. */
  lemma WordsAre(a: string, b: string, w: string)
    requires w != "" && ' ' !in w && '\t' !in w
    ensures Words("") == [] && Words(w) == [w]
    ensures Words(a + " " + b) == Words(a) + Words(b) && Words(a + "\t" + b) == Words(a) + Words(b)
  {
    hide Words;
    WordsOfBlankFree(w);
    WordsOfBlankFree("");
    WordsBeforeBlank(a, ' ');
    WordsAppend(a + " ", b);
    WordsBeforeBlank(a, '\t');
    WordsAppend(a + "\t", b);
  }

  /** Words with single spaces between them. */
  function Joined(ws: seq<string>): string {
    if ws == [] then "" else if |ws| == 1 then ws[0]
    else Joined(ws[..|ws| - 1]) + " " + ws[|ws| - 1]
  }

  lemma {:induction false} JoinedAppend(a: seq<string>, b: seq<string>)
    requires a != [] && b != []
    ensures Joined(a + b) == Joined(a) + " " + Joined(b)
    decreases |b|
  {
    var front, w := b[..|b| - 1], b[|b| - 1];
    assert (a + b)[..|a + b| - 1] == a + front;
    if front == [] {
      assert a + front == a;
    } else {
      JoinedAppend(a, front);
      assert Joined(a) + " " + Joined(front) + " " + w == Joined(a) + " " + (Joined(front) + " " + w);
    }
  }

  /** Joining words and taking them apart again. */
  lemma {:induction false} WordsOfJoined(ws: seq<string>)
    requires forall i :: 0 <= i < |ws| ==> ws[i] != "" && BlankFree(ws[i])
    ensures Words(Joined(ws)) == ws
    decreases |ws|
  {
    hide Words, BlankFree;
    if ws == [] {
      WordsAre("", "", "w");
    } else {
      var front, w := ws[..|ws| - 1], ws[|ws| - 1];
      WordsOfBlankFree(w);
      if front == [] {
        assert [w] == ws;
      } else {
        WordsOfJoined(front);
        WordsAre(Joined(front), w, "w");
        assert front + [w] == ws;
      }
    }
  }
}
