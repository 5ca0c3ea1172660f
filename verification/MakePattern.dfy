/** Patterns of GNU make: finding the percent sign and matching words (`read.c`, `function.c`). */
module MakePattern {
  import opened Wrappers
  import opened MakeText

  /** A text with its quoting backslashes removed, and the place of its first unquoted percent sign. */
  datatype Scan = Scan(text: string, percent: Option<nat>)

  function Prepend(head: string, r: Scan): Scan {
    Scan(head + r.text, if r.percent.Some? then Some(|head| + r.percent.value) else None)
  }

  /** The number of backslashes at the end of `s`. */
  function Trailing(s: string): (n: nat)
    ensures n <= |s|
  {
    if s == "" || s[|s| - 1] != '\\' then 0 else 1 + Trailing(s[..|s| - 1])
  }

  function Slashes(n: nat): (s: string)
    ensures |s| == n && forall i :: 0 <= i < n ==> s[i] == '\\'
  {
    seq(n, i => '\\')
  }

  /**
   What `find_percent` means: each run of backslashes in front of a percent sign loses half of them, and
   the percent sign is quoted if their number was odd; behind the first unquoted one nothing changes.
   */
  function Unquoted(s: string): Scan
    decreases |s|
  {
    var i := First(s, '%');
    if i == |s| then Scan(s, None)
    else
      var n := Trailing(s[..i]);
      var head := s[..i - n] + Slashes(n / 2);
      if n % 2 == 0 then Scan(head + s[i..], Some(|head|))
      else Prepend(head + "%", Unquoted(s[i + 1..]))
  }

  lemma {:induction false} TrailingIs(s: string, n: nat)
    requires n <= |s| && (forall i :: |s| - n <= i < |s| ==> s[i] == '\\') && (n < |s| ==> s[|s| - 1 - n] != '\\')
    ensures Trailing(s) == n && s[|s| - n..] == Slashes(n)
  {
    if n > 0 { TrailingIs(s[..|s| - 1], n - 1); }
  }

  /** Removes backslashes in place, the way `find_char_unquote` does for a percent sign. */
  method FindPercent(s: string) returns (buf: string, percent: Option<nat>)
    ensures Scan(buf, percent) == Unquoted(s)
  {
    hide Unquoted, Prepend;
    buf := s;
    var p: nat := 0;
    AtStart(s);
    while true
      invariant p <= |buf| && (p > 0 ==> buf[p - 1] == '%')
      invariant Unquoted(s) == Prepend(buf[..p], Unquoted(buf[p..]))
      decreases |buf| - p
    {
      ghost var from := p;
      while p < |buf| && buf[p] != '%'
        invariant from <= p <= |buf| && '%' !in buf[from..p]
      {
        p := p + 1;
      }
      if p == |buf| {
        NoPercent(buf, from);
        return buf, None;
      }
      var n: nat := 0;
      while n < p && buf[p - 1 - n] == '\\'
        invariant n <= p - from && forall i :: p - n <= i < p ==> buf[i] == '\\'
      {
        n := n + 1;
      }
      PercentFound(buf, from, p, n, buf[..p - n] + buf[p - n / 2..]);
      buf := buf[..p - n] + buf[p - n / 2..];
      p := p - n / 2;
      if n % 2 == 0 {
        return buf, Some(p);
      }
    }
  }

  lemma AtStart(s: string)
    ensures Prepend(s[..0], Unquoted(s[0..])) == Unquoted(s)
  {
    assert s[..0] == "" && s[0..] == s;
    assert "" + Unquoted(s).text == Unquoted(s).text;
  }

  lemma NoPercent(buf: string, from: nat)
    requires from <= |buf| && '%' !in buf[from..]
    ensures Prepend(buf[..from], Unquoted(buf[from..])) == Scan(buf, None)
  {
    assert buf[from..][..|buf| - from] == buf[from..];
    FirstIs(buf[from..], '%', |buf| - from);
    assert buf[..from] + buf[from..] == buf;
  }

  lemma UnquotedAt(s: string, i: nat, n: nat)
    requires i < |s| && s[i] == '%' && '%' !in s[..i] && n <= i
    requires (forall k :: i - n <= k < i ==> s[k] == '\\') && (n < i ==> s[i - 1 - n] != '\\')
    ensures s[i - n..i] == Slashes(n)
    ensures var head := s[..i - n] + Slashes(n / 2);
            Unquoted(s) == if n % 2 == 0 then Scan(head + s[i..], Some(|head|)) else Prepend(head + "%", Unquoted(s[i + 1..]))
  {
    hide First, Trailing, Slashes;
    FirstIs(s, '%', i);
    TrailingIs(s[..i], n);
    assert s[..i][i - n..] == s[i - n..i];
  }

  /** What `Unquoted` makes of a text whose first percent sign stands behind `n` backslashes. */
  lemma UnquotedRun(y: string, n: nat, z: string)
    requires '%' !in y && (y != "" ==> y[|y| - 1] != '\\')
    ensures var h := Slashes(n / 2);
            Unquoted(y + Slashes(n) + "%" + z) ==
              if n % 2 == 0 then Scan(y + h + "%" + z, Some(|y| + |h|)) else Prepend(y + h + "%", Unquoted(z))
  {
    hide Unquoted;
    var s, i := y + Slashes(n) + "%" + z, |y| + n;
    assert s[..i] == y + Slashes(n);
    assert s[i..] == "%" + z && s[i + 1..] == z && s[..i - n] == y;
    UnquotedAt(s, i, n);
    assert y + Slashes(n / 2) + ("%" + z) == y + Slashes(n / 2) + "%" + z;
  }

  /** A text taken apart at its first percent sign from `from` on. */
  lemma TakenApart(buf: string, from: nat, p: nat, n: nat)
    requires from <= p < |buf| && buf[p] == '%' && n <= p - from
    requires forall i :: p - n <= i < p ==> buf[i] == '\\'
    ensures buf[from..] == buf[from..p - n] + Slashes(n) + "%" + buf[p + 1..]
    ensures buf[p - n / 2..] == Slashes(n / 2) + "%" + buf[p + 1..]
  {
    assert buf[p - n..p] == Slashes(n);
    assert buf[p - n / 2..p] == Slashes(n / 2);
  }

  lemma PrependQuoted(x: string, y: string, h: string, r: Scan)
    ensures Prepend(x, Prepend(y + h + "%", r)) == Prepend(x + y + h + "%", r)
  {
    assert x + ((y + h + "%") + r.text) == (x + y + h + "%") + r.text;
  }

  lemma PrependUnquoted(x: string, y: string, h: string, z: string)
    ensures Prepend(x, Scan(y + h + "%" + z, Some(|y| + |h|))) == Scan((x + y) + (h + "%" + z), Some(|x + y| + |h|))
  {
    assert x + (y + h + "%" + z) == (x + y) + (h + "%" + z);
  }

  lemma Together(xy: string, h: string, z: string)
    ensures var after := xy + (h + "%" + z); var q := |xy| + |h| + 1;
            after[..q] == xy + h + "%" && after[q..] == z && after[q - 1] == '%'
  {
    assert xy + (h + "%" + z) == (xy + h + "%") + z;
  }

  /**
   One round: the backslashes in front of the percent sign at `p` are halved, which leaves `after`, and
   the search ends there or goes on behind it.
   */
  lemma PercentFound(buf: string, from: nat, p: nat, n: nat, after: string)
    requires from <= p < |buf| && buf[p] == '%' && '%' !in buf[from..p] && n <= p - from
    requires (forall i :: p - n <= i < p ==> buf[i] == '\\') && (p - n > from ==> buf[p - n - 1] != '\\')
    requires after == buf[..p - n] + buf[p - n / 2..]
    ensures p - n / 2 <= |after|
    ensures n % 2 == 0 ==> Prepend(buf[..from], Unquoted(buf[from..])) == Scan(after, Some(p - n / 2))
    ensures n % 2 == 1 ==>
              && p - n / 2 > 0 && after[p - n / 2 - 1] == '%' && |after| - (p - n / 2) < |buf| - from
              && Prepend(buf[..from], Unquoted(buf[from..])) == Prepend(after[..p - n / 2], Unquoted(after[p - n / 2..]))
  {
    hide Unquoted, Prepend, Slashes;
    var x, y, z := buf[..from], buf[from..p - n], buf[p + 1..];
    Pieces(buf, from, p, n, after);
    assert |x + y| == p - n && |Slashes(n / 2)| == n / 2;
    OneRound(x, y, n, z);
  }

  lemma OneRound(x: string, y: string, n: nat, z: string)
    requires '%' !in y && (y != "" ==> y[|y| - 1] != '\\')
    ensures var h := Slashes(n / 2); var after := (x + y) + (h + "%" + z); var q := |x + y| + |h|;
            var r := Prepend(x, Unquoted(y + Slashes(n) + "%" + z));
            && q < |after| && after[q] == '%'
            && (n % 2 == 0 ==> r == Scan(after, Some(q)))
            && (n % 2 == 1 ==> r == Prepend(after[..q + 1], Unquoted(after[q + 1..])))
  {
    hide Unquoted, Prepend, Slashes;
    var h := Slashes(n / 2);
    UnquotedRun(y, n, z);
    Together(x + y, h, z);
    PrependQuoted(x, y, h, Unquoted(z));
    PrependUnquoted(x, y, h, z);
  }

  lemma Pieces(buf: string, from: nat, p: nat, n: nat, after: string)
    requires from <= p < |buf| && buf[p] == '%' && '%' !in buf[from..p] && n <= p - from
    requires (forall i :: p - n <= i < p ==> buf[i] == '\\') && (p - n > from ==> buf[p - n - 1] != '\\')
    requires after == buf[..p - n] + buf[p - n / 2..]
    ensures var x, y, h, z := buf[..from], buf[from..p - n], Slashes(n / 2), buf[p + 1..];
            && buf[from..] == y + Slashes(n) + "%" + z && after == (x + y) + (h + "%" + z)
            && |x + y| + |h| == p - (n - n / 2) && '%' !in y && (y != "" ==> y[|y| - 1] != '\\')
  {
    TakenApart(buf, from, p, n);
    assert buf[..p - n] == buf[..from] + buf[from..p - n];
    assert forall i :: 0 <= i < p - n - from ==> buf[from..p - n][i] == buf[from..p][i];
  }

  // -------------------------------------------------------------------------
  // Quoting
  // -------------------------------------------------------------------------

  /** A text with its percent signs quoted: the backslashes in front of each are doubled and one is added. */
  function Quoted(s: string): string
    decreases |s|
  {
    var i := First(s, '%');
    if i == |s| then s
    else
      var n := Trailing(s[..i]);
      s[..i - n] + Slashes(2 * n + 1) + "%" + Quoted(s[i + 1..])
  }

  lemma {:induction false} TrailingExactly(s: string)
    ensures var n := Trailing(s); s[|s| - n..] == Slashes(n) && (n < |s| ==> s[|s| - 1 - n] != '\\')
  {
    if s != "" && s[|s| - 1] == '\\' {
      var front := s[..|s| - 1];
      TrailingExactly(front);
      var n := Trailing(front);
      assert s[|s| - 1 - n..] == front[|front| - n..] + [s[|s| - 1]];
    }
  }

  lemma AtPercent(s: string)
    requires First(s, '%') < |s|
    ensures var i := First(s, '%'); var n := Trailing(s[..i]); var y := s[..i - n];
            && '%' !in y && (y != "" ==> y[|y| - 1] != '\\') && s == y + Slashes(n) + "%" + s[i + 1..]
  {
    hide Slashes, Trailing, First;
    var i := First(s, '%');
    var front, n := s[..i], Trailing(s[..i]);
    var y := s[..i - n];
    TrailingExactly(front);
    assert front == y + front[i - n..];
    assert s == front + "%" + s[i + 1..];
    assert forall k :: 0 <= k < |y| ==> y[k] == front[k];
  }

  lemma RunRestored(y: string, n: nat, quoted: string, rest: string)
    requires '%' !in y && (y != "" ==> y[|y| - 1] != '\\') && Unquoted(quoted) == Scan(rest, None)
    ensures Unquoted(y + Slashes(2 * n + 1) + "%" + quoted) == Scan(y + Slashes(n) + "%" + rest, None)
  {
    hide Unquoted, Slashes;
    UnquotedRun(y, 2 * n + 1, quoted);
  }

  /** Quoting protects every text: it comes back as it was, without any percent sign that counts. */
  lemma {:induction false} QuotingProtects(s: string)
    ensures Unquoted(Quoted(s)) == Scan(s, None)
    decreases |s|
  {
    hide Unquoted, Slashes, Trailing, First;
    var i := First(s, '%');
    if i == |s| {
      assert s[..i] == s;
      NoPercentAtAll(s);
    } else {
      var n, rest := Trailing(s[..i]), s[i + 1..];
      AtPercent(s);
      QuotingProtects(rest);
      RunRestored(s[..i - n], n, Quoted(rest), rest);
    }
  }

  lemma NoPercentAtAll(s: string)
    requires '%' !in s
    ensures Unquoted(s) == Scan(s, None)
  {
    assert s[..|s|] == s;
    FirstIs(s, '%', |s|);
  }

  // -------------------------------------------------------------------------
  // Matching
  // -------------------------------------------------------------------------

  /** A pattern whose percent sign has been looked for. */
  datatype Pattern = Literal(text: string) | Percent(pre: string, post: string)

  function AsPattern(r: Scan): Pattern
    requires r.percent.Some? ==> r.percent.value < |r.text|
  {
    if r.percent.None? then Literal(r.text)
    else Percent(r.text[..r.percent.value], r.text[r.percent.value + 1..])
  }

  lemma {:induction false} UnquotedInRange(s: string)
    ensures var r := Unquoted(s); r.percent.Some? ==> r.percent.value < |r.text| && r.text[r.percent.value] == '%'
    decreases |s|
  {
    hide First, Trailing, Slashes;
    var i := First(s, '%');
    if i < |s| {
      var n := Trailing(s[..i]);
      var head := s[..i - n] + Slashes(n / 2);
      if n % 2 == 1 {
        UnquotedInRange(s[i + 1..]);
        var r := Unquoted(s[i + 1..]);
        assert r.percent.Some? ==> (head + "%" + r.text)[|head + "%"| + r.percent.value] == '%';
      } else {
        assert (head + s[i..])[|head|] == s[i];
      }
    }
  }

  function PatternOf(s: string): Pattern {
    UnquotedInRange(s);
    AsPattern(Unquoted(s))
  }

  /** A word matches if it is the literal, or starts and ends, without overlap, as the pattern does. */
  predicate Matches(p: Pattern, w: string) {
    match p
    case Literal(t) => w == t
    case Percent(pre, post) => |pre| + |post| <= |w| && pre <= w && w[|w| - |post|..] == post
  }

  function Stem(p: Pattern, w: string): string
    requires p.Percent? && Matches(p, w)
  {
    w[|p.pre|..|w| - |p.post|]
  }

  /** The test that `patsubst_expand` makes in place: first and last characters before the rest. */
  predicate InlineTest(w: string, pre: string, post: string) {
    && |pre| + |post| <= |w|
    && (|pre| > 0 ==> w[0] == pre[0] && w[|pre| - 1] == pre[|pre| - 1] && w[1..|pre|] == pre[1..])
    && (|post| > 0 ==>
          && w[|w| - 1] == post[|post| - 1] && w[|w| - |post|] == post[0]
          && w[|w| - |post|..|w| - 1] == post[..|post| - 1])
  }

  /** `pattern_matches` once the percent sign is known. */
  predicate PatternMatches(w: string, pre: string, post: string) {
    !(|w| < |pre| + |post| || w[..|pre|] != pre) && post == w[|w| - |post|..]
  }

  /** Both tests are the same, and mean that the word starts and ends as the pattern does. */
  lemma TestsAgree(w: string, pre: string, post: string)
    ensures InlineTest(w, pre, post) <==> Matches(Percent(pre, post), w)
    ensures PatternMatches(w, pre, post) <==> Matches(Percent(pre, post), w)
  {
    if |pre| + |post| <= |w| {
      PrefixTest(w, pre);
      SuffixTest(w, post);
    }
  }

  /** First and last character and what is between them. */
  lemma PrefixTest(w: string, pre: string)
    requires |pre| <= |w|
    ensures (|pre| > 0 ==> w[0] == pre[0] && w[|pre| - 1] == pre[|pre| - 1] && w[1..|pre|] == pre[1..]) <==> pre <= w
    ensures pre <= w <==> w[..|pre|] == pre
  {
    if |pre| > 0 {
      assert w[..|pre|] == [w[0]] + w[1..|pre|];
      assert pre == [pre[0]] + pre[1..];
      assert w[..|pre|][1..] == w[1..|pre|];
    }
  }

  lemma SuffixTest(w: string, post: string)
    requires |post| <= |w|
    ensures (|post| > 0 ==>
               && w[|w| - 1] == post[|post| - 1] && w[|w| - |post|] == post[0]
               && w[|w| - |post|..|w| - 1] == post[..|post| - 1])
            <==> w[|w| - |post|..] == post
  {
    if |post| > 0 {
      var tail := w[|w| - |post|..];
      assert tail == w[|w| - |post|..|w| - 1] + [w[|w| - 1]];
      assert post == post[..|post| - 1] + [post[|post| - 1]];
      assert tail[..|post| - 1] == w[|w| - |post|..|w| - 1];
    }
  }

  /** A matching word is taken apart and put together again. */
  lemma StemRestores(p: Pattern, w: string)
    requires p.Percent? && Matches(p, w)
    ensures p.pre + Stem(p, w) + p.post == w
  {
  }

  /** Every word of the right shape matches, and what stands for the percent sign is its stem. */
  lemma EveryStem(pre: string, x: string, post: string)
    ensures var p := Percent(pre, post); Matches(p, pre + x + post) && Stem(p, pre + x + post) == x
  {
    var w := pre + x + post;
    assert w[..|pre|] == pre;
    PrefixTest(w, pre);
  }

  // -------------------------------------------------------------------------
  // Every pattern can be written
  // -------------------------------------------------------------------------

  /** A text to be written in front of the percent sign: what counts is quoted, the last backslashes are doubled. */
  function Front(pre: string): string
    decreases |pre|
  {
    var i := First(pre, '%');
    var n := Trailing(pre[..i]);
    if i == |pre| then pre[..i - n] + Slashes(2 * n)
    else pre[..i - n] + Slashes(2 * n + 1) + "%" + Front(pre[i + 1..])
  }

  lemma AtEnd(pre: string)
    requires First(pre, '%') == |pre|
    ensures var n := Trailing(pre); var y := pre[..|pre| - n];
            '%' !in y && (y != "" ==> y[|y| - 1] != '\\') && pre == y + Slashes(n) && pre[..|pre|] == pre
  {
    hide Slashes, Trailing, First;
    var n := Trailing(pre);
    var y := pre[..|pre| - n];
    TrailingExactly(pre);
    assert pre == y + pre[|pre| - n..] && pre[..|pre|] == pre;
    assert forall k :: 0 <= k < |y| ==> y[k] == pre[k];
  }

  lemma FrontEnds(y: string, n: nat, post: string)
    requires '%' !in y && (y != "" ==> y[|y| - 1] != '\\')
    ensures Unquoted((y + Slashes(2 * n)) + "%" + post) == Scan((y + Slashes(n)) + "%" + post, Some(|y| + n))
  {
    hide Unquoted, Slashes;
    UnquotedRun(y, 2 * n, post);
    assert |Slashes(n)| == n;
  }

  lemma FrontGoesOn(y: string, n: nat, front: string, pre: string, post: string)
    requires '%' !in y && (y != "" ==> y[|y| - 1] != '\\')
    requires Unquoted(front + "%" + post) == Scan(pre + "%" + post, Some(|pre|))
    ensures var whole := y + Slashes(n) + "%" + pre;
            Unquoted((y + Slashes(2 * n + 1) + "%" + front) + "%" + post) == Scan(whole + "%" + post, Some(|whole|))
  {
    hide Unquoted, Slashes, Prepend;
    var more, head := y + Slashes(2 * n + 1) + "%", y + Slashes(n) + "%";
    UnquotedRun(y, 2 * n + 1, front + "%" + post);
    Grouped(more, front, post);
    assert (2 * n + 1) / 2 == n;
    assert Unquoted(more + (front + "%" + post)) == Prepend(head, Unquoted(front + "%" + post));
    PrependFront(head, pre, post);
  }

  lemma PrependFront(head: string, pre: string, post: string)
    ensures Prepend(head, Scan(pre + "%" + post, Some(|pre|))) == Scan((head + pre) + "%" + post, Some(|head + pre|))
  {
    Grouped(head, pre, post);
  }

  lemma Grouped(a: string, b: string, c: string)
    ensures (a + b) + "%" + c == a + (b + "%" + c)
  {
  }

  lemma {:induction false} FrontUnquoted(pre: string, post: string)
    ensures Unquoted(Front(pre) + "%" + post) == Scan(pre + "%" + post, Some(|pre|))
    decreases |pre|
  {
    hide Unquoted, Slashes, Trailing, First;
    var i := First(pre, '%');
    var n := Trailing(pre[..i]);
    if i == |pre| {
      AtEnd(pre);
      FrontEnds(pre[..i - n], n, post);
      assert |Slashes(n)| == n;
    } else {
      AtPercent(pre);
      FrontUnquoted(pre[i + 1..], post);
      FrontGoesOn(pre[..i - n], n, Front(pre[i + 1..]), pre[i + 1..], post);
    }
  }

  /** Any two texts can stand around the percent sign of a pattern. */
  lemma EveryPattern(pre: string, post: string)
    ensures PatternOf(Front(pre) + "%" + post) == Percent(pre, post)
  {
    hide Unquoted, Front;
    FrontUnquoted(pre, post);
    var t := pre + "%" + post;
    assert t[..|pre|] == pre && t[|pre| + 1..] == post;
  }

  /** As patterns are usually written, nothing has to be quoted. */
  lemma PercentWritten(pre: string, post: string)
    requires '%' !in pre && (pre != "" ==> pre[|pre| - 1] != '\\')
    ensures PatternOf(pre + "%" + post) == Percent(pre, post)
  {
    hide Unquoted;
    UnquotedRun(pre, 0, post);
    assert Slashes(0) == "";
    assert pre + "" == pre;
    var t := pre + "%" + post;
    assert t[..|pre|] == pre && t[|pre| + 1..] == post;
  }
}
