/** Splitting the commands of a rule into lines (`chop_commands` in `commands.c`). */
module MakeChop {
  import opened Wrappers
  import opened MakePattern

  /** The lines, each with its newline. */
  function Ended(lines: seq<string>): string {
    if lines == [] then "" else lines[0] + "\n" + Ended(lines[1..])
  }

  /** Each newline inside a line stands behind an odd number of backslashes. */
  predicate KeepsQuoted(line: string) {
    forall i :: 0 <= i < |line| && line[i] == '\n' ==> Trailing(line[..i]) % 2 == 1
  }

  /**
   The lines of `text`: put together they give the text back, up to the newline of the last line if
   the text lacks it; the newlines that separate them stand behind an even number of backslashes, those
   inside them behind an odd number.
   */
  predicate Chopped(text: string, lines: seq<string>, ended: bool) {
    && Ended(lines) == text + (if ended then "" else "\n")
    && (forall i :: 0 <= i < |lines| ==> KeepsQuoted(lines[i]))
    && (forall i :: 0 <= i < |lines| && (i < |lines| - 1 || ended) ==> Trailing(lines[i]) % 2 == 0)
    && (!ended ==> lines != [] && lines[|lines| - 1] != "")
  }

  lemma {:induction false} EndedOneMore(lines: seq<string>, line: string)
    ensures Ended(lines + [line]) == Ended(lines) + line + "\n"
  {
    if lines == [] {
      assert [line][1..] == [];
      assert lines + [line] == [line];
    } else {
      assert (lines + [line])[1..] == lines[1..] + [line];
      EndedOneMore(lines[1..], line);
      assert lines[0] + "\n" + (Ended(lines[1..]) + line + "\n") == (lines[0] + "\n" + Ended(lines[1..])) + line + "\n";
    }
  }

  // -------------------------------------------------------------------------
  // There is only one way to split a text
  // -------------------------------------------------------------------------

  lemma RestChopped(text: string, lines: seq<string>, ended: bool)
    requires Chopped(text, lines, ended) && lines != []
    ensures |lines[0]| <= |text| && text[..|lines[0]|] == lines[0]
    ensures |lines[0]| < |text| ==> text[|lines[0]|] == '\n' && Trailing(lines[0]) % 2 == 0
    ensures |lines| == 1 && !ended <==> lines[0] == text
    ensures lines[0] != text ==> Chopped(text[|lines[0]| + 1..], lines[1..], ended)
  {
    var n := |lines[0]|;
    var x := text + (if ended then "" else "\n");
    assert x == lines[0] + "\n" + Ended(lines[1..]);
    assert x[..n] == lines[0] && x[n] == '\n' && x[n + 1..] == Ended(lines[1..]);
    if |lines| == 1 {
      assert Ended(lines[1..]) == "";
    } else {
      assert lines[1..][0] == lines[1] && |Ended(lines[1..])| > 0;
    }
    assert n < |text| ==> text[n + 1..] + (if ended then "" else "\n") == x[n + 1..];
    if |lines| == 2 && !ended { assert lines[1] != ""; }
  }

  /** Of two ways to take a first line off a text, neither gives the shorter line. */
  lemma FirstLineNotShorter(text: string, a: seq<string>, b: seq<string>, ea: bool, eb: bool)
    requires Chopped(text, a, ea) && Chopped(text, b, eb) && a != [] && b != []
    ensures |a[0]| >= |b[0]|
  {
    RestChopped(text, a, ea);
    RestChopped(text, b, eb);
    assert KeepsQuoted(b[0]);
    forall i | 0 <= i < |b[0]| && text[i] == '\n' ensures Trailing(text[..i]) % 2 == 1 {
      assert b[0][..i] == text[..i] && b[0][i] == text[i];
    }
  }

  lemma {:induction false} OnlyOneWay(text: string, a: seq<string>, b: seq<string>, ea: bool, eb: bool)
    requires Chopped(text, a, ea) && Chopped(text, b, eb)
    ensures a == b && ea == eb
    decreases |a|
  {
    hide Chopped, Ended;
    NoLines(text, a, ea);
    NoLines(text, b, eb);
    if a != [] {
      FirstLineNotShorter(text, a, b, ea, eb);
      FirstLineNotShorter(text, b, a, eb, ea);
      RestChopped(text, a, ea);
      RestChopped(text, b, eb);
      if a[0] != text {
        OnlyOneWay(text[|a[0]| + 1..], a[1..], b[1..], ea, eb);
        assert a == [a[0]] + a[1..] && b == [b[0]] + b[1..];
      }
    }
  }

  lemma NoLines(text: string, lines: seq<string>, ended: bool)
    requires Chopped(text, lines, ended)
    ensures lines == [] <==> text == ""
    ensures lines == [] ==> ended
  {
    assert lines != [] ==> |Ended(lines)| == |lines[0]| + 1 + |Ended(lines[1..])|;
    assert |lines| > 1 ==> |Ended(lines[1..])| >= 1;
  }

  // -------------------------------------------------------------------------
  // The commands of a rule
  // -------------------------------------------------------------------------

  /** The end of the line that starts at `p`: the first newline that is not quoted, or the end of the text. */
  method FindEnd(text: string, p: nat) returns (end: nat)
    requires p < |text|
    ensures p <= end <= |text| && KeepsQuoted(text[p..end])
    ensures end < |text| ==> text[end] == '\n' && Trailing(text[p..end]) % 2 == 0
  {
    hide Trailing;
    end := p;
    var searching := true;
    while searching
      invariant p <= end <= |text|
      invariant forall i :: p <= i < end && text[i] == '\n' ==> Trailing(text[p..i]) % 2 == 1
      invariant !searching && end < |text| ==> text[end] == '\n' && Trailing(text[p..end]) % 2 == 0
      decreases searching, |text| - end
    {
      while end < |text| && text[end] != '\n'
        invariant p <= end <= |text|
        invariant forall i :: p <= i < end && text[i] == '\n' ==> Trailing(text[p..i]) % 2 == 1
      {
        end := end + 1;
      }
      searching := false;
      if end < |text| {
        var quoted := OddBackslashes(text, p, end);
        if quoted {
          end := end + 1;
          searching := true;
        }
      }
    }
    KeptQuoted(text, p, end);
  }

  lemma KeptQuoted(text: string, p: nat, end: nat)
    requires p <= end <= |text| && forall i :: p <= i < end && text[i] == '\n' ==> Trailing(text[p..i]) % 2 == 1
    ensures KeepsQuoted(text[p..end])
  {
    forall i | 0 <= i < end - p && text[p..end][i] == '\n' ensures Trailing(text[p..end][..i]) % 2 == 1 {
      assert text[p..end][..i] == text[p..p + i];
    }
  }

  /** Whether the newline at `end` is quoted; the backslashes are counted back to the start of the line. */
  method OddBackslashes(text: string, p: nat, end: nat) returns (odd: bool)
    requires p <= end < |text|
    ensures odd <==> Trailing(text[p..end]) % 2 == 1
  {
    odd := false;
    var b := end;
    ghost var n := 0;
    while b > p && text[b - 1] == '\\'
      invariant p <= b <= end && n == end - b && (odd <==> n % 2 == 1)
      invariant forall i :: b <= i < end ==> text[i] == '\\'
    {
      odd := !odd;
      b := b - 1;
      n := n + 1;
    }
    TrailingIs(text[p..end], n);
  }

  /** The commands of a rule, which are split when they are first needed. */
  class Commands {
    const commands: string
    var commandLines: Option<seq<string>>

    constructor (commands: string)
      ensures this.commands == commands && commandLines == None
    {
      this.commands := commands;
      commandLines := None;
    }

    method ChopCommands() returns (ended: bool)
      modifies this
      ensures old(commandLines).Some? ==> commandLines == old(commandLines)
      ensures old(commandLines).None? ==> commandLines.Some? && Chopped(commands, commandLines.value, ended)
    {
      ended := true;
      if commandLines.None? {
        var lines;
        lines, ended := Chop(commands);
        commandLines := Some(lines);
      }
    }
  }

  method Chop(text: string) returns (lines: seq<string>, ended: bool)
    ensures Chopped(text, lines, ended)
  {
    hide Ended, KeepsQuoted, Trailing;
    lines, ended := [], true;
    var p := 0;
    NothingYet(text);
    while p < |text|
      invariant p <= |text| && (p < |text| ==> ended) && Chopped(text[..p], lines, ended)
      decreases |text| - p
    {
      var end := FindEnd(text, p);
      LineFound(text, p, end, lines);
      lines := lines + [text[p..end]];
      ended := end < |text|;
      p := end;
      if p < |text| {
        p := p + 1;
      }
    }
    assert text[..p] == text;
  }

  lemma NothingYet(text: string)
    ensures Chopped(text[..0], [], true)
  {
  }

  lemma LineFound(text: string, p: nat, end: nat, lines: seq<string>)
    requires p <= end <= |text| && p < |text| && Chopped(text[..p], lines, true) && KeepsQuoted(text[p..end])
    requires end < |text| ==> text[end] == '\n' && Trailing(text[p..end]) % 2 == 0
    ensures Chopped(text[..if end < |text| then end + 1 else end], lines + [text[p..end]], end < |text|)
  {
    hide Ended, KeepsQuoted, Trailing;
    var line := text[p..end];
    EndedOneMore(lines, line);
    assert text[..end] == text[..p] + line;
    assert end < |text| ==> text[..end + 1] == text[..end] + "\n";
    assert text[..p] + "" == text[..p];
  }
}
