/** Every step of the activity thread keeps the invariant of the native app glue. */
module AppGlueCalls {
  import opened AppGlue
  import opened AppGlueInvariants

  /** What a callback writes, and what it is then committed to write, comes last. */
  lemma Regroup(hand: seq<Cmd>, pipe: seq<Cmd>, more: seq<Cmd>, owed: seq<Cmd>)
    ensures hand + ((pipe + more) + owed) == (hand + (pipe + [])) + (more + owed)
    ensures hand + (pipe + owed) == (hand + (pipe + [])) + owed
  {
  }

  // -------------------------------------------------------------------------
  // Starting a callback
  // -------------------------------------------------------------------------

  /** Commands of another kind at the end do not disturb the fields that have nothing to do with them. */
  lemma WriteKeepsWindow(s: Sys, more: seq<Cmd>)
    requires s.main.Idle? && WindowInv(s) && NoWindowCmd(more)
    ensures WindowAfter(s.app.window, s.app.pendingWindow, WindowHand(s.thread) + ((s.app.pipe + more) + [])) == s.app.pendingWindow
    ensures WindowAfter(s.app.window, s.app.pendingWindow, WindowHand(s.thread) + (s.app.pipe + more)) == s.app.pendingWindow
  {
    var before := WindowHand(s.thread) + (s.app.pipe + []);
    Regroup(WindowHand(s.thread), s.app.pipe, more, []);
    Regroup(WindowHand(s.thread), s.app.pipe, [], more);
    assert more + [] == more;
    WindowAfterAppend(s.app.window, s.app.pendingWindow, before, more);
    WindowUntouched(s.app.pendingWindow, s.app.pendingWindow, more);
  }

  lemma {:induction false} WindowUntouched(window: nat, pending: nat, cmds: seq<Cmd>)
    requires NoWindowCmd(cmds)
    ensures WindowAfter(window, pending, cmds) == window
  {
    if cmds != [] { WindowUntouched(window, pending, cmds[1..]); }
  }

  lemma {:induction false} InputReached(pending: nat, cmds: seq<Cmd>)
    ensures InputAfter(pending, pending, cmds) == pending
  {
    if cmds != [] { InputReached(pending, cmds[1..]); }
  }

  lemma WriteKeepsInput(s: Sys, more: seq<Cmd>, owed: seq<Cmd>)
    requires s.main.Idle? && InputInv(s)
    ensures InputAfter(s.app.inputQueue, s.app.pendingInputQueue, Unprepared(s.thread) + ((s.app.pipe + more) + owed)) == s.app.pendingInputQueue
  {
    Regroup(Unprepared(s.thread), s.app.pipe, more, owed);
    InputAfterAppend(s.app.inputQueue, s.app.pendingInputQueue, Unprepared(s.thread) + (s.app.pipe + []), more + owed);
    InputReached(s.app.pendingInputQueue, more + owed);
  }

  lemma WriteKeepsState(s: Sys, more: seq<Cmd>, owed: seq<Cmd>)
    requires s.main.Idle? && StateInv(s) && OnlyState(more + owed, s.lastState)
    ensures Settles(s.app.activityState, s.lastState, Unprepared(s.thread) + ((s.app.pipe + more) + owed))
  {
    Regroup(Unprepared(s.thread), s.app.pipe, more, owed);
    SettlesAppend(s.app.activityState, s.lastState, Unprepared(s.thread) + (s.app.pipe + []), more + owed);
  }

  lemma SetWindowKeepsWindow(s: Sys, w: nat)
    requires s.main.Idle? && WindowInv(s)
    ensures WindowInv(WindowRequested(s, w))
  {
    var hand := WindowHand(s.thread);
    var more := if s.app.pendingWindow != NULL then [TermWindow] else [];
    var owed := Owed(WindowLocked(w));
    Regroup(hand, s.app.pipe, more, owed);
    assert s.app.pipe + [] == s.app.pipe;
    var before := hand + (s.app.pipe + []);
    WindowAfterAppend(s.app.window, w, before, more + owed);
    WindowAfterAppend(WindowAfter(s.app.window, w, before), w, more, owed);
  }

  lemma SetWindowKeepsHandshake(s: Sys, w: nat)
    requires s.main.Idle? && Handshake(s)
    ensures Handshake(WindowRequested(s, w))
  {
    hide WindowInv;
    SetWindowKeepsWindow(s, w);
    var more := if s.app.pendingWindow != NULL then [TermWindow] else [];
    assert s.app.pipe + [] == s.app.pipe;
    WriteKeepsInput(s, more, Owed(WindowLocked(w)));
    WriteKeepsState(s, more, Owed(WindowLocked(w)));
  }

  lemma SetInputKeepsHandshake(s: Sys, q: nat)
    requires s.main.Idle? && Handshake(s)
    ensures Handshake(Begin(s, SetInput(q)))
  {
    WriteKeepsWindow(s, [InputChanged]);
    Regroup(Unprepared(s.thread), s.app.pipe, [], [InputChanged]);
    InputAfterAppend(s.app.inputQueue, q, Unprepared(s.thread) + (s.app.pipe + []), [InputChanged]);
    WriteKeepsState(s, [], [InputChanged]);
    assert s.app.pipe + [] == s.app.pipe;
  }

  lemma SetStateKeepsState(s: Sys, x: Lifecycle)
    requires s.main.Idle? && StateInv(s)
    ensures StateInv(Begin(s, SetState(x)))
  {
    Regroup(Unprepared(s.thread), s.app.pipe, [Enter(x)], []);
    SettlesNewGoal(s.app.activityState, Unprepared(s.thread) + (s.app.pipe + []), Enter(x));
    assert [Enter(x)] + [] == [Enter(x)];
  }

  lemma SetStateKeepsHandshake(s: Sys, x: Lifecycle)
    requires s.main.Idle? && Handshake(s)
    ensures Handshake(Begin(s, SetState(x)))
  {
    hide StateInv, WindowAfter, InputAfter;
    WriteKeepsWindow(s, [Enter(x)]);
    WriteKeepsInput(s, [Enter(x)], []);
    SetStateKeepsState(s, x);
  }

  lemma SaveKeepsHandshake(s: Sys)
    requires s.main.Idle? && Handshake(s)
    ensures Handshake(Begin(s, Save))
  {
    WriteKeepsWindow(s, [SaveState]);
    WriteKeepsInput(s, [], [SaveState]);
    WriteKeepsState(s, [], [SaveState]);
    assert s.app.pipe + [] == s.app.pipe;
  }

  lemma AnnounceKeepsHandshake(s: Sys, n: Notice)
    requires s.main.Idle? && Handshake(s)
    ensures Handshake(Begin(s, Announce(n)))
  {
    hide WindowAfter, InputAfter, Settles;
    WriteKeepsWindow(s, [Tell(n)]);
    WriteKeepsInput(s, [Tell(n)], []);
    WriteKeepsState(s, [Tell(n)], []);
  }

  lemma FreeKeepsHandshake(s: Sys)
    requires s.main.Idle? && Handshake(s)
    ensures Handshake(Begin(s, Free))
  {
    hide WindowAfter, InputAfter, Settles;
    WriteKeepsWindow(s, [Destroy]);
    WriteKeepsInput(s, [Destroy], []);
    WriteKeepsState(s, [Destroy], []);
  }

  lemma BeginKeepsEndings(s: Sys, call: Call)
    requires s.main.Idle? && Endings(s)
    ensures Endings(Begin(s, call))
  {
  }

  lemma BeginLeaves(s: Sys, call: Call)
    requires s.main.Idle?
    ensures var t := Begin(s, call);
            && t.thread == s.thread && t.blocks == s.blocks && t.handed == s.handed && t.stored == s.stored
            && t.answers == s.answers && t.app.freed == s.app.freed && t.app.savedState == s.app.savedState
            && (Awaits(t.main, ForSaved) ==> !t.app.stateSaved)
    ensures !Awaits(s.main, ForSaved)
  {
  }

  lemma BeginKeepsOwnership(s: Sys, call: Call)
    requires s.main.Idle? && Endings(s) && Ownership(s)
    ensures Ownership(Begin(s, call))
  {
    hide Begin, Awaits, LifeInv, DestroyInv;
    BeginLeaves(s, call);
  }

  lemma BeginKeepsInv(s: Sys, call: Call)
    requires s.main.Idle? && Inv(s)
    ensures Inv(Begin(s, call))
  {
    hide Handshake, Endings, Ownership;
    BeginKeepsEndings(s, call);
    BeginKeepsOwnership(s, call);
    match call
    case SetWindow(w) => SetWindowKeepsHandshake(s, w);
    case SetInput(q) => SetInputKeepsHandshake(s, q);
    case SetState(x) => SetStateKeepsHandshake(s, x);
    case Save => SaveKeepsHandshake(s);
    case Announce(n) => AnnounceKeepsHandshake(s, n);
    case Free => FreeKeepsHandshake(s);
  }

  // -------------------------------------------------------------------------
  // The rest of a callback
  // -------------------------------------------------------------------------

  lemma PendingKeepsHandshake(s: Sys, w: nat)
    requires s.main == WindowLocked(w) && Handshake(s)
    ensures Handshake(PendingAssigned(s, w))
  {
  }

  lemma WrittenKeepsHandshake(s: Sys, cmds: seq<Cmd>, c: Cond)
    requires s.main.WindowPending? || s.main.InputLocked? || s.main.SaveLocked?
    requires cmds == Owed(s.main) && Awaits(s.main, c) && Handshake(s)
    ensures Handshake(Written(s, cmds, c))
  {
    assert (s.app.pipe + cmds) + [] == s.app.pipe + cmds;
  }

  lemma WrittenKeepsEndings(s: Sys, cmds: seq<Cmd>, c: Cond)
    requires s.main.WindowPending? || s.main.InputLocked? || s.main.SaveLocked?
    requires cmds == Owed(s.main) && Awaits(s.main, c) && Endings(s)
    ensures Endings(Written(s, cmds, c))
  {
  }

  lemma WrittenKeepsOwnership(s: Sys, cmds: seq<Cmd>, c: Cond)
    requires s.main.WindowPending? || s.main.InputLocked? || s.main.SaveLocked?
    requires cmds == Owed(s.main) && Awaits(s.main, c) && Endings(s) && Ownership(s)
    ensures Ownership(Written(s, cmds, c))
  {
    hide Awaits, Owed, LifeInv, DestroyInv, OnItsWay, Absent;
    WrittenAwaits(s.main, c, ForSaved);
  }

  lemma WrittenAwaits(m: MainPc, c: Cond, d: Cond)
    requires (m.WindowPending? || m.InputLocked? || m.SaveLocked?) && Awaits(m, c)
    ensures Awaits(Check(c), d) <==> Awaits(m, d)
    ensures Awaits(m, ForSaved) <==> m.SaveLocked?
  {
  }

  lemma WrittenKeepsInv(s: Sys, cmds: seq<Cmd>, c: Cond)
    requires s.main.WindowPending? || s.main.InputLocked? || s.main.SaveLocked?
    requires cmds == Owed(s.main) && Awaits(s.main, c) && Inv(s)
    ensures Inv(Written(s, cmds, c))
  {
    hide Handshake, Endings, Ownership;
    WrittenKeepsHandshake(s, cmds, c);
    WrittenKeepsEndings(s, cmds, c);
    WrittenKeepsOwnership(s, cmds, c);
  }

  lemma ReturnKeepsHandshake(s: Sys, c: Cond)
    requires s.main == Check(c) && Holds(s.app, c) && Handshake(s)
    ensures Handshake(Return(s, c))
  {
  }

  lemma ReturnKeepsEndings(s: Sys, c: Cond)
    requires s.main == Check(c) && Holds(s.app, c) && Endings(s)
    ensures Endings(Return(s, c))
  {
  }

  lemma ReturnKeepsBlocks(s: Sys, c: Cond)
    requires s.main == Check(c) && BlockInv(s)
    ensures BlockInv(Return(s, c))
  {
  }

  lemma ReturnKeepsAnswers(s: Sys, c: Cond)
    requires s.main == Check(c) && Holds(s.app, c) && SaveInv(s) && AnswerInv(s)
    ensures AnswerInv(Return(s, c))
  {
  }

  lemma ReturnKeepsOwnership(s: Sys, c: Cond)
    requires s.main == Check(c) && Holds(s.app, c) && Endings(s) && Ownership(s)
    ensures Ownership(Return(s, c))
  {
    hide BlockInv, AnswerInv, SaveInv;
    ReturnKeepsBlocks(s, c);
    ReturnKeepsAnswers(s, c);
  }

  /** Falling asleep, waking up and getting the mutex back. */
  lemma WaitKeepsHandshake(s: Sys, m: MainPc, c: Cond)
    requires s.main.Check? || s.main.Asleep? || s.main.Woken?
    requires s.main.c == c && (m == Check(c) || m == Woken(c) || (m == Asleep(c) && !Holds(s.app, c))) && Handshake(s)
    ensures Handshake(s.(main := m))
  {
  }

  lemma WaitsForTheSame(m: MainPc, n: MainPc, d: Cond)
    requires (m.Check? || m.Asleep? || m.Woken?) && (n == Check(m.c) || n == Woken(m.c) || n == Asleep(m.c))
    ensures Awaits(m, d) <==> Awaits(n, d)
  {
  }

  lemma WaitKeepsEndings(s: Sys, m: MainPc, c: Cond)
    requires s.main.Check? || s.main.Asleep? || s.main.Woken?
    requires s.main.c == c && (m == Check(c) || m == Woken(c) || m == Asleep(c)) && Endings(s)
    ensures Endings(s.(main := m))
  {
    hide Awaits, OnItsWay, Absent;
    WaitsForTheSame(s.main, m, ForSaved);
    WaitsForTheSame(s.main, m, ForRunning);
    WaitsForTheSame(s.main, m, ForDestroyed);
  }

  lemma WaitKeepsOwnership(s: Sys, m: MainPc, c: Cond)
    requires s.main.Check? || s.main.Asleep? || s.main.Woken?
    requires s.main.c == c && (m == Check(c) || m == Woken(c) || m == Asleep(c)) && Ownership(s)
    ensures Ownership(s.(main := m))
  {
    hide BlockInv, AnswerInv;
    SameBlocks(s, s.(main := m));
    WaitsForTheSame(s.main, m, ForSaved);
    SameAnswers(s, s.(main := m));
  }

  lemma SameBlocks(s: Sys, t: Sys)
    requires BlockInv(s) && t.app.freed == s.app.freed && t.app.savedState == s.app.savedState
    requires t.handed == s.handed && t.blocks == s.blocks
    ensures BlockInv(t)
  {
  }

  lemma SameAnswers(s: Sys, t: Sys)
    requires AnswerInv(s) && t.answers == s.answers && t.stored == s.stored && t.thread == s.thread
    requires t.app.savedState == s.app.savedState && t.app.stateSaved == s.app.stateSaved
    requires Awaits(t.main, ForSaved) <==> Awaits(s.main, ForSaved)
    ensures AnswerInv(t)
  {
    hide Awaits;
  }

  lemma WaitKeepsTheRest(s: Sys, m: MainPc, c: Cond)
    requires s.main.Check? || s.main.Asleep? || s.main.Woken?
    requires s.main.c == c && (m == Check(c) || m == Woken(c) || m == Asleep(c)) && Endings(s) && Ownership(s)
    ensures Endings(s.(main := m)) && Ownership(s.(main := m))
  {
    hide Endings, Ownership;
    WaitKeepsEndings(s, m, c);
    WaitKeepsOwnership(s, m, c);
  }

  lemma MainStepKeepsInv(s: Sys)
    requires MainEnabled(s) && Inv(s)
    ensures Inv(MainStep(s))
  {
    hide Handshake, Endings, Ownership;
    match s.main
    case WindowLocked(w) =>
      PendingKeepsHandshake(s, w);
      PendingKeepsTheRest(s, w);
    case WindowPending(_) => WrittenKeepsInv(s, Owed(s.main), ForWindow);
    case InputLocked => WrittenKeepsInv(s, Owed(s.main), ForInput);
    case SaveLocked => WrittenKeepsInv(s, Owed(s.main), ForSaved);
    case Check(c) =>
      if Holds(s.app, c) {
        ReturnKeepsHandshake(s, c); ReturnKeepsEndings(s, c); ReturnKeepsOwnership(s, c);
      } else {
        WaitKeepsHandshake(s, Asleep(c), c); WaitKeepsTheRest(s, Asleep(c), c);
      }
    case Woken(c) => WaitKeepsHandshake(s, Check(c), c); WaitKeepsTheRest(s, Check(c), c);
  }

  lemma PendingKeepsTheRest(s: Sys, w: nat)
    requires s.main == WindowLocked(w) && Endings(s) && Ownership(s)
    ensures Endings(PendingAssigned(s, w)) && Ownership(PendingAssigned(s, w))
  {
    hide Awaits, OnItsWay, Absent, BlockInv, AnswerInv;
    PendingAwaits(w, ForSaved);
    PendingAwaits(w, ForRunning);
    PendingAwaits(w, ForDestroyed);
    SameBlocks(s, PendingAssigned(s, w));
    SameAnswers(s, PendingAssigned(s, w));
  }

  lemma PendingAwaits(w: nat, d: Cond)
    ensures Awaits(WindowPending(w), d) <==> Awaits(WindowLocked(w), d)
  {
  }

  lemma WakeKeepsInv(s: Sys)
    requires s.main.Asleep? && Inv(s)
    ensures Inv(s.(main := Woken(s.main.c)))
  {
    hide Handshake, Endings, Ownership;
    WaitKeepsHandshake(s, Woken(s.main.c), s.main.c);
    WaitKeepsTheRest(s, Woken(s.main.c), s.main.c);
  }
}
