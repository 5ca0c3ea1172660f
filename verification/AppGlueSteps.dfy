/** Every step of either thread keeps the invariant of the native app glue. */
module AppGlueSteps {
  import opened AppGlue
  import opened AppGlueInvariants

  /** Reading moves the head of the pipe into the hand and leaves the outstanding commands alone. */
  lemma HeadInHand(pipe: seq<Cmd>, owed: seq<Cmd>)
    requires pipe != []
    ensures [pipe[0]] + (pipe[1..] + owed) == [] + (pipe + owed)
    ensures [pipe[0]] + pipe[1..] == [] + pipe
  {
  }

  /** The head of the outstanding commands has taken effect. */
  lemma HeadConsumed(c: Cmd, rest: seq<Cmd>)
    ensures ([c] + rest)[0] == c && ([c] + rest)[1..] == rest && [] + rest == rest
  {
  }

  lemma StartKeepsHandshake(s: Sys)
    requires s.thread.Entry? && Handshake(s)
    ensures Handshake(Started(s))
  {
  }

  lemma StartKeepsEndings(s: Sys)
    requires s.thread.Entry? && Endings(s)
    ensures Endings(Started(s))
  {
  }

  lemma StartKeepsOwnership(s: Sys)
    requires s.thread.Entry? && Endings(s) && Ownership(s)
    ensures Ownership(Started(s))
  {
  }

  lemma FetchKeepsHandshake(s: Sys)
    requires s.thread.Polling? && s.app.pipe != [] && Handshake(s)
    ensures Handshake(Fetched(s))
  {
    HeadInHand(s.app.pipe, Owed(s.main));
  }

  lemma FetchKeepsEndings(s: Sys)
    requires s.thread.Polling? && s.app.pipe != [] && Endings(s)
    ensures Endings(Fetched(s))
  {
  }

  lemma FetchKeepsOwnership(s: Sys)
    requires s.thread.Polling? && s.app.pipe != [] && Endings(s) && Ownership(s)
    ensures Ownership(Fetched(s))
  {
  }

  lemma LeaveKeepsHandshake(s: Sys)
    requires s.thread.Polling? && s.app.destroyRequested && Handshake(s)
    ensures Handshake(s.(thread := Destroying))
  {
  }

  lemma LeaveKeepsEndings(s: Sys)
    requires s.thread.Polling? && s.app.destroyRequested && Endings(s)
    ensures Endings(s.(thread := Destroying))
  {
  }

  lemma LeaveKeepsOwnership(s: Sys)
    requires s.thread.Polling? && s.app.destroyRequested && Endings(s) && Ownership(s)
    ensures Ownership(s.(thread := Destroying))
  {
  }

  lemma ReadKeepsHandshake(s: Sys, c: Cmd)
    requires s.thread == Reading(c) && Handshake(s)
    ensures Handshake(Prepared(s, c))
  {
  }

  lemma ReadKeepsEndings(s: Sys, c: Cmd)
    requires s.thread == Reading(c) && Endings(s)
    ensures Endings(Prepared(s, c))
  {
  }

  lemma ReadKeepsBlocks(s: Sys, c: Cmd)
    requires s.thread == Reading(c) && BlockInv(s)
    ensures BlockInv(Prepared(s, c))
  {
    if c.SaveState? { FreeKeepsBlocks(s, Prepared(s, c)); }
  }

  lemma ReadKeepsAnswers(s: Sys, c: Cmd)
    requires s.thread == Reading(c) && SaveInv(s) && AnswerInv(s)
    ensures AnswerInv(Prepared(s, c))
  {
    hide Awaits, OnItsWay, Absent;
  }

  lemma ReadKeepsOwnership(s: Sys, c: Cmd)
    requires s.thread == Reading(c) && Endings(s) && Ownership(s)
    ensures Ownership(Prepared(s, c))
  {
    hide BlockInv, AnswerInv, SaveInv, LifeInv, DestroyInv;
    ReadKeepsBlocks(s, c);
    ReadKeepsAnswers(s, c);
  }

  lemma PreExecLeaves(a: App, c: Cmd)
    ensures var b := PreExecCmd(a, c);
            && b.pipe == a.pipe && b.freed == a.freed && b.savedState == a.savedState && b.stateSaved == a.stateSaved
            && b.running == a.running && b.destroyed == a.destroyed
            && b.destroyRequested == (a.destroyRequested || c.Destroy?)
  {
  }

  /** What is left of the outstanding commands, and who waits for what. */
  lemma PreExecRest(s: Sys, c: Cmd)
    requires s.thread == PreExec(c)
    ensures var t := PreExecuted(s, c);
            && Coming(t) == Coming(s) && Unprepared(s.thread) + Coming(s) == [c] + Coming(s)
            && Unprepared(t.thread) + Coming(t) == Coming(s)
            && (t.main.WindowPending? ==> t.main == s.main)
  {
    hide PreExecCmd;
    PreExecLeaves(s.app, c);
    assert [] + Coming(s) == Coming(s);
  }

  lemma PreExecAwaits(s: Sys, c: Cmd, d: Cond)
    ensures Awaits(PreExecuted(s, c).main, d) <==> Awaits(s.main, d)
  {
    hide PreExecCmd;
  }

  lemma WindowNext(window: nat, pending: nat, c: Cmd, rest: seq<Cmd>)
    ensures WindowAfter(window, pending, [c] + rest)
            == WindowAfter(if c.InitWindow? then pending else if c.TermWindow? then NULL else window, pending, rest)
  {
    HeadConsumed(c, rest);
  }

  lemma PreExecSurface(s: Sys, c: Cmd)
    requires s.thread == PreExec(c) && AppEnabled(s)
    ensures var t := PreExecuted(s, c);
            && t.app.pendingWindow == s.app.pendingWindow && Announced(t) == Announced(s)
            && t.app.window == (if c.InitWindow? then s.app.pendingWindow else s.app.window)
            && (c.InitWindow? ==> Announced(s) == s.app.pendingWindow)
            && (if c.TermWindow? then WindowHand(t.thread) == WindowHand(s.thread) else
                WindowHand(t.thread) == [] && WindowHand(s.thread) == [c])
  {
  }

  lemma PreExecKeepsWindow(s: Sys, c: Cmd)
    requires s.thread == PreExec(c) && AppEnabled(s) && WindowInv(s)
    ensures WindowInv(PreExecuted(s, c))
  {
    hide WindowAfter, Coming, Announced, WindowHand, Awaits, PreExecuted, AppEnabled;
    PreExecRest(s, c);
    PreExecAwaits(s, c, ForWindow);
    PreExecSurface(s, c);
    WindowNext(s.app.window, Announced(s), c, Coming(s));
    assert [] + Coming(s) == Coming(s);
  }

  lemma InputNext(queue: nat, pending: nat, c: Cmd, rest: seq<Cmd>)
    ensures InputAfter(queue, pending, [c] + rest) == InputAfter(if c.InputChanged? then pending else queue, pending, rest)
  {
    HeadConsumed(c, rest);
  }

  lemma PreExecQueue(a: App, c: Cmd)
    requires a.attached == if a.inputQueue == NULL then {} else {a.inputQueue}
    ensures var b := PreExecCmd(a, c);
            && b.pendingInputQueue == a.pendingInputQueue
            && b.inputQueue == (if c.InputChanged? then a.pendingInputQueue else a.inputQueue)
            && b.attached == if b.inputQueue == NULL then {} else {b.inputQueue}
  {
  }

  lemma PreExecKeepsInput(s: Sys, c: Cmd)
    requires s.thread == PreExec(c) && AppEnabled(s) && InputInv(s)
    ensures InputInv(PreExecuted(s, c))
  {
    hide InputAfter, Coming, Unprepared, Awaits, PreExecCmd, AppEnabled;
    PreExecRest(s, c);
    PreExecAwaits(s, c, ForInput);
    PreExecQueue(s.app, c);
    InputNext(s.app.inputQueue, s.app.pendingInputQueue, c, Coming(s));
  }

  lemma SettlesNext(state: Cmd, goal: Cmd, c: Cmd, rest: seq<Cmd>)
    requires Settles(state, goal, [c] + rest)
    ensures Settles(if c.Enter? then c else state, goal, rest)
    ensures state == goal && c.Enter? ==> c == goal
  {
    HeadConsumed(c, rest);
    if state == goal {
      assert ([c] + rest)[0] == c;
      assert forall i :: 0 <= i < |rest| ==> ([c] + rest)[i + 1] == rest[i];
    }
  }

  lemma PreExecState(a: App, c: Cmd)
    ensures PreExecCmd(a, c).activityState == if c.Enter? then c else a.activityState
  {
  }

  lemma PreExecKeepsState(s: Sys, c: Cmd)
    requires s.thread == PreExec(c) && AppEnabled(s) && StateInv(s)
    ensures StateInv(PreExecuted(s, c))
  {
    hide Settles, Coming, Unprepared, Awaits, PreExecCmd, AppEnabled;
    PreExecRest(s, c);
    forall d ensures Awaits(PreExecuted(s, c).main, d) <==> Awaits(s.main, d) {
      PreExecAwaits(s, c, d);
    }
    PreExecState(s.app, c);
    SettlesNext(s.app.activityState, s.lastState, c, Coming(s));
  }

  lemma PreExecKeepsWake(s: Sys, c: Cmd)
    requires s.thread == PreExec(c) && AppEnabled(s) && WakeInv(s)
    ensures WakeInv(PreExecuted(s, c))
  {
  }

  lemma PreExecKeepsSave(s: Sys, c: Cmd)
    requires s.thread == PreExec(c) && AppEnabled(s) && SaveInv(s)
    ensures SaveInv(PreExecuted(s, c))
  {
    hide PreExecCmd;
    PreExecLeaves(s.app, c);
  }

  lemma PreExecKeepsLife(s: Sys, c: Cmd)
    requires s.thread == PreExec(c) && LifeInv(s)
    ensures LifeInv(PreExecuted(s, c))
  {
    hide PreExecCmd;
    PreExecLeaves(s.app, c);
  }

  lemma PreExecKeepsDestroy(s: Sys, c: Cmd)
    requires s.thread == PreExec(c) && DestroyInv(s)
    ensures DestroyInv(PreExecuted(s, c))
  {
    hide PreExecCmd;
    PreExecLeaves(s.app, c);
  }

  lemma BroadcastAwaits(m: MainPc, c: Cond)
    ensures Awaits(Broadcast(m), c) <==> Awaits(m, c)
  {
  }

  lemma PreExecKeepsBlocks(s: Sys, c: Cmd)
    requires s.thread == PreExec(c) && BlockInv(s)
    ensures BlockInv(PreExecuted(s, c))
  {
    hide PreExecCmd;
    PreExecLeaves(s.app, c);
  }

  lemma PreExecKeepsAnswers(s: Sys, c: Cmd)
    requires s.thread == PreExec(c) && SaveInv(s) && AnswerInv(s)
    ensures AnswerInv(PreExecuted(s, c))
  {
    hide PreExecCmd, Awaits, Broadcast;
    PreExecLeaves(s.app, c);
    BroadcastAwaits(s.main, ForSaved);
  }

  lemma PreExecKeepsOwnership(s: Sys, c: Cmd)
    requires s.thread == PreExec(c) && AppEnabled(s) && Endings(s) && Ownership(s)
    ensures Ownership(PreExecuted(s, c))
  {
    hide BlockInv, AnswerInv, SaveInv, LifeInv, DestroyInv;
    PreExecKeepsBlocks(s, c);
    PreExecKeepsAnswers(s, c);
  }

  lemma PreExecKeepsInv(s: Sys, c: Cmd)
    requires s.thread == PreExec(c) && AppEnabled(s) && Inv(s)
    ensures Inv(PreExecuted(s, c))
  {
    hide WindowInv, InputInv, StateInv, WakeInv, SaveInv, LifeInv, DestroyInv, Ownership;
    PreExecKeepsWindow(s, c); PreExecKeepsInput(s, c); PreExecKeepsState(s, c); PreExecKeepsWake(s, c);
    PreExecKeepsSave(s, c); PreExecKeepsLife(s, c); PreExecKeepsDestroy(s, c);
    PreExecKeepsOwnership(s, c);
  }

  lemma StoreKeepsHandshake(s: Sys)
    requires s.thread == Handling(SaveState) && s.app.savedState == NULL && Handshake(s)
    ensures Handshake(StoredBlock(s))
  {
  }

  lemma StoreKeepsEndings(s: Sys)
    requires s.thread == Handling(SaveState) && s.app.savedState == NULL && Endings(s)
    ensures Endings(StoredBlock(s))
  {
  }

  lemma StoreKeepsOwnership(s: Sys)
    requires s.thread == Handling(SaveState) && s.app.savedState == NULL && Endings(s) && Ownership(s)
    ensures Ownership(StoredBlock(s))
  {
  }

  lemma HandleKeepsHandshake(s: Sys, c: Cmd)
    requires s.thread == Handling(c) && Handshake(s)
    ensures Handshake(s.(thread := PostExec(c)))
  {
  }

  lemma HandleKeepsEndings(s: Sys, c: Cmd)
    requires s.thread == Handling(c) && Endings(s)
    ensures Endings(s.(thread := PostExec(c)))
  {
  }

  lemma HandleKeepsOwnership(s: Sys, c: Cmd)
    requires s.thread == Handling(c) && Endings(s) && Ownership(s)
    ensures Ownership(s.(thread := PostExec(c)))
  {
  }

  lemma PostExecLeaves(s: Sys, c: Cmd)
    requires s.thread == PostExec(c) && AppEnabled(s)
    ensures var t := PostExecuted(s, c);
            && Coming(t) == Coming(s) && Unprepared(t.thread) == Unprepared(s.thread) == []
            && t.app.inputQueue == s.app.inputQueue && t.app.pendingInputQueue == s.app.pendingInputQueue
            && t.app.attached == s.app.attached && t.app.activityState == s.app.activityState && t.lastState == s.lastState
            && t.app.pendingWindow == s.app.pendingWindow && Announced(t) == Announced(s)
            && t.app.window == (if c.TermWindow? then NULL else s.app.window)
            && WindowHand(s.thread) == (if c.TermWindow? then [c] else []) && WindowHand(t.thread) == []
            && (t.main.WindowPending? ==> t.main == s.main) && !t.thread.Exited?
  {
  }

  lemma PostExecAwaits(s: Sys, c: Cmd, d: Cond)
    ensures Awaits(PostExecuted(s, c).main, d) <==> Awaits(s.main, d)
  {
    hide PostExecCmd;
  }

  lemma PostExecKeepsWake(s: Sys, c: Cmd)
    requires s.thread == PostExec(c) && AppEnabled(s) && WakeInv(s)
    ensures WakeInv(PostExecuted(s, c))
  {
  }

  lemma PostExecKeepsWindow(s: Sys, c: Cmd)
    requires s.thread == PostExec(c) && AppEnabled(s) && WindowInv(s)
    ensures WindowInv(PostExecuted(s, c))
  {
    hide WindowAfter, Coming, Announced, WindowHand, Awaits, PostExecuted, AppEnabled;
    PostExecLeaves(s, c);
    PostExecAwaits(s, c, ForWindow);
    WindowNext(s.app.window, Announced(s), c, Coming(s));
    assert [] + Coming(s) == Coming(s);
  }

  lemma PostExecKeepsInputAndState(s: Sys, c: Cmd)
    requires s.thread == PostExec(c) && AppEnabled(s) && InputInv(s) && StateInv(s)
    ensures InputInv(PostExecuted(s, c)) && StateInv(PostExecuted(s, c))
  {
    hide InputAfter, Settles, Coming, Unprepared, Awaits, PostExecuted, AppEnabled;
    PostExecLeaves(s, c);
    forall d ensures Awaits(PostExecuted(s, c).main, d) <==> Awaits(s.main, d) {
      PostExecAwaits(s, c, d);
    }
  }

  lemma PostExecKeepsHandshake(s: Sys, c: Cmd)
    requires s.thread == PostExec(c) && AppEnabled(s) && Handshake(s)
    ensures Handshake(PostExecuted(s, c))
  {
    hide WindowInv, InputInv, StateInv, WakeInv;
    PostExecKeepsWindow(s, c);
    PostExecKeepsInputAndState(s, c);
    PostExecKeepsWake(s, c);
  }

  lemma PostExecKeepsEndings(s: Sys, c: Cmd)
    requires s.thread == PostExec(c) && AppEnabled(s) && Endings(s)
    ensures Endings(PostExecuted(s, c))
  {
  }

  lemma FreeKeepsBlocks(s: Sys, t: Sys)
    requires BlockInv(s) && t.handed == s.handed && t.blocks == s.blocks
    requires t.app.freed == FreeSavedState(s.app).freed && t.app.savedState == FreeSavedState(s.app).savedState
    ensures BlockInv(t)
  {
  }

  lemma PostExecKeepsBlocks(s: Sys, c: Cmd)
    requires s.thread == PostExec(c) && BlockInv(s)
    ensures BlockInv(PostExecuted(s, c))
  {
    if c == Enter(Resume) { FreeKeepsBlocks(s, PostExecuted(s, c)); }
  }

  lemma PostExecKeepsAnswers(s: Sys, c: Cmd)
    requires s.thread == PostExec(c) && AppEnabled(s) && SaveInv(s) && AnswerInv(s)
    ensures AnswerInv(PostExecuted(s, c))
  {
    hide Awaits, Broadcast;
    BroadcastAwaits(s.main, ForSaved);
  }

  lemma PostExecKeepsOwnership(s: Sys, c: Cmd)
    requires s.thread == PostExec(c) && AppEnabled(s) && Endings(s) && Ownership(s)
    ensures Ownership(PostExecuted(s, c))
  {
    hide BlockInv, AnswerInv, SaveInv, LifeInv, DestroyInv;
    PostExecKeepsBlocks(s, c);
    PostExecKeepsAnswers(s, c);
  }

  lemma FreeKeepsHandshake(s: Sys)
    requires s.thread.Destroying? && Handshake(s)
    ensures Handshake(s.(app := FreeSavedState(s.app), thread := Detaching))
  {
  }

  lemma FreeKeepsEndings(s: Sys)
    requires s.thread.Destroying? && Endings(s)
    ensures Endings(s.(app := FreeSavedState(s.app), thread := Detaching))
  {
  }

  lemma FreeKeepsOwnership(s: Sys)
    requires s.thread.Destroying? && Endings(s) && Ownership(s)
    ensures Ownership(s.(app := FreeSavedState(s.app), thread := Detaching))
  {
  }

  lemma DetachKeepsHandshake(s: Sys)
    requires s.thread.Detaching? && Handshake(s)
    ensures Handshake(Detached(s))
  {
  }

  lemma DetachKeepsEndings(s: Sys)
    requires s.thread.Detaching? && Endings(s)
    ensures Endings(Detached(s))
  {
  }

  lemma DetachKeepsOwnership(s: Sys)
    requires s.thread.Detaching? && Endings(s) && Ownership(s)
    ensures Ownership(Detached(s))
  {
  }

  lemma AppStepKeepsInv(s: Sys, choice: bool)
    requires AppEnabled(s) && Inv(s)
    ensures Inv(AppStep(s, choice))
  {
    hide Handshake, Endings, Ownership;
    match s.thread
    case Entry => StartKeepsHandshake(s); StartKeepsEndings(s); StartKeepsOwnership(s);
    case Polling =>
      if ReturnsFromMain(s, choice) { LeaveKeepsHandshake(s); LeaveKeepsEndings(s); LeaveKeepsOwnership(s); }
      else { FetchKeepsHandshake(s); FetchKeepsEndings(s); FetchKeepsOwnership(s); }
    case Reading(c) => ReadKeepsHandshake(s, c); ReadKeepsEndings(s, c); ReadKeepsOwnership(s, c);
    case PreExec(c) => PreExecKeepsInv(s, c);
    case Handling(c) =>
      if Stores(s, c, choice) { StoreKeepsHandshake(s); StoreKeepsEndings(s); StoreKeepsOwnership(s); }
      else { HandleKeepsHandshake(s, c); HandleKeepsEndings(s, c); HandleKeepsOwnership(s, c); }
    case PostExec(c) => PostExecKeepsHandshake(s, c); PostExecKeepsEndings(s, c); PostExecKeepsOwnership(s, c);
    case Destroying => FreeKeepsHandshake(s); FreeKeepsEndings(s); FreeKeepsOwnership(s);
    case Detaching => DetachKeepsHandshake(s); DetachKeepsEndings(s); DetachKeepsOwnership(s);
  }
}
