/** What holds of every run of the native app glue, whatever the scheduling and the callbacks. */
module AppGlueTheorems {
  import opened AppGlue
  import opened AppGlueInvariants
  import opened AppGlueSteps
  import opened AppGlueCalls

  lemma InitInv(restored: bool)
    ensures Inv(Init(restored))
  {
    assert Ids(1) == Ids(0) + multiset{1};
  }

  lemma MoveKeepsInv(s: Sys, mv: Move)
    requires Enabled(s, mv) && Inv(s)
    ensures Inv(Apply(s, mv))
  {
    hide Inv, AppStep, MainStep, Begin;
    match mv
    case AppMove(choice) => AppStepKeepsInv(s, choice);
    case Callback(call) => BeginKeepsInv(s, call);
    case MainMove => MainStepKeepsInv(s);
    case SpuriousWake => WakeKeepsInv(s);
  }

  lemma {:induction false} RunKeepsInv(s: Sys, ms: seq<Move>)
    requires ValidRun(s, ms) && Inv(s)
    ensures Inv(Run(s, ms))
    decreases |ms|
  {
    hide Inv, Apply, Enabled;
    if ms != [] {
      MoveKeepsInv(s, ms[0]);
      RunKeepsInv(Apply(s, ms[0]), ms[1..]);
    }
  }

  /** The invariant holds in every reachable state. */
  lemma ReachableInv(restored: bool, ms: seq<Move>)
    requires ValidRun(Init(restored), ms)
    ensures Inv(Run(Init(restored), ms))
  {
    hide Inv, Init;
    InitInv(restored);
    RunKeepsInv(Init(restored), ms);
  }

  // -------------------------------------------------------------------------
  // Convergence
  // -------------------------------------------------------------------------

  lemma {:induction false} SettledState(state: Cmd, goal: Cmd, cmds: seq<Cmd>)
    requires Settles(state, goal, cmds)
    ensures StateAfter(state, cmds) == goal
    decreases |cmds|
  {
    if cmds != [] {
      if cmds[0].Enter? && cmds[0] != state {
        SettledState(goal, goal, cmds[1..]);
      } else {
        SettledState(state, goal, cmds[1..]);
      }
    }
  }

  /**
   In every reachable state, processing the command in hand and the commands in the pipe (and the
   one that a callback in the middle of its writes is committed to) brings the three fields to what
   the framework asked for last.
   */
  lemma CommandsConverge(restored: bool, ms: seq<Move>)
    requires ValidRun(Init(restored), ms)
    ensures var s := Run(Init(restored), ms);
            && WindowAfter(s.app.window, Announced(s), WindowHand(s.thread) + Coming(s)) == Announced(s)
            && InputAfter(s.app.inputQueue, s.app.pendingInputQueue, Unprepared(s.thread) + Coming(s)) == s.app.pendingInputQueue
            && StateAfter(s.app.activityState, Unprepared(s.thread) + Coming(s)) == s.lastState
            && (!MainOwnsMutex(s.main) ==> Coming(s) == s.app.pipe && Announced(s) == s.app.pendingWindow)
  {
    hide Init;
    ReachableInv(restored, ms);
    var s := Run(Init(restored), ms);
    hide Run;
    SettledState(s.app.activityState, s.lastState, Unprepared(s.thread) + Coming(s));
  }

  // -------------------------------------------------------------------------
  // No stuck wait
  // -------------------------------------------------------------------------

  /** An upper bound on the steps the app thread can take before it has to wait. */
  function Rank(s: Sys): nat {
    6 * |s.app.pipe| +
    match s.thread
    case Entry => 4
    case Polling => 3
    case Reading(_) => 8
    case PreExec(_) => 7
    case Handling(c) => if c.SaveState? && s.app.savedState == NULL then 6 else 5
    case PostExec(_) => 4
    case Destroying => 2
    case Detaching => 1
    case Exited => 0
  }

  lemma PreExecLowersRank(s: Sys, c: Cmd)
    requires s.thread == PreExec(c)
    ensures Rank(PreExecuted(s, c)) < Rank(s)
  {
    hide PreExecCmd;
    PreExecLeaves(s.app, c);
  }

  lemma AppStepLowersRank(s: Sys, choice: bool)
    requires AppEnabled(s)
    ensures Rank(AppStep(s, choice)) < Rank(s)
  {
    match s.thread
    case PreExec(c) => PreExecLowersRank(s, c);
    case _ =>
  }

  predicate AppOnly(ms: seq<Move>) {
    forall i :: 0 <= i < |ms| ==> ms[i].AppMove?
  }

  /** The activity thread is inside a wait for `c` and does not own the mutex. */
  predicate Blocked(m: MainPc, c: Cond) {
    m == Asleep(c) || m == Woken(c)
  }

  lemma AppStepLeavesWaiter(s: Sys, choice: bool, c: Cond)
    requires AppEnabled(s) && Blocked(s.main, c)
    ensures Blocked(AppStep(s, choice).main, c)
    ensures s.main.Woken? ==> AppStep(s, choice).main.Woken?
  {
  }

  lemma {:induction false} AppRunBounded(s: Sys, ms: seq<Move>, c: Cond)
    requires ValidRun(s, ms) && AppOnly(ms) && Blocked(s.main, c)
    ensures |ms| + Rank(Run(s, ms)) <= Rank(s)
    ensures Blocked(Run(s, ms).main, c)
    decreases |ms|
  {
    if ms != [] {
      var t := Apply(s, ms[0]);
      AppStepLowersRank(s, ms[0].choice);
      AppStepLeavesWaiter(s, ms[0].choice, c);
      assert t == AppStep(s, ms[0].choice);
      hide AppStep, Apply;
      AppRunBounded(t, ms[1..], c);
    }
  }

  /** When the app thread has nothing left to do, whatever the activity thread waits for is true. */
  lemma QuietMeansSatisfied(s: Sys, c: Cond)
    requires Inv(s) && Blocked(s.main, c) && !AppEnabled(s)
    ensures Holds(s.app, c) && s.main == Woken(c)
  {
    assert s.thread.Exited? || (s.thread.Polling? && s.app.pipe == [] && !s.app.destroyRequested);
    assert [] + Coming(s) == [];
  }

  /**
   No wait gets stuck. From any reachable state in which a callback is blocked, whatever the app
   thread does on its own takes at most `Rank` steps, and when it can do no more the condition is
   true and the waiter has been woken, so that two steps of its own let the callback return.
   */
  lemma NoStuckWait(restored: bool, ms: seq<Move>, own: seq<Move>, c: Cond)
    requires ValidRun(Init(restored), ms)
    requires Blocked(Run(Init(restored), ms).main, c)
    requires ValidRun(Run(Init(restored), ms), own) && AppOnly(own)
    ensures var s := Run(Init(restored), ms);
            var t := Run(s, own);
            && |own| <= Rank(s)
            && Blocked(t.main, c)
            && (t.main.Asleep? ==> AppEnabled(t))
            && (!AppEnabled(t) ==>
                 && t.main == Woken(c) && Holds(t.app, c)
                 && ValidRun(t, [MainMove, MainMove])
                 && Run(t, [MainMove, MainMove]).main == if c == ForDestroyed then Gone else Idle)
  {
    hide Init;
    ReachableInv(restored, ms);
    var s := Run(Init(restored), ms);
    var t := Run(s, own);
    AppRunBounded(s, own, c);
    RunKeepsInv(s, own);
    hide Inv, Run, ValidRun;
    if !AppEnabled(t) {
      QuietMeansSatisfied(t, c);
      TwoStepsReturn(t, c);
    }
  }

  function AppMoves(ms: seq<Move>): nat {
    if ms == [] then 0 else (if ms[0].AppMove? then 1 else 0) + AppMoves(ms[1..])
  }

  predicate NoCallbacks(ms: seq<Move>) {
    forall i :: 0 <= i < |ms| ==> !ms[i].Callback?
  }

  /** The activity thread has nothing left to write: it waits, or its callback has returned. */
  predicate WritesNothing(m: MainPc) {
    m.Check? || m.Asleep? || m.Woken? || m.Idle? || m.Gone?
  }

  lemma MoveWithoutCallback(s: Sys, mv: Move)
    requires Endings(s) && Enabled(s, mv) && !mv.Callback? && WritesNothing(s.main)
    ensures WritesNothing(Apply(s, mv).main)
    ensures Rank(Apply(s, mv)) + (if mv.AppMove? then 1 else 0) <= Rank(s)
  {
    match mv
    case AppMove(choice) =>
      AppStepLowersRank(s, choice);
      hide Rank;
    case MainMove =>
      if s.main == Check(ForSaved) && s.app.stateSaved {
        assert s.thread.Polling?;
      }
    case SpuriousWake =>
  }

  /**
   However often the waiter wakes up, spuriously or not, finds its condition false and sleeps again: until
   the next callback the app thread takes at most `Rank` steps in all.
   */
  lemma {:induction false} CallbackFreeBounded(s: Sys, ms: seq<Move>)
    requires Inv(s) && ValidRun(s, ms) && NoCallbacks(ms) && WritesNothing(s.main)
    ensures AppMoves(ms) + Rank(Run(s, ms)) <= Rank(s)
    decreases |ms|
  {
    hide Handshake, Ownership, Endings, Apply, Enabled, Rank, WritesNothing;
    if ms != [] {
      MoveKeepsInv(s, ms[0]);
      MoveWithoutCallback(s, ms[0]);
      CallbackFreeBounded(Apply(s, ms[0]), ms[1..]);
    }
  }

  /**
   The same from any reachable state in which a callback is blocked; and if the callback is still blocked
   when the app thread can do no more, its condition is true and it has been woken.
   */
  lemma NoEndlessWait(restored: bool, ms: seq<Move>, later: seq<Move>, c: Cond)
    requires ValidRun(Init(restored), ms) && Blocked(Run(Init(restored), ms).main, c)
    requires ValidRun(Run(Init(restored), ms), later) && NoCallbacks(later)
    ensures var s := Run(Init(restored), ms); var t := Run(s, later);
            && AppMoves(later) <= Rank(s)
            && (forall d :: Blocked(t.main, d) && !AppEnabled(t) ==> Holds(t.app, d) && t.main == Woken(d))
  {
    hide Init;
    ReachableInv(restored, ms);
    var s := Run(Init(restored), ms);
    CallbackFreeBounded(s, later);
    RunKeepsInv(s, later);
    hide Inv;
    var t := Run(s, later);
    forall d | Blocked(t.main, d) && !AppEnabled(t) ensures Holds(t.app, d) && t.main == Woken(d) {
      QuietMeansSatisfied(t, d);
    }
  }

  lemma TwoStepsReturn(t: Sys, c: Cond)
    requires t.main == Woken(c) && Holds(t.app, c)
    ensures ValidRun(t, [MainMove, MainMove])
    ensures Run(t, [MainMove, MainMove]).main == if c == ForDestroyed then Gone else Idle
  {
    var u := Apply(t, MainMove);
    assert u == t.(main := Check(c));
    assert [MainMove, MainMove][1..] == [MainMove];
    assert Apply(u, MainMove) == Return(u, c);
    assert ValidRun(u, [MainMove]) && Run(u, [MainMove]) == Return(u, c);
  }

  /** Except for a window, a condition that has come true stays true until the waiter runs. */
  lemma ConditionStays(restored: bool, ms: seq<Move>, c: Cond, choice: bool)
    requires ValidRun(Init(restored), ms)
    requires var s := Run(Init(restored), ms); Blocked(s.main, c) && Holds(s.app, c) && AppEnabled(s)
    requires c != ForWindow
    ensures Holds(AppStep(Run(Init(restored), ms), choice).app, c)
  {
    hide Init;
    ReachableInv(restored, ms);
    ConditionStaysStep(Run(Init(restored), ms), c, choice);
  }

  lemma ConditionStaysStep(s: Sys, c: Cond, choice: bool)
    requires StateInv(s) && Blocked(s.main, c) && Holds(s.app, c) && AppEnabled(s)
    requires c != ForWindow
    ensures Holds(AppStep(s, choice).app, c)
  {
    hide StateInv, PreExecuted;
    match s.thread
    case PreExec(d) => PreExecKeepsCondition(s, d, c);
    case _ =>
  }

  lemma PreExecKeepsCondition(s: Sys, d: Cmd, c: Cond)
    requires StateInv(s) && s.thread == PreExec(d) && Blocked(s.main, c) && Holds(s.app, c) && c != ForWindow
    ensures Holds(PreExecuted(s, d).app, c)
  {
    assert (Unprepared(s.thread) + Coming(s))[0] == d;
  }

  // -------------------------------------------------------------------------
  // Ownership
  // -------------------------------------------------------------------------

  lemma {:induction false} EachIdOnce(n: nat, b: nat)
    ensures Ids(n)[b] == if 1 <= b <= n then 1 else 0
  {
    if n > 0 { EachIdOnce(n - 1, b); }
  }

  /**
   Over every run each saved-state block is, at any time, freed once, or handed to the framework
   once, or the one in `savedState`; nothing else is ever freed or handed over; and when the struct
   has been freed, no block is left behind.
   */
  lemma BlocksOwnedOnce(restored: bool, ms: seq<Move>, b: nat)
    requires ValidRun(Init(restored), ms)
    ensures var s := Run(Init(restored), ms);
            && multiset(s.app.freed)[b] + multiset(s.handed)[b] + (if s.app.savedState == b != NULL then 1 else 0)
               == (if 1 <= b <= s.blocks then 1 else 0)
            && (s.main.Gone? ==> s.app.savedState == NULL)
  {
    hide Init;
    ReachableInv(restored, ms);
    var s := Run(Init(restored), ms);
    hide Run, Handshake;
    EachIdOnce(s.blocks, b);
    assert (multiset(s.app.freed) + multiset(s.handed) + Held(s.app.savedState))[b] == Ids(s.blocks)[b];
  }

  /**
   `onSaveInstanceState` returns the block that the handler stored while that very request was
   handled, and NULL if it stored none.
   */
  lemma SaveReturnsItsOwnBlock(restored: bool, ms: seq<Move>, r: nat)
    requires ValidRun(Init(restored), ms)
    requires r < |Run(Init(restored), ms).answers|
    ensures var s := Run(Init(restored), ms); s.answers[r] == if r in s.stored then s.stored[r] else NULL
  {
    hide Init;
    ReachableInv(restored, ms);
  }

  /** The app thread takes no step once the struct has been freed. */
  lemma NoStepAfterFree(restored: bool, ms: seq<Move>)
    requires ValidRun(Init(restored), ms)
    ensures var s := Run(Init(restored), ms); s.main.Gone? ==> s.thread.Exited? && !AppEnabled(s) && s.app.attached == {}
  {
    hide Init;
    ReachableInv(restored, ms);
  }
}
