/**
 Announcing a window that is already there, and nothing else, lets the handler of TERM_WINDOW find no window and
 a window condition become false again.
 */
module AppGlueDiscipline {
  import opened AppGlue
  import opened AppGlueInvariants
  import opened AppGlueTheorems
  import opened AppGlueWindows

  const A := AppMove(false)
  const M := MainMove

  /** The handler of TERM_WINDOW runs although there is no window. */
  predicate NullSeen(s: Sys) {
    s.thread == Handling(TermWindow) && s.app.window == NULL
  }

  /** A callback waits for its window, which is there, and the next step of the app thread takes it away. */
  predicate Flickers(s: Sys) {
    Blocked(s.main, ForWindow) && Holds(s.app, ForWindow) && AppEnabled(s) && !Holds(AppStep(s, false).app, ForWindow)
  }

  /** After the announcement of `w` in `s`, all later announcements are of new windows. */
  ghost predicate Continuation(s: Sys, w: nat, later: seq<Move>) {
    && s.main.Idle?
    && ValidRun(Apply(s, Callback(SetWindow(w))), later)
    && DisciplinedRun(Apply(s, Callback(SetWindow(w))), later)
  }

  ghost function After(s: Sys, w: nat, later: seq<Move>): Sys
    requires Continuation(s, w, later)
  {
    Run(Apply(s, Callback(SetWindow(w))), later)
  }

  // -------------------------------------------------------------------------
  // Disciplined runs, one after the other
  // -------------------------------------------------------------------------

  /** From `s` a disciplined run leads to `t`. */
  ghost predicate Leads(s: Sys, t: Sys) {
    exists ms :: ValidRun(s, ms) && DisciplinedRun(s, ms) && Run(s, ms) == t
  }

  lemma Stays(s: Sys)
    ensures Leads(s, s)
  {
    assert ValidRun(s, []) && DisciplinedRun(s, []) && Run(s, []) == s;
  }

  lemma {:induction false} RunsJoin(s: Sys, ms: seq<Move>, more: seq<Move>)
    requires ValidRun(s, ms) && DisciplinedRun(s, ms) && ValidRun(Run(s, ms), more) && DisciplinedRun(Run(s, ms), more)
    ensures ValidRun(s, ms + more) && DisciplinedRun(s, ms + more) && Run(s, ms + more) == Run(Run(s, ms), more)
    decreases |ms|
  {
    hide Apply, Enabled, NewWindow;
    if ms == [] {
      assert ms + more == more;
    } else {
      assert (ms + more)[1..] == ms[1..] + more;
      RunsJoin(Apply(s, ms[0]), ms[1..], more);
    }
  }

  lemma LeadsOn(s: Sys, t: Sys, u: Sys)
    requires Leads(s, t) && Leads(t, u)
    ensures Leads(s, u)
  {
    hide Apply, Enabled, NewWindow;
    var ms :| ValidRun(s, ms) && DisciplinedRun(s, ms) && Run(s, ms) == t;
    var more :| ValidRun(t, more) && DisciplinedRun(t, more) && Run(t, more) == u;
    RunsJoin(s, ms, more);
  }

  lemma OneMove(s: Sys, mv: Move)
    requires Enabled(s, mv) && (mv.Callback? ==> NewWindow(s, mv.call))
    ensures Leads(s, Apply(s, mv))
  {
    hide Apply, Enabled, NewWindow;
    var ms, t := [mv], Apply(s, mv);
    assert ms[1..] == [] && ms[0] == mv;
    assert ValidRun(t, []) && DisciplinedRun(t, []) && Run(t, []) == t;
    assert ValidRun(s, ms);
    assert DisciplinedRun(s, ms) && Run(s, ms) == t;
  }

  /** A move first, then the rest. */
  lemma MoveThen(s: Sys, mv: Move, u: Sys)
    requires Enabled(s, mv) && (mv.Callback? ==> NewWindow(s, mv.call)) && Leads(Apply(s, mv), u)
    ensures Leads(s, u)
  {
    hide Apply, Enabled, NewWindow, Leads;
    OneMove(s, mv);
    LeadsOn(s, Apply(s, mv), u);
  }

  // -------------------------------------------------------------------------
  // The app thread on its own
  // -------------------------------------------------------------------------

  /** The app thread is in its event loop. */
  predicate Looping(t: ThreadPc) {
    !t.Entry? && !Leaving(t)
  }

  /** The callback waits for its window and does not own the mutex, so that the app thread can go on. */
  predicate Free(s: Sys) {
    Blocked(s.main, ForWindow) && Looping(s.thread)
  }

  lemma FreeStep(s: Sys)
    requires Free(s) && (s.thread.Polling? ==> s.app.pipe != [])
    ensures AppEnabled(s) && Free(AppStep(s, false)) && Rank(AppStep(s, false)) < Rank(s)
    ensures AppStep(s, false) == Apply(s, A) && AppStep(s, false).app.pendingWindow == s.app.pendingWindow
  {
    AppStepLowersRank(s, false);
    AppStepLeavesWaiter(s, false, ForWindow);
  }

  /** What one step of the app thread does to the window and the commands. */
  lemma WindowStep(s: Sys)
    requires Free(s) && (s.thread.Polling? ==> s.app.pipe != [])
    ensures var t := Apply(s, A);
            match s.thread
            case Polling => t.thread == Reading(s.app.pipe[0]) && t.app.pipe == s.app.pipe[1..] && t.app.window == s.app.window
            case Reading(c) => t.thread == PreExec(c) && t.app.pipe == s.app.pipe && t.app.window == s.app.window
            case PreExec(c) => t.thread == Handling(c) && t.app.pipe == s.app.pipe
                               && t.app.window == if c.InitWindow? then s.app.pendingWindow else s.app.window
            case Handling(c) => t.thread == PostExec(c) && t.app.pipe == s.app.pipe && t.app.window == s.app.window
            case PostExec(c) => t.thread == Polling && t.app.pipe == s.app.pipe
                                && t.app.window == if c.TermWindow? then NULL else s.app.window
  {
  }

  /** The TERM at the end of the pipe will find no window: there is none, or an earlier TERM takes it away. */
  predicate Doomed(s: Sys) {
    && Free(s) && s.app.pendingWindow == NULL
    && s.app.pipe != [] && s.app.pipe[|s.app.pipe| - 1] == TermWindow
    && (s.app.window == NULL || TermWindow in WindowHand(s.thread) + s.app.pipe[..|s.app.pipe| - 1])
  }

  /** The last TERM has been read and there is no window. */
  predicate NearlySeen(s: Sys) {
    Free(s) && s.app.window == NULL && (s.thread == Reading(TermWindow) || s.thread == PreExec(TermWindow))
  }

  lemma DoomedStep(s: Sys)
    requires Doomed(s)
    ensures Doomed(Apply(s, A)) || NearlySeen(Apply(s, A))
  {
    FreeStep(s);
    WindowStep(s);
    hide Apply, AppStep;
    var t, n := Apply(s, A), |s.app.pipe|;
    match s.thread
    case Polling =>
      if n > 1 {
        assert s.app.pipe[..n - 1] == [s.app.pipe[0]] + s.app.pipe[1..][..n - 2];
      } else {
        assert s.app.pipe[..0] == [];
      }
    case _ =>
  }

  lemma {:induction false} DoomedSees(s: Sys) returns (u: Sys)
    requires Doomed(s)
    ensures Leads(s, u) && NullSeen(u)
    decreases Rank(s)
  {
    hide Leads;
    FreeStep(s);
    DoomedStep(s);
    var t := Apply(s, A);
    if Doomed(t) {
      u := DoomedSees(t);
    } else {
      u := NearlySees(t);
    }
    MoveThen(s, A, u);
  }

  lemma NearlySees(s: Sys) returns (u: Sys)
    requires NearlySeen(s)
    ensures Leads(s, u) && NullSeen(u)
  {
    hide Leads;
    FreeStep(s);
    WindowStep(s);
    var t := Apply(s, A);
    if s.thread.PreExec? {
      u := t;
      Stays(u);
    } else {
      FreeStep(t);
      WindowStep(t);
      u := Apply(t, A);
      OneMove(t, A);
    }
    MoveThen(s, A, u);
  }

  /** The window is there, and a TERM will take it away before the callback has run. */
  predicate Unstable(s: Sys) {
    Free(s) && s.app.window == s.app.pendingWindow != NULL && TermWindow in WindowHand(s.thread) + s.app.pipe
  }

  lemma {:induction false} UnstableFlickers(s: Sys) returns (u: Sys)
    requires Unstable(s)
    ensures Leads(s, u) && Flickers(u)
    decreases Rank(s)
  {
    hide Leads;
    FreeStep(s);
    WindowStep(s);
    if s.thread == PostExec(TermWindow) {
      u := s;
      Stays(s);
    } else {
      UnstableStep(s);
      u := UnstableFlickers(Apply(s, A));
      MoveThen(s, A, u);
    }
  }

  lemma UnstableStep(s: Sys)
    requires Unstable(s) && s.thread != PostExec(TermWindow)
    ensures Unstable(Apply(s, A))
  {
    FreeStep(s);
    WindowStep(s);
    hide Apply, AppStep;
    if s.thread.Polling? { assert s.app.pipe == [s.app.pipe[0]] + s.app.pipe[1..]; }
  }

  // -------------------------------------------------------------------------
  // The window that is already there is announced again
  // -------------------------------------------------------------------------

  /** Nothing is outstanding for the window `w`, which is shown, and no callback is in progress. */
  predicate Showing(s: Sys, w: nat) {
    s.main.Idle? && Looping(s.thread) && s.app.window == s.app.pendingWindow == w != NULL
  }

  /** The second announcement returns at once, leaving a TERM and an INIT behind. */
  lemma AnnouncedAgain(s: Sys, w: nat)
    requires Showing(s, w)
    ensures var t := s.(app := s.app.(pipe := s.app.pipe + [TermWindow] + [InitWindow]), shown := w);
            Leads(Apply(s, Callback(SetWindow(w))), t) && Showing(t, w)
  {
    hide Leads;
    var t0 := Apply(s, Callback(SetWindow(w)));
    var t1 := Apply(t0, M);
    var t2 := Apply(t1, M);
    assert t2.main == Check(ForWindow) && Holds(t2.app, ForWindow);
    OneMove(t2, M);
    MoveThen(t1, M, Apply(t2, M));
    MoveThen(t0, M, Apply(t2, M));
  }

  /** Taking the window away then has to wait, with one TERM more behind those two commands. */
  lemma TakenAway(s: Sys, w: nat)
    requires Showing(s, w)
    ensures Leads(s, s.(app := s.app.(pipe := s.app.pipe + [TermWindow], pendingWindow := NULL), main := Asleep(ForWindow), shown := w))
  {
    hide Leads;
    var call := Callback(SetWindow(NULL));
    var t0 := Apply(s, call);
    var t1 := Apply(t0, M);
    var t2 := Apply(t1, M);
    assert t2.app.pipe == s.app.pipe + [TermWindow];
    assert t2.main == Check(ForWindow) && !Holds(t2.app, ForWindow);
    OneMove(t2, M);
    MoveThen(t1, M, Apply(t2, M));
    MoveThen(t0, M, Apply(t2, M));
    MoveThen(s, call, Apply(t2, M));
  }

  /** The two calls together. */
  lemma Stalled(s: Sys, w: nat) returns (t: Sys)
    requires Showing(s, w)
    ensures Leads(Apply(s, Callback(SetWindow(w))), t) && Free(t) && t.main.Asleep?
    ensures t.app.window == w && t.app.pendingWindow == NULL && t.app.pipe == s.app.pipe + [TermWindow, InitWindow, TermWindow]
  {
    hide Leads;
    AnnouncedAgain(s, w);
    var u := s.(app := s.app.(pipe := s.app.pipe + [TermWindow] + [InitWindow]), shown := w);
    TakenAway(u, w);
    t := u.(app := u.app.(pipe := u.app.pipe + [TermWindow], pendingWindow := NULL), main := Asleep(ForWindow), shown := w);
    LeadsOn(Apply(s, Callback(SetWindow(w))), u, t);
    assert s.app.pipe + [TermWindow] + [InitWindow] + [TermWindow] == s.app.pipe + [TermWindow, InitWindow, TermWindow];
  }

  lemma RepeatedSeesNull(s: Sys, w: nat) returns (u: Sys)
    requires Showing(s, w)
    ensures Leads(Apply(s, Callback(SetWindow(w))), u) && NullSeen(u)
  {
    hide Leads;
    var t := Stalled(s, w);
    var n := |s.app.pipe|;
    assert t.app.pipe[..n + 2][n] == TermWindow;
    u := DoomedSees(t);
    LeadsOn(Apply(s, Callback(SetWindow(w))), t, u);
  }

  /** On the way to the place where only an INIT and a TERM are left and the callback may return. */
  predicate Draining(s: Sys) {
    && Free(s) && s.app.pendingWindow == NULL && (s.app.window == NULL ==> s.main.Woken?)
    && |s.app.pipe| >= 2 && s.app.pipe[|s.app.pipe| - 2] == InitWindow && s.app.pipe[|s.app.pipe| - 1] == TermWindow
    && (s.app.window == NULL || TermWindow in WindowHand(s.thread) + s.app.pipe[..|s.app.pipe| - 2])
  }

  lemma DrainingStep(s: Sys)
    requires Draining(s) && !(s.thread.Polling? && |s.app.pipe| == 2)
    ensures Draining(Apply(s, A))
  {
    FreeStep(s);
    WindowStep(s);
    WokenWhenGone(s);
    hide Apply, AppStep;
    var n := |s.app.pipe|;
    if s.thread.Polling? { assert s.app.pipe[..n - 2] == [s.app.pipe[0]] + s.app.pipe[1..][..n - 3]; }
  }

  lemma WokenWhenGone(s: Sys)
    requires Free(s) && (s.thread.Polling? ==> s.app.pipe != []) && (s.app.window == NULL ==> s.main.Woken?)
    ensures Apply(s, A).app.window == NULL ==> Apply(s, A).main.Woken?
  {
    AppStepLeavesWaiter(s, false, ForWindow);
  }

  lemma {:induction false} Drained(s: Sys) returns (u: Sys)
    requires Draining(s)
    ensures Leads(s, u) && u.thread.Polling? && u.app.pipe == [InitWindow, TermWindow]
    ensures u.main == Woken(ForWindow) && u.app.window == u.app.pendingWindow == NULL
    decreases Rank(s)
  {
    hide Leads;
    if s.thread.Polling? && |s.app.pipe| == 2 {
      u := s;
      Stays(s);
      assert s.app.pipe[..0] == [] && s.app.pipe == [s.app.pipe[0], s.app.pipe[1]];
    } else {
      FreeStep(s);
      DrainingStep(s);
      u := Drained(Apply(s, A));
      MoveThen(s, A, u);
    }
  }

  /** The callback returns, and a new window is announced while the old commands are still there. */
  lemma AnnouncedNext(s: Sys, w: nat) returns (u: Sys)
    requires s.thread.Polling? && s.app.pipe == [InitWindow, TermWindow] && w != NULL
    requires s.main == Woken(ForWindow) && s.app.window == s.app.pendingWindow == NULL
    ensures Leads(s, u) && u.thread.Polling? && u.app.pipe == [InitWindow, TermWindow, InitWindow]
    ensures u.main == Asleep(ForWindow) && u.app.window == NULL && u.app.pendingWindow == w
  {
    hide Leads;
    var call := Callback(SetWindow(w));
    var t1 := Apply(s, M);
    var t2 := Apply(t1, M);
    assert t2.main.Idle?;
    var t3 := Apply(t2, call);
    var t4 := Apply(t3, M);
    var t5 := Apply(t4, M);
    u := Apply(t5, M);
    OneMove(t5, M);
    MoveThen(t4, M, u);
    MoveThen(t3, M, u);
    MoveThen(t2, call, u);
    MoveThen(t1, M, u);
    MoveThen(s, M, u);
  }

  /** The stale INIT brings the new window, and the stale TERM is still to come. */
  lemma StaleInit(s: Sys) returns (u: Sys)
    requires s.thread.Polling? && s.app.pipe == [InitWindow, TermWindow, InitWindow]
    requires s.main == Asleep(ForWindow) && s.app.pendingWindow != NULL
    ensures Leads(s, u) && Unstable(u)
  {
    hide Leads;
    FreeStep(s);
    WindowStep(s);
    var t1 := Apply(s, A);
    FreeStep(t1);
    WindowStep(t1);
    var t2 := Apply(t1, A);
    FreeStep(t2);
    WindowStep(t2);
    hide Apply, AppStep;
    u := Apply(t2, A);
    assert u.app.pipe == [TermWindow, InitWindow] && (WindowHand(u.thread) + u.app.pipe)[0] == TermWindow;
    OneMove(t2, A);
    MoveThen(t1, A, u);
    MoveThen(s, A, u);
  }

  lemma RepeatedFlickers(s: Sys, w: nat) returns (u: Sys)
    requires Showing(s, w)
    ensures Leads(Apply(s, Callback(SetWindow(w))), u) && Flickers(u)
  {
    hide Leads, Flickers;
    var t0 := Apply(s, Callback(SetWindow(w)));
    var t1 := Stalled(s, w);
    var n := |s.app.pipe|;
    assert t1.app.pipe[..n + 1][n] == TermWindow;
    var t2 := Drained(t1);
    var t3 := AnnouncedNext(t2, w);
    var t4 := StaleInit(t3);
    u := UnstableFlickers(t4);
    LeadsOn(t3, t4, u);
    LeadsOn(t2, t3, u);
    LeadsOn(t1, t2, u);
    LeadsOn(t0, t1, u);
  }

  // -------------------------------------------------------------------------
  // The exact condition
  // -------------------------------------------------------------------------

  lemma ShowingAgain(s: Sys, w: nat)
    requires Inv(s) && OrderlyInv(s) && s.main.Idle? && !NewWindow(s, SetWindow(w))
    ensures Showing(s, w)
  {
  }

  lemma CanAnnounce(s: Sys, w: nat)
    requires s.main.Idle?
    ensures Enabled(s, Callback(SetWindow(w)))
  {
  }

  lemma NewIsOrderly(s: Sys, w: nat, later: seq<Move>)
    requires OrderlyInv(s) && Continuation(s, w, later) && NewWindow(s, SetWindow(w))
    ensures !NullSeen(After(s, w, later)) && !Flickers(After(s, w, later))
  {
    OrderlyExactlyWhenNew(s, w);
    RunKeepsOrderly(Apply(s, Callback(SetWindow(w))), later);
    OrderlySeen(After(s, w, later), false);
  }

  /**
   In a reachable state in which no callback is in progress and no window has been announced twice in a row,
   announcing `w` is harmless if and only if it is not the window that is already there: exactly then no
   continuation with new windows only leads the handler of TERM_WINDOW to a window that is gone, and exactly
   then none makes a window condition false again that a callback waits for.
   */
  lemma NewWindowExactly(restored: bool, ms: seq<Move>, w: nat)
    requires ValidRun(Init(restored), ms) && DisciplinedRun(Init(restored), ms) && Run(Init(restored), ms).main.Idle?
    ensures var s := Run(Init(restored), ms);
            && (NewWindow(s, SetWindow(w)) <==> forall later :: Continuation(s, w, later) ==> !NullSeen(After(s, w, later)))
            && (NewWindow(s, SetWindow(w)) <==> forall later :: Continuation(s, w, later) ==> !Flickers(After(s, w, later)))
  {
    hide Init, Inv, OrderlyInv;
    ReachableInv(restored, ms);
    InitOrderly(restored);
    RunKeepsOrderly(Init(restored), ms);
    NewWindowHere(Run(Init(restored), ms), w);
  }

  lemma InitOrderly(restored: bool)
    ensures OrderlyInv(Init(restored))
  {
  }

  lemma NewWindowHere(s: Sys, w: nat)
    requires Inv(s) && OrderlyInv(s) && s.main.Idle?
    ensures NewWindow(s, SetWindow(w)) <==> forall later :: Continuation(s, w, later) ==> !NullSeen(After(s, w, later))
    ensures NewWindow(s, SetWindow(w)) <==> forall later :: Continuation(s, w, later) ==> !Flickers(After(s, w, later))
  {
    hide Inv, OrderlyInv, NullSeen, Flickers, NewWindow, Apply, Enabled, ValidRun, DisciplinedRun, Run;
    if NewWindow(s, SetWindow(w)) {
      forall later | Continuation(s, w, later) ensures !NullSeen(After(s, w, later)) && !Flickers(After(s, w, later)) {
        NewIsOrderly(s, w, later);
      }
    } else {
      ShowingAgain(s, w);
      CanAnnounce(s, w);
      var t := Apply(s, Callback(SetWindow(w)));
      var u := RepeatedSeesNull(s, w);
      var later :| ValidRun(t, later) && DisciplinedRun(t, later) && Run(t, later) == u;
      assert Continuation(s, w, later) && NullSeen(After(s, w, later));
      var v := RepeatedFlickers(s, w);
      var more :| ValidRun(t, more) && DisciplinedRun(t, more) && Run(t, more) == v;
      assert Continuation(s, w, more) && Flickers(After(s, w, more));
    }
  }
}
