/**
 Windows and input queues of the native app glue: what holds after one has been taken away, and
 what the handler of TERM_WINDOW sees when no window is announced twice in a row.
 */
module AppGlueWindows {
  import opened AppGlue
  import opened AppGlueInvariants
  import opened AppGlueSteps
  import opened AppGlueCalls
  import opened AppGlueTheorems

  // -------------------------------------------------------------------------
  // Teardown
  // -------------------------------------------------------------------------

  predicate NoWindowCreated(ms: seq<Move>) {
    forall i :: 0 <= i < |ms| ==> (ms[i].Callback? && ms[i].call.SetWindow? ==> ms[i].call.w == NULL)
  }

  predicate NoQueueCreated(ms: seq<Move>) {
    forall i :: 0 <= i < |ms| ==> (ms[i].Callback? && ms[i].call.SetInput? ==> ms[i].call.q == NULL)
  }

  predicate WindowGone(s: Sys) {
    && s.app.window == NULL && s.app.pendingWindow == NULL
    && (s.main.WindowLocked? || s.main.WindowPending? ==> s.main.w == NULL)
  }

  predicate QueueGone(s: Sys) {
    s.app.inputQueue == NULL && s.app.pendingInputQueue == NULL && s.app.attached == {}
  }

  lemma AppStepKeepsWindowGone(s: Sys, choice: bool)
    requires AppEnabled(s) && WindowGone(s)
    ensures WindowGone(AppStep(s, choice))
  {
  }

  lemma BeginKeepsWindowGone(s: Sys, call: Call)
    requires s.main.Idle? && WindowGone(s) && (call.SetWindow? ==> call.w == NULL)
    ensures WindowGone(Begin(s, call))
  {
  }

  lemma MainStepKeepsWindowGone(s: Sys)
    requires MainEnabled(s) && WindowGone(s)
    ensures WindowGone(MainStep(s))
  {
  }

  lemma MoveKeepsWindowGone(s: Sys, mv: Move)
    requires Enabled(s, mv) && WindowGone(s) && NoWindowCreated([mv])
    ensures WindowGone(Apply(s, mv))
  {
    hide AppStep, Begin, MainStep;
    assert [mv][0] == mv;
    match mv
    case AppMove(choice) => AppStepKeepsWindowGone(s, choice);
    case Callback(call) => BeginKeepsWindowGone(s, call);
    case MainMove => MainStepKeepsWindowGone(s);
    case SpuriousWake =>
  }

  lemma AppStepKeepsQueueGone(s: Sys, choice: bool)
    requires AppEnabled(s) && QueueGone(s)
    ensures QueueGone(AppStep(s, choice))
  {
  }

  lemma BeginKeepsQueueGone(s: Sys, call: Call)
    requires s.main.Idle? && QueueGone(s) && (call.SetInput? ==> call.q == NULL)
    ensures QueueGone(Begin(s, call))
  {
  }

  lemma MainStepKeepsQueueGone(s: Sys)
    requires MainEnabled(s) && QueueGone(s)
    ensures QueueGone(MainStep(s))
  {
  }

  lemma MoveKeepsQueueGone(s: Sys, mv: Move)
    requires Enabled(s, mv) && QueueGone(s) && NoQueueCreated([mv])
    ensures QueueGone(Apply(s, mv))
  {
    hide AppStep, Begin, MainStep;
    assert [mv][0] == mv;
    match mv
    case AppMove(choice) => AppStepKeepsQueueGone(s, choice);
    case Callback(call) => BeginKeepsQueueGone(s, call);
    case MainMove => MainStepKeepsQueueGone(s);
    case SpuriousWake =>
  }

  lemma {:induction false} RunKeepsWindowGone(s: Sys, ms: seq<Move>)
    requires ValidRun(s, ms) && WindowGone(s) && NoWindowCreated(ms)
    ensures WindowGone(Run(s, ms))
    decreases |ms|
  {
    hide WindowGone, Apply, Enabled;
    if ms != [] {
      MoveKeepsWindowGone(s, ms[0]);
      RunKeepsWindowGone(Apply(s, ms[0]), ms[1..]);
    }
  }

  lemma {:induction false} RunKeepsQueueGone(s: Sys, ms: seq<Move>)
    requires ValidRun(s, ms) && QueueGone(s) && NoQueueCreated(ms)
    ensures QueueGone(Run(s, ms))
    decreases |ms|
  {
    hide QueueGone, Apply, Enabled;
    if ms != [] {
      MoveKeepsQueueGone(s, ms[0]);
      RunKeepsQueueGone(Apply(s, ms[0]), ms[1..]);
    }
  }

  /**
   Once `onNativeWindowDestroyed` has returned, `window` is NULL until the next window is announced,
   whatever is still queued and whatever the two threads do.
   */
  lemma WindowTeardown(restored: bool, ms: seq<Move>, later: seq<Move>)
    requires ValidRun(Init(restored), ms)
    requires var s := Run(Init(restored), ms); s.main.Idle? && s.app.pendingWindow == NULL && ValidRun(s, later)
    requires NoWindowCreated(later)
    ensures Run(Run(Init(restored), ms), later).app.window == NULL
  {
    hide Init;
    ReachableInv(restored, ms);
    RunKeepsWindowGone(Run(Init(restored), ms), later);
  }

  /** The same for input queues, none of which is attached to the looper then. */
  lemma InputTeardown(restored: bool, ms: seq<Move>, later: seq<Move>)
    requires ValidRun(Init(restored), ms)
    requires var s := Run(Init(restored), ms); s.main.Idle? && s.app.pendingInputQueue == NULL && ValidRun(s, later)
    requires NoQueueCreated(later)
    ensures var t := Run(Run(Init(restored), ms), later); t.app.inputQueue == NULL && t.app.attached == {}
  {
    hide Init;
    ReachableInv(restored, ms);
    RunKeepsQueueGone(Run(Init(restored), ms), later);
  }

  /** In every reachable state at most the current input queue is attached to the looper. */
  lemma AttachedExactly(restored: bool, ms: seq<Move>)
    requires ValidRun(Init(restored), ms)
    ensures var s := Run(Init(restored), ms);
            s.app.attached == if s.thread.Exited? || s.app.inputQueue == NULL then {} else {s.app.inputQueue}
  {
    hide Init;
    ReachableInv(restored, ms);
  }

  // -------------------------------------------------------------------------
  // No window announced twice in a row
  // -------------------------------------------------------------------------

  predicate QuietWindow(s: Sys) {
    s.app.window == s.app.pendingWindow && NoWindowCmd(WindowHand(s.thread) + s.app.pipe)
  }

  predicate OrderlyInv(s: Sys) {
    && (if Awaits(s.main, ForWindow)
        then Orderly(s.app.window, s.shown, Announced(s), WindowHand(s.thread) + Coming(s))
        else QuietWindow(s))
    && (s.main.WindowPending? ==> s.app.pendingWindow == s.main.w)
  }

  /** The callback does not announce the window that is already there. */
  predicate NewWindow(s: Sys, call: Call) {
    call.SetWindow? ==> call.w == NULL || call.w != s.app.pendingWindow
  }

  predicate DisciplinedRun(s: Sys, ms: seq<Move>)
    requires ValidRun(s, ms)
    decreases |ms|
  {
    ms == [] ||
    ((ms[0].Callback? ==> NewWindow(s, ms[0].call)) && DisciplinedRun(Apply(s, ms[0]), ms[1..]))
  }

  lemma {:induction false} OrderlySkip(window: nat, was: nat, pending: nat, xs: seq<Cmd>, more: seq<Cmd>)
    requires NoWindowCmd(xs)
    ensures Orderly(window, was, pending, xs + more) == Orderly(window, was, pending, more)
  {
    if xs == [] {
      assert xs + more == more;
    } else if window == pending {
      assert forall i :: 0 <= i < |more| ==> (xs + more)[|xs| + i] == more[i];
    } else {
      assert (xs + more)[1..] == xs[1..] + more;
      OrderlySkip(window, was, pending, xs[1..], more);
    }
  }

  /** What a window callback writes, from the point of view of the app thread. */
  lemma AnnouncementOrderly(p: nat, w: nat)
    ensures Orderly(p, p, w, (if p != NULL then [TermWindow] else []) + Owed(WindowLocked(w)))
            == (w == NULL || w != p)
  {
    var owed := Owed(WindowLocked(w));
    var cmds := (if p != NULL then [TermWindow] else []) + owed;
    if w != NULL {
      assert owed == [InitWindow] && owed[1..] == [];
      assert Orderly(NULL, p, w, owed);
      assert cmds[|cmds| - 1] == InitWindow;
    }
    if p != NULL {
      assert cmds[0] == TermWindow && cmds[1..] == owed;
    } else {
      assert cmds == owed;
    }
  }

  /**
   A window callback starts an orderly exchange if and only if it does not announce the window that
   is already there.
   */
  lemma OrderlyExactlyWhenNew(s: Sys, w: nat)
    requires s.main.Idle? && OrderlyInv(s)
    ensures OrderlyInv(WindowRequested(s, w)) <==> NewWindow(s, SetWindow(w))
  {
    var more := if s.app.pendingWindow != NULL then [TermWindow] else [];
    var owed := Owed(WindowLocked(w));
    Regroup(WindowHand(s.thread), s.app.pipe, more, owed);
    assert s.app.pipe + [] == s.app.pipe;
    OrderlySkip(s.app.window, s.app.pendingWindow, w, WindowHand(s.thread) + s.app.pipe, more + owed);
    AnnouncementOrderly(s.app.pendingWindow, w);
  }

  lemma OtherCallKeepsOrderly(s: Sys, call: Call)
    requires s.main.Idle? && OrderlyInv(s) && !call.SetWindow?
    ensures OrderlyInv(Begin(s, call))
  {
    assert forall c :: WindowHand(s.thread) + (s.app.pipe + [c]) == (WindowHand(s.thread) + s.app.pipe) + [c];
  }

  lemma WrittenKeepsOrderly(s: Sys, cmds: seq<Cmd>, c: Cond)
    requires s.main.WindowPending? || s.main.InputLocked? || s.main.SaveLocked?
    requires cmds == Owed(s.main) && Awaits(s.main, c) && OrderlyInv(s)
    ensures OrderlyInv(Written(s, cmds, c))
  {
    assert (s.app.pipe + cmds) + [] == s.app.pipe + cmds;
    assert WindowHand(s.thread) + (s.app.pipe + cmds) == (WindowHand(s.thread) + s.app.pipe) + cmds;
  }

  lemma WaitKeepsOrderly(s: Sys)
    requires s.main.Check? || s.main.Woken? || s.main.WindowLocked?
    requires OrderlyInv(s)
    ensures OrderlyInv(MainStep(s))
  {
    assert s.app.pipe + [] == s.app.pipe;
  }

  lemma MainStepKeepsOrderly(s: Sys)
    requires MainEnabled(s) && OrderlyInv(s)
    ensures OrderlyInv(MainStep(s))
  {
    hide OrderlyInv;
    match s.main
    case WindowPending(_) => WrittenKeepsOrderly(s, Owed(s.main), ForWindow);
    case InputLocked => WrittenKeepsOrderly(s, Owed(s.main), ForInput);
    case SaveLocked => WrittenKeepsOrderly(s, Owed(s.main), ForSaved);
    case _ => WaitKeepsOrderly(s);
  }

  lemma FetchKeepsOrderly(s: Sys)
    requires s.thread.Polling? && s.app.pipe != [] && OrderlyInv(s)
    ensures OrderlyInv(Fetched(s))
  {
    HeadInHand(s.app.pipe, Owed(s.main));
  }

  /** What the processing of a command means for the window. */
  lemma PreExecWindow(s: Sys, c: Cmd)
    requires s.thread == PreExec(c) && AppEnabled(s)
    ensures var t := PreExecuted(s, c);
            && t.app.pipe == s.app.pipe && t.app.pendingWindow == s.app.pendingWindow && t.shown == s.shown
            && t.app.window == (if c.InitWindow? then s.app.pendingWindow else s.app.window)
            && Awaits(t.main, ForWindow) == Awaits(s.main, ForWindow) && Announced(t) == Announced(s)
            && Owed(t.main) == Owed(s.main) && (t.main.WindowPending? ==> t.main == s.main)
            && WindowHand(s.thread) == [c] && WindowHand(t.thread) == (if c.TermWindow? then [c] else [])
            && (c.InitWindow? ==> Announced(s) == s.app.pendingWindow)
  {
  }

  lemma PostExecWindow(s: Sys, c: Cmd)
    requires s.thread == PostExec(c) && AppEnabled(s)
    ensures var t := PostExecuted(s, c);
            && t.app.pipe == s.app.pipe && t.app.pendingWindow == s.app.pendingWindow && t.shown == s.shown
            && t.app.window == (if c.TermWindow? then NULL else s.app.window)
            && Awaits(t.main, ForWindow) == Awaits(s.main, ForWindow) && Announced(t) == Announced(s)
            && Owed(t.main) == Owed(s.main) && (t.main.WindowPending? ==> t.main == s.main)
            && WindowHand(s.thread) == (if c.TermWindow? then [c] else []) && WindowHand(t.thread) == []
  {
  }

  /** The first command has taken effect. */
  lemma OrderlyNext(window: nat, was: nat, pending: nat, c: Cmd, rest: seq<Cmd>)
    requires Orderly(window, was, pending, [c] + rest)
    ensures Orderly(if c.InitWindow? then pending else if c.TermWindow? then NULL else window, was, pending, rest)
  {
    HeadConsumed(c, rest);
    if window == pending {
      assert forall i :: 0 <= i < |rest| ==> ([c] + rest)[i + 1] == rest[i];
      assert ([c] + rest)[0] == c;
    }
  }

  lemma NoWindowNext(c: Cmd, rest: seq<Cmd>)
    requires NoWindowCmd([c] + rest)
    ensures !c.InitWindow? && !c.TermWindow? && NoWindowCmd(rest)
  {
    assert ([c] + rest)[0] == c;
    assert forall i :: 0 <= i < |rest| ==> ([c] + rest)[i + 1] == rest[i];
  }

  lemma PreExecKeepsOrderly(s: Sys, c: Cmd)
    requires s.thread == PreExec(c) && AppEnabled(s) && OrderlyInv(s)
    ensures OrderlyInv(PreExecuted(s, c))
  {
    hide Orderly, NoWindowCmd, PreExecuted, Awaits, Announced, Owed, WindowHand, AppEnabled;
    PreExecWindow(s, c);
    HeadConsumed(c, Coming(s));
    HeadConsumed(c, s.app.pipe);
    if c.TermWindow? {
    } else if Awaits(s.main, ForWindow) {
      OrderlyNext(s.app.window, s.shown, Announced(s), c, Coming(s));
    } else {
      NoWindowNext(c, s.app.pipe);
    }
  }

  lemma PostExecKeepsOrderly(s: Sys, c: Cmd)
    requires s.thread == PostExec(c) && AppEnabled(s) && OrderlyInv(s)
    ensures OrderlyInv(PostExecuted(s, c))
  {
    hide Orderly, NoWindowCmd, PostExecuted, Awaits, Announced, Owed, WindowHand, AppEnabled;
    PostExecWindow(s, c);
    HeadConsumed(c, Coming(s));
    HeadConsumed(c, s.app.pipe);
    if c.TermWindow? {
      if Awaits(s.main, ForWindow) {
        OrderlyNext(s.app.window, s.shown, Announced(s), c, Coming(s));
      } else {
        NoWindowNext(c, s.app.pipe);
      }
    }
  }

  lemma OtherStepKeepsOrderly(s: Sys, choice: bool)
    requires AppEnabled(s) && OrderlyInv(s)
    requires !s.thread.PreExec? && !s.thread.PostExec? && !(s.thread.Polling? && !ReturnsFromMain(s, choice))
    ensures OrderlyInv(AppStep(s, choice))
  {
  }

  lemma AppStepKeepsOrderly(s: Sys, choice: bool)
    requires AppEnabled(s) && OrderlyInv(s)
    ensures OrderlyInv(AppStep(s, choice))
  {
    hide OrderlyInv;
    match s.thread
    case PreExec(c) => PreExecKeepsOrderly(s, c);
    case PostExec(c) => PostExecKeepsOrderly(s, c);
    case Polling => if ReturnsFromMain(s, choice) { OtherStepKeepsOrderly(s, choice); } else { FetchKeepsOrderly(s); }
    case _ => OtherStepKeepsOrderly(s, choice);
  }

  lemma MoveKeepsOrderly(s: Sys, mv: Move)
    requires Enabled(s, mv) && OrderlyInv(s) && (mv.Callback? ==> NewWindow(s, mv.call))
    ensures OrderlyInv(Apply(s, mv))
  {
    match mv
    case AppMove(choice) => AppStepKeepsOrderly(s, choice);
    case Callback(call) =>
      if call.SetWindow? { OrderlyExactlyWhenNew(s, call.w); } else { OtherCallKeepsOrderly(s, call); }
    case MainMove => MainStepKeepsOrderly(s);
    case SpuriousWake =>
  }

  lemma {:induction false} RunKeepsOrderly(s: Sys, ms: seq<Move>)
    requires ValidRun(s, ms) && DisciplinedRun(s, ms) && OrderlyInv(s)
    ensures OrderlyInv(Run(s, ms))
    decreases |ms|
  {
    hide OrderlyInv, Apply, Enabled, NewWindow;
    if ms != [] {
      MoveKeepsOrderly(s, ms[0]);
      RunKeepsOrderly(Apply(s, ms[0]), ms[1..]);
    }
  }

  /**
   When no window is announced twice in a row: the handler of TERM_WINDOW always finds the window
   that was there before, which is not NULL; no window command is left once a window callback has
   returned; and a window condition that has come true stays true until the waiter runs.
   */
  lemma DisciplinedWindows(restored: bool, ms: seq<Move>, choice: bool)
    requires ValidRun(Init(restored), ms) && DisciplinedRun(Init(restored), ms)
    ensures var s := Run(Init(restored), ms);
            && (s.thread == Handling(TermWindow) ==> s.app.window == s.shown != NULL)
            && (!Awaits(s.main, ForWindow) ==> s.app.window == s.app.pendingWindow && NoWindowCmd(WindowHand(s.thread) + s.app.pipe))
            && (Blocked(s.main, ForWindow) && s.app.window == s.app.pendingWindow && AppEnabled(s)
                ==> Holds(AppStep(s, choice).app, ForWindow))
  {
    RunKeepsOrderly(Init(restored), ms);
    hide Init;
    var s := Run(Init(restored), ms);
    hide Run;
    OrderlySeen(s, choice);
  }

  lemma OrderlySeen(s: Sys, choice: bool)
    requires OrderlyInv(s)
    ensures s.thread == Handling(TermWindow) ==> s.app.window == s.shown != NULL
    ensures Blocked(s.main, ForWindow) && s.app.window == s.app.pendingWindow && AppEnabled(s)
            ==> Holds(AppStep(s, choice).app, ForWindow)
  {
    var cmds := WindowHand(s.thread) + Coming(s);
    if WindowHand(s.thread) != [] {
      assert cmds[0] == s.thread.cmd;
      assert (WindowHand(s.thread) + s.app.pipe)[0] == s.thread.cmd;
    }
  }
}
