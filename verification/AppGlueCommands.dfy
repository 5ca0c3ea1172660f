/** What becomes of the commands of the native app glue: all are handled, in order, and RESUME drops the saved state. */
module AppGlueCommands {
  import opened AppGlue
  import opened AppGlueInvariants
  import opened AppGlueSteps
  import opened AppGlueTheorems

  const A := AppMove(false)

  // -------------------------------------------------------------------------
  // Every command is handled
  // -------------------------------------------------------------------------

  /** The app thread is in its event loop and can have the mutex. */
  predicate Going(s: Sys) {
    !MainOwnsMutex(s.main) && !s.thread.Entry? && !Leaving(s.thread)
  }

  lemma GoingStep(s: Sys)
    requires Going(s) && (s.thread.Polling? ==> s.app.pipe != [])
    ensures AppEnabled(s) && Going(Apply(s, A)) && Rank(Apply(s, A)) < Rank(s)
    ensures s.thread.Polling? ==> Apply(s, A).thread == Reading(s.app.pipe[0]) && Apply(s, A).app.pipe == s.app.pipe[1..]
    ensures !s.thread.Polling? ==> Apply(s, A).app.pipe == s.app.pipe
    ensures s.thread.Reading? ==> Apply(s, A).thread == PreExec(s.thread.cmd)
    ensures s.thread.PreExec? ==> Apply(s, A).thread == Handling(s.thread.cmd)
  {
    AppStepLowersRank(s, false);
  }

  lemma MoveFirst(s: Sys, ms: seq<Move>)
    requires Enabled(s, A) && ValidRun(Apply(s, A), ms) && AppOnly(ms)
    ensures AppOnly([A] + ms) && ValidRun(s, [A] + ms) && Run(s, [A] + ms) == Run(Apply(s, A), ms)
  {
    hide Apply, Enabled;
    assert ([A] + ms)[1..] == ms;
  }

  lemma Already(s: Sys)
    ensures AppOnly([]) && ValidRun(s, []) && Run(s, []) == s
  {
  }

  /** On its own, the app thread comes to handle any command in the pipe, after those in front of it. */
  lemma {:induction false} CommandHandled(s: Sys, i: nat) returns (ms: seq<Move>)
    requires Going(s) && i < |s.app.pipe|
    ensures AppOnly(ms) && ValidRun(s, ms)
    ensures Run(s, ms).thread == Handling(s.app.pipe[i]) && Run(s, ms).app.pipe == s.app.pipe[i + 1..]
    decreases Rank(s)
  {
    GoingStep(s);
    hide AppOnly, ValidRun, Run, Apply, AppEnabled;
    var t := Apply(s, A);
    var rest;
    if s.thread.Polling? && i == 0 {
      rest := HandledSoon(t);
    } else if s.thread.Polling? {
      rest := CommandHandled(t, i - 1);
    } else {
      rest := CommandHandled(t, i);
    }
    ms := [A] + rest;
    CanGo(s);
    MoveFirst(s, rest);
  }

  lemma CanGo(s: Sys)
    requires AppEnabled(s)
    ensures Enabled(s, A)
  {
  }

  lemma HandledSoon(s: Sys) returns (ms: seq<Move>)
    requires Going(s) && s.thread.Reading?
    ensures AppOnly(ms) && ValidRun(s, ms) && Run(s, ms).thread == Handling(s.thread.cmd) && Run(s, ms).app.pipe == s.app.pipe
  {
    GoingStep(s);
    GoingStep(Apply(s, A));
    hide Apply, AppEnabled;
    var t := Apply(s, A);
    CanGo(s);
    CanGo(t);
    Already(Apply(t, A));
    MoveFirst(t, []);
    MoveFirst(s, [A] + []);
    ms := [A] + ([A] + []);
  }

  /**
   A notice (a change of focus or configuration, or low memory) reaches its handler: from any reachable state
   without a callback in progress, announcing it lets the app thread, on its own, come to handle it.
   */
  lemma NoticeHandled(restored: bool, ms: seq<Move>, n: Notice)
    requires ValidRun(Init(restored), ms) && Run(Init(restored), ms).main.Idle?
    ensures var s := Apply(Run(Init(restored), ms), Callback(Announce(n)));
            exists own :: AppOnly(own) && ValidRun(s, own) && Run(s, own).thread == Handling(Tell(n)) && Run(s, own).app.pipe == []
  {
    hide Init;
    ReachableInv(restored, ms);
    var r := Run(Init(restored), ms);
    NoticeWritten(r, n);
    hide Apply, Inv;
    var s := Apply(r, Callback(Announce(n)));
    var own := CommandHandled(s, |s.app.pipe| - 1);
  }

  lemma NoticeWritten(r: Sys, n: Notice)
    requires Inv(r) && r.main.Idle?
    ensures var s := Apply(r, Callback(Announce(n))); Going(s) && s.app.pipe == r.app.pipe + [Tell(n)]
  {
  }

  // -------------------------------------------------------------------------
  // RESUME drops the saved state
  // -------------------------------------------------------------------------

  predicate NoSaveCall(ms: seq<Move>) {
    forall i :: 0 <= i < |ms| ==> !(ms[i].Callback? && ms[i].call.Save?)
  }

  /** No block is held, and no save request is on its way. */
  predicate Forgotten(s: Sys) {
    && s.app.savedState == NULL && !Awaits(s.main, ForSaved)
    && !InHand(s.thread, SaveState) && Absent(SaveState, s.app.pipe)
  }

  lemma AppStepForgets(s: Sys, choice: bool)
    requires AppEnabled(s) && Forgotten(s)
    ensures Forgotten(AppStep(s, choice))
  {
    if s.thread.PreExec? {
      hide PreExecCmd;
      PreExecLeaves(s.app, s.thread.cmd);
    }
  }

  lemma BeginForgets(s: Sys, call: Call)
    requires s.main.Idle? && Forgotten(s) && !call.Save?
    ensures Forgotten(Begin(s, call))
  {
  }

  lemma MainStepForgets(s: Sys)
    requires MainEnabled(s) && Forgotten(s)
    ensures Forgotten(MainStep(s))
  {
  }

  lemma MoveForgets(s: Sys, mv: Move)
    requires Enabled(s, mv) && Forgotten(s) && NoSaveCall([mv])
    ensures Forgotten(Apply(s, mv))
  {
    hide AppStep, Begin, MainStep;
    assert [mv][0] == mv;
    match mv
    case AppMove(choice) => AppStepForgets(s, choice);
    case Callback(call) => BeginForgets(s, call);
    case MainMove => MainStepForgets(s);
    case SpuriousWake =>
  }

  lemma {:induction false} RunForgets(s: Sys, ms: seq<Move>)
    requires ValidRun(s, ms) && Forgotten(s) && NoSaveCall(ms)
    ensures Forgotten(Run(s, ms))
    decreases |ms|
  {
    hide Forgotten, Apply, Enabled;
    if ms != [] {
      MoveForgets(s, ms[0]);
      RunForgets(Apply(s, ms[0]), ms[1..]);
    }
  }

  /**
   Once a RESUME has been processed while no save request is on its way, the saved state is gone, and it stays
   so over every continuation until the framework asks for a state to be saved; a block that was held when
   the RESUME was processed has been freed by it.
   */
  lemma ResumeForgets(restored: bool, ms: seq<Move>, choice: bool, later: seq<Move>)
    requires ValidRun(Init(restored), ms)
    requires var s := Run(Init(restored), ms);
             && s.thread == PostExec(Enter(Resume)) && AppEnabled(s) && !Awaits(s.main, ForSaved)
             && ValidRun(AppStep(s, choice), later) && NoSaveCall(later)
    ensures var s := Run(Init(restored), ms); var t := AppStep(s, choice);
            && t.app.freed == s.app.freed + (if s.app.savedState == NULL then [] else [s.app.savedState])
            && Run(t, later).app.savedState == NULL
  {
    hide Init;
    ReachableInv(restored, ms);
    var s := Run(Init(restored), ms);
    ResumeProcessed(s, choice);
    hide AppStep, Inv;
    RunForgets(AppStep(s, choice), later);
  }

  lemma ResumeProcessed(s: Sys, choice: bool)
    requires Inv(s) && s.thread == PostExec(Enter(Resume)) && AppEnabled(s) && !Awaits(s.main, ForSaved)
    ensures var t := AppStep(s, choice);
            Forgotten(t) && t.app.freed == s.app.freed + if s.app.savedState == NULL then [] else [s.app.savedState]
  {
    hide Handshake, Ownership;
  }
}
