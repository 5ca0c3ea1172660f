/** Runs in which the window that is already there is announced again. */
module AppGlueExamples {
  import opened AppGlue
  import opened AppGlueWindows
  import opened AppGlueDiscipline

  ghost predicate Reaches(s: Sys, t: Sys) {
    exists ms :: ValidRun(s, ms) && Run(s, ms) == t
  }

  lemma {:induction false} RunsChain(s: Sys, ms: seq<Move>, more: seq<Move>)
    requires ValidRun(s, ms) && ValidRun(Run(s, ms), more)
    ensures ValidRun(s, ms + more) && Run(s, ms + more) == Run(Run(s, ms), more)
    decreases |ms|
  {
    hide Apply, Enabled;
    if ms == [] {
      assert ms + more == more;
    } else {
      assert (ms + more)[1..] == ms[1..] + more;
      RunsChain(Apply(s, ms[0]), ms[1..], more);
    }
  }

  lemma Reach(s: Sys, t: Sys, mv: Move)
    requires Reaches(s, t) && Enabled(t, mv)
    ensures Reaches(s, Apply(t, mv))
  {
    hide Apply, Enabled;
    var ms :| ValidRun(s, ms) && Run(s, ms) == t;
    assert [mv][1..] == [];
    assert ValidRun(t, [mv]) && Run(t, [mv]) == Apply(t, mv);
    RunsChain(s, ms, [mv]);
  }

  lemma ReachOn(s: Sys, t: Sys, u: Sys)
    requires Reaches(s, t) && Leads(t, u)
    ensures Reaches(s, u)
  {
    hide Apply, Enabled;
    var ms :| ValidRun(s, ms) && Run(s, ms) == t;
    var more :| ValidRun(t, more) && DisciplinedRun(t, more) && Run(t, more) == u;
    RunsChain(s, ms, more);
  }

  /** A state after the start-up in which only the window 7 has been of interest. */
  function Early(window: nat, pending: nat, pipe: seq<Cmd>, main: MainPc, thread: ThreadPc): Sys {
    Sys(App(window, pending, NULL, NULL, {}, InputChanged, NULL, false, false, false, true, pipe, []),
        main, thread, 0, [], map[], [], InputChanged, NULL)
  }

  lemma WindowAnnounced()
    ensures Reaches(Init(false), Early(NULL, 7, [InitWindow], Asleep(ForWindow), Polling))
  {
    var s := Init(false);
    assert ValidRun(s, []) && Run(s, []) == s;
    hide Reaches;
    Reach(s, s, A);
    var s1 := Apply(s, A);
    Reach(s, s1, M);
    Reach(s, Apply(s1, M), M);
    var s2 := Apply(Apply(s1, M), M);
    assert s2 == Early(NULL, NULL, [], Idle, Polling);
    Reach(s, s2, Callback(SetWindow(7)));
    var s3 := Apply(s2, Callback(SetWindow(7)));
    Reach(s, s3, M);
    Reach(s, Apply(s3, M), M);
    Reach(s, Apply(Apply(s3, M), M), M);
  }

  lemma WindowShown()
    ensures Reaches(Init(false), Early(7, 7, [], Idle, Handling(InitWindow)))
  {
    var s := Init(false);
    hide Reaches, Init;
    WindowAnnounced();
    var s4 := Early(NULL, 7, [InitWindow], Asleep(ForWindow), Polling);
    Reach(s, s4, A);
    Reach(s, Apply(s4, A), A);
    Reach(s, Apply(Apply(s4, A), A), A);
    var s5 := Apply(Apply(Apply(s4, A), A), A);
    assert s5 == Early(7, 7, [], Woken(ForWindow), Handling(InitWindow));
    Reach(s, s5, M);
    Reach(s, Apply(s5, M), M);
  }

  lemma WindowRepeated()
    ensures var t := Early(7, 7, [], Idle, Handling(InitWindow));
            Showing(t, 7) && Reaches(Init(false), Apply(t, Callback(SetWindow(7))))
  {
    hide Reaches, Init;
    WindowShown();
    Reach(Init(false), Early(7, 7, [], Idle, Handling(InitWindow)), Callback(SetWindow(7)));
  }

  /** A reachable state in which the handler of TERM_WINDOW finds no window. */
  lemma TermHandlerMaySeeNull()
    ensures exists t :: Reaches(Init(false), t) && NullSeen(t)
  {
    hide Init, Reaches, NullSeen;
    WindowRepeated();
    var t := Early(7, 7, [], Idle, Handling(InitWindow));
    var u := RepeatedSeesNull(t, 7);
    ReachOn(Init(false), Apply(t, Callback(SetWindow(7))), u);
  }

  /**
   A reachable state in which the waiter for a new window has been woken and finds its condition
   true, and an own step of the app thread that makes it false again.
   */
  lemma WindowConditionMayFlicker()
    ensures exists t :: Reaches(Init(false), t) && Flickers(t)
  {
    hide Init, Reaches, Flickers;
    WindowRepeated();
    var t := Early(7, 7, [], Idle, Handling(InitWindow));
    var u := RepeatedFlickers(t, 7);
    ReachOn(Init(false), Apply(t, Callback(SetWindow(7))), u);
  }
}
