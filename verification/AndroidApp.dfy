/**
 The struct of the native app glue as an object, with the functions that each thread runs inside
 its critical sections. Every method is proved against the step system: `View` is the state that
 the theorems about whole runs speak of.
 */
module AndroidAppObject {
  import G = AppGlue
  import opened AppGlueInvariants

  datatype ReadResult = NoData | Got(cmd: G.Cmd)

  /** The handler of the application, which may store a block for a save request. */
  function Handled(a: G.App, c: G.Cmd, block: nat): G.App {
    if c.SaveState? && block != G.NULL && a.savedState == G.NULL then a.(savedState := block) else a
  }

  /** `process_cmd` on the first command of the pipe. */
  function ProcessOne(a: G.App, block: nat): G.App
    requires a.pipe != []
  {
    var c := a.pipe[0];
    G.PostExecCmd(Handled(G.PreExecCmd(G.ReadCmd(a.(pipe := a.pipe[1..]), c), c), c, block), c)
  }

  class AndroidApp {
    var window: nat
    var pendingWindow: nat
    var inputQueue: nat
    var pendingInputQueue: nat
    var attached: set<nat>
    var activityState: G.Cmd
    var savedState: nat
    var stateSaved: bool
    var destroyRequested: bool
    var destroyed: bool
    var running: bool
    var pipe: seq<G.Cmd>
    ghost var freed: seq<nat>

    ghost function View(): G.App
      reads this
    {
      G.App(window, pendingWindow, inputQueue, pendingInputQueue, attached, activityState,
            savedState, stateSaved, destroyRequested, destroyed, running, pipe, freed)
    }

    /** `android_app_create`: everything is zero, except for a copy of the restored state. */
    constructor (restored: nat)
      ensures View() == G.App(G.NULL, G.NULL, G.NULL, G.NULL, {}, G.InputChanged, restored, false, false, false, false, [], [])
    {
      window, pendingWindow := G.NULL, G.NULL;
      inputQueue, pendingInputQueue, attached := G.NULL, G.NULL, {};
      activityState := G.InputChanged;
      savedState, stateSaved := restored, false;
      destroyRequested, destroyed, running := false, false, false;
      pipe, freed := [], [];
    }

    // -----------------------------------------------------------------------
    // App thread
    // -----------------------------------------------------------------------

    method FreeSavedState()
      modifies this
      ensures View() == G.FreeSavedState(old(View()))
    {
      if savedState != G.NULL {
        freed := freed + [savedState];
        savedState := G.NULL;
      }
    }

    /** Reading from an empty pipe reports an error and changes nothing. */
    method ReadCmd() returns (r: ReadResult)
      modifies this
      ensures old(pipe) == [] ==> r == NoData && View() == old(View())
      ensures old(pipe) != [] ==>
                && r == Got(old(pipe[0]))
                && View() == G.ReadCmd(old(View()).(pipe := old(pipe[1..])), r.cmd)
    {
      if pipe == [] {
        return NoData;
      }
      r := Got(pipe[0]);
      pipe := pipe[1..];
      if r.cmd.SaveState? {
        FreeSavedState();
      }
    }

    method PreExecCmd(cmd: G.Cmd)
      modifies this
      ensures View() == G.PreExecCmd(old(View()), cmd)
    {
      match cmd
      case InputChanged =>
        if inputQueue != G.NULL {
          attached := attached - {inputQueue};
        }
        inputQueue := pendingInputQueue;
        if inputQueue != G.NULL {
          attached := attached + {inputQueue};
        }
      case InitWindow => window := pendingWindow;
      case Enter(_) => activityState := cmd;
      case Destroy => destroyRequested := true;
      case _ =>
    }

    method PostExecCmd(cmd: G.Cmd)
      modifies this
      ensures View() == G.PostExecCmd(old(View()), cmd)
    {
      match cmd
      case TermWindow => window := G.NULL;
      case SaveState => stateSaved := true;
      case Enter(state) => if state.Resume? { FreeSavedState(); }
      case _ =>
    }

    /** `process_cmd`, with the block that the handler of the application stores, if any. */
    method ProcessCmd(block: nat) returns (r: ReadResult)
      modifies this
      ensures old(pipe) == [] ==> r == NoData && View() == old(View())
      ensures old(pipe) != [] ==> r == Got(old(pipe[0])) && View() == ProcessOne(old(View()), block)
    {
      r := ReadCmd();
      if r.Got? {
        PreExecCmd(r.cmd);
        if r.cmd.SaveState? && block != G.NULL && savedState == G.NULL {
          savedState := block;
        }
        PostExecCmd(r.cmd);
      }
    }

    /**
     The event loop of `android_main` for as long as there are commands, with the block stored for each: the
     fields are then what the folds over the commands say, and no pending request has changed. The block that is
     held is the one of the last save request, unless a RESUME came after it; all others have been freed, in
     the order in which they were stored.
     */
    method ProcessPending(blocks: seq<nat>)
      requires |blocks| == |pipe|
      modifies this
      ensures pipe == []
      ensures pendingWindow == old(pendingWindow) && pendingInputQueue == old(pendingInputQueue)
      ensures window == WindowAfter(old(window), old(pendingWindow), old(pipe))
      ensures inputQueue == InputAfter(old(inputQueue), old(pendingInputQueue), old(pipe))
      ensures activityState == StateAfter(old(activityState), old(pipe))
      ensures stateSaved == (old(stateSaved) || G.SaveState in old(pipe))
      ensures destroyRequested == (old(destroyRequested) || G.Destroy in old(pipe))
      ensures Resumed(old(pipe)) ==> savedState == G.NULL
      ensures !Resumed(old(pipe)) ==> forall i :: 0 <= i < |old(pipe)| && LastSave(old(pipe), i) ==> savedState == blocks[i]
      ensures G.SaveState !in old(pipe) && G.Enter(G.Resume) !in old(pipe) ==> savedState == old(savedState)
      ensures freed + Listed(savedState) == old(freed) + Listed(old(savedState)) + StoredIn(old(pipe), blocks)
    {
      hide ProcessOne, Blocks, StoredIn, WindowAfter, InputAfter, StateAfter, SavedAfter, Resumed, LastSave;
      var i := 0;
      ghost var start := View();
      assert blocks[0..] == blocks;
      while pipe != []
        invariant i + |pipe| == |blocks|
        invariant SameOutcome(start, blocks, View(), blocks[i..])
        decreases |pipe|
      {
        ghost var before := View();
        var _ := ProcessCmd(blocks[i]);
        assert blocks[i..][1..] == blocks[i + 1..];
        OneProcessed(start, blocks, before, blocks[i..]);
        i := i + 1;
      }
      AllProcessed(start, blocks, View(), blocks[i..]);
      SavedAfterMeans(start.savedState, start.pipe, blocks);
      SameBlocks(start, View(), StoredIn(start.pipe, blocks));
    }

    // -----------------------------------------------------------------------
    // Activity thread, up to the point where it starts to wait
    // -----------------------------------------------------------------------

    /** Processing what is in the pipe will bring what is pending. */
    ghost predicate Converging()
      reads this
    {
      && WindowAfter(window, pendingWindow, pipe) == pendingWindow
      && InputAfter(inputQueue, pendingInputQueue, pipe) == pendingInputQueue
    }

    method WriteCmd(cmd: G.Cmd)
      modifies this
      ensures View() == G.Write(old(View()), cmd)
    {
      pipe := pipe + [cmd];
    }

    /** The writes of `android_app_set_window` are the steps of a window callback, and will bring the window. */
    method RequestWindow(w: nat, ghost s: G.Sys)
      requires s.app == View() && s.main.Idle? && Converging()
      modifies this
      ensures View() == G.MainStep(G.MainStep(G.Begin(s, G.SetWindow(w)))).app
      ensures Converging() && pendingWindow == w && pendingInputQueue == old(pendingInputQueue)
    {
      hide G.MainStep, G.Begin, WindowAfter, InputAfter;
      WindowWillCome(View(), w);
      WindowSteps(s, w);
      if pendingWindow != G.NULL {
        WriteCmd(G.TermWindow);
      }
      pendingWindow := w;
      if w != G.NULL {
        WriteCmd(G.InitWindow);
      }
      assert pipe == old(pipe) + WindowCmds(old(pendingWindow), w);
    }

    method RequestInput(q: nat, ghost s: G.Sys)
      requires s.app == View() && s.main.Idle? && Converging()
      modifies this
      ensures View() == G.MainStep(G.Begin(s, G.SetInput(q))).app
      ensures Converging() && pendingInputQueue == q && pendingWindow == old(pendingWindow)
    {
      InputWillCome(View(), q);
      pendingInputQueue := q;
      WriteCmd(G.InputChanged);
    }

    /** The state that was asked for last is the one that the commands will leave. */
    method RequestState(x: G.Lifecycle, ghost s: G.Sys)
      requires s.app == View() && s.main.Idle? && Converging()
      modifies this
      ensures View() == G.Begin(s, G.SetState(x)).app
      ensures Converging() && StateAfter(activityState, pipe) == G.Enter(x)
    {
      OtherWillKeep(View(), G.Enter(x));
      WriteCmd(G.Enter(x));
    }

    /** The flag is cleared before the command is written, so that it will be set by the new request. */
    method RequestSave(ghost s: G.Sys)
      requires s.app == View() && s.main.Idle? && Converging()
      modifies this
      ensures View() == G.MainStep(G.Begin(s, G.Save)).app
      ensures Converging() && !stateSaved && G.SaveState in pipe
    {
      OtherWillKeep(View(), G.SaveState);
      stateSaved := false;
      WriteCmd(G.SaveState);
    }

    /** The end of `onSaveInstanceState`: the block changes hands, as in the step system. */
    method TakeSavedState(ghost s: G.Sys) returns (p: nat)
      requires s.app == View()
      modifies this
      ensures View() == G.Return(s, G.ForSaved).app && G.Return(s, G.ForSaved).answers == s.answers + [p]
      ensures Blocks(old(View())) == Blocks(View()) + Listed(p)
    {
      p := G.NULL;
      if savedState != G.NULL {
        p := savedState;
        savedState := G.NULL;
      }
    }
  }

  // -------------------------------------------------------------------------
  // What processing a command does
  // -------------------------------------------------------------------------

  function Listed(p: nat): seq<nat> {
    if p == G.NULL then [] else [p]
  }

  /** The blocks that have been freed, and the one that is held. */
  function Blocks(a: G.App): seq<nat> {
    a.freed + Listed(a.savedState)
  }

  function Stored(c: G.Cmd, block: nat): seq<nat> {
    if c.SaveState? then Listed(block) else []
  }

  /** The blocks that the handler stores while `cmds` are processed. */
  function StoredIn(cmds: seq<G.Cmd>, blocks: seq<nat>): seq<nat>
    requires |blocks| == |cmds|
  {
    if cmds == [] then [] else Stored(cmds[0], blocks[0]) + StoredIn(cmds[1..], blocks[1..])
  }

  /** Some RESUME has no save request behind it. */
  ghost predicate Resumed(cmds: seq<G.Cmd>) {
    exists i :: 0 <= i < |cmds| && cmds[i] == G.Enter(G.Resume) && NoSaveFrom(cmds, i)
  }

  ghost predicate NoSaveFrom(cmds: seq<G.Cmd>, i: nat) {
    forall j :: i <= j < |cmds| ==> !cmds[j].SaveState?
  }

  ghost predicate LastSave(cmds: seq<G.Cmd>, i: nat)
    requires i < |cmds|
  {
    cmds[i].SaveState? && NoSaveFrom(cmds, i + 1)
  }

  function SavedNext(saved: nat, c: G.Cmd, block: nat): nat {
    if c.SaveState? then block else if c == G.Enter(G.Resume) then G.NULL else saved
  }

  function SavedAfter(saved: nat, cmds: seq<G.Cmd>, blocks: seq<nat>): nat
    requires |blocks| == |cmds|
    decreases |cmds|
  {
    if cmds == [] then saved else SavedAfter(SavedNext(saved, cmds[0], blocks[0]), cmds[1..], blocks[1..])
  }

  /** Which block is held in the end, in terms of the last commands that matter. */
  lemma {:induction false} SavedAfterMeans(saved: nat, cmds: seq<G.Cmd>, blocks: seq<nat>)
    requires |blocks| == |cmds|
    ensures var r := SavedAfter(saved, cmds, blocks);
            && (Resumed(cmds) ==> r == G.NULL)
            && (!Resumed(cmds) ==> forall i :: 0 <= i < |cmds| && LastSave(cmds, i) ==> r == blocks[i])
            && (G.SaveState !in cmds && G.Enter(G.Resume) !in cmds ==> r == saved)
    decreases |cmds|
  {
    if cmds != [] {
      var rest := cmds[1..];
      SavedAfterMeans(SavedNext(saved, cmds[0], blocks[0]), rest, blocks[1..]);
      assert cmds == [cmds[0]] + rest;
      SaveShifts(cmds);
      SavedNowhere(SavedNext(saved, cmds[0], blocks[0]), rest, blocks[1..]);
    }
  }

  /** What the first command contributes. */
  lemma SaveShifts(cmds: seq<G.Cmd>)
    requires cmds != []
    ensures NoSaveFrom(cmds, 0) <==> !cmds[0].SaveState? && NoSaveFrom(cmds[1..], 0)
    ensures forall i: nat :: 1 <= i ==> (NoSaveFrom(cmds, i) <==> NoSaveFrom(cmds[1..], i - 1))
    ensures Resumed(cmds) <==> Resumed(cmds[1..]) || (cmds[0] == G.Enter(G.Resume) && NoSaveFrom(cmds[1..], 0))
  {
    var rest := cmds[1..];
    assert forall i :: 0 <= i < |rest| ==> rest[i] == cmds[i + 1];
    forall i: nat | 1 <= i ensures NoSaveFrom(cmds, i) <==> NoSaveFrom(rest, i - 1) {
      assert forall j :: i <= j < |cmds| ==> cmds[j] == rest[j - 1];
    }
    if Resumed(rest) {
      var i :| 0 <= i < |rest| && rest[i] == G.Enter(G.Resume) && NoSaveFrom(rest, i);
      assert cmds[i + 1] == rest[i] && NoSaveFrom(cmds, i + 1);
    }
    if Resumed(cmds) {
      var i :| 0 <= i < |cmds| && cmds[i] == G.Enter(G.Resume) && NoSaveFrom(cmds, i);
      if i > 0 { assert rest[i - 1] == cmds[i] && NoSaveFrom(rest, i - 1); }
    }
  }

  /** Without save requests and RESUME behind it, the first block stays; a RESUME without requests leaves none. */
  lemma {:induction false} SavedNowhere(saved: nat, cmds: seq<G.Cmd>, blocks: seq<nat>)
    requires |blocks| == |cmds|
    ensures NoSaveFrom(cmds, 0) ==> SavedAfter(saved, cmds, blocks) == saved || SavedAfter(saved, cmds, blocks) == G.NULL
    ensures NoSaveFrom(cmds, 0) && !Resumed(cmds) ==> SavedAfter(saved, cmds, blocks) == saved
    decreases |cmds|
  {
    if cmds != [] {
      SaveShifts(cmds);
      SavedNowhere(SavedNext(saved, cmds[0], blocks[0]), cmds[1..], blocks[1..]);
    }
  }

  lemma SameBlocks(a: G.App, b: G.App, more: seq<nat>)
    requires Blocks(b) == Blocks(a) + more
    ensures b.freed + Listed(b.savedState) == a.freed + Listed(a.savedState) + more
  {
  }

  lemma ReadFields(a: G.App, c: G.Cmd)
    ensures var b := G.ReadCmd(a, c);
            && b.pipe == a.pipe && b.pendingWindow == a.pendingWindow && b.pendingInputQueue == a.pendingInputQueue
            && b.window == a.window && b.inputQueue == a.inputQueue && b.activityState == a.activityState
            && b.stateSaved == a.stateSaved && b.destroyRequested == a.destroyRequested
            && Blocks(b) == Blocks(a) && b.savedState == (if c.SaveState? then G.NULL else a.savedState)
  {
  }

  lemma PreExecFields(a: G.App, c: G.Cmd)
    ensures var b := G.PreExecCmd(a, c);
            && b.pipe == a.pipe && b.pendingWindow == a.pendingWindow && b.pendingInputQueue == a.pendingInputQueue
            && b.window == (if c.InitWindow? then a.pendingWindow else a.window)
            && b.inputQueue == (if c.InputChanged? then a.pendingInputQueue else a.inputQueue)
            && b.activityState == (if c.Enter? then c else a.activityState)
            && b.stateSaved == a.stateSaved && b.destroyRequested == (a.destroyRequested || c.Destroy?)
            && b.freed == a.freed && b.savedState == a.savedState
  {
  }

  lemma HandledFields(a: G.App, c: G.Cmd, block: nat)
    requires c.SaveState? ==> a.savedState == G.NULL
    ensures var b := Handled(a, c, block);
            && b.pipe == a.pipe && b.pendingWindow == a.pendingWindow && b.pendingInputQueue == a.pendingInputQueue
            && b.window == a.window && b.inputQueue == a.inputQueue && b.activityState == a.activityState
            && b.stateSaved == a.stateSaved && b.destroyRequested == a.destroyRequested
            && b.freed == a.freed && b.savedState == (if c.SaveState? then block else a.savedState)
  {
  }

  lemma PostExecFields(a: G.App, c: G.Cmd)
    ensures var b := G.PostExecCmd(a, c);
            && b.pipe == a.pipe && b.pendingWindow == a.pendingWindow && b.pendingInputQueue == a.pendingInputQueue
            && b.window == (if c.TermWindow? then G.NULL else a.window)
            && b.inputQueue == a.inputQueue && b.activityState == a.activityState
            && b.stateSaved == (a.stateSaved || c.SaveState?) && b.destroyRequested == a.destroyRequested
            && Blocks(b) == Blocks(a) && b.savedState == (if c == G.Enter(G.Resume) then G.NULL else a.savedState)
  {
  }

  lemma ProcessedOne(a: G.App, block: nat)
    requires a.pipe != []
    ensures var b, c := ProcessOne(a, block), a.pipe[0];
            && b.pipe == a.pipe[1..] && b.pendingWindow == a.pendingWindow && b.pendingInputQueue == a.pendingInputQueue
            && b.window == (if c.InitWindow? then a.pendingWindow else if c.TermWindow? then G.NULL else a.window)
            && b.inputQueue == (if c.InputChanged? then a.pendingInputQueue else a.inputQueue)
            && b.activityState == (if c.Enter? then c else a.activityState)
            && b.stateSaved == (a.stateSaved || c.SaveState?) && b.destroyRequested == (a.destroyRequested || c.Destroy?)
            && Blocks(b) == Blocks(a) + Stored(c, block) && b.savedState == SavedNext(a.savedState, c, block)
  {
    hide G.ReadCmd, G.PreExecCmd, G.PostExecCmd, Handled;
    var c, popped := a.pipe[0], a.(pipe := a.pipe[1..]);
    var a1 := G.ReadCmd(popped, c);
    var a2 := G.PreExecCmd(a1, c);
    ReadFields(popped, c);
    PreExecFields(a1, c);
    HandledFields(a2, c, block);
    PostExecFields(Handled(a2, c, block), c);
  }

  /** Processing the pipe of `a` and that of `b` leads to the same. */
  ghost predicate SameOutcome(a: G.App, blocks: seq<nat>, b: G.App, rest: seq<nat>) {
    && |blocks| == |a.pipe| && |rest| == |b.pipe|
    && b.pendingWindow == a.pendingWindow && b.pendingInputQueue == a.pendingInputQueue
    && WindowAfter(b.window, b.pendingWindow, b.pipe) == WindowAfter(a.window, a.pendingWindow, a.pipe)
    && InputAfter(b.inputQueue, b.pendingInputQueue, b.pipe) == InputAfter(a.inputQueue, a.pendingInputQueue, a.pipe)
    && StateAfter(b.activityState, b.pipe) == StateAfter(a.activityState, a.pipe)
    && (b.stateSaved || G.SaveState in b.pipe) == (a.stateSaved || G.SaveState in a.pipe)
    && (b.destroyRequested || G.Destroy in b.pipe) == (a.destroyRequested || G.Destroy in a.pipe)
    && SavedAfter(b.savedState, b.pipe, rest) == SavedAfter(a.savedState, a.pipe, blocks)
    && Blocks(b) + StoredIn(b.pipe, rest) == Blocks(a) + StoredIn(a.pipe, blocks)
  }

  /** One processed command is one step of the folds. */
  lemma ProcessedFields(a: G.App, blocks: seq<nat>)
    requires a.pipe != [] && |blocks| == |a.pipe|
    ensures SameOutcome(a, blocks, ProcessOne(a, blocks[0]), blocks[1..])
  {
    hide ProcessOne, Blocks, Stored;
    ProcessedOne(a, blocks[0]);
    assert a.pipe == [a.pipe[0]] + a.pipe[1..];
    var first, others := Stored(a.pipe[0], blocks[0]), StoredIn(a.pipe[1..], blocks[1..]);
    assert (Blocks(a) + first) + others == Blocks(a) + (first + others);
  }

  lemma OneProcessed(start: G.App, blocks: seq<nat>, a: G.App, rest: seq<nat>)
    requires SameOutcome(start, blocks, a, rest) && a.pipe != []
    ensures SameOutcome(start, blocks, ProcessOne(a, rest[0]), rest[1..])
  {
    hide ProcessOne, Blocks, StoredIn, WindowAfter, InputAfter, StateAfter, SavedAfter;
    ProcessedFields(a, rest);
  }

  lemma AllProcessed(start: G.App, blocks: seq<nat>, a: G.App, rest: seq<nat>)
    requires SameOutcome(start, blocks, a, rest) && a.pipe == []
    ensures a.pendingWindow == start.pendingWindow && a.pendingInputQueue == start.pendingInputQueue
    ensures a.window == WindowAfter(start.window, start.pendingWindow, start.pipe)
    ensures a.inputQueue == InputAfter(start.inputQueue, start.pendingInputQueue, start.pipe)
    ensures a.activityState == StateAfter(start.activityState, start.pipe)
    ensures a.stateSaved == (start.stateSaved || G.SaveState in start.pipe)
    ensures a.destroyRequested == (start.destroyRequested || G.Destroy in start.pipe)
    ensures Blocks(a) == Blocks(start) + StoredIn(start.pipe, blocks)
    ensures a.savedState == SavedAfter(start.savedState, start.pipe, blocks)
  {
    hide Blocks;
    assert Blocks(a) + [] == Blocks(a);
  }

  // -------------------------------------------------------------------------
  // What a request does to the commands
  // -------------------------------------------------------------------------

  function WindowCmds(before: nat, w: nat): seq<G.Cmd> {
    (if before != G.NULL then [G.TermWindow] else []) + (if w != G.NULL then [G.InitWindow] else [])
  }

  lemma WindowSteps(s: G.Sys, w: nat)
    requires s.main.Idle?
    ensures G.MainEnabled(G.Begin(s, G.SetWindow(w))) && G.MainEnabled(G.MainStep(G.Begin(s, G.SetWindow(w))))
    ensures G.MainStep(G.MainStep(G.Begin(s, G.SetWindow(w)))).app
            == s.app.(pendingWindow := w, pipe := s.app.pipe + WindowCmds(s.app.pendingWindow, w))
  {
    var t := G.WindowRequested(s, w);
    var u := G.PendingAssigned(t, w);
    assert G.MainStep(G.Begin(s, G.SetWindow(w))) == u;
    assert u.app.pipe + (if w != G.NULL then [G.InitWindow] else []) == s.app.pipe + WindowCmds(s.app.pendingWindow, w);
  }

  lemma WindowWillCome(a: G.App, w: nat)
    requires WindowAfter(a.window, a.pendingWindow, a.pipe) == a.pendingWindow
    requires InputAfter(a.inputQueue, a.pendingInputQueue, a.pipe) == a.pendingInputQueue
    ensures WindowAfter(a.window, w, a.pipe + WindowCmds(a.pendingWindow, w)) == w
    ensures InputAfter(a.inputQueue, a.pendingInputQueue, a.pipe + WindowCmds(a.pendingWindow, w)) == a.pendingInputQueue
  {
    var more := WindowCmds(a.pendingWindow, w);
    WindowAfterAppend(a.window, w, a.pipe, more);
    InputAfterAppend(a.inputQueue, a.pendingInputQueue, a.pipe, more);
    if w == G.NULL && a.pendingWindow == G.NULL {
      assert a.pipe + more == a.pipe;
    } else if w != G.NULL {
      var first := if a.pendingWindow != G.NULL then [G.TermWindow] else [];
      WindowAfterAppend(WindowAfter(a.window, w, a.pipe), w, first, [G.InitWindow]);
    }
    if more != [] { InputAfterAppend(a.pendingInputQueue, a.pendingInputQueue, more[..1], more[1..]); }
  }

  lemma InputWillCome(a: G.App, q: nat)
    requires WindowAfter(a.window, a.pendingWindow, a.pipe) == a.pendingWindow
    ensures WindowAfter(a.window, a.pendingWindow, a.pipe + [G.InputChanged]) == a.pendingWindow
    ensures InputAfter(a.inputQueue, q, a.pipe + [G.InputChanged]) == q
  {
    WindowAfterAppend(a.window, a.pendingWindow, a.pipe, [G.InputChanged]);
    InputAfterAppend(a.inputQueue, q, a.pipe, [G.InputChanged]);
  }

  lemma {:induction false} StateAfterAppend(state: G.Cmd, xs: seq<G.Cmd>, c: G.Cmd)
    ensures StateAfter(state, xs + [c]) == if c.Enter? then c else StateAfter(state, xs)
    decreases |xs|
  {
    if xs == [] {
      assert xs + [c] == [c] && [c][1..] == [];
    } else {
      assert (xs + [c])[1..] == xs[1..] + [c];
      StateAfterAppend(if xs[0].Enter? then xs[0] else state, xs[1..], c);
    }
  }

  lemma OtherWillKeep(a: G.App, c: G.Cmd)
    requires WindowAfter(a.window, a.pendingWindow, a.pipe) == a.pendingWindow
    requires InputAfter(a.inputQueue, a.pendingInputQueue, a.pipe) == a.pendingInputQueue
    requires !c.InitWindow? && !c.TermWindow?
    ensures WindowAfter(a.window, a.pendingWindow, a.pipe + [c]) == a.pendingWindow
    ensures InputAfter(a.inputQueue, a.pendingInputQueue, a.pipe + [c]) == a.pendingInputQueue
    ensures StateAfter(a.activityState, a.pipe + [c]) == if c.Enter? then c else StateAfter(a.activityState, a.pipe)
  {
    WindowAfterAppend(a.window, a.pendingWindow, a.pipe, [c]);
    InputAfterAppend(a.inputQueue, a.pendingInputQueue, a.pipe, [c]);
    StateAfterAppend(a.activityState, a.pipe, c);
  }

  // -------------------------------------------------------------------------
  // The object and the step system
  // -------------------------------------------------------------------------

  const A := G.AppMove(false)

  lemma RunFirst(s: G.Sys, mv: G.Move, ms: seq<G.Move>)
    requires G.Enabled(s, mv) && G.ValidRun(G.Apply(s, mv), ms)
    ensures G.ValidRun(s, [mv] + ms) && G.Run(s, [mv] + ms) == G.Run(G.Apply(s, mv), ms)
  {
    hide G.Apply, G.Enabled;
    assert ([mv] + ms)[1..] == ms;
  }

  lemma RunNothing(s: G.Sys)
    ensures G.ValidRun(s, []) && G.Run(s, []) == s
  {
  }

  /** The end of processing a command, from its handler on. */
  lemma HandlerToEnd(s: G.Sys, c: G.Cmd)
    requires s.thread == G.Handling(c) && !G.MainOwnsMutex(s.main)
    ensures G.ValidRun(s, [A] + ([A] + [])) && G.Run(s, [A] + ([A] + [])).app == G.PostExecCmd(s.app, c)
  {
    var t := s.(thread := G.PostExec(c));
    assert G.Apply(s, A) == t;
    assert G.Apply(t, A) == G.PostExecuted(t, c);
    RunNothing(G.Apply(t, A));
    RunFirst(t, A, []);
    RunFirst(s, A, [A] + []);
  }

  /** Where three steps lead: the handler of the first command is about to run. */
  function AtHandler(s: G.Sys): G.Sys
    requires s.app.pipe != []
  {
    G.PreExecuted(G.Prepared(G.Fetched(s), s.app.pipe[0]), s.app.pipe[0])
  }

  lemma BeginningToHandler(s: G.Sys, rest: seq<G.Move>)
    requires s.thread.Polling? && s.app.pipe != [] && !G.MainOwnsMutex(s.main)
    ensures var c, popped, t := s.app.pipe[0], s.app.(pipe := s.app.pipe[1..]), AtHandler(s);
            && t.thread == G.Handling(c) && !G.MainOwnsMutex(t.main) && t.blocks == s.blocks
            && t.app == G.PreExecCmd(G.ReadCmd(popped, c), c)
    ensures G.ValidRun(AtHandler(s), rest) ==>
              && G.ValidRun(s, [A] + ([A] + ([A] + rest)))
              && G.Run(s, [A] + ([A] + ([A] + rest))) == G.Run(AtHandler(s), rest)
  {
    hide G.ReadCmd, G.PreExecCmd;
    var c := s.app.pipe[0];
    var s1 := G.Fetched(s);
    var s2 := G.Prepared(s1, c);
    var t := G.PreExecuted(s2, c);
    assert G.Apply(s, A) == s1 && G.Apply(s1, A) == s2 && G.Apply(s2, A) == t;
    if G.ValidRun(t, rest) {
      RunFirst(s2, A, rest);
      RunFirst(s1, A, [A] + rest);
      RunFirst(s, A, [A] + ([A] + rest));
    }
  }

  /** Five steps of the app thread do to the struct what `process_cmd` does, six if the handler stores a block. */
  lemma ProcessIsRun(s: G.Sys)
    requires s.thread.Polling? && s.app.pipe != [] && !G.MainOwnsMutex(s.main)
    ensures G.ValidRun(s, [A, A, A, A, A]) && G.Run(s, [A, A, A, A, A]).app == ProcessOne(s.app, G.NULL)
    ensures s.app.pipe[0].SaveState? ==>
              var ms := [A, A, A, G.AppMove(true), A, A];
              G.ValidRun(s, ms) && G.Run(s, ms).app == ProcessOne(s.app, s.blocks + 1)
  {
    hide G.ValidRun, G.Run;
    var c, end := s.app.pipe[0], [A] + ([A] + []);
    var t := AtHandler(s);
    BeginningToHandler(s, end);
    HandlerToEnd(t, c);
    assert [A, A, A, A, A] == [A] + ([A] + ([A] + end));
    if c.SaveState? {
      var store := [G.AppMove(true)] + end;
      BeginningToHandler(s, store);
      assert t.app.savedState == G.NULL;
      var u := G.Apply(t, G.AppMove(true));
      assert u == G.StoredBlock(t);
      HandlerToEnd(u, c);
      RunFirst(t, G.AppMove(true), end);
      assert [A, A, A, G.AppMove(true), A, A] == [A] + ([A] + ([A] + store));
    }
  }
}
