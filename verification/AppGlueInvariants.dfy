/**
 What every step of the native app glue keeps. Each predicate below talks about the commands that
 are still to take effect: the one the app thread has in hand, the ones in the pipe, and the one
 the activity thread is committed to write before it starts to wait.
 */
module AppGlueInvariants {
  import opened AppGlue

  /** The condition that the callback in progress is heading for, if any. */
  predicate Awaits(m: MainPc, c: Cond) {
    match m
    case WindowLocked(_) => c == ForWindow
    case WindowPending(_) => c == ForWindow
    case InputLocked => c == ForInput
    case SaveLocked => c == ForSaved
    case Check(d) => c == d
    case Asleep(d) => c == d
    case Woken(d) => c == d
    case _ => false
  }

  function Owed(m: MainPc): seq<Cmd> {
    match m
    case WindowLocked(w) => if w != NULL then [InitWindow] else []
    case WindowPending(w) => if w != NULL then [InitWindow] else []
    case InputLocked => [InputChanged]
    case SaveLocked => [SaveState]
    case _ => []
  }

  /** The command in hand, if its pre-processing has not been done. */
  function Unprepared(t: ThreadPc): seq<Cmd> {
    match t
    case Reading(c) => [c]
    case PreExec(c) => [c]
    case _ => []
  }

  /** The command in hand, if its effect on `window` has not been applied. */
  function WindowHand(t: ThreadPc): seq<Cmd> {
    match t
    case Handling(c) => if c.TermWindow? then [c] else []
    case PostExec(c) => if c.TermWindow? then [c] else []
    case _ => Unprepared(t)
  }

  predicate InHand(t: ThreadPc, c: Cmd) {
    match t
    case Reading(d) => c == d
    case PreExec(d) => c == d
    case Handling(d) => c == d
    case PostExec(d) => c == d
    case _ => false
  }

  predicate PreExecDone(t: ThreadPc, c: Cmd) {
    t == Handling(c) || t == PostExec(c)
  }

  function Coming(s: Sys): seq<Cmd> {
    s.app.pipe + Owed(s.main)
  }

  /** `pendingWindow`, or what it is about to become. */
  function Announced(s: Sys): nat {
    if s.main.WindowLocked? then s.main.w else s.app.pendingWindow
  }

  // ---------------------------------------------------------------------------
  // Processing a list of commands, one field at a time
  // ---------------------------------------------------------------------------

  function WindowAfter(window: nat, pending: nat, cmds: seq<Cmd>): nat
    decreases |cmds|
  {
    if cmds == [] then window
    else
      WindowAfter(if cmds[0].InitWindow? then pending else if cmds[0].TermWindow? then NULL else window,
                  pending, cmds[1..])
  }

  function InputAfter(queue: nat, pending: nat, cmds: seq<Cmd>): nat
    decreases |cmds|
  {
    if cmds == [] then queue
    else InputAfter(if cmds[0].InputChanged? then pending else queue, pending, cmds[1..])
  }

  function StateAfter(state: Cmd, cmds: seq<Cmd>): Cmd
    decreases |cmds|
  {
    if cmds == [] then state
    else StateAfter(if cmds[0].Enter? then cmds[0] else state, cmds[1..])
  }

  /** Every state command in `cmds` is `c`. */
  predicate OnlyState(cmds: seq<Cmd>, c: Cmd) {
    forall i :: 0 <= i < |cmds| && cmds[i].Enter? ==> cmds[i] == c
  }

  /** Processing `cmds` from `state` never leaves `goal` once it has been reached, and reaches it. */
  predicate Settles(state: Cmd, goal: Cmd, cmds: seq<Cmd>) {
    if state == goal then OnlyState(cmds, goal)
    else if cmds == [] then false
    else if cmds[0].Enter? && cmds[0] != state then
      cmds[0] == goal && OnlyState(cmds[1..], goal)
    else Settles(state, goal, cmds[1..])
  }

  predicate NoWindowCmd(cmds: seq<Cmd>) {
    forall i :: 0 <= i < |cmds| ==> !cmds[i].InitWindow? && !cmds[i].TermWindow?
  }

  /**
   Processing `cmds` takes `window` to `pending` in an orderly way: each TERM finds the window `was`,
   each INIT finds none and brings one, and nothing is left once the goal has been reached.
   */
  predicate Orderly(window: nat, was: nat, pending: nat, cmds: seq<Cmd>)
    decreases |cmds|
  {
    if window == pending then NoWindowCmd(cmds)
    else if cmds == [] then false
    else if cmds[0].TermWindow? then window != NULL && window == was && Orderly(NULL, was, pending, cmds[1..])
    else if cmds[0].InitWindow? then window == NULL && Orderly(pending, was, pending, cmds[1..])
    else Orderly(window, was, pending, cmds[1..])
  }

  predicate Absent(c: Cmd, cmds: seq<Cmd>) {
    forall i :: 0 <= i < |cmds| ==> cmds[i] != c
  }

  /** `c` occurs in `cmds` once, at the end. */
  predicate OnlyLast(c: Cmd, cmds: seq<Cmd>) {
    && cmds != [] && cmds[|cmds| - 1] == c
    && forall i :: 0 <= i < |cmds| - 1 ==> cmds[i] != c
  }

  /** `c` is on its way: in hand with nothing behind it, or at the very end of the pipe. */
  predicate OnItsWay(c: Cmd, t: ThreadPc, pipe: seq<Cmd>) {
    if InHand(t, c) then pipe == [] else OnlyLast(c, pipe)
  }

  // ---------------------------------------------------------------------------
  // The invariant
  // ---------------------------------------------------------------------------

  predicate WindowInv(s: Sys) {
    && WindowAfter(s.app.window, Announced(s), WindowHand(s.thread) + Coming(s)) == Announced(s)
    && (s.main.WindowPending? ==> s.app.pendingWindow == s.main.w)
    && (!Awaits(s.main, ForWindow) && s.app.pendingWindow == NULL ==> s.app.window == NULL)
  }

  predicate InputInv(s: Sys) {
    && InputAfter(s.app.inputQueue, s.app.pendingInputQueue, Unprepared(s.thread) + Coming(s)) == s.app.pendingInputQueue
    && (!Awaits(s.main, ForInput) ==> s.app.inputQueue == s.app.pendingInputQueue)
    && s.app.attached == if s.thread.Exited? || s.app.inputQueue == NULL then {} else {s.app.inputQueue}
  }

  predicate StateInv(s: Sys) {
    && Settles(s.app.activityState, s.lastState, Unprepared(s.thread) + Coming(s))
    && (forall x :: Awaits(s.main, ForState(x)) ==> s.lastState == Enter(x))
    && (s.app.activityState == s.lastState || (s.lastState.Enter? && Awaits(s.main, ForState(s.lastState.state))))
  }

  predicate SaveInv(s: Sys) {
    && (if Awaits(s.main, ForSaved) && !s.main.SaveLocked? && !s.app.stateSaved
        then OnItsWay(SaveState, s.thread, s.app.pipe)
        else !InHand(s.thread, SaveState) && Absent(SaveState, s.app.pipe))
    && (Awaits(s.main, ForSaved) && s.app.stateSaved ==> s.thread.Polling? && s.app.pipe == [])
    && (s.main.SaveLocked? ==> !s.app.stateSaved)
  }

  predicate Leaving(t: ThreadPc) {
    t.Destroying? || t.Detaching? || t.Exited?
  }

  predicate LifeInv(s: Sys) {
    && (s.thread.Entry? ==> Awaits(s.main, ForRunning) && s.app.pipe == [])
    && (s.app.running <==> !s.thread.Entry?)
    && (Leaving(s.thread) ==> s.app.destroyRequested)
    && (s.app.destroyed <==> s.thread.Exited?)
    && (s.main.Gone? ==> s.thread.Exited?)
  }

  predicate DestroyInv(s: Sys) {
    if s.app.destroyRequested then
      && (Awaits(s.main, ForDestroyed) || s.main.Gone?)
      && s.app.pipe == []
      && (s.thread.Polling? || PreExecDone(s.thread, Destroy) || Leaving(s.thread))
    else if Awaits(s.main, ForDestroyed) then
      OnItsWay(Destroy, s.thread, s.app.pipe) && !PreExecDone(s.thread, Destroy)
    else
      !InHand(s.thread, Destroy) && Absent(Destroy, s.app.pipe)
  }

  /** No wake-up is lost: the activity thread sleeps only while its condition is false. */
  predicate WakeInv(s: Sys) {
    s.main.Asleep? ==> !Holds(s.app, s.main.c)
  }

  /** The identities of the first `n` blocks, each once. */
  function Ids(n: nat): multiset<nat> {
    if n == 0 then multiset{} else Ids(n - 1) + multiset{n}
  }

  function Held(p: nat): multiset<nat> {
    if p == NULL then multiset{} else multiset{p}
  }

  /** Every block allocated so far is in one place: freed, handed over, or in `savedState`. */
  predicate BlockInv(s: Sys) {
    multiset(s.app.freed) + multiset(s.handed) + Held(s.app.savedState) == Ids(s.blocks)
  }

  /** The pointer stored for request `r`. */
  function StoredFor(s: Sys, r: nat): nat {
    if r in s.stored then s.stored[r] else NULL
  }

  predicate AnswerInv(s: Sys) {
    && (forall r :: 0 <= r < |s.answers| ==> s.answers[r] == StoredFor(s, r))
    && (forall r :: r in s.stored ==> r < |s.answers| || (r == |s.answers| && Awaits(s.main, ForSaved)))
    && (if PreExecDone(s.thread, SaveState) || (Awaits(s.main, ForSaved) && s.app.stateSaved)
        then s.app.savedState == StoredFor(s, |s.answers|)
        else |s.answers| !in s.stored)
    && (s.thread == PreExec(SaveState) ==> s.app.savedState == NULL)
    && (s.thread.Detaching? || s.thread.Exited? ==> s.app.savedState == NULL)
  }

  predicate Handshake(s: Sys) {
    WindowInv(s) && InputInv(s) && StateInv(s) && WakeInv(s)
  }

  predicate Endings(s: Sys) {
    SaveInv(s) && LifeInv(s) && DestroyInv(s)
  }

  predicate Ownership(s: Sys) {
    BlockInv(s) && AnswerInv(s)
  }

  predicate Inv(s: Sys) {
    Handshake(s) && Endings(s) && Ownership(s)
  }

  // ---------------------------------------------------------------------------
  // Appending commands
  // ---------------------------------------------------------------------------

  lemma {:induction false} WindowAfterAppend(window: nat, pending: nat, xs: seq<Cmd>, more: seq<Cmd>)
    ensures WindowAfter(window, pending, xs + more) == WindowAfter(WindowAfter(window, pending, xs), pending, more)
    decreases |xs|
  {
    if xs == [] {
      assert xs + more == more;
    } else {
      assert (xs + more)[1..] == xs[1..] + more;
      var w := if xs[0].InitWindow? then pending else if xs[0].TermWindow? then NULL else window;
      WindowAfterAppend(w, pending, xs[1..], more);
    }
  }

  lemma {:induction false} InputAfterAppend(queue: nat, pending: nat, xs: seq<Cmd>, more: seq<Cmd>)
    ensures InputAfter(queue, pending, xs + more) == InputAfter(InputAfter(queue, pending, xs), pending, more)
    decreases |xs|
  {
    if xs == [] {
      assert xs + more == more;
    } else {
      assert (xs + more)[1..] == xs[1..] + more;
      InputAfterAppend(if xs[0].InputChanged? then pending else queue, pending, xs[1..], more);
    }
  }

  lemma {:induction false} SettlesAppend(state: Cmd, goal: Cmd, xs: seq<Cmd>, more: seq<Cmd>)
    requires Settles(state, goal, xs) && OnlyState(more, goal)
    ensures Settles(state, goal, xs + more)
  {
    if state != goal {
      assert (xs + more)[1..] == xs[1..] + more;
      if !(xs[0].Enter? && xs[0] != state) {
        SettlesAppend(state, goal, xs[1..], more);
      }
    }
  }

  lemma {:induction false} SettlesNewGoal(state: Cmd, xs: seq<Cmd>, c: Cmd)
    requires OnlyState(xs, state) && c.Enter?
    ensures Settles(state, c, xs + [c])
  {
    if state != c {
      if xs != [] {
        assert (xs + [c])[1..] == xs[1..] + [c];
        SettlesNewGoal(state, xs[1..], c);
      } else {
        assert xs + [c] == [c];
      }
    }
  }
}
