/**
 The handshake between the activity thread and the app thread of the native app glue, as a
 step system. Pointers are natural numbers with 0 for NULL. A step is one effect that the
 other thread can observe: everything the app thread does inside one critical section is a
 single step, and the activity thread, which writes the pipe while it holds the mutex, takes
 one step per write so that the app thread may read a command before the section is left.
 */
module AppGlue {

  const NULL: nat := 0

  /** The activity states that the framework announces. */
  datatype Lifecycle = Start | Resume | Pause | Stop

  /** The commands that a callback writes without waiting for the app thread. */
  datatype Notice = GainedFocus | LostFocus | ConfigChanged | LowMemory

  /** The commands that travel through the pipe. */
  datatype Cmd =
    | InputChanged | InitWindow | TermWindow | SaveState | Destroy
    | Enter(state: Lifecycle) | Tell(notice: Notice)

  /**
   The fields of `struct android_app` that the protocol uses, the contents of its pipe, the input
   queues attached to its looper, and the blocks its code has passed to `free`, in order.
   */
  datatype App = App(
    window: nat, pendingWindow: nat,
    inputQueue: nat, pendingInputQueue: nat, attached: set<nat>,
    activityState: Cmd,
    savedState: nat, stateSaved: bool,
    destroyRequested: bool, destroyed: bool, running: bool,
    pipe: seq<Cmd>, freed: seq<nat>)

  /** What a callback of the activity thread may be waiting for. */
  datatype Cond = ForRunning | ForWindow | ForInput | ForState(state: Lifecycle) | ForSaved | ForDestroyed

  predicate Holds(a: App, c: Cond) {
    match c
    case ForRunning => a.running
    case ForWindow => a.window == a.pendingWindow
    case ForInput => a.inputQueue == a.pendingInputQueue
    case ForState(x) => a.activityState == Enter(x)
    case ForSaved => a.stateSaved
    case ForDestroyed => a.destroyed
  }

  /**
   The activity thread. It owns the mutex in the locked places and in `Check`, has released it
   inside `pthread_cond_wait` in `Asleep`, and competes for it again in `Woken`.
   */
  datatype MainPc =
    | Idle
    | WindowLocked(w: nat)   // TERM written if one was due, pendingWindow not yet assigned
    | WindowPending(w: nat)  // pendingWindow assigned, INIT not yet written
    | InputLocked            // pendingInputQueue assigned, command not yet written
    | SaveLocked             // stateSaved cleared, command not yet written
    | Check(c: Cond) | Asleep(c: Cond) | Woken(c: Cond)
    | Gone                   // the struct has been freed

  predicate MainOwnsMutex(m: MainPc) {
    m.WindowLocked? || m.WindowPending? || m.InputLocked? || m.SaveLocked? || m.Check?
  }

  /** The app thread: its start, the four stages of `process_cmd`, and its exit. */
  datatype ThreadPc =
    | Entry | Polling
    | Reading(cmd: Cmd) | PreExec(cmd: Cmd) | Handling(cmd: Cmd) | PostExec(cmd: Cmd)
    | Destroying | Detaching | Exited

  predicate NeedsMutex(t: ThreadPc) {
    match t
    case Entry => true
    case Reading(c) => c.SaveState?
    case PreExec(c) => c.InputChanged? || c.InitWindow? || c.Enter?
    case PostExec(c) => c.TermWindow? || c.SaveState? || c == Enter(Resume)
    case Destroying => true
    case Detaching => true
    case _ => false
  }

  // ---------------------------------------------------------------------------
  // What the glue does to the struct
  // ---------------------------------------------------------------------------

  function FreeSavedState(a: App): App {
    if a.savedState != NULL then a.(freed := a.freed + [a.savedState], savedState := NULL) else a
  }

  /** `android_app_read_cmd` after the byte has been read. */
  function ReadCmd(a: App, c: Cmd): App {
    if c.SaveState? then FreeSavedState(a) else a
  }

  function PreExecCmd(a: App, c: Cmd): App {
    match c
    case InputChanged =>
      var detached := if a.inputQueue != NULL then a.attached - {a.inputQueue} else a.attached;
      var q := a.pendingInputQueue;
      a.(inputQueue := q, attached := if q != NULL then detached + {q} else detached)
    case InitWindow => a.(window := a.pendingWindow)
    case Destroy => a.(destroyRequested := true)
    case Enter(_) => a.(activityState := c)
    case _ => a
  }

  predicate PreExecBroadcasts(c: Cmd) {
    c.InputChanged? || c.InitWindow? || c.TermWindow? || c.Enter?
  }

  function PostExecCmd(a: App, c: Cmd): App {
    match c
    case TermWindow => a.(window := NULL)
    case SaveState => a.(stateSaved := true)
    case Enter(x) => if x.Resume? then FreeSavedState(a) else a
    case _ => a
  }

  predicate PostExecBroadcasts(c: Cmd) {
    c.TermWindow? || c.SaveState?
  }

  /** The second critical section of `android_app_destroy`. */
  function DetachAndFinish(a: App): App {
    a.(attached := if a.inputQueue != NULL then a.attached - {a.inputQueue} else a.attached,
       destroyed := true)
  }

  function Write(a: App, c: Cmd): App {
    a.(pipe := a.pipe + [c])
  }

  // ---------------------------------------------------------------------------
  // The two threads together
  // ---------------------------------------------------------------------------

  /**
   A state of the whole system. Besides the struct and the two program counters it records, for
   the statements below: how many blocks have been allocated (they are numbered from 1), the
   blocks handed to the framework, the block stored while save request 0, 1, ... was handled,
   the pointers the requests returned, in order, the activity state asked for last, and the
   window that had been announced before the latest window callback.
   */
  datatype Sys = Sys(
    app: App, main: MainPc, thread: ThreadPc,
    blocks: nat, handed: seq<nat>,
    stored: map<nat, nat>, answers: seq<nat>,
    lastState: Cmd, shown: nat)

  /** A callback of the framework, on the activity thread. */
  datatype Call =
    | SetWindow(w: nat) | SetInput(q: nat) | SetState(x: Lifecycle) | Save | Announce(n: Notice) | Free

  /**
   A scheduling choice. `AppMove(choice)` lets the app thread take a step: in the handler of a
   SAVE_STATE the choice is whether to store a block, in the event loop whether to return from
   `android_main` once that has been requested.
   */
  datatype Move = AppMove(choice: bool) | Callback(call: Call) | MainMove | SpuriousWake

  /**
   The state after `android_app_create` has started the thread. All fields are zero, and zero is
   the value of APP_CMD_INPUT_CHANGED, so that is what `activityState` holds at first.
   */
  function Init(restored: bool): Sys {
    Sys(App(NULL, NULL, NULL, NULL, {}, InputChanged, if restored then 1 else NULL, false, false, false, false, [], []),
        Woken(ForRunning), Entry, if restored then 1 else 0, [], map[], [], InputChanged, NULL)
  }

  function Broadcast(m: MainPc): MainPc {
    if m.Asleep? then Woken(m.c) else m
  }

  predicate ReturnsFromMain(s: Sys, choice: bool) {
    s.app.destroyRequested && (choice || s.app.pipe == [])
  }

  predicate Stores(s: Sys, c: Cmd, choice: bool) {
    choice && c.SaveState? && s.app.savedState == NULL
  }

  predicate AppEnabled(s: Sys) {
    && !s.thread.Exited?
    && (NeedsMutex(s.thread) ==> !MainOwnsMutex(s.main))
    && (s.thread.Polling? ==> s.app.pipe != [] || s.app.destroyRequested)
  }

  function Started(s: Sys): Sys {
    s.(app := s.app.(running := true), main := Broadcast(s.main), thread := Polling)
  }

  function Fetched(s: Sys): Sys
    requires s.app.pipe != []
  {
    s.(app := s.app.(pipe := s.app.pipe[1..]), thread := Reading(s.app.pipe[0]))
  }

  function Prepared(s: Sys, c: Cmd): Sys {
    s.(app := ReadCmd(s.app, c), thread := PreExec(c))
  }

  function PreExecuted(s: Sys, c: Cmd): Sys {
    s.(app := PreExecCmd(s.app, c), thread := Handling(c),
       main := if PreExecBroadcasts(c) then Broadcast(s.main) else s.main)
  }

  /** The handler of a SAVE_STATE allocates a block and places it in `savedState`. */
  function StoredBlock(s: Sys): Sys {
    s.(app := s.app.(savedState := s.blocks + 1), blocks := s.blocks + 1,
       stored := s.stored[|s.answers| := s.blocks + 1])
  }

  function PostExecuted(s: Sys, c: Cmd): Sys {
    s.(app := PostExecCmd(s.app, c), thread := Polling,
       main := if PostExecBroadcasts(c) then Broadcast(s.main) else s.main)
  }

  function Detached(s: Sys): Sys {
    s.(app := DetachAndFinish(s.app), main := Broadcast(s.main), thread := Exited)
  }

  function AppStep(s: Sys, choice: bool): Sys
    requires AppEnabled(s)
  {
    match s.thread
    case Entry => Started(s)
    case Polling => if ReturnsFromMain(s, choice) then s.(thread := Destroying) else Fetched(s)
    case Reading(c) => Prepared(s, c)
    case PreExec(c) => PreExecuted(s, c)
    case Handling(c) => if Stores(s, c, choice) then StoredBlock(s) else s.(thread := PostExec(c))
    case PostExec(c) => PostExecuted(s, c)
    case Destroying => s.(app := FreeSavedState(s.app), thread := Detaching)
    case Detaching => Detached(s)
  }

  function WindowRequested(s: Sys, w: nat): Sys {
    s.(app := if s.app.pendingWindow != NULL then Write(s.app, TermWindow) else s.app,
       main := WindowLocked(w), shown := s.app.pendingWindow)
  }

  function Begin(s: Sys, call: Call): Sys {
    match call
    case SetWindow(w) => WindowRequested(s, w)
    case SetInput(q) => s.(app := s.app.(pendingInputQueue := q), main := InputLocked)
    case SetState(x) => s.(app := Write(s.app, Enter(x)), main := Check(ForState(x)), lastState := Enter(x))
    case Save => s.(app := s.app.(stateSaved := false), main := SaveLocked)
    case Announce(n) => s.(app := Write(s.app, Tell(n)))
    case Free => s.(app := Write(s.app, Destroy), main := Check(ForDestroyed))
  }

  /** Leaving a wait: the mutex is released, and the caller of a save takes the block. */
  function Return(s: Sys, c: Cond): Sys {
    match c
    case ForSaved =>
      var b := s.app.savedState;
      s.(app := s.app.(savedState := NULL), main := Idle,
         handed := if b != NULL then s.handed + [b] else s.handed,
         answers := s.answers + [b])
    case ForDestroyed => s.(main := Gone)
    case _ => s.(main := Idle)
  }

  predicate MainEnabled(s: Sys) {
    !s.main.Idle? && !s.main.Asleep? && !s.main.Gone?
  }

  function PendingAssigned(s: Sys, w: nat): Sys {
    s.(app := s.app.(pendingWindow := w), main := WindowPending(w))
  }

  function Written(s: Sys, cmds: seq<Cmd>, c: Cond): Sys {
    s.(app := s.app.(pipe := s.app.pipe + cmds), main := Check(c))
  }

  function MainStep(s: Sys): Sys
    requires MainEnabled(s)
  {
    match s.main
    case WindowLocked(w) => PendingAssigned(s, w)
    case WindowPending(w) => Written(s, if w != NULL then [InitWindow] else [], ForWindow)
    case InputLocked => Written(s, [InputChanged], ForInput)
    case SaveLocked => Written(s, [SaveState], ForSaved)
    case Check(c) => if Holds(s.app, c) then Return(s, c) else s.(main := Asleep(c))
    case Woken(c) => s.(main := Check(c))
  }

  predicate Enabled(s: Sys, mv: Move) {
    match mv
    case AppMove(_) => AppEnabled(s)
    case Callback(call) => s.main.Idle?
    case MainMove => MainEnabled(s)
    case SpuriousWake => s.main.Asleep?
  }

  function Apply(s: Sys, mv: Move): Sys
    requires Enabled(s, mv)
  {
    match mv
    case AppMove(choice) => AppStep(s, choice)
    case Callback(call) => Begin(s, call)
    case MainMove => MainStep(s)
    case SpuriousWake => s.(main := Woken(s.main.c))
  }

  /** `ms` can be scheduled from `s`, one move after the other. */
  predicate ValidRun(s: Sys, ms: seq<Move>)
    decreases |ms|
  {
    ms == [] || (Enabled(s, ms[0]) && ValidRun(Apply(s, ms[0]), ms[1..]))
  }

  function Run(s: Sys, ms: seq<Move>): Sys
    requires ValidRun(s, ms)
    decreases |ms|
  {
    if ms == [] then s else Run(Apply(s, ms[0]), ms[1..])
  }
}
