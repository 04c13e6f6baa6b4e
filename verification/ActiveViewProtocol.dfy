/**
 The debounced active-view writer as a state machine.

 One step is one synchronous stretch of the event loop or one file call of the operating
 system, so every `await` of the source is a point where any other step may come between.
 Functions here say what each step does; `ActiveViewSafety` and `ActiveViewDelivery` prove
 what every run keeps, and `ActiveViewPreference` is the class that performs the steps.
 */
module ActiveViewProtocol {
  import opened Options

  datatype View =
    | Terminal | Settings | Tasks | Activity | Automations | Space | Skills | Artifacts | Mobile

  /** What reading a path gives: nothing, something `readActiveView` rejects, or a stored view. */
  datatype Content = Absent | Torn | Whole(view: View)

  /** The preference file, together with the generation of the write that put its content there. */
  datatype Landed = Landed(content: Content, generation: nat)

  /** Where the running `writeAsync` stands. */
  datatype Phase =
    | MakingDir         // await mkdir
    | WritingTmp        // await writeFile
    | TmpWritten        // writeFile is done, its continuation has not run
    | Renaming          // await rename, temp path claimed
    | Renamed           // rename landed, its continuation has not run
    | RenameFailed      // rename failed, its continuation has not run
    | Removing          // await rm in the outer finally

  /** A call of `enqueueWrite`: what it captured. */
  datatype Request = Request(view: View, generation: nat)

  /** The one writer whose `writeAsync` has begun. */
  datatype Writer = Writer(view: View, generation: nat, phase: Phase)

  /** `drainPendingWrites`: not running, or awaiting the write it enqueued last.
      `rounds` counts its iterations and `first` is the generation it started from. */
  datatype Drain = Idle | Awaiting(view: View, generation: nat, rounds: nat, first: nat)

  datatype Consumers = Consumers(signals: set<nat>, unabortable: nat)

  const NO_CONSUMERS := Consumers({}, 0)

  /** `running` and then `queue`, oldest first, are the promise chain that `pendingWrite` ends.
      `timer` says whether the debounce timer is armed. `enqueued` is the last `enqueueWrite` call
      and `confirmed` says whether the last landing was recorded in `persisted`. */
  datatype State = State(
    activeView: View,
    persisted: Option<View>,
    timer: bool,
    running: Option<Writer>,
    queue: seq<Request>,
    writeGeneration: nat,
    inFlight: Option<nat>,
    drain: Drain,
    consumers: Consumers,
    aborted: set<nat>,
    quitStarted: bool,
    paused: bool,
    file: Landed,
    temps: map<nat, Content>,
    enqueued: Request,
    confirmed: bool)

  datatype Outcome = Done | Missing | Failed

  datatype WriteOutcome = Written | NotWritten(leavesTorn: bool)

  /** How the file calls inside one `flushOrThrow` end. */
  datatype FlushCalls = FlushCalls(unlink: Outcome, mkdir: bool, write: WriteOutcome, rename: bool)

  datatype Event =
    | Set(value: Option<View>)          // None: a value that is not a top-level view
    | TimerFires
    | WriterStarts
    | MkdirEnds(ok: bool)
    | TmpWriteEnds(written: WriteOutcome)
    | TmpWriteResumes
    | RenameEnds(outcome: Outcome)
    | RenameResumes
    | RemoveEnds(ok: bool)
    | Flush(calls: FlushCalls)
    | FlushPending(signal: Option<nat>)
    | FlushQuit
    | SignalAborts(fired: nat)
    | DrainResumes
    | Pause
    | Unpause

  function ReadActiveView(content: Content): Option<View> {
    if content.Whole? then Some(content.view) else None
  }

  /** The constructor: the stored view wins over the legacy one, which wins over the terminal. */
  function Init(content: Content, legacy: Option<View>): State {
    var stored := ReadActiveView(content);
    var view := if stored.Some? then stored.value else if legacy.Some? then legacy.value else Terminal;
    State(view, stored, false, None, [], 0, None, Idle, NO_CONSUMERS, {}, false, false,
          Landed(content, 0), map[], Request(view, 0), true)
  }

  // ---------- set, the debounce timer and the promise chain ----------

  function ScheduleSave(s: State): State {
    if s.quitStarted then s
    else if s.paused then s.(writeGeneration := s.writeGeneration + 1)
    else s.(writeGeneration := s.writeGeneration + 1, timer := true)
  }

  /** `pendingWrite !== null`. */
  predicate Pending(s: State) {
    s.running.Some? || s.queue != []
  }

  function SetView(s: State, value: Option<View>): State {
    if value.None? then s
    else
      var s1 := s.(activeView := value.value);
      if Some(s1.activeView) != s.persisted || s.timer || Pending(s) then ScheduleSave(s1) else s1
  }

  function EnqueueWrite(s: State, view: View, generation: nat): State {
    s.(queue := s.queue + [Request(view, generation)], enqueued := Request(view, generation))
  }

  function TimerFire(s: State): State {
    EnqueueWrite(s.(timer := false), s.activeView, s.writeGeneration)
  }

  // ---------- the steps of one writeAsync ----------

  predicate RunningIn(s: State, phase: Phase) {
    s.running.Some? && s.running.value.phase == phase
  }

  function Begin(s: State): State
    requires s.queue != []
  {
    var next := s.queue[0];
    s.(running := Some(Writer(next.view, next.generation, MakingDir)), queue := s.queue[1..])
  }

  function Move(s: State, phase: Phase): State
    requires s.running.Some?
  {
    s.(running := Some(s.running.value.(phase := phase)))
  }

  function TmpWriteEnd(s: State, written: WriteOutcome): State
    requires s.running.Some?
  {
    var w := s.running.value;
    match written
    case Written => Move(s, TmpWritten).(temps := s.temps[w.generation := Whole(w.view)])
    case NotWritten(torn) =>
      Move(s, Removing).(temps := if torn then s.temps[w.generation := Torn] else s.temps)
  }

  /** The generation check, then the claim of the temp path and the call of `rename`. */
  function TmpWriteResume(s: State): State
    requires s.running.Some?
  {
    if s.running.value.generation != s.writeGeneration then Move(s, Removing)
    else Move(s, Renaming).(inFlight := Some(s.running.value.generation))
  }

  function RenameEnd(s: State, outcome: Outcome): State
    requires s.running.Some?
    requires outcome.Done? ==> s.running.value.generation in s.temps
  {
    var g := s.running.value.generation;
    if outcome.Done? then
      Move(s, Renamed).(file := Landed(s.temps[g], g), temps := s.temps - {g}, confirmed := false)
    else
      Move(s, RenameFailed)
  }

  function ReleaseClaim(s: State, generation: nat): State {
    if s.inFlight == Some(generation) then s.(inFlight := None) else s
  }

  /** The continuation of `rename`: a landing is recorded only if no later save was requested. */
  function RenameResume(s: State): State
    requires s.running.Some?
  {
    var w := s.running.value;
    var s1 := ReleaseClaim(s, w.generation);
    if w.phase != Renamed then Move(s1, Removing)
    else if w.generation == s.writeGeneration then s1.(running := None, persisted := Some(w.view), confirmed := true)
    else s1.(running := None)
  }

  function RemoveEnd(s: State, ok: bool): State
    requires s.running.Some?
  {
    s.(running := None, temps := if ok then s.temps - {s.running.value.generation} else s.temps)
  }

  // ---------- flushOrThrow ----------

  datatype FlushResult = Refused | Skipped | Threw | Wrote

  /** The early return of flushOrThrow: it believes `persisted`. */
  predicate SkipsWrite(s: State) {
    !Pending(s) && Some(s.activeView) == s.persisted
  }

  /** The synchronous rename of flushOrThrow has landed. */
  function FlushLand(s: State): State {
    s.(file := Landed(Whole(s.activeView), s.writeGeneration), persisted := Some(s.activeView), confirmed := true)
  }

  /** The write that ends flushOrThrow, with its own temp path. */
  function FlushWrite(s: State, calls: FlushCalls): (State, FlushResult) {
    var g := s.writeGeneration;
    if !calls.mkdir then (s, Threw)
    else if calls.write.NotWritten? then
      (if calls.write.leavesTorn then s.(temps := s.temps[g := Torn]) else s, Threw)
    else if !calls.rename then (s.(temps := s.temps[g := Whole(s.activeView)]), Threw)
    else (FlushLand(s), Wrote)
  }

  /** The debounce is dropped and every write enqueued so far becomes stale. */
  function Bump(s: State): State {
    s.(timer := false, writeGeneration := s.writeGeneration + 1)
  }

  /** The claimed temp file is gone, and with it the rename of the writer that claimed it. */
  function Unclaim(s: State): State
    requires s.inFlight.Some?
  {
    s.(inFlight := None, temps := s.temps - {s.inFlight.value})
  }

  function FlushSwap(s: State, calls: FlushCalls): (State, FlushResult) {
    if s.inFlight.None? then FlushWrite(s, calls)
    else match calls.unlink
      case Done => FlushWrite(Unclaim(s), calls)
      case Missing => FlushWrite(s, calls)
      case Failed => (EnqueueWrite(s, s.activeView, s.writeGeneration), Threw)
  }

  function FlushOrThrow(s: State, calls: FlushCalls): (State, FlushResult) {
    if s.quitStarted then (s, Refused)
    else if SkipsWrite(s) then (Bump(s), Skipped)
    else FlushSwap(Bump(s), calls)
  }

  // ---------- the asynchronous drain ----------

  predicate AllConsumersAborted(s: State) {
    s.consumers.unabortable == 0 && s.consumers.signals != {} && s.consumers.signals <= s.aborted
  }

  function EndDrain(s: State): State {
    s.(drain := Idle, consumers := NO_CONSUMERS)
  }

  /** The drain's own generation bump and write. */
  function DrainEnqueue(s: State, rounds: nat, first: nat): State {
    var g := s.writeGeneration + 1;
    EnqueueWrite(Bump(s), s.activeView, g)
    .(drain := Awaiting(s.activeView, g, rounds + 1, first))
  }

  /** One iteration of the drain loop, up to its await or its end. */
  function DrainTurn(s: State, rounds: nat, first: nat): State {
    if AllConsumersAborted(s) then EndDrain(s)
    else if SkipsWrite(s) then EndDrain(s.(timer := false))
    else DrainEnqueue(s, rounds, first)
  }

  /** Registers one consumer of the shared drain: abortable by its signal, or not at all. */
  function AddConsumer(s: State, signal: Option<nat>): State {
    if signal.Some? then s.(consumers := s.consumers.(signals := s.consumers.signals + {signal.value}))
    else s.(consumers := s.consumers.(unabortable := s.consumers.unabortable + 1))
  }

  function FlushPendingAsync(s: State, signal: Option<nat>): State {
    if signal.Some? && signal.value in s.aborted then s
    else if s.drain.Awaiting? then AddConsumer(s, signal)
    else DrainTurn(AddConsumer(s, signal), 0, s.writeGeneration)
  }

  function FlushAsync(s: State): State {
    if s.quitStarted then s else FlushPendingAsync(s.(quitStarted := true), None)
  }

  predicate Enlisted(s: State, generation: nat) {
    || (s.running.Some? && s.running.value.generation == generation)
    || exists i :: 0 <= i < |s.queue| && s.queue[i].generation == generation
  }

  function DrainResume(s: State): State
    requires s.drain.Awaiting?
  {
    if AllConsumersAborted(s) then EndDrain(s)
    else if s.drain.generation == s.writeGeneration then EndDrain(s)
    else DrainTurn(s, s.drain.rounds, s.drain.first)
  }

  // ---------- maintenance ----------

  function PauseForMaintenance(s: State): State {
    if s.paused || s.quitStarted then s else s.(paused := true, timer := false)
  }

  function ResumeAfterMaintenance(s: State): State {
    var s1 := s.(paused := false);
    if Some(s.activeView) != s.persisted then ScheduleSave(s1) else s1
  }

  // ---------- steps and runs ----------

  /** When a step can happen. A file call reports success or "missing" truthfully. */
  predicate Enabled(s: State, e: Event) {
    match e
    case TimerFires => s.timer
    case WriterStarts => s.running.None? && s.queue != []
    case MkdirEnds(_) => RunningIn(s, MakingDir)
    case TmpWriteEnds(_) => RunningIn(s, WritingTmp)
    case TmpWriteResumes => RunningIn(s, TmpWritten)
    case RenameEnds(outcome) =>
      RunningIn(s, Renaming) && (outcome.Done? ==> s.running.value.generation in s.temps)
    case RenameResumes => RunningIn(s, Renamed) || RunningIn(s, RenameFailed)
    case RemoveEnds(_) => RunningIn(s, Removing)
    case Flush(calls) => s.inFlight.Some? ==> Truthful(s, calls.unlink)
    case DrainResumes => s.drain.Awaiting? && !Enlisted(s, s.drain.generation)
    case _ => true
  }

  predicate Truthful(s: State, unlink: Outcome)
    requires s.inFlight.Some?
  {
    (unlink.Done? ==> s.inFlight.value in s.temps) && (unlink.Missing? ==> s.inFlight.value !in s.temps)
  }

  function Apply(s: State, e: Event): State
    requires Enabled(s, e)
  {
    match e
    case Set(value) => SetView(s, value)
    case TimerFires => TimerFire(s)
    case WriterStarts => Begin(s)
    case MkdirEnds(ok) => Move(s, if ok then WritingTmp else Removing)
    case TmpWriteEnds(written) => TmpWriteEnd(s, written)
    case TmpWriteResumes => TmpWriteResume(s)
    case RenameEnds(outcome) => RenameEnd(s, outcome)
    case RenameResumes => RenameResume(s)
    case RemoveEnds(ok) => RemoveEnd(s, ok)
    case Flush(calls) => FlushOrThrow(s, calls).0
    case FlushPending(signal) => FlushPendingAsync(s, signal)
    case FlushQuit => FlushAsync(s)
    case SignalAborts(fired) => s.(aborted := s.aborted + {fired})
    case DrainResumes => DrainResume(s)
    case Pause => PauseForMaintenance(s)
    case Unpause => ResumeAfterMaintenance(s)
  }

  /** The events `es` lead from `s` to `t`. */
  ghost predicate Reaches(s: State, es: seq<Event>, t: State)
    decreases |es|
  {
    if es == [] then s == t
    else Enabled(s, es[0]) && Reaches(Apply(s, es[0]), es[1..], t)
  }

  ghost predicate Reachable(s: State) {
    exists content: Content, legacy: Option<View>, es: seq<Event> :: Reaches(Init(content, legacy), es, s)
  }

  /** A step in which no file call fails. A rename of a vetoed temp path is reported missing. */
  predicate Clean(s: State, e: Event) {
    match e
    case MkdirEnds(ok) => ok
    case TmpWriteEnds(written) => written.Written?
    case RenameEnds(outcome) =>
      s.running.Some? && if s.running.value.generation in s.temps then outcome.Done? else outcome.Missing?
    case RemoveEnds(ok) => ok
    case Flush(calls) => !calls.unlink.Failed? && calls.mkdir && calls.write.Written? && calls.rename
    case _ => true
  }

  /** A run in which no file call fails. */
  ghost predicate CleanlyReaches(s: State, es: seq<Event>, t: State)
    decreases |es|
  {
    if es == [] then s == t
    else Enabled(s, es[0]) && Clean(s, es[0]) && CleanlyReaches(Apply(s, es[0]), es[1..], t)
  }
}
