/**
 What the first generations rule out on ordinary runs: how many saves must have been requested before
 a debounce can be armed with nothing to write, and before the marker can be wrong.
 */
module ActiveViewEarlySaves {
  import opened Options
  import opened ActiveViewProtocol
  import opened ActiveViewSafety
  import opened ActiveViewDrain
  import opened ActiveViewDelivery
  import opened ActiveViewQuiescence

  /** Before the first request nothing is on its way, and whatever was stored is the active view. */
  ghost predicate Unrequested(s: State) {
    s.writeGeneration == 0 ==> Quiet(s) && s.drain.Idle? && (s.persisted.None? || Saved(s))
  }

  /** The first request of a debounce has a view to save, and so has the first one during a drain. */
  ghost predicate FirstRequests(s: State) {
    && (s.writeGeneration == 1 && s.timer ==> !Saved(s) && s.drain.Idle?)
    && (s.writeGeneration == 1 && Pending(s) ==> !Saved(s) && (s.drain.Awaiting? ==> s.persisted.None?))
    && (s.writeGeneration == 2 && (s.timer || NewestPends(s)) && s.drain.Awaiting? ==> !Saved(s))
  }

  ghost predicate Positive(s: State) {
    && (s.running.Some? ==> 0 < s.running.value.generation)
    && (forall i :: 0 <= i < |s.queue| ==> 0 < s.queue[i].generation)
  }

  /** The first write is recorded when it lands, unless a second request overtakes it. */
  ghost predicate FirstRecorded(s: State) {
    && (s.writeGeneration <= 1 && !Pending(s) ==> MarkerTrue(s))
    && (Pending(s) && (s.writeGeneration <= 1 || (s.writeGeneration == 2 && s.timer)) ==>
          MarkerTrue(s) || RunningIn(s, Renamed))
    && (RunningIn(s, Renamed) ==> s.inFlight == Some(s.running.value.generation))
  }

  /** The newest write is pending. */
  predicate NewestPends(s: State) {
    Pending(s) && s.enqueued.generation == s.writeGeneration
  }

  /** While a drain runs, so is the second one, if anything was recorded before. */
  ghost predicate SecondRecorded(s: State) {
    s.writeGeneration == 2 && s.drain.Awaiting? && s.persisted.Some? ==>
      && (MarkerTrue(s) || NewestPends(s))
      && (RunningIn(s, Renaming) && s.running.value.generation in s.temps ==> NewestPends(s))
  }

  /** A running drain has a consumer. */
  predicate Consumed(s: State) {
    s.drain.Awaiting? ==> s.consumers.signals != {} || s.consumers.unabortable > 0
  }

  ghost predicate EarlyFacts(s: State) {
    Unrequested(s) && FirstRequests(s) && Positive(s) && FirstRecorded(s) && SecondRecorded(s) && Consumed(s)
  }

  ghost predicate OrdinaryInv(s: State) {
    CleanInv(s) && QuietShows(s)
  }

  lemma {:induction false} SetIsEarly(s: State, value: Option<View>)
    requires OrdinaryInv(s) && EarlyFacts(s)
    ensures EarlyFacts(SetView(s, value))
  {
  }

  lemma {:induction false} TimerIsEarly(s: State)
    requires OrdinaryInv(s) && EarlyFacts(s) && s.timer
    ensures EarlyFacts(TimerFire(s))
  {
  }

  lemma {:induction false} BeginIsEarly(s: State)
    requires OrdinaryInv(s) && EarlyFacts(s) && s.running.None? && s.queue != []
    ensures EarlyFacts(Begin(s))
  {
  }

  /** A step that only moves the running writer on. */
  lemma {:induction false} MoveIsEarly(s: State, t: State)
    requires OrdinaryInv(s) && EarlyFacts(s) && s.running.Some? && t.running.Some?
    requires t.running.value.generation == s.running.value.generation
    requires t == s.(running := t.running, inFlight := t.inFlight, temps := t.temps,
                     file := t.file, confirmed := t.confirmed)
    requires if RunningIn(t, Renamed)
             then t.inFlight == Some(t.running.value.generation)
               && RunningIn(s, Renaming) && s.running.value.generation in s.temps
             else t.file == s.file && !RunningIn(s, Renamed)
    requires RunningIn(t, Renaming) ==> t.running.value.generation == s.writeGeneration
    ensures EarlyFacts(t)
  {
  }

  lemma {:induction false} RenameResumeIsEarly(s: State)
    requires OrdinaryInv(s) && EarlyFacts(s) && (RunningIn(s, Renamed) || RunningIn(s, RenameFailed))
    ensures EarlyFacts(RenameResume(s))
  {
    if RunningIn(s, RenameFailed) {
      MoveIsEarly(s, RenameResume(s));
    } else {
      LandingResumeDelivers(s);
    }
  }

  lemma {:induction false} RemoveIsEarly(s: State)
    requires OrdinaryInv(s) && EarlyFacts(s) && RunningIn(s, Removing)
    ensures EarlyFacts(RemoveEnd(s, true))
  {
  }

  lemma {:induction false} FlushIsEarly(s: State, calls: FlushCalls)
    requires OrdinaryInv(s) && EarlyFacts(s) && Enabled(s, Flush(calls)) && Clean(s, Flush(calls))
    ensures EarlyFacts(FlushOrThrow(s, calls).0)
  {
  }

  lemma {:induction false} EndDrainIsEarly(s: State)
    requires EarlyFacts(s)
    ensures EarlyFacts(EndDrain(s)) && EarlyFacts(EndDrain(s.(timer := false)))
  {
  }

  lemma {:induction false} DrainEnqueueIsEarly(s: State, rounds: nat, first: nat)
    requires EarlyFacts(s) && !SkipsWrite(s) && (s.consumers.signals != {} || s.consumers.unabortable > 0)
    ensures EarlyFacts(DrainEnqueue(s, rounds, first))
  {
  }

  lemma {:induction false} DrainTurnIsEarly(s: State, rounds: nat, first: nat)
    requires EarlyFacts(s) && (s.consumers.signals != {} || s.consumers.unabortable > 0)
    ensures EarlyFacts(DrainTurn(s, rounds, first))
  {
    EndDrainIsEarly(s);
    if !AllConsumersAborted(s) && !SkipsWrite(s) { DrainEnqueueIsEarly(s, rounds, first); }
  }

  lemma {:induction false} FlushPendingIsEarly(s: State, signal: Option<nat>)
    requires OrdinaryInv(s) && EarlyFacts(s)
    ensures EarlyFacts(FlushPendingAsync(s, signal))
  {
    var s1 := AddConsumer(s, signal);
    assert signal.Some? ==> signal.value in s1.consumers.signals;
    DrainTurnIsEarly(s1, 0, s.writeGeneration);
  }

  lemma {:induction false} DrainResumeIsEarly(s: State)
    requires OrdinaryInv(s) && EarlyFacts(s) && s.drain.Awaiting?
    ensures EarlyFacts(DrainResume(s))
  {
    DrainTurnIsEarly(s, s.drain.rounds, s.drain.first);
  }

  lemma {:induction false} PauseIsEarly(s: State)
    requires EarlyFacts(s)
    ensures EarlyFacts(PauseForMaintenance(s))
  {
  }

  lemma {:induction false} UnpauseIsEarly(s: State)
    requires OrdinaryInv(s) && EarlyFacts(s)
    ensures EarlyFacts(ResumeAfterMaintenance(s))
  {
  }

  predicate IsWriterStep(e: Event) {
    || e.WriterStarts? || e.MkdirEnds? || e.TmpWriteEnds? || e.TmpWriteResumes?
    || e.RenameEnds? || e.RenameResumes? || e.RemoveEnds?
  }

  lemma {:induction false} WriterStepIsEarly(s: State, e: Event)
    requires OrdinaryInv(s) && EarlyFacts(s) && Enabled(s, e) && Clean(s, e) && IsWriterStep(e)
    ensures EarlyFacts(Apply(s, e))
  {
    match e
    case WriterStarts => BeginIsEarly(s);
    case MkdirEnds(ok) => MoveIsEarly(s, Move(s, WritingTmp));
    case TmpWriteEnds(written) => MoveIsEarly(s, TmpWriteEnd(s, written));
    case TmpWriteResumes => MoveIsEarly(s, TmpWriteResume(s));
    case RenameEnds(outcome) => MoveIsEarly(s, RenameEnd(s, outcome));
    case RenameResumes => RenameResumeIsEarly(s);
    case RemoveEnds(_) => RemoveIsEarly(s);
  }

  lemma {:induction false} CallIsEarly(s: State, e: Event)
    requires OrdinaryInv(s) && EarlyFacts(s) && Enabled(s, e) && Clean(s, e) && !IsWriterStep(e) && !e.FlushQuit?
    ensures EarlyFacts(Apply(s, e))
  {
    match e
    case Set(value) => SetIsEarly(s, value);
    case TimerFires => TimerIsEarly(s);
    case Flush(calls) => FlushIsEarly(s, calls);
    case FlushPending(signal) => FlushPendingIsEarly(s, signal);
    case DrainResumes => DrainResumeIsEarly(s);
    case SignalAborts(_) =>
    case Pause => PauseIsEarly(s);
    case Unpause => UnpauseIsEarly(s);
  }

  lemma {:induction false} StepIsEarly(s: State, e: Event)
    requires OrdinaryInv(s) && EarlyFacts(s) && Enabled(s, e) && Clean(s, e) && Ordinary(s, e)
    ensures OrdinaryInv(Apply(s, e)) && EarlyFacts(Apply(s, e))
  {
    StepShows(s, e);
    if IsWriterStep(e) { WriterStepIsEarly(s, e); } else { CallIsEarly(s, e); }
  }

  lemma {:induction false} RunIsEarly(s: State, es: seq<Event>, t: State)
    requires OrdinaryInv(s) && EarlyFacts(s) && OrdinarilyReaches(s, es, t)
    ensures OrdinaryInv(t) && EarlyFacts(t)
    decreases |es|
  {
    if es != [] {
      StepIsEarly(s, es[0]);
      RunIsEarly(Apply(s, es[0]), es[1..], t);
    }
  }

  /** Some ordinary run leads from the constructor to `s`. */
  ghost predicate OrdinarilyReachable(s: State) {
    exists content: Content, legacy: Option<View>, es: seq<Event> ::
      OrdinarilyReaches(Init(content, legacy), es, s)
  }

  lemma {:induction false} OrdinarilyReachableInv(s: State)
    requires OrdinarilyReachable(s)
    ensures OrdinaryInv(s) && EarlyFacts(s)
  {
    var content: Content, legacy: Option<View>, es :| OrdinarilyReaches(Init(content, legacy), es, s);
    InitKeeps(content, legacy);
    RunIsEarly(Init(content, legacy), es, s);
  }

  /** An armed debounce with nothing to write is the second request at least, and during a drain the third. */
  lemma {:induction false} IdleDebounceIsLate(s: State)
    requires OrdinarilyReachable(s) && s.timer && SkipsWrite(s)
    ensures s.writeGeneration >= if s.drain.Idle? then 2 else 3
  {
    OrdinarilyReachableInv(s);
  }
}
