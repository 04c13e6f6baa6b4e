/**
 What reaches the file when no file call fails: the drain delivers its last write, a quiet writer
 leaves no temp file, and a recorded landing makes the marker true.
 */
module ActiveViewDelivery {
  import opened Options
  import opened ActiveViewProtocol
  import opened ActiveViewSafety
  import opened ActiveViewDrain

  // ---------- the invariant of clean runs ----------

  /** A temp file exists only between its write and its rename or removal. */
  ghost predicate TempsTidy(s: State) {
    forall g :: g in s.temps ==>
      s.running.Some? && s.running.value.generation == g
      && s.running.value.phase in {TmpWritten, Renaming, Removing}
  }

  /** The write of the current generation is never vetoed and never fails. */
  ghost predicate NewestProceeds(s: State) {
    s.running.Some? ==>
      var w := s.running.value;
      && (w.generation == s.writeGeneration && w.phase == Renaming ==> w.generation in s.temps)
      && (w.phase == RenameFailed || w.phase == Removing ==> w.generation < s.writeGeneration)
  }

  /** `persisted` tells what the file holds. */
  predicate MarkerTrue(s: State) {
    s.persisted == ReadActiveView(s.file.content)
  }

  /** A confirmed landing makes the marker true. */
  ghost predicate MarkerConfirmed(s: State) {
    && (s.confirmed ==> MarkerTrue(s))
    && (RunningIn(s, Renamed) && s.running.value.generation == s.writeGeneration ==>
          s.file == Landed(Whole(s.running.value.view), s.running.value.generation))
  }

  /** When the newest write has left the chain it is in the file, and it carries the active view. */
  ghost predicate NewestDelivered(s: State) {
    0 < s.enqueued.generation == s.writeGeneration ==>
      && (!Pending(s) ==> s.file == Landed(Whole(s.enqueued.view), s.writeGeneration) && s.confirmed)
      && (!s.quitStarted ==> s.activeView == s.enqueued.view)
  }

  /** The view the drain awaits is the one its write captured. */
  ghost predicate AwaitsNewest(s: State) {
    s.drain.Awaiting? && s.drain.generation == s.writeGeneration ==> s.enqueued.view == s.drain.view
  }

  ghost predicate CleanParts(s: State) {
    TempsTidy(s) && NewestProceeds(s) && MarkerConfirmed(s) && NewestDelivered(s) && AwaitsNewest(s)
  }

  ghost predicate CleanInv(s: State) {
    DrainInv(s) && CleanParts(s)
  }

  lemma {:induction false} SetDelivers(s: State, value: Option<View>)
    requires CleanInv(s)
    ensures CleanParts(SetView(s, value))
  {
  }

  lemma {:induction false} TimerDelivers(s: State)
    requires CleanInv(s) && s.timer
    ensures CleanParts(TimerFire(s))
  {
  }

  lemma {:induction false} EarlyStepDelivers(s: State, e: Event)
    requires CleanInv(s) && Enabled(s, e) && Clean(s, e)
    requires e.WriterStarts? || e.MkdirEnds? || e.TmpWriteEnds?
    ensures CleanParts(Apply(s, e))
  {
  }

  lemma {:induction false} TmpWriteResumeDelivers(s: State)
    requires CleanInv(s) && RunningIn(s, TmpWritten)
    ensures CleanParts(TmpWriteResume(s))
  {
  }

  lemma {:induction false} RenameEndDelivers(s: State, outcome: Outcome)
    requires CleanInv(s) && Enabled(s, RenameEnds(outcome)) && Clean(s, RenameEnds(outcome))
    ensures CleanParts(RenameEnd(s, outcome))
  {
  }

  lemma {:induction false} LandingResumeDelivers(s: State)
    requires CleanInv(s) && RunningIn(s, Renamed)
    ensures CleanParts(RenameResume(s))
  {
  }

  lemma {:induction false} VetoResumeDelivers(s: State)
    requires CleanInv(s) && RunningIn(s, RenameFailed)
    ensures CleanParts(RenameResume(s))
  {
  }

  lemma {:induction false} RemoveDelivers(s: State)
    requires CleanInv(s) && RunningIn(s, Removing)
    ensures CleanParts(RemoveEnd(s, true))
  {
  }

  lemma {:induction false} FlushDelivers(s: State, calls: FlushCalls)
    requires CleanInv(s) && Enabled(s, Flush(calls)) && Clean(s, Flush(calls))
    ensures CleanParts(FlushOrThrow(s, calls).0)
  {
  }

  /** The consumers, the signals and an ended drain carry no delivery facts. */
  lemma {:induction false} RecordsDeliver(s: State, drain: Drain, consumers: Consumers, aborted: set<nat>)
    requires CleanParts(s) && (drain == s.drain || drain == Idle)
    ensures CleanParts(s.(drain := drain, consumers := consumers, aborted := aborted))
  {
  }

  lemma {:induction false} DrainEnqueueDelivers(s: State, rounds: nat, first: nat)
    requires Inv(s) && CleanParts(s)
    ensures CleanParts(DrainEnqueue(s, rounds, first))
  {
  }

  lemma {:induction false} DrainTurnDelivers(s: State, rounds: nat, first: nat)
    requires Inv(s) && CleanParts(s)
    ensures CleanParts(DrainTurn(s, rounds, first))
  {
    if AllConsumersAborted(s) {
      RecordsDeliver(s, Idle, NO_CONSUMERS, s.aborted);
    } else if SkipsWrite(s) {
      assert CleanParts(s.(timer := false));
      RecordsDeliver(s.(timer := false), Idle, NO_CONSUMERS, s.aborted);
    } else {
      DrainEnqueueDelivers(s, rounds, first);
    }
  }

  lemma {:induction false} FlushPendingDelivers(s: State, signal: Option<nat>)
    requires Inv(s) && CleanParts(s)
    ensures CleanParts(FlushPendingAsync(s, signal))
  {
    var s1 := AddConsumer(s, signal);
    RecordsKeep(s, s.drain, s1.consumers, s.aborted, s.quitStarted);
    RecordsDeliver(s, s.drain, s1.consumers, s.aborted);
    DrainTurnDelivers(s1, 0, s.writeGeneration);
  }

  lemma {:induction false} FlushAsyncDelivers(s: State)
    requires CleanInv(s)
    ensures CleanParts(FlushAsync(s))
  {
    RecordsKeep(s, s.drain, s.consumers, s.aborted, true);
    assert CleanParts(s.(quitStarted := true));
    FlushPendingDelivers(s.(quitStarted := true), None);
  }

  lemma {:induction false} DrainResumeDelivers(s: State)
    requires CleanInv(s) && s.drain.Awaiting?
    ensures CleanParts(DrainResume(s))
  {
    RecordsDeliver(s, Idle, NO_CONSUMERS, s.aborted);
    DrainTurnDelivers(s, s.drain.rounds, s.drain.first);
  }

  lemma {:induction false} PauseDelivers(s: State)
    requires CleanInv(s)
    ensures CleanParts(PauseForMaintenance(s))
  {
  }

  lemma {:induction false} UnpauseDelivers(s: State)
    requires CleanInv(s)
    ensures CleanParts(ResumeAfterMaintenance(s))
  {
  }

  lemma {:induction false} StepDelivers(s: State, e: Event)
    requires CleanInv(s) && Enabled(s, e) && Clean(s, e)
    ensures CleanInv(Apply(s, e))
  {
    StepPaces(s, e);
    match e
    case Set(value) => SetDelivers(s, value);
    case TimerFires => TimerDelivers(s);
    case TmpWriteResumes => TmpWriteResumeDelivers(s);
    case RenameEnds(outcome) => RenameEndDelivers(s, outcome);
    case RenameResumes => if RunningIn(s, Renamed) { LandingResumeDelivers(s); } else { VetoResumeDelivers(s); }
    case RemoveEnds(_) => RemoveDelivers(s);
    case Flush(calls) => FlushDelivers(s, calls);
    case FlushPending(signal) => FlushPendingDelivers(s, signal);
    case FlushQuit => FlushAsyncDelivers(s);
    case SignalAborts(fired) => RecordsDeliver(s, s.drain, s.consumers, s.aborted + {fired});
    case DrainResumes => DrainResumeDelivers(s);
    case Pause => PauseDelivers(s);
    case Unpause => UnpauseDelivers(s);
    case _ => EarlyStepDelivers(s, e);
  }

  ghost predicate CleanlyReachable(s: State) {
    exists content: Content, legacy: Option<View>, es: seq<Event> ::
      CleanlyReaches(Init(content, legacy), es, s)
  }

  lemma {:induction false} RunDelivers(s: State, es: seq<Event>, t: State)
    requires CleanInv(s) && CleanlyReaches(s, es, t)
    ensures CleanInv(t)
    decreases |es|
  {
    if es != [] {
      StepDelivers(s, es[0]);
      RunDelivers(Apply(s, es[0]), es[1..], t);
    }
  }

  lemma {:induction false} CleanlyReachableInv(s: State)
    requires CleanlyReachable(s)
    ensures CleanInv(s)
  {
    var content: Content, legacy: Option<View>, es :| CleanlyReaches(Init(content, legacy), es, s);
    InitKeeps(content, legacy);
    RunDelivers(Init(content, legacy), es, s);
  }

  // ---------- main results ----------

  /** An idle writer leaves no temp file. */
  lemma {:induction false} IdleLeavesNoTemp(s: State)
    requires CleanlyReachable(s) && s.running.None?
    ensures s.temps == map[]
  {
    CleanlyReachableInv(s);
  }

  /** When the drain returns after its own write, that write is in the file, nothing is queued behind
      it, and the marker says so; before the quit flush it is also the active view. */
  lemma {:induction false} DrainDelivers(s: State)
    requires CleanlyReachable(s) && Enabled(s, DrainResumes) && !AllConsumersAborted(s)
    requires s.drain.generation == s.writeGeneration
    ensures var t := DrainResume(s);
            && t.drain == Idle && Quiet(t)
            && t.file == Landed(Whole(s.drain.view), s.drain.generation)
            && t.persisted == Some(s.drain.view)
            && (!s.quitStarted ==> s.drain.view == t.activeView)
  {
    CleanlyReachableInv(s);
    LastWriteLeft(s);
  }
}
