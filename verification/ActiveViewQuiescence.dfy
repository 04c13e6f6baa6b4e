/**
 When a quiet writer shows the active view. The promise "the file ends up showing the last view set"
 holds on every run that never stops an armed debounce on the word of `persisted` and, while paused,
 never goes back to the view it names. `ActiveViewStaleMarker` has a run that breaks it, and
 `ActiveViewExactness` shows that no weaker condition on the fields is enough.
 */
module ActiveViewQuiescence {
  import opened Options
  import opened ActiveViewProtocol
  import opened ActiveViewSafety
  import opened ActiveViewDrain
  import opened ActiveViewDelivery

  /** `persisted` names the active view. */
  predicate Saved(s: State) {
    s.persisted == Some(s.activeView)
  }

  /** The call starts a turn of the drain loop. */
  predicate TurnsDrain(s: State, e: Event) {
    || (e.FlushPending? && s.drain.Idle? && (e.signal.Some? ==> e.signal.value !in s.aborted))
    || (e.DrainResumes? && !AllConsumersAborted(s))
  }

  /** The call would stop an armed debounce because `persisted` names the active view. */
  predicate TrustsMarker(s: State, e: Event) {
    && s.timer
    && ((SkipsWrite(s) && (e.Flush? || TurnsDrain(s, e))) || (Saved(s) && e.Pause?))
  }

  /** While saving is paused, a set back to the view `persisted` names, which the end of the pause will
      take for saved although a write is pending or another view was active. */
  predicate SetsBack(s: State, e: Event) {
    s.paused && e.Set? && e.value.Some? && e.value == s.persisted && (Pending(s) || !Saved(s))
  }

  /** Not the quit flush, which ends saving by design, and neither of the two calls above. */
  predicate Ordinary(s: State, e: Event) {
    !e.FlushQuit? && !TrustsMarker(s, e) && !SetsBack(s, e)
  }

  ghost predicate OrdinarilyReaches(s: State, es: seq<Event>, t: State)
    decreases |es|
  {
    if es == [] then s == t
    else
      && Enabled(s, es[0]) && Clean(s, es[0]) && Ordinary(s, es[0])
      && OrdinarilyReaches(Apply(s, es[0]), es[1..], t)
  }

  /** A write is on its way that captured, or will capture, the newest generation. */
  predicate Repairing(s: State) {
    s.timer || (Pending(s) && s.enqueued.generation == s.writeGeneration)
  }

  /** The end of the pause will arm the debounce. */
  predicate Held(s: State) {
    s.paused && !Saved(s)
  }

  predicate Covered(s: State) {
    Repairing(s) || Held(s)
  }

  /** The running rename will put the view that `persisted` names into the file. */
  predicate Confirming(s: State) {
    RunningIn(s, Renaming) && s.running.value.generation in s.temps && s.persisted == Some(s.running.value.view)
  }

  ghost predicate QuietShows(s: State) {
    && !s.quitStarted
    && (MarkerTrue(s) || Covered(s) || Confirming(s))
    && (RunningIn(s, Renaming) && s.running.value.generation in s.temps ==> Covered(s) || Confirming(s))
    && ((s.writeGeneration == 0 && s.persisted.None?) || Saved(s) || Covered(s))
  }

  lemma {:induction false} SetShows(s: State, value: Option<View>)
    requires CleanInv(s) && QuietShows(s) && !SetsBack(s, Set(value))
    ensures QuietShows(SetView(s, value))
  {
  }

  lemma {:induction false} WriterShows(s: State, e: Event)
    requires CleanInv(s) && QuietShows(s) && Enabled(s, e) && Clean(s, e)
    requires e.TimerFires? || e.WriterStarts? || e.MkdirEnds? || e.TmpWriteEnds? || e.TmpWriteResumes?
    ensures QuietShows(Apply(s, e))
  {
  }

  lemma {:induction false} RenameEndShows(s: State, outcome: Outcome)
    requires CleanInv(s) && QuietShows(s)
    requires Enabled(s, RenameEnds(outcome)) && Clean(s, RenameEnds(outcome))
    ensures QuietShows(RenameEnd(s, outcome))
  {
  }

  lemma {:induction false} WriterEndShows(s: State, e: Event)
    requires CleanInv(s) && QuietShows(s) && Enabled(s, e)
    requires e.RenameResumes? || e.RemoveEnds?
    ensures QuietShows(Apply(s, e))
  {
  }

  lemma {:induction false} FlushShows(s: State, calls: FlushCalls)
    requires CleanInv(s) && QuietShows(s)
    requires Enabled(s, Flush(calls)) && Clean(s, Flush(calls)) && !TrustsMarker(s, Flush(calls))
    ensures QuietShows(FlushOrThrow(s, calls).0)
  {
  }

  /** The consumers, the signals and an ended drain carry no such facts. */
  lemma {:induction false} RecordsShow(s: State, drain: Drain, consumers: Consumers, aborted: set<nat>)
    requires QuietShows(s)
    ensures QuietShows(s.(drain := drain, consumers := consumers, aborted := aborted))
  {
  }

  lemma {:induction false} DrainTurnShows(s: State, rounds: nat, first: nat)
    requires QuietShows(s) && (AllConsumersAborted(s) || !(s.timer && SkipsWrite(s)))
    ensures QuietShows(DrainTurn(s, rounds, first))
  {
    if AllConsumersAborted(s) {
      RecordsShow(s, Idle, NO_CONSUMERS, s.aborted);
    } else if SkipsWrite(s) {
      RecordsShow(s.(timer := false), Idle, NO_CONSUMERS, s.aborted);
    } else {
      assert Repairing(DrainEnqueue(s, rounds, first));
    }
  }

  lemma {:induction false} FlushPendingShows(s: State, signal: Option<nat>)
    requires QuietShows(s) && !TrustsMarker(s, FlushPending(signal))
    ensures QuietShows(FlushPendingAsync(s, signal))
  {
    var s1 := AddConsumer(s, signal);
    RecordsShow(s, s.drain, s1.consumers, s.aborted);
    if s.drain.Idle? && (signal.Some? ==> signal.value !in s.aborted) {
      DrainTurnShows(s1, 0, s.writeGeneration);
    }
  }

  lemma {:induction false} DrainResumeShows(s: State)
    requires QuietShows(s) && s.drain.Awaiting? && !TrustsMarker(s, DrainResumes)
    ensures QuietShows(DrainResume(s))
  {
    RecordsShow(s, Idle, NO_CONSUMERS, s.aborted);
    DrainTurnShows(s, s.drain.rounds, s.drain.first);
  }

  lemma {:induction false} PauseShows(s: State)
    requires QuietShows(s) && !TrustsMarker(s, Pause)
    ensures QuietShows(PauseForMaintenance(s))
  {
  }

  lemma {:induction false} UnpauseShows(s: State)
    requires QuietShows(s)
    ensures QuietShows(ResumeAfterMaintenance(s))
  {
  }

  lemma {:induction false} StepShows(s: State, e: Event)
    requires CleanInv(s) && QuietShows(s) && Enabled(s, e) && Clean(s, e) && Ordinary(s, e)
    ensures CleanInv(Apply(s, e)) && QuietShows(Apply(s, e))
  {
    StepDelivers(s, e);
    match e
    case Set(value) => SetShows(s, value);
    case Flush(calls) => FlushShows(s, calls);
    case FlushPending(signal) => FlushPendingShows(s, signal);
    case DrainResumes => DrainResumeShows(s);
    case RenameEnds(outcome) => RenameEndShows(s, outcome);
    case RenameResumes => WriterEndShows(s, e);
    case RemoveEnds(_) => WriterEndShows(s, e);
    case SignalAborts(fired) => RecordsShow(s, s.drain, s.consumers, s.aborted + {fired});
    case Pause => PauseShows(s);
    case Unpause => UnpauseShows(s);
    case _ => WriterShows(s, e);
  }

  /** Some value has been accepted, or was stored from the start. */
  predicate Engaged(s: State) {
    s.writeGeneration > 0 || s.persisted.Some?
  }

  ghost predicate AcceptsSet(es: seq<Event>) {
    exists i :: 0 <= i < |es| && es[i].Set? && es[i].value.Some?
  }

  lemma {:induction false} CallEngages(s: State, e: Event)
    requires QuietShows(s) && Enabled(s, e)
    requires Engaged(s) || (e.Set? && e.value.Some?)
    requires e.Set? || e.TimerFires? || e.SignalAborts? || e.Pause? || e.Unpause?
    ensures Engaged(Apply(s, e))
  {
  }

  lemma {:induction false} FlushEngages(s: State, calls: FlushCalls)
    requires Engaged(s)
    ensures Engaged(FlushOrThrow(s, calls).0)
  {
  }

  lemma {:induction false} DrainTurnEngages(s: State, rounds: nat, first: nat)
    requires Engaged(s)
    ensures Engaged(DrainTurn(s, rounds, first))
  {
  }

  lemma {:induction false} FlushPendingEngages(s: State, signal: Option<nat>)
    requires Engaged(s)
    ensures Engaged(FlushPendingAsync(s, signal))
  {
    DrainTurnEngages(AddConsumer(s, signal), 0, s.writeGeneration);
  }

  lemma {:induction false} WriterEngages(s: State, e: Event)
    requires Engaged(s) && Enabled(s, e)
    requires e.WriterStarts? || e.MkdirEnds? || e.TmpWriteEnds? || e.TmpWriteResumes?
    ensures Engaged(Apply(s, e))
  {
  }

  lemma {:induction false} LandingEngages(s: State, e: Event)
    requires Engaged(s) && Enabled(s, e) && (e.RenameEnds? || e.RenameResumes? || e.RemoveEnds?)
    ensures Engaged(Apply(s, e))
  {
  }

  lemma {:induction false} StepEngages(s: State, e: Event)
    requires QuietShows(s) && Enabled(s, e)
    requires Engaged(s) || (e.Set? && e.value.Some?)
    ensures Engaged(Apply(s, e))
  {
    match e
    case Flush(calls) => FlushEngages(s, calls);
    case FlushPending(signal) => FlushPendingEngages(s, signal);
    case FlushQuit => FlushPendingEngages(s.(quitStarted := true), None);
    case DrainResumes => DrainTurnEngages(s, s.drain.rounds, s.drain.first);
    case RenameEnds(_) => LandingEngages(s, e);
    case RenameResumes => LandingEngages(s, e);
    case RemoveEnds(_) => LandingEngages(s, e);
    case WriterStarts => WriterEngages(s, e);
    case MkdirEnds(_) => WriterEngages(s, e);
    case TmpWriteEnds(_) => WriterEngages(s, e);
    case TmpWriteResumes => WriterEngages(s, e);
    case _ => CallEngages(s, e);
  }

  lemma {:induction false} RunShows(s: State, es: seq<Event>, t: State)
    requires CleanInv(s) && QuietShows(s) && OrdinarilyReaches(s, es, t)
    requires Engaged(s) || AcceptsSet(es)
    ensures CleanInv(t) && QuietShows(t) && Engaged(t)
    decreases |es|
  {
    if es != [] {
      StepShows(s, es[0]);
      if Engaged(s) || (es[0].Set? && es[0].value.Some?) {
        StepEngages(s, es[0]);
      } else {
        var i :| 0 <= i < |es| && es[i].Set? && es[i].value.Some?;
        assert es[1..][i - 1] == es[i];
      }
      RunShows(Apply(s, es[0]), es[1..], t);
    }
  }

  /** After an accepted set, a state that is quiet and not paused shows the active view in the file and
      in the marker. */
  lemma {:induction false} QuietFileShowsView(content: Content, legacy: Option<View>, es: seq<Event>, t: State)
    requires OrdinarilyReaches(Init(content, legacy), es, t) && AcceptsSet(es)
    requires Quiet(t) && !t.paused
    ensures t.file.content == Whole(t.activeView) && t.persisted == Some(t.activeView)
  {
    InitKeeps(content, legacy);
    RunShows(Init(content, legacy), es, t);
  }

  /** Sets, debounce firings and writer steps alone are always ordinary. */
  lemma {:induction false} PlainRunsAreOrdinary(s: State, es: seq<Event>, t: State)
    requires CleanlyReaches(s, es, t) && !s.paused
    requires forall i :: 0 <= i < |es| ==>
      !(|| es[i].Flush? || es[i].FlushPending? || es[i].FlushQuit? || es[i].DrainResumes?
        || es[i].Pause? || es[i].Unpause?)
    ensures OrdinarilyReaches(s, es, t)
    decreases |es|
  {
    if es != [] {
      PlainRunsAreOrdinary(Apply(s, es[0]), es[1..], t);
    }
  }
}
