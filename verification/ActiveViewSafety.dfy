/**
 What every run of the active-view writer keeps, whichever file calls fail and however the
 steps interleave: generations order all writes, one writer at a time holds the temp-path
 claim, and the file never goes back to an older write.
 */
module ActiveViewSafety {
  import opened Options
  import opened ActiveViewProtocol

  // ---------- the invariant ----------

  /** Generations grow along the promise chain, and a pending debounce has one of its own. */
  ghost predicate Ordered(s: State) {
    && (forall i, j :: 0 <= i < j < |s.queue| ==> s.queue[i].generation < s.queue[j].generation)
    && (s.queue != [] ==> s.queue[|s.queue| - 1] == s.enqueued)
    && (s.running.Some? && s.queue != [] ==> s.running.value.generation < s.queue[0].generation)
    && (s.running.Some? && s.queue == [] ==>
          s.enqueued == Request(s.running.value.view, s.running.value.generation))
    && (Pending(s) ==> 0 < s.enqueued.generation)
    && s.enqueued.generation <= s.writeGeneration
    && (s.timer ==> s.enqueued.generation < s.writeGeneration)
    && (s.paused ==> !s.timer)
  }

  /** A non-null `inFlightTmpFile` is the temp path of the writer inside `await rename`. */
  ghost predicate Claimed(s: State) {
    && (s.inFlight.Some? ==>
          s.running.Some? && s.inFlight.value == s.running.value.generation
          && s.running.value.phase in {Renaming, Renamed, RenameFailed})
    && (RunningIn(s, Renaming) && s.running.value.generation in s.temps ==>
          s.inFlight == Some(s.running.value.generation))
  }

  predicate Early(phase: Phase) {
    phase == MakingDir || phase == WritingTmp
  }

  /** The temp file a writer is about to rename holds its view, whole. */
  ghost predicate TempWhole(s: State) {
    s.running.Some? ==>
      var w := s.running.value;
      && (w.phase == TmpWritten ==> w.generation in s.temps)
      && (w.phase == TmpWritten || w.phase == Renaming ==>
            w.generation in s.temps ==> s.temps[w.generation] == Whole(w.view))
  }

  /** Whether some continuation of the run lets the running writer replace the file. */
  predicate CanLand(s: State, w: Writer) {
    if w.phase == Renaming then w.generation in s.temps
    else (Early(w.phase) || w.phase == TmpWritten) && w.generation == s.writeGeneration
  }

  /** A write that can still land is newer than what the file holds. */
  ghost predicate Vetoed(s: State) {
    && s.file.generation <= s.writeGeneration
    && (s.running.Some? && CanLand(s, s.running.value) ==> s.file.generation < s.running.value.generation)
    && (s.queue != [] && s.enqueued.generation == s.writeGeneration ==> s.file.generation < s.writeGeneration)
    && (s.timer ==> s.file.generation < s.writeGeneration)
    && (s.file.generation > 0 ==> s.file.content.Whole?)
  }

  ghost predicate Inv(s: State) {
    Ordered(s) && Claimed(s) && TempWhole(s) && Vetoed(s)
  }

  /** The file is the same or was replaced by a newer write. */
  predicate FileAdvances(s: State, t: State) {
    && s.file.generation <= t.file.generation
    && (s.file.generation == t.file.generation ==> s.file == t.file)
  }

  // ---------- one step at a time ----------

  lemma {:induction false} InitKeeps(content: Content, legacy: Option<View>)
    ensures Inv(Init(content, legacy))
  {
  }

  lemma {:induction false} ScheduleKeeps(s: State)
    requires Inv(s)
    ensures Inv(ScheduleSave(s)) && ScheduleSave(s).file == s.file
  {
  }

  /** An enqueued write takes a generation above every earlier one. */
  lemma {:induction false} EnqueueKeeps(s: State, view: View, g: nat)
    requires Inv(s) && !s.timer
    requires s.enqueued.generation < g == s.writeGeneration && s.file.generation < g
    ensures Inv(EnqueueWrite(s, view, g))
  {
  }

  lemma {:induction false} SetKeeps(s: State, value: Option<View>)
    requires Inv(s)
    ensures Inv(SetView(s, value)) && SetView(s, value).file == s.file
  {
  }

  lemma {:induction false} TimerKeeps(s: State)
    requires Inv(s) && s.timer
    ensures Inv(TimerFire(s)) && TimerFire(s).file == s.file
  {
    EnqueueKeeps(s.(timer := false), s.activeView, s.writeGeneration);
  }

  lemma {:induction false} BeginKeeps(s: State)
    requires Inv(s) && s.running.None? && s.queue != []
    ensures Inv(Begin(s)) && Begin(s).file == s.file
  {
  }

  lemma {:induction false} MkdirKeeps(s: State, ok: bool)
    requires Inv(s) && RunningIn(s, MakingDir)
    ensures Inv(Move(s, if ok then WritingTmp else Removing))
  {
  }

  lemma {:induction false} TmpWriteEndKeeps(s: State, written: WriteOutcome)
    requires Inv(s) && RunningIn(s, WritingTmp)
    ensures Inv(TmpWriteEnd(s, written)) && TmpWriteEnd(s, written).file == s.file
  {
  }

  lemma {:induction false} TmpWriteResumeKeeps(s: State)
    requires Inv(s) && RunningIn(s, TmpWritten)
    ensures Inv(TmpWriteResume(s)) && TmpWriteResume(s).file == s.file
  {
    if s.running.value.generation != s.writeGeneration {
      FinishKeeps(s, TmpWriteResume(s).running, s.persisted, s.confirmed);
    }
  }

  lemma {:induction false} RenameEndKeeps(s: State, outcome: Outcome)
    requires Inv(s) && RunningIn(s, Renaming) && (outcome.Done? ==> s.running.value.generation in s.temps)
    ensures Inv(RenameEnd(s, outcome)) && FileAdvances(s, RenameEnd(s, outcome))
  {
  }

  lemma {:induction false} ReleaseKeeps(s: State)
    requires Inv(s) && (RunningIn(s, Renamed) || RunningIn(s, RenameFailed))
    ensures var s1 := ReleaseClaim(s, s.running.value.generation);
            Inv(s1) && s1.inFlight.None? && s1.running == s.running && s1.file == s.file
  {
  }

  lemma {:induction false} FinishKeeps(s: State, next: Option<Writer>, persisted: Option<View>, confirmed: bool)
    requires Inv(s) && s.running.Some? && s.inFlight.None?
    requires next.Some? ==> next.value == s.running.value.(phase := Removing)
    ensures Inv(s.(running := next, persisted := persisted, confirmed := confirmed))
  {
  }

  lemma {:induction false} RenameResumeKeeps(s: State)
    requires Inv(s) && (RunningIn(s, Renamed) || RunningIn(s, RenameFailed))
    ensures Inv(RenameResume(s)) && RenameResume(s).file == s.file
  {
    ReleaseKeeps(s);
    var t := RenameResume(s);
    FinishKeeps(ReleaseClaim(s, s.running.value.generation), t.running, t.persisted, t.confirmed);
  }

  lemma {:induction false} RemoveKeeps(s: State, ok: bool)
    requires Inv(s) && RunningIn(s, Removing)
    ensures Inv(RemoveEnd(s, ok)) && RemoveEnd(s, ok).file == s.file
  {
  }

  /** The state in which flushOrThrow writes: the debounce is off and no async writer can land. */
  ghost predicate ReadyToFlush(s: State) {
    && Inv(s) && !s.timer
    && (s.running.Some? ==> !CanLand(s, s.running.value))
    && s.enqueued.generation < s.writeGeneration && s.file.generation < s.writeGeneration
  }

  /** A flush that fails half way may leave its temp file, whose path nobody else uses. */
  lemma {:induction false} LeftoverKeeps(s: State, content: Content)
    requires ReadyToFlush(s)
    ensures Inv(s.(temps := s.temps[s.writeGeneration := content]))
  {
  }

  lemma {:induction false} FlushLandKeeps(s: State)
    requires ReadyToFlush(s)
    ensures Inv(FlushLand(s)) && FileAdvances(s, FlushLand(s))
  {
  }

  lemma {:induction false} FlushWriteKeeps(s: State, calls: FlushCalls)
    requires ReadyToFlush(s)
    ensures Inv(FlushWrite(s, calls).0) && FileAdvances(s, FlushWrite(s, calls).0)
  {
    LeftoverKeeps(s, Torn);
    LeftoverKeeps(s, Whole(s.activeView));
    FlushLandKeeps(s);
  }

  lemma {:induction false} BumpKeeps(s: State)
    requires Inv(s)
    ensures Inv(Bump(s))
  {
  }

  /** Unlinking the claimed temp path, or finding it gone, leaves no writer that can land. */
  lemma {:induction false} UnlinkVetoes(s: State, unlink: Outcome)
    requires Inv(s) && (s.inFlight.Some? ==> Truthful(s, unlink) && !unlink.Failed?)
    ensures ReadyToFlush(if s.inFlight.None? || unlink.Missing? then Bump(s) else Unclaim(Bump(s)))
  {
    BumpKeeps(s);
  }

  lemma {:induction false} FlushKeeps(s: State, calls: FlushCalls)
    requires Inv(s) && (s.inFlight.Some? ==> Truthful(s, calls.unlink))
    ensures Inv(FlushOrThrow(s, calls).0) && FileAdvances(s, FlushOrThrow(s, calls).0)
  {
    BumpKeeps(s);
    if s.inFlight.Some? && calls.unlink.Failed? {
      EnqueueKeeps(Bump(s), s.activeView, s.writeGeneration + 1);
    } else {
      UnlinkVetoes(s, calls.unlink);
      FlushWriteKeeps(if s.inFlight.None? || calls.unlink.Missing? then Bump(s) else Unclaim(Bump(s)), calls);
    }
  }

  /** The drain's own records are no part of the invariant. */
  lemma {:induction false} RecordsKeep(s: State, drain: Drain, consumers: Consumers, aborted: set<nat>, quit: bool)
    requires Inv(s)
    ensures Inv(s.(drain := drain, consumers := consumers, aborted := aborted, quitStarted := quit))
  {
  }

  lemma {:induction false} DrainEnqueueKeeps(s: State, rounds: nat, first: nat)
    requires Inv(s)
    ensures Inv(DrainEnqueue(s, rounds, first)) && DrainEnqueue(s, rounds, first).file == s.file
  {
    BumpKeeps(s);
    EnqueueKeeps(Bump(s), s.activeView, s.writeGeneration + 1);
    var s2 := EnqueueWrite(Bump(s), s.activeView, s.writeGeneration + 1);
    RecordsKeep(s2, DrainEnqueue(s, rounds, first).drain, s2.consumers, s2.aborted, s2.quitStarted);
  }

  lemma {:induction false} DisarmKeeps(s: State)
    requires Inv(s)
    ensures Inv(s.(timer := false))
  {
  }

  lemma {:induction false} DrainTurnKeeps(s: State, rounds: nat, first: nat)
    requires Inv(s)
    ensures Inv(DrainTurn(s, rounds, first)) && DrainTurn(s, rounds, first).file == s.file
  {
    if AllConsumersAborted(s) {
      RecordsKeep(s, Idle, NO_CONSUMERS, s.aborted, s.quitStarted);
    } else if SkipsWrite(s) {
      DisarmKeeps(s);
      RecordsKeep(s.(timer := false), Idle, NO_CONSUMERS, s.aborted, s.quitStarted);
    } else {
      DrainEnqueueKeeps(s, rounds, first);
    }
  }

  lemma {:induction false} FlushPendingKeeps(s: State, signal: Option<nat>)
    requires Inv(s)
    ensures Inv(FlushPendingAsync(s, signal)) && FlushPendingAsync(s, signal).file == s.file
  {
    var s1 := AddConsumer(s, signal);
    RecordsKeep(s, s.drain, s1.consumers, s.aborted, s.quitStarted);
    DrainTurnKeeps(s1, 0, s.writeGeneration);
  }

  lemma {:induction false} FlushAsyncKeeps(s: State)
    requires Inv(s)
    ensures Inv(FlushAsync(s)) && FlushAsync(s).file == s.file
  {
    RecordsKeep(s, s.drain, s.consumers, s.aborted, true);
    FlushPendingKeeps(s.(quitStarted := true), None);
  }

  lemma {:induction false} DrainResumeKeeps(s: State)
    requires Inv(s) && s.drain.Awaiting?
    ensures Inv(DrainResume(s)) && DrainResume(s).file == s.file
  {
    if AllConsumersAborted(s) || s.drain.generation == s.writeGeneration {
      RecordsKeep(s, Idle, NO_CONSUMERS, s.aborted, s.quitStarted);
    } else {
      DrainTurnKeeps(s, s.drain.rounds, s.drain.first);
    }
  }

  lemma {:induction false} PauseKeeps(s: State)
    requires Inv(s)
    ensures Inv(PauseForMaintenance(s)) && PauseForMaintenance(s).file == s.file
  {
  }

  lemma {:induction false} ResumeKeeps(s: State)
    requires Inv(s)
    ensures Inv(ResumeAfterMaintenance(s)) && ResumeAfterMaintenance(s).file == s.file
  {
    assert Inv(s.(paused := false));
    ScheduleKeeps(s.(paused := false));
  }

  /** Every step keeps the invariant and never puts an older write back into the file. */
  lemma {:induction false} StepKeeps(s: State, e: Event)
    requires Inv(s) && Enabled(s, e)
    ensures Inv(Apply(s, e)) && FileAdvances(s, Apply(s, e))
  {
    match e
    case Set(value) => SetKeeps(s, value);
    case TimerFires => TimerKeeps(s);
    case WriterStarts => BeginKeeps(s);
    case MkdirEnds(ok) => MkdirKeeps(s, ok);
    case TmpWriteEnds(written) => TmpWriteEndKeeps(s, written);
    case TmpWriteResumes => TmpWriteResumeKeeps(s);
    case RenameEnds(outcome) => RenameEndKeeps(s, outcome);
    case RenameResumes => RenameResumeKeeps(s);
    case RemoveEnds(ok) => RemoveKeeps(s, ok);
    case Flush(calls) => FlushKeeps(s, calls);
    case FlushPending(signal) => FlushPendingKeeps(s, signal);
    case FlushQuit => FlushAsyncKeeps(s);
    case DrainResumes => DrainResumeKeeps(s);
    case SignalAborts(fired) => RecordsKeep(s, s.drain, s.consumers, s.aborted + {fired}, s.quitStarted);
    case Pause => PauseKeeps(s);
    case Unpause => ResumeKeeps(s);
  }

  // ---------- every run ----------

  lemma {:induction false} RunKeeps(s: State, es: seq<Event>, t: State)
    requires Inv(s) && Reaches(s, es, t)
    ensures Inv(t) && FileAdvances(s, t)
    decreases |es|
  {
    if es != [] {
      StepKeeps(s, es[0]);
      RunKeeps(Apply(s, es[0]), es[1..], t);
    }
  }

  lemma {:induction false} ReachableInv(s: State)
    requires Reachable(s)
    ensures Inv(s)
  {
    var content: Content, legacy: Option<View>, es :| Reaches(Init(content, legacy), es, s);
    InitKeeps(content, legacy);
    RunKeeps(Init(content, legacy), es, s);
  }

  /** The file never holds a torn write: once anything has landed it holds a whole view, and a
      later landing is always of a later generation. */
  lemma {:induction false} FileNeverGoesBack(s: State, es: seq<Event>, t: State)
    requires Reachable(s) && Reaches(s, es, t)
    ensures s.file == t.file || s.file.generation < t.file.generation
    ensures t.file != s.file ==> t.file.content.Whole?
  {
    ReachableInv(s);
    RunKeeps(s, es, t);
  }

  lemma {:induction false} ChainBelow(s: State, g: nat)
    requires Ordered(s) && Enlisted(s, g)
    ensures g <= s.enqueued.generation
  {
  }

  /** Once flushOrThrow has written, no write enqueued before it replaces that content: whatever
      phase it was in, its generation never reaches the file again. */
  lemma {:induction false} FlushIsNeverUndone(s: State, calls: FlushCalls, es: seq<Event>, t: State)
    requires Reachable(s) && Enabled(s, Flush(calls)) && FlushOrThrow(s, calls).1 == Wrote
    requires Reaches(FlushOrThrow(s, calls).0, es, t)
    ensures FlushOrThrow(s, calls).0.file == Landed(Whole(s.activeView), s.writeGeneration + 1)
    ensures t.file == FlushOrThrow(s, calls).0.file || s.writeGeneration + 1 < t.file.generation
    ensures forall g: nat :: Enlisted(s, g) || g == s.file.generation ==> g < t.file.generation
  {
    ReachableInv(s);
    FlushKeeps(s, calls);
    RunKeeps(FlushOrThrow(s, calls).0, es, t);
    forall g: nat | Enlisted(s, g) ensures g <= s.writeGeneration { ChainBelow(s, g); }
  }
}
