/**
 What single calls of the preference do, said on its fields: what a set requests, how a flush ends when a file
 call fails, and when a drain gives up. A flush that cannot remove the claimed temp file throws, but its view
 still reaches the file.
 */
module ActiveViewCalls {
  import opened Options
  import opened ActiveViewProtocol
  import opened ActiveViewSafety
  import opened ActiveViewDrain
  import opened ActiveViewEarlySaves
  import opened ActiveViewQuit

  // ---------- set ----------

  /** An accepted set requests a save if its view differs from the marker's or anything is on its way: a new
      generation, which overtakes every earlier write, and the debounce, unless saving is paused. After the quit
      flush it requests nothing. */
  lemma {:induction false} SetRequestsSave(s: State, view: View)
    ensures var t := SetView(s, Some(view));
            && t.activeView == view && t.persisted == s.persisted && t.file == s.file
            && t.running == s.running && t.queue == s.queue && t.paused == s.paused
            && (!s.quitStarted && (s.persisted != Some(view) || s.timer || s.running.Some? || s.queue != []) ==>
                  t.writeGeneration == s.writeGeneration + 1 && t.timer == (s.timer || !s.paused))
            && (s.quitStarted || (s.persisted == Some(view) && !s.timer && s.running.None? && s.queue == []) ==>
                  t.writeGeneration == s.writeGeneration && t.timer == s.timer)
    ensures SetView(s, None) == s
  {
  }

  // ---------- flushOrThrow ----------

  /** How a flush ends. Only one that writes changes the file and the marker, and only one that could not remove
      the claimed temp file enqueues a write; except for a refused one, all drop the debounce and make every
      earlier write stale. */
  lemma {:induction false} FlushReports(s: State, calls: FlushCalls)
    ensures var (t, r) := FlushOrThrow(s, calls);
            && (r == Refused <==> s.quitStarted) && (r == Refused ==> t == s)
            && (r == Skipped <==>
                  !s.quitStarted && s.running.None? && s.queue == [] && s.persisted == Some(s.activeView))
            && (r != Refused ==> !t.timer && t.writeGeneration == s.writeGeneration + 1)
            && t.activeView == s.activeView && t.running == s.running
            && (r == Wrote ==> t.file.content == Whole(s.activeView) && t.persisted == Some(s.activeView))
            && (r != Wrote ==> t.file == s.file && t.persisted == s.persisted)
            && (r == Wrote || r == Threw ==>
                  (r == Wrote <==> (s.inFlight.Some? ==> !calls.unlink.Failed?)
                                   && calls.mkdir && calls.write.Written? && calls.rename))
            && (t.queue == s.queue || (r == Threw && s.inFlight.Some? && calls.unlink.Failed?))
  {
  }

  /** A flush that fails to remove the claimed temp file throws, and leaves the active view on the chain, newer than
      every other write. */
  lemma {:induction false} FailedVetoEnqueues(s: State, calls: FlushCalls)
    requires Reachable(s) && !s.quitStarted && s.inFlight.Some? && calls.unlink.Failed?
    ensures var (t, r) := FlushOrThrow(s, calls);
            && r == Threw && !t.timer && t.writeGeneration == s.writeGeneration + 1
            && Pending(t) && t.enqueued == Request(s.activeView, t.writeGeneration)
            && t.queue == s.queue + [t.enqueued]
  {
    ReachableInv(s);
  }

  /** The newest write carries `view`, which is active, and has not failed; when it has left the chain it is in
      the file. */
  ghost predicate Delivering(s: State, view: View) {
    && s.activeView == view && !s.timer && s.writeGeneration > 0
    && s.enqueued == Request(view, s.writeGeneration)
    && (!Pending(s) ==> s.file.content == Whole(view))
    && (s.running.Some? && s.running.value.generation == s.writeGeneration ==>
          && s.running.value.phase != RenameFailed && s.running.value.phase != Removing
          && (s.running.value.phase == Renaming ==> s.running.value.generation in s.temps)
          && (s.running.value.phase == Renamed ==> s.file.content == Whole(view)))
  }

  lemma {:induction false} BeginDelivers(s: State, view: View)
    requires Inv(s) && Delivering(s, view) && s.running.None? && s.queue != []
    ensures Delivering(Begin(s), view)
  {
  }

  lemma {:induction false} EarlyMoveDelivers(s: State, view: View)
    requires Inv(s) && Delivering(s, view)
    ensures RunningIn(s, MakingDir) ==> Delivering(Move(s, WritingTmp), view)
    ensures RunningIn(s, WritingTmp) ==> Delivering(TmpWriteEnd(s, Written), view)
    ensures RunningIn(s, TmpWritten) ==> Delivering(TmpWriteResume(s), view)
  {
  }

  lemma {:induction false} RenameEndDelivers(s: State, view: View, outcome: Outcome)
    requires Inv(s) && Delivering(s, view)
    requires Enabled(s, RenameEnds(outcome)) && Clean(s, RenameEnds(outcome))
    ensures Delivering(RenameEnd(s, outcome), view)
  {
  }

  lemma {:induction false} RenameResumeDelivers(s: State, view: View)
    requires Inv(s) && Delivering(s, view) && (RunningIn(s, Renamed) || RunningIn(s, RenameFailed))
    ensures Delivering(RenameResume(s), view)
  {
  }

  lemma {:induction false} RemoveDelivers(s: State, view: View)
    requires Inv(s) && Delivering(s, view) && RunningIn(s, Removing)
    ensures Delivering(RemoveEnd(s, true), view)
  {
  }

  lemma {:induction false} DrainEnqueueDelivers(s: State, view: View, rounds: nat, first: nat)
    requires Inv(s) && s.activeView == view
    ensures Delivering(DrainEnqueue(s, rounds, first), view)
  {
  }

  lemma {:induction false} DrainResumeDelivers(s: State, view: View)
    requires Inv(s) && Delivering(s, view) && s.drain.Awaiting?
    ensures Delivering(DrainResume(s), view)
  {
    DrainEnqueueDelivers(s, view, s.drain.rounds, s.drain.first);
    assert Delivering(EndDrain(s), view);
  }

  lemma {:induction false} StepDelivers(s: State, view: View, e: Event)
    requires Inv(s) && Delivering(s, view) && Enabled(s, e) && Clean(s, e) && !IsCall(e)
    ensures Inv(Apply(s, e)) && Delivering(Apply(s, e), view)
  {
    StepKeeps(s, e);
    match e
    case WriterStarts => BeginDelivers(s, view);
    case MkdirEnds(_) => EarlyMoveDelivers(s, view);
    case TmpWriteEnds(_) => EarlyMoveDelivers(s, view);
    case TmpWriteResumes => EarlyMoveDelivers(s, view);
    case RenameEnds(outcome) => RenameEndDelivers(s, view, outcome);
    case RenameResumes => RenameResumeDelivers(s, view);
    case RemoveEnds(_) => RemoveDelivers(s, view);
    case DrainResumes => DrainResumeDelivers(s, view);
    case SignalAborts(_) =>
  }

  lemma {:induction false} RunDelivers(s: State, view: View, es: seq<Event>, t: State)
    requires Inv(s) && Delivering(s, view) && CleanlyReaches(s, es, t) && NoCalls(es)
    ensures Delivering(t, view)
    decreases |es|
  {
    if es != [] {
      assert !IsCall(es[0]);
      StepDelivers(s, view, es[0]);
      RunDelivers(Apply(s, es[0]), view, es[1..], t);
    }
  }

  /** Whatever was parked, and whatever failed before: with successful file calls from then on and no further call,
      the file shows the view of such a flush as soon as nothing is pending. */
  lemma {:induction false} FailedVetoDelivers(s: State, calls: FlushCalls, es: seq<Event>, u: State)
    requires Reachable(s) && !s.quitStarted && s.inFlight.Some? && calls.unlink.Failed?
    requires CleanlyReaches(FlushOrThrow(s, calls).0, es, u) && NoCalls(es) && !Pending(u)
    ensures u.file.content == Whole(s.activeView) && !u.timer
  {
    ReachableInv(s);
    FlushKeeps(s, calls);
    RunDelivers(FlushOrThrow(s, calls).0, s.activeView, es, u);
  }

  // ---------- the drain ----------

  /** While no drain runs it has no consumers. */
  ghost predicate ConsumersOfDrain(s: State) {
    s.drain.Idle? ==> s.consumers == Consumers({}, 0)
  }

  lemma {:induction false} StartLeavesDrain(s: State)
    requires s.running.None? && s.queue != []
    ensures Begin(s).drain == s.drain && Begin(s).consumers == s.consumers
  {
  }

  lemma {:induction false} TmpWriteResumeLeavesDrain(s: State)
    requires RunningIn(s, TmpWritten)
    ensures TmpWriteResume(s).drain == s.drain && TmpWriteResume(s).consumers == s.consumers
  {
  }

  lemma {:induction false} RenameResumeLeavesDrain(s: State)
    requires RunningIn(s, Renamed) || RunningIn(s, RenameFailed)
    ensures RenameResume(s).drain == s.drain && RenameResume(s).consumers == s.consumers
  {
  }

  lemma {:induction false} FileCallsLeaveDrain(s: State, e: Event)
    requires Enabled(s, e)
    requires e.MkdirEnds? || e.TmpWriteEnds? || e.RenameEnds? || e.RemoveEnds?
    ensures Apply(s, e).drain == s.drain && Apply(s, e).consumers == s.consumers
  {
  }

  lemma {:induction false} OthersLeaveDrain(s: State, e: Event)
    requires Enabled(s, e)
    requires e.Set? || e.TimerFires? || e.Flush? || e.SignalAborts? || e.Pause? || e.Unpause?
    ensures Apply(s, e).drain == s.drain && Apply(s, e).consumers == s.consumers
  {
  }

  lemma {:induction false} DrainKeepsConsumers(s: State)
    requires s.drain.Awaiting?
    ensures ConsumersOfDrain(DrainResume(s))
  {
  }

  /** Only the calls and the turns of the drain touch it. */
  lemma {:induction false} StepKeepsConsumers(s: State, e: Event)
    requires ConsumersOfDrain(s) && Enabled(s, e)
    ensures ConsumersOfDrain(Apply(s, e))
  {
    match e
    case FlushPending(_) =>
    case FlushQuit =>
    case DrainResumes => DrainKeepsConsumers(s);
    case Set(_) => OthersLeaveDrain(s, e);
    case TimerFires => OthersLeaveDrain(s, e);
    case Flush(_) => OthersLeaveDrain(s, e);
    case SignalAborts(_) => OthersLeaveDrain(s, e);
    case Pause => OthersLeaveDrain(s, e);
    case Unpause => OthersLeaveDrain(s, e);
    case WriterStarts => StartLeavesDrain(s);
    case TmpWriteResumes => TmpWriteResumeLeavesDrain(s);
    case RenameResumes => RenameResumeLeavesDrain(s);
    case _ => FileCallsLeaveDrain(s, e);
  }

  lemma {:induction false} RunKeepsConsumers(s: State, es: seq<Event>, t: State)
    requires ConsumersOfDrain(s) && Reaches(s, es, t)
    ensures ConsumersOfDrain(t)
    decreases |es|
  {
    if es != [] {
      StepKeepsConsumers(s, es[0]);
      RunKeepsConsumers(Apply(s, es[0]), es[1..], t);
    }
  }

  lemma {:induction false} IdleHasNoConsumers(s: State)
    requires Reachable(s)
    ensures s.drain.Idle? ==> s.consumers == Consumers({}, 0)
  {
    var content: Content, legacy: Option<View>, es: seq<Event> :| Reaches(Init(content, legacy), es, s);
    RunKeepsConsumers(Init(content, legacy), es, s);
  }

  /** A call whose signal has fired changes nothing. Any other made while a drain runs registers its one consumer with
      it, and the drain goes on as it was. */
  lemma {:induction false} FlushPendingJoins(s: State, signal: Option<nat>)
    ensures var t := FlushPendingAsync(s, signal);
            && (signal.Some? && signal.value in s.aborted ==> t == s)
            && (!(signal.Some? && signal.value in s.aborted) && s.drain.Awaiting? ==>
                  && t == s.(consumers := t.consumers)
                  && t.consumers.unabortable == s.consumers.unabortable + (if signal.Some? then 0 else 1)
                  && t.consumers.signals == s.consumers.signals + (if signal.Some? then {signal.value} else {}))
  {
  }

  /** Without a drain it starts one with itself as the one consumer, which enqueues the active view at a new
      generation, unless there is nothing to write and nothing pending: then it drops the debounce and ends. */
  lemma {:induction false} FlushPendingStarts(s: State, signal: Option<nat>)
    requires Reachable(s) && s.drain.Idle? && (signal.Some? ==> signal.value !in s.aborted)
    ensures var t := FlushPendingAsync(s, signal);
            if s.persisted == Some(s.activeView) && s.running.None? && s.queue == [] then t == s.(timer := false)
            else && t.drain.Awaiting? && !t.timer && t.writeGeneration == s.writeGeneration + 1
                 && t.queue == s.queue + [Request(s.activeView, t.writeGeneration)]
                 && t.drain.generation == t.writeGeneration && t.drain.view == s.activeView
                 && t.consumers == (if signal.Some? then Consumers({signal.value}, 0) else Consumers({}, 1))
  {
    IdleHasNoConsumers(s);
  }

  /** The quit flush closes the object to sets and drains once, as a consumer that cannot be aborted. */
  lemma {:induction false} QuitFlushStartsOnce(s: State)
    ensures FlushAsync(s).quitStarted && FlushAsync(FlushAsync(s)) == FlushAsync(s)
    ensures !s.quitStarted ==> FlushAsync(s) == FlushPendingAsync(s.(quitStarted := true), None)
  {
  }

  /** A drain that has another write to do gives up if and only if all of its consumers can be aborted and every one
      of their signals has fired. */
  lemma {:induction false} DrainAbortsExact(s: State)
    requires Reachable(s) && Enabled(s, DrainResumes) && s.drain.generation != s.writeGeneration
    requires s.running.Some? || s.queue != [] || s.persisted != Some(s.activeView)
    ensures DrainResume(s).drain.Idle?
       <==> s.consumers.unabortable == 0 && s.consumers.signals != {}
            && forall signal :: signal in s.consumers.signals ==> signal in s.aborted
  {
  }

  // ---------- maintenance ----------

  /** A pause drops the debounce and keeps sets from arming another, once and not after the quit flush. Its end arms one
      at a new generation if and only if the view differs from the marker's and no quit flush has begun. */
  lemma {:induction false} MaintenancePauses(s: State)
    ensures var t := PauseForMaintenance(s);
            if s.paused || s.quitStarted then t == s else t == s.(paused := true, timer := false)
    ensures var t, late := ResumeAfterMaintenance(s), s.persisted != Some(s.activeView) && !s.quitStarted;
            && !t.paused && t.timer == (s.timer || late)
            && t.writeGeneration == s.writeGeneration + (if late then 1 else 0)
            && t == s.(paused := false, timer := t.timer, writeGeneration := t.writeGeneration)
  {
  }
}
