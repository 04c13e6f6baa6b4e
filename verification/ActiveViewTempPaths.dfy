/**
 Temp paths are named by generations, and no two writes ever share one: generations grow with every
 enqueued write and with every synchronous flush, whichever file calls fail.
 */
module ActiveViewTempPaths {
  import opened Options
  import opened ActiveViewProtocol
  import opened ActiveViewSafety

  /** The paths that writes to come will use do not exist yet. */
  ghost predicate Fresh(s: State) {
    && (forall g :: g in s.temps ==> g <= s.writeGeneration)
    && (s.timer ==> s.writeGeneration !in s.temps)
    && (forall i :: 0 <= i < |s.queue| ==> s.queue[i].generation !in s.temps)
    && (s.running.Some? && Early(s.running.value.phase) ==> s.running.value.generation !in s.temps)
  }

  ghost predicate FreshInv(s: State) {
    Inv(s) && Fresh(s)
  }

  /** A step that adds no temp file, no debounce and no early writer keeps the paths fresh. */
  lemma {:induction false} BystanderFresh(s: State, t: State)
    requires Fresh(s) && t.temps.Keys <= s.temps.Keys
    requires t.timer ==> s.timer && t.writeGeneration == s.writeGeneration
    requires s.writeGeneration <= t.writeGeneration && t.queue == s.queue
    requires t.running == s.running || (t.running.Some? ==> !Early(t.running.value.phase))
    ensures Fresh(t)
  {
  }

  lemma {:induction false} ScheduleFresh(s: State)
    requires Fresh(s)
    ensures Fresh(ScheduleSave(s))
  {
  }

  lemma {:induction false} EnqueueFresh(s: State, view: View, g: nat)
    requires Fresh(s) && g !in s.temps
    ensures Fresh(EnqueueWrite(s, view, g))
  {
  }

  lemma {:induction false} BeginFresh(s: State)
    requires Fresh(s) && s.queue != []
    ensures Fresh(Begin(s))
  {
  }

  lemma {:induction false} TmpWriteEndFresh(s: State, written: WriteOutcome)
    requires FreshInv(s) && RunningIn(s, WritingTmp)
    ensures Fresh(TmpWriteEnd(s, written))
  {
  }

  /** The state after the generation bump of a flush: every path on the chain is older. */
  ghost predicate BumpedFresh(s: State) {
    && Fresh(s) && !s.timer
    && (forall i :: 0 <= i < |s.queue| ==> s.queue[i].generation < s.writeGeneration)
    && (s.running.Some? ==> s.running.value.generation < s.writeGeneration)
  }

  lemma {:induction false} BumpFresh(s: State)
    requires FreshInv(s)
    ensures BumpedFresh(Bump(s))
  {
  }

  lemma {:induction false} FlushWriteFresh(s: State, calls: FlushCalls)
    requires BumpedFresh(s)
    ensures Fresh(FlushWrite(s, calls).0)
  {
  }

  lemma {:induction false} FlushSwapFresh(s: State, calls: FlushCalls)
    requires BumpedFresh(s) && s.writeGeneration !in s.temps
    ensures Fresh(FlushSwap(s, calls).0)
  {
    if s.inFlight.Some? && calls.unlink.Failed? {
      EnqueueFresh(s, s.activeView, s.writeGeneration);
    } else if s.inFlight.None? || calls.unlink.Missing? {
      FlushWriteFresh(s, calls);
    } else {
      FlushWriteFresh(Unclaim(s), calls);
    }
  }

  lemma {:induction false} FlushFresh(s: State, calls: FlushCalls)
    requires FreshInv(s)
    ensures Fresh(FlushOrThrow(s, calls).0)
  {
    BumpFresh(s);
    FlushSwapFresh(Bump(s), calls);
  }

  lemma {:induction false} DrainEnqueueFresh(s: State, rounds: nat, first: nat)
    requires Fresh(s)
    ensures Fresh(DrainEnqueue(s, rounds, first))
  {
    BystanderFresh(s, Bump(s));
    EnqueueFresh(Bump(s), s.activeView, s.writeGeneration + 1);
  }

  lemma {:induction false} EndDrainFresh(s: State)
    requires Fresh(s)
    ensures Fresh(EndDrain(s)) && Fresh(EndDrain(s.(timer := false)))
  {
  }

  lemma {:induction false} DrainTurnFresh(s: State, rounds: nat, first: nat)
    requires Fresh(s)
    ensures Fresh(DrainTurn(s, rounds, first))
  {
    DrainEnqueueFresh(s, rounds, first);
    EndDrainFresh(s);
  }

  lemma {:induction false} DrainResumeFresh(s: State)
    requires Fresh(s) && s.drain.Awaiting?
    ensures Fresh(DrainResume(s))
  {
    DrainTurnFresh(s, s.drain.rounds, s.drain.first);
    EndDrainFresh(s);
  }

  lemma {:induction false} FlushPendingFresh(s: State, signal: Option<nat>)
    requires Fresh(s)
    ensures Fresh(FlushPendingAsync(s, signal))
  {
    var s1 := AddConsumer(s, signal);
    BystanderFresh(s, s1);
    DrainTurnFresh(s1, 0, s.writeGeneration);
  }

  lemma {:induction false} TmpWriteResumeFresh(s: State)
    requires Fresh(s) && RunningIn(s, TmpWritten)
    ensures Fresh(TmpWriteResume(s))
  {
    BystanderFresh(s, TmpWriteResume(s));
  }

  lemma {:induction false} RenameEndFresh(s: State, outcome: Outcome)
    requires Fresh(s) && Enabled(s, RenameEnds(outcome))
    ensures Fresh(RenameEnd(s, outcome))
  {
    BystanderFresh(s, RenameEnd(s, outcome));
  }

  lemma {:induction false} RenameResumeLeaves(s: State)
    requires s.running.Some?
    ensures var t := RenameResume(s);
            && t.temps == s.temps && t.timer == s.timer && t.writeGeneration == s.writeGeneration && t.queue == s.queue
            && (t.running.Some? ==> t.running.value.phase == Removing)
  {
  }

  lemma {:induction false} RenameResumeFresh(s: State)
    requires Fresh(s) && s.running.Some?
    ensures Fresh(RenameResume(s))
  {
    RenameResumeLeaves(s);
    BystanderFresh(s, RenameResume(s));
  }

  lemma {:induction false} RemoveEndFresh(s: State, ok: bool)
    requires Fresh(s) && s.running.Some?
    ensures Fresh(RemoveEnd(s, ok))
  {
    BystanderFresh(s, RemoveEnd(s, ok));
  }

  lemma {:induction false} MkdirEndFresh(s: State, ok: bool)
    requires Fresh(s) && RunningIn(s, MakingDir)
    ensures Fresh(Move(s, if ok then WritingTmp else Removing))
  {
  }

  lemma {:induction false} CallFresh(s: State, e: Event)
    requires FreshInv(s) && Enabled(s, e)
    requires e.Set? || e.TimerFires? || e.SignalAborts? || e.Pause? || e.Unpause?
    ensures Fresh(Apply(s, e))
  {
    match e
    case Set(value) => if value.Some? { ScheduleFresh(s.(activeView := value.value)); }
    case TimerFires => EnqueueFresh(s.(timer := false), s.activeView, s.writeGeneration);
    case Unpause => ScheduleFresh(s.(paused := false));
    case _ =>
  }

  lemma {:induction false} StepFresh(s: State, e: Event)
    requires FreshInv(s) && Enabled(s, e)
    ensures FreshInv(Apply(s, e))
  {
    StepKeeps(s, e);
    match e
    case WriterStarts => BeginFresh(s);
    case MkdirEnds(ok) => MkdirEndFresh(s, ok);
    case TmpWriteEnds(written) => TmpWriteEndFresh(s, written);
    case TmpWriteResumes => TmpWriteResumeFresh(s);
    case Flush(calls) => FlushFresh(s, calls);
    case FlushPending(signal) => FlushPendingFresh(s, signal);
    case FlushQuit => FlushPendingFresh(s.(quitStarted := true), None);
    case DrainResumes => DrainResumeFresh(s);
    case RenameEnds(outcome) => RenameEndFresh(s, outcome);
    case RenameResumes => RenameResumeFresh(s);
    case RemoveEnds(ok) => RemoveEndFresh(s, ok);
    case _ => CallFresh(s, e);
  }

  lemma {:induction false} RunFresh(s: State, es: seq<Event>, t: State)
    requires FreshInv(s) && Reaches(s, es, t)
    ensures FreshInv(t)
    decreases |es|
  {
    if es != [] {
      StepFresh(s, es[0]);
      RunFresh(Apply(s, es[0]), es[1..], t);
    }
  }

  lemma {:induction false} ReachableFresh(s: State)
    requires Reachable(s)
    ensures FreshInv(s)
  {
    var content: Content, legacy: Option<View>, es :| Reaches(Init(content, legacy), es, s);
    InitKeeps(content, legacy);
    RunFresh(Init(content, legacy), es, s);
  }

  /** The temp path a writer or a flush is about to write does not exist, and a non-null claim is
      the path of the one writer inside `await rename`. */
  lemma {:induction false} TempPathsAreNotShared(s: State)
    requires Reachable(s)
    ensures RunningIn(s, WritingTmp) ==> s.running.value.generation !in s.temps
    ensures s.writeGeneration + 1 !in s.temps
    ensures s.inFlight.Some? ==>
      s.running.Some? && s.running.value.generation == s.inFlight.value
      && s.running.value.phase in {Renaming, Renamed, RenameFailed}
  {
    ReachableFresh(s);
  }

  // ---------- what is enqueued ----------

  /** `t` has enqueued nothing since `s`, or one write, at the end of the chain and newer than every earlier one. */
  predicate EnqueuesNewer(s: State, t: State) {
    || (t.queue == s.queue && t.enqueued == s.enqueued)
    || (t.queue == s.queue + [t.enqueued] && s.enqueued.generation < t.enqueued.generation)
  }

  lemma {:induction false} FlushEnqueuesNewer(s: State, calls: FlushCalls)
    requires Ordered(s)
    ensures EnqueuesNewer(s, FlushOrThrow(s, calls).0)
  {
  }

  lemma {:induction false} DrainTurnEnqueuesNewer(s: State, rounds: nat, first: nat)
    requires Ordered(s)
    ensures EnqueuesNewer(s, DrainTurn(s, rounds, first))
  {
  }

  lemma {:induction false} FlushPendingEnqueuesNewer(s: State, signal: Option<nat>)
    requires Ordered(s)
    ensures EnqueuesNewer(s, FlushPendingAsync(s, signal))
  {
    DrainTurnEnqueuesNewer(AddConsumer(s, signal), 0, s.writeGeneration);
  }

  lemma {:induction false} WriterEnqueuesNothing(s: State)
    requires s.running.Some?
    ensures forall phase :: EnqueuesNewer(s, Move(s, phase))
    ensures forall written :: EnqueuesNewer(s, TmpWriteEnd(s, written))
    ensures EnqueuesNewer(s, TmpWriteResume(s))
  {
  }

  lemma {:induction false} LandingEnqueuesNothing(s: State, e: Event)
    requires Enabled(s, e) && (e.RenameEnds? || e.RenameResumes? || e.RemoveEnds?)
    ensures EnqueuesNewer(s, Apply(s, e))
  {
  }

  lemma {:induction false} StepEnqueuesNewer(s: State, e: Event)
    requires Ordered(s) && Enabled(s, e) && !e.WriterStarts?
    ensures EnqueuesNewer(s, Apply(s, e))
  {
    match e
    case Flush(calls) => FlushEnqueuesNewer(s, calls);
    case FlushPending(signal) => FlushPendingEnqueuesNewer(s, signal);
    case FlushQuit => FlushPendingEnqueuesNewer(s.(quitStarted := true), None);
    case DrainResumes => DrainTurnEnqueuesNewer(s, s.drain.rounds, s.drain.first);
    case Set(_) =>
    case TimerFires =>
    case SignalAborts(_) =>
    case Pause =>
    case Unpause =>
    case MkdirEnds(_) => WriterEnqueuesNothing(s);
    case TmpWriteEnds(_) => WriterEnqueuesNothing(s);
    case TmpWriteResumes => WriterEnqueuesNothing(s);
    case _ => LandingEnqueuesNothing(s, e);
  }

  /** The writes one step enqueues. */
  function StepEnqueues(s: State, e: Event): seq<Request>
    requires Enabled(s, e)
  {
    if e.WriterStarts? || |Apply(s, e).queue| < |s.queue| then [] else Apply(s, e).queue[|s.queue|..]
  }

  /** The writes enqueued in a run, in order. */
  ghost function RunEnqueues(s: State, es: seq<Event>, t: State): seq<Request>
    requires Reaches(s, es, t)
    decreases |es|
  {
    if es == [] then [] else StepEnqueues(s, es[0]) + RunEnqueues(Apply(s, es[0]), es[1..], t)
  }

  /** The generations grow from each write to the next, and all are greater than `g`. */
  ghost predicate Growing(requests: seq<Request>, g: nat) {
    && (forall i :: 0 <= i < |requests| ==> g < requests[i].generation)
    && (forall i, j :: 0 <= i < j < |requests| ==> requests[i].generation < requests[j].generation)
  }

  lemma {:induction false} StepGrows(s: State, e: Event)
    requires Ordered(s) && Enabled(s, e)
    ensures s.enqueued.generation <= Apply(s, e).enqueued.generation
    ensures StepEnqueues(s, e) == [] || (StepEnqueues(s, e) == [Apply(s, e).enqueued]
                                         && s.enqueued.generation < Apply(s, e).enqueued.generation)
  {
    if !e.WriterStarts? { StepEnqueuesNewer(s, e); }
  }

  /** Every write enqueued in a run has a greater generation than all that were enqueued before it: no two share a
      temp path, whichever of them are still pending. */
  lemma {:induction false} EnqueuedGenerationsGrow(s: State, es: seq<Event>, t: State)
    requires Reachable(s) && Reaches(s, es, t)
    ensures forall g: nat :: Enlisted(s, g) ==> g <= s.enqueued.generation
    ensures Growing(RunEnqueues(s, es, t), s.enqueued.generation)
  {
    ReachableInv(s);
    forall g: nat | Enlisted(s, g) ensures g <= s.enqueued.generation { ChainBelow(s, g); }
    RunGrows(s, es, t);
  }

  lemma {:induction false} RunGrows(s: State, es: seq<Event>, t: State)
    requires Inv(s) && Reaches(s, es, t)
    ensures Growing(RunEnqueues(s, es, t), s.enqueued.generation)
    decreases |es|
  {
    if es != [] {
      StepKeeps(s, es[0]);
      StepGrows(s, es[0]);
      RunGrows(Apply(s, es[0]), es[1..], t);
    }
  }

  /** Nothing else gets into the chain: what a run enqueued is what the chain gained and has since begun. */
  lemma {:induction false} ChainIsEnqueued(s: State, e: Event)
    requires Ordered(s) && Enabled(s, e)
    ensures if e.WriterStarts? then s.queue == [Request(Apply(s, e).running.value.view,
                                                        Apply(s, e).running.value.generation)] + Apply(s, e).queue
            else Apply(s, e).queue == s.queue + StepEnqueues(s, e)
  {
    if !e.WriterStarts? { StepEnqueuesNewer(s, e); }
  }
}
