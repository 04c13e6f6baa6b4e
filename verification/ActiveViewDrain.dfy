/**
 The asynchronous drain and the quit flush, whichever file calls fail: what is left behind when
 a drain ends, how many rounds it may take, and why the quit flush is the last write.
 */
module ActiveViewDrain {
  import opened Options
  import opened ActiveViewProtocol
  import opened ActiveViewSafety

  /** No debounce is armed and no write is on the promise chain. */
  predicate Quiet(s: State) {
    !s.timer && !Pending(s)
  }

  /** The drain awaits one of its own writes; every round but the first answers a generation bump
      that was not the drain's own. */
  ghost predicate DrainPaced(s: State) {
    match s.drain
    case Idle => s.consumers == NO_CONSUMERS
    case Awaiting(_, g, rounds, first) =>
      && 1 <= rounds && first + rounds <= g <= s.enqueued.generation
      && rounds <= 1 + (g - first - rounds)
  }

  /** After the quit flush has begun, a drain that could still be aborted has nothing behind it. */
  ghost predicate QuitSealed(s: State) {
    s.quitStarted ==>
      match s.drain
      case Idle => Quiet(s)
      case Awaiting(_, g, _, _) => s.consumers.unabortable == 0 ==> !s.timer && s.enqueued.generation == g
  }

  ghost predicate DrainInv(s: State) {
    Inv(s) && DrainPaced(s) && QuitSealed(s)
  }

  /** When the write with the newest generation has left the chain, the chain is empty. */
  lemma {:induction false} LastWriteLeft(s: State)
    requires Ordered(s) && !Enlisted(s, s.enqueued.generation)
    ensures !Pending(s)
  {
  }

  lemma {:induction false} DrainTurnPaces(s: State, rounds: nat, first: nat)
    requires Inv(s) && first + rounds <= s.writeGeneration
    requires rounds <= 1 + (s.writeGeneration - first - rounds) - 1
    requires s.quitStarted && AllConsumersAborted(s) ==> Quiet(s)
    ensures DrainPaced(DrainTurn(s, rounds, first)) && QuitSealed(DrainTurn(s, rounds, first))
  {
  }

  lemma {:induction false} FlushPendingPaces(s: State, signal: Option<nat>)
    requires Inv(s) && DrainPaced(s)
    requires s.quitStarted && signal.Some? ==> QuitSealed(s)
    ensures DrainPaced(FlushPendingAsync(s, signal)) && QuitSealed(FlushPendingAsync(s, signal))
  {
    var s1 := AddConsumer(s, signal);
    if s.drain.Idle? && !(signal.Some? && signal.value in s.aborted) {
      RecordsKeep(s, s.drain, s1.consumers, s.aborted, s.quitStarted);
      DrainTurnPaces(s1, 0, s.writeGeneration);
    }
  }

  lemma {:induction false} DrainResumePaces(s: State)
    requires DrainInv(s) && Enabled(s, DrainResumes)
    ensures DrainPaced(DrainResume(s)) && QuitSealed(DrainResume(s))
  {
    if s.enqueued.generation == s.drain.generation { LastWriteLeft(s); }
    if !AllConsumersAborted(s) && s.drain.generation != s.writeGeneration {
      DrainTurnPaces(s, s.drain.rounds, s.drain.first);
    }
  }

  lemma {:induction false} CallPaces(s: State, e: Event)
    requires DrainInv(s) && Enabled(s, e)
    requires e.Set? || e.TimerFires? || e.Pause? || e.Unpause? || e.SignalAborts?
    ensures DrainPaced(Apply(s, e)) && QuitSealed(Apply(s, e))
  {
  }

  /** A step that leaves the drain's records alone and starts nothing keeps both facts. */
  lemma {:induction false} BystanderPaces(s: State, t: State)
    requires DrainPaced(s) && QuitSealed(s)
    requires t.drain == s.drain && t.consumers == s.consumers && t.quitStarted == s.quitStarted
    requires t.enqueued == s.enqueued && (t.timer ==> s.timer) && (Pending(t) ==> Pending(s))
    ensures DrainPaced(t) && QuitSealed(t)
  {
  }

  lemma {:induction false} WriterPaces(s: State, e: Event)
    requires DrainInv(s) && Enabled(s, e)
    requires e.WriterStarts? || e.MkdirEnds? || e.TmpWriteEnds? || e.TmpWriteResumes?
    ensures DrainPaced(Apply(s, e)) && QuitSealed(Apply(s, e))
  {
    BystanderPaces(s, Apply(s, e));
  }

  lemma {:induction false} WriterEndPaces(s: State, e: Event)
    requires DrainInv(s) && Enabled(s, e)
    requires e.RenameEnds? || e.RenameResumes? || e.RemoveEnds?
    ensures DrainPaced(Apply(s, e)) && QuitSealed(Apply(s, e))
  {
    BystanderPaces(s, Apply(s, e));
  }

  lemma {:induction false} FlushPaces(s: State, calls: FlushCalls)
    requires DrainInv(s)
    ensures DrainPaced(FlushOrThrow(s, calls).0) && QuitSealed(FlushOrThrow(s, calls).0)
  {
    if !s.quitStarted && !(s.inFlight.Some? && calls.unlink.Failed?) {
      BystanderPaces(s, FlushOrThrow(s, calls).0);
    }
  }

  lemma {:induction false} StepPaces(s: State, e: Event)
    requires DrainInv(s) && Enabled(s, e)
    ensures DrainInv(Apply(s, e))
  {
    StepKeeps(s, e);
    match e
    case Flush(calls) => FlushPaces(s, calls);
    case FlushPending(signal) => FlushPendingPaces(s, signal);
    case FlushQuit =>
      if !s.quitStarted {
        RecordsKeep(s, s.drain, s.consumers, s.aborted, true);
        FlushPendingPaces(s.(quitStarted := true), None);
      }
    case DrainResumes => DrainResumePaces(s);
    case Set(_) => CallPaces(s, e);
    case TimerFires => CallPaces(s, e);
    case Pause => CallPaces(s, e);
    case Unpause => CallPaces(s, e);
    case SignalAborts(_) => CallPaces(s, e);
    case RenameEnds(_) => WriterEndPaces(s, e);
    case RenameResumes => WriterEndPaces(s, e);
    case RemoveEnds(_) => WriterEndPaces(s, e);
    case _ => WriterPaces(s, e);
  }

  lemma {:induction false} RunPaces(s: State, es: seq<Event>, t: State)
    requires DrainInv(s) && Reaches(s, es, t)
    ensures DrainInv(t)
    decreases |es|
  {
    if es != [] {
      StepPaces(s, es[0]);
      RunPaces(Apply(s, es[0]), es[1..], t);
    }
  }

  lemma {:induction false} ReachableDrainInv(s: State)
    requires Reachable(s)
    ensures DrainInv(s)
  {
    var content: Content, legacy: Option<View>, es :| Reaches(Init(content, legacy), es, s);
    InitKeeps(content, legacy);
    RunPaces(Init(content, legacy), es, s);
  }

  /** A drain that ends without being aborted leaves nothing behind it. */
  lemma {:induction false} DrainEndsQuiet(s: State)
    requires Reachable(s) && Enabled(s, DrainResumes) && !AllConsumersAborted(s)
    requires DrainResume(s).drain.Idle?
    ensures Quiet(DrainResume(s))
  {
    ReachableDrainInv(s);
    if s.drain.generation == s.writeGeneration { LastWriteLeft(s); }
  }

  /** A drain takes at most one round more than there were bumps by other callers since it began. */
  lemma {:induction false} RoundsArePaidFor(s: State)
    requires Reachable(s) && s.drain.Awaiting?
    ensures var others := s.writeGeneration - s.drain.first - s.drain.rounds;
            0 <= others && s.drain.rounds <= 1 + others
  {
    ReachableDrainInv(s);
  }

  /** Each further round answers a bump made during the await before it: that round began with the newest
      generation, and the drain itself bumps none while it waits. */
  lemma {:induction false} EachRoundIsPaidFor(s: State)
    requires Reachable(s) && s.drain.Awaiting? && DrainResume(s).drain.Awaiting?
    ensures s.drain.generation < s.writeGeneration
    ensures DrainResume(s).drain.rounds == s.drain.rounds + 1
    ensures DrainResume(s).drain.generation == DrainResume(s).writeGeneration == s.writeGeneration + 1
  {
    ReachableDrainInv(s);
  }

  ghost predicate NoFlushPending(es: seq<Event>) {
    forall i :: 0 <= i < |es| ==> !es[i].FlushPending?
  }

  /** Once the quit flush has resolved, nothing but another flushPendingAsync changes the file. */
  lemma {:induction false} QuitFlushIsFinal(s: State, es: seq<Event>, t: State)
    requires Reachable(s) && s.quitStarted && s.drain.Idle?
    requires Reaches(s, es, t) && NoFlushPending(es)
    ensures t.file == s.file && Quiet(t)
  {
    ReachableDrainInv(s);
    SealedStays(s, es, t);
  }

  lemma {:induction false} SealedStays(s: State, es: seq<Event>, t: State)
    requires Quiet(s) && s.inFlight.None? && s.quitStarted && s.drain.Idle?
    requires Reaches(s, es, t) && NoFlushPending(es)
    ensures t.file == s.file && Quiet(t)
    decreases |es|
  {
    if es != [] {
      assert !es[0].FlushPending?;
      var s1 := Apply(s, es[0]);
      assert Quiet(s1) && s1.inFlight.None? && s1.quitStarted && s1.drain.Idle? && s1.file == s.file;
      SealedStays(s1, es[1..], t);
    }
  }
}
