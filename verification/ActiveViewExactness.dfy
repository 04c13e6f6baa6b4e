/**
 The early exits that believe the marker, exactly: whether such an exit is right in every ordinary run
 that leads to the same fields is decided by whether a debounce is armed.
 */
module ActiveViewExactness {
  import opened Options
  import opened ActiveViewProtocol
  import opened ActiveViewSafety
  import opened ActiveViewDrain
  import opened ActiveViewDelivery
  import opened ActiveViewQuiescence
  import opened ActiveViewEarlySaves

  /** The two states agree on every field of the object, and on the signals that have fired. */
  predicate SameFields(s: State, t: State) {
    && t.activeView == s.activeView && t.persisted == s.persisted
    && t.timer == s.timer && Pending(t) == Pending(s)
    && t.drain.Idle? == s.drain.Idle? && t.consumers == s.consumers && t.aborted == s.aborted
    && t.writeGeneration == s.writeGeneration && t.inFlight == s.inFlight
    && t.quitStarted == s.quitStarted && t.paused == s.paused
  }

  predicate FileShows(s: State, view: View) {
    s.file.content == Whole(view)
  }

  // ---------- without a debounce the marker is right ----------

  /** If nothing is on its way and the marker names the active view, the file shows it. */
  lemma {:induction false} MarkerIsRight(s: State)
    requires OrdinarilyReachable(s) && SkipsWrite(s) && !s.timer
    ensures FileShows(s, s.activeView)
  {
    OrdinarilyReachableInv(s);
  }

  // ---------- with one it may be wrong ----------

  lemma {:induction false} RunExtends(s: State, es: seq<Event>, t: State, e: Event)
    requires OrdinarilyReaches(s, es, t) && Enabled(t, e) && Clean(t, e) && Ordinary(t, e)
    ensures OrdinarilyReaches(s, es + [e], Apply(t, e))
    decreases |es|
  {
    if es == [] {
      assert OrdinarilyReaches(Apply(t, e), [], Apply(t, e));
      assert es + [e] == [e];
    } else {
      assert (es + [e])[0] == es[0] && (es + [e])[1..] == es[1..] + [e];
      RunExtends(Apply(s, es[0]), es[1..], t, e);
    }
  }

  lemma {:induction false} Extends(s: State, e: Event, t: State)
    requires OrdinarilyReachable(s) && Enabled(s, e) && Clean(s, e) && Ordinary(s, e) && t == Apply(s, e)
    ensures OrdinarilyReachable(t)
  {
    var content: Content, legacy: Option<View>, es :| OrdinarilyReaches(Init(content, legacy), es, s);
    RunExtends(Init(content, legacy), es, s, e);
  }

  lemma {:induction false} ExtendsBySet(s: State, value: Option<View>)
    requires OrdinarilyReachable(s) && !SetsBack(s, Set(value))
    ensures OrdinarilyReachable(SetView(s, value))
  {
    Extends(s, Set(value), SetView(s, value));
  }

  lemma {:induction false} ExtendsByFlushPending(s: State, signal: Option<nat>)
    requires OrdinarilyReachable(s) && !TrustsMarker(s, FlushPending(signal))
    ensures OrdinarilyReachable(FlushPendingAsync(s, signal))
  {
    Extends(s, FlushPending(signal), FlushPendingAsync(s, signal));
  }

  lemma {:induction false} ExtendsByTimer(s: State)
    requires OrdinarilyReachable(s) && s.timer
    ensures OrdinarilyReachable(TimerFire(s))
  {
    Extends(s, TimerFires, TimerFire(s));
  }

  lemma {:induction false} InitIsReachable(content: Content, legacy: Option<View>)
    ensures OrdinarilyReachable(Init(content, legacy))
  {
    assert OrdinarilyReaches(Init(content, legacy), [], Init(content, legacy));
  }

  /** `view` is stored, another view was set, and its rename of generation `g` has landed. */
  function Landing(view: View, other: View, g: nat, drain: Drain, consumers: Consumers): State {
    State(other, Some(view), false, Some(Writer(other, g, Renamed)), [], g, Some(g), drain, consumers, {}, false, false,
          Landed(Whole(other), g), map[], Request(other, g), false)
  }

  function Enlisting(view: View, other: View, g: nat, drain: Drain, consumers: Consumers): State {
    Landing(view, other, g, drain, consumers)
    .(running := None, queue := [Request(other, g)], inFlight := None, file := Landed(Whole(view), 0),
      confirmed := true)
  }

  function Writing(s: State, g: nat, phase: Phase, temps: map<nat, Content>, claim: Option<nat>): State {
    s.(running := Some(Writer(s.activeView, g, phase)), queue := [], temps := temps, inFlight := claim)
  }

  /** The one enqueued write begins and goes as far as its temp file. */
  lemma {:induction false} WriteBegins(view: View, other: View, g: nat, drain: Drain, consumers: Consumers)
    requires OrdinarilyReachable(Enlisting(view, other, g, drain, consumers))
    ensures OrdinarilyReachable(
              Writing(Enlisting(view, other, g, drain, consumers), g, TmpWritten, map[g := Whole(other)], None))
  {
    var s := Enlisting(view, other, g, drain, consumers);
    Extends(s, WriterStarts, Writing(s, g, MakingDir, map[], None));
    Extends(Writing(s, g, MakingDir, map[], None), MkdirEnds(true), Writing(s, g, WritingTmp, map[], None));
    Extends(Writing(s, g, WritingTmp, map[], None), TmpWriteEnds(Written),
            Writing(s, g, TmpWritten, map[g := Whole(other)], None));
  }

  lemma {:induction false} WriteLands(view: View, other: View, g: nat, drain: Drain, consumers: Consumers)
    requires OrdinarilyReachable(Enlisting(view, other, g, drain, consumers))
    ensures OrdinarilyReachable(Landing(view, other, g, drain, consumers))
  {
    WriteBegins(view, other, g, drain, consumers);
    var s := Enlisting(view, other, g, drain, consumers);
    var temps := map[g := Whole(other)];
    Extends(Writing(s, g, TmpWritten, temps, None), TmpWriteResumes, Writing(s, g, Renaming, temps, Some(g)));
    assert temps - {g} == map[];
    Extends(Writing(s, g, Renaming, temps, Some(g)), RenameEnds(Done), Landing(view, other, g, drain, consumers));
  }

  /** A write is pending, the file shows another view than the marker, and no write is being renamed. */
  ghost predicate Parked(s: State, view: View, other: View) {
    OrdinarilyReachable(s) && ParkedFields(s, view, other)
  }

  predicate ParkedFields(s: State, view: View, other: View) {
    && view != other && s.persisted == Some(view) && FileShows(s, other)
    && !s.quitStarted && !s.paused && Pending(s) && (s.running.Some? ==> RunningIn(s, Renamed))
  }

  lemma {:induction false} LandingIsParked(view: View, other: View, g: nat, drain: Drain, consumers: Consumers)
    requires view != other && OrdinarilyReachable(Landing(view, other, g, drain, consumers))
    ensures Parked(Landing(view, other, g, drain, consumers), view, other)
  {
  }

  /** `view` is stored and another one has been set, `g` times over. */
  function Requested(view: View, other: View, g: nat): State {
    State(other, Some(view), true, None, [], g, None, Idle, NO_CONSUMERS, {}, false, false,
          Landed(Whole(view), 0), map[], Request(view, 0), true)
  }

  lemma {:induction false} RequestIsReachable(view: View, other: View, g: nat)
    requires view != other && g > 0
    ensures OrdinarilyReachable(Requested(view, other, g))
    decreases g
  {
    if g == 1 {
      InitIsReachable(Whole(view), None);
      ExtendsBySet(Init(Whole(view), None), Some(other));
    } else {
      RequestIsReachable(view, other, g - 1);
      ExtendsBySet(Requested(view, other, g - 1), Some(other));
    }
  }

  /** Reached from the constructor by sets and their debounce. */
  lemma {:induction false} IdleLanding(view: View, other: View, g: nat)
    requires view != other && g > 0
    ensures Parked(Landing(view, other, g, Idle, NO_CONSUMERS), view, other)
  {
    RequestIsReachable(view, other, g);
    assert [] + [Request(other, g)] == [Request(other, g)];
    ExtendsByTimer(Requested(view, other, g));
    WriteLands(view, other, g, Idle, NO_CONSUMERS);
    LandingIsParked(view, other, g, Idle, NO_CONSUMERS);
  }

  function FirstConsumer(signal: Option<nat>): Consumers {
    if signal.Some? then Consumers({signal.value}, 0) else Consumers({}, 1)
  }

  lemma {:induction false} DrainStarts(view: View, other: View, g: nat, signal: Option<nat>)
    requires view != other
    ensures FlushPendingAsync(Requested(view, other, g), signal)
         == Enlisting(view, other, g + 1, Awaiting(other, g + 1, 1, g), FirstConsumer(signal))
  {
    FirstConsumerJoins(Requested(view, other, g), signal);
    assert [] + [Request(other, g + 1)] == [Request(other, g + 1)];
  }

  /** Reached from the constructor by sets and a drain for the given consumer. */
  lemma {:induction false} DrainLanding(view: View, other: View, g: nat, signal: Option<nat>)
    requires view != other && g > 0
    ensures Parked(Landing(view, other, g + 1, Awaiting(other, g + 1, 1, g), FirstConsumer(signal)), view, other)
  {
    RequestIsReachable(view, other, g);
    DrainStarts(view, other, g, signal);
    ExtendsByFlushPending(Requested(view, other, g), signal);
    WriteLands(view, other, g + 1, Awaiting(other, g + 1, 1, g), FirstConsumer(signal));
    LandingIsParked(view, other, g + 1, Awaiting(other, g + 1, 1, g), FirstConsumer(signal));
  }

  /** A landing of generation 1 with the write of a drain behind it. */
  function Chained(view: View, other: View, consumers: Consumers): State {
    Landing(view, other, 1, Awaiting(other, 2, 1, 1), consumers)
    .(queue := [Request(other, 2)], writeGeneration := 2, enqueued := Request(other, 2))
  }

  lemma {:induction false} FirstConsumerJoins(s: State, signal: Option<nat>)
    requires s.consumers == NO_CONSUMERS
    ensures AddConsumer(s, signal) == s.(consumers := FirstConsumer(signal))
  {
    assert AddConsumer(s, signal).consumers.signals == FirstConsumer(signal).signals;
  }

  lemma {:induction false} ChainStarts(view: View, other: View, signal: Option<nat>)
    ensures FlushPendingAsync(Landing(view, other, 1, Idle, NO_CONSUMERS), signal)
         == Chained(view, other, FirstConsumer(signal))
  {
    FirstConsumerJoins(Landing(view, other, 1, Idle, NO_CONSUMERS), signal);
    ChainEnqueues(view, other, FirstConsumer(signal));
  }

  lemma {:induction false} ChainEnqueues(view: View, other: View, consumers: Consumers)
    ensures DrainTurn(Landing(view, other, 1, Idle, consumers), 0, 1) == Chained(view, other, consumers)
  {
    assert [] + [Request(other, 2)] == [Request(other, 2)];
  }

  lemma {:induction false} ChainIsReachable(view: View, other: View, signal: Option<nat>)
    requires view != other
    ensures Parked(Chained(view, other, FirstConsumer(signal)), view, other)
  {
    IdleLanding(view, other, 1);
    ChainStarts(view, other, signal);
    ExtendsByFlushPending(Landing(view, other, 1, Idle, NO_CONSUMERS), signal);
  }

  lemma {:induction false} ParkedSets(s: State, view: View, other: View, next: View)
    requires Parked(s, view, other)
    ensures Parked(s.(activeView := next, writeGeneration := s.writeGeneration + 1, timer := true), view, other)
  {
    var t := s.(activeView := next, writeGeneration := s.writeGeneration + 1, timer := true);
    assert SetView(s, Some(next)) == t;
    ExtendsBySet(s, Some(next));
  }

  lemma {:induction false} JoiningOnlyRegisters(s: State, signal: Option<nat>)
    requires s.drain.Awaiting? && s.aborted == {}
    ensures FlushPendingAsync(s, signal) == AddConsumer(s, signal)
    ensures AddConsumer(s, signal) == s.(consumers := AddConsumer(s, signal).consumers)
  {
  }

  lemma {:induction false} ParkedJoins(s: State, view: View, other: View, signal: Option<nat>)
    requires Parked(s, view, other) && s.drain.Awaiting? && s.aborted == {}
    ensures Parked(AddConsumer(s, signal), view, other)
  {
    JoiningOnlyRegisters(s, signal);
    ExtendsByFlushPending(s, signal);
  }

  lemma {:induction false} ParkedAborts(s: State, view: View, other: View, fired: nat)
    requires Parked(s, view, other)
    ensures Parked(s.(aborted := s.aborted + {fired}), view, other)
  {
    Extends(s, SignalAborts(fired), s.(aborted := s.aborted + {fired}));
  }

  /** Any number of further sets only raise the generation and arm the debounce. */
  lemma {:induction false} SetsAgain(s: State, view: View, other: View, next: View, times: nat) returns (t: State)
    requires Parked(s, view, other) && times > 0
    ensures Parked(t, view, other)
    ensures t == s.(activeView := next, writeGeneration := s.writeGeneration + times, timer := true)
    decreases times
  {
    ParkedSets(s, view, other, next);
    t := s.(activeView := next, writeGeneration := s.writeGeneration + 1, timer := true);
    if times > 1 { t := SetsAgain(t, view, other, next, times - 1); }
  }

  lemma {:induction false} Aborts(s: State, view: View, other: View, signals: set<nat>) returns (t: State)
    requires Parked(s, view, other)
    ensures Parked(t, view, other) && t == s.(aborted := s.aborted + signals)
    decreases signals
  {
    if signals == {} {
      t := s;
    } else {
      var fired :| fired in signals;
      ParkedAborts(s, view, other, fired);
      t := Aborts(s.(aborted := s.aborted + {fired}), view, other, signals - {fired});
      assert s.aborted + {fired} + (signals - {fired}) == s.aborted + signals;
    }
  }

  lemma {:induction false} JoinsSignals(s: State, view: View, other: View, signals: set<nat>) returns (t: State)
    requires Parked(s, view, other) && s.drain.Awaiting? && s.aborted == {}
    ensures Parked(t, view, other)
    ensures t == s.(consumers := s.consumers.(signals := s.consumers.signals + signals))
    decreases signals
  {
    if signals == {} {
      t := s;
    } else {
      var signal :| signal in signals;
      ParkedJoins(s, view, other, Some(signal));
      t := JoinsSignals(AddConsumer(s, Some(signal)), view, other, signals - {signal});
      assert s.consumers.signals + {signal} + (signals - {signal}) == s.consumers.signals + signals;
    }
  }

  lemma {:induction false} JoinsForGood(s: State, view: View, other: View, times: nat) returns (t: State)
    requires Parked(s, view, other) && s.drain.Awaiting? && s.aborted == {}
    ensures Parked(t, view, other)
    ensures t == s.(consumers := s.consumers.(unabortable := s.consumers.unabortable + times))
    decreases times
  {
    if times == 0 {
      t := s;
    } else {
      ParkedJoins(s, view, other, None);
      t := JoinsForGood(AddConsumer(s, None), view, other, times - 1);
    }
  }

  /** A consumer the drain can have started for. */
  lemma {:induction false} SomeConsumer(consumers: Consumers) returns (signal: Option<nat>)
    requires consumers.signals != {} || consumers.unabortable > 0
    ensures FirstConsumer(signal).signals <= consumers.signals
    ensures FirstConsumer(signal).unabortable <= consumers.unabortable
  {
    if consumers.unabortable > 0 {
      signal := None;
    } else {
      var first :| first in consumers.signals;
      signal := Some(first);
    }
  }

  /** Calls that give a parked state the consumers and the fired signals of `s`. */
  lemma {:induction false} Enrolls(p: State, s: State, view: View, other: View) returns (t: State)
    requires Parked(p, view, other) && p.aborted == {} && p.drain.Idle? == s.drain.Idle?
    requires s.drain.Idle? ==> p.consumers == s.consumers
    requires p.consumers.signals <= s.consumers.signals && p.consumers.unabortable <= s.consumers.unabortable
    ensures Parked(t, view, other) && t == p.(consumers := s.consumers, aborted := s.aborted)
  {
    t := p;
    if s.drain.Awaiting? {
      t := JoinsSignals(t, view, other, s.consumers.signals);
      t := JoinsForGood(t, view, other, s.consumers.unabortable - p.consumers.unabortable);
      assert t.consumers.signals == s.consumers.signals;
    }
    t := Aborts(t, view, other, s.aborted);
  }

  /** Calls that give a parked state all other fields of `s`. */
  lemma {:induction false} Dresses(p: State, s: State, view: View, other: View) returns (t: State)
    requires Parked(p, view, other) && p.writeGeneration < s.writeGeneration && p.aborted == {}
    requires p.drain.Idle? == s.drain.Idle?
    requires s.drain.Idle? ==> p.consumers == s.consumers
    requires p.consumers.signals <= s.consumers.signals && p.consumers.unabortable <= s.consumers.unabortable
    ensures Parked(t, view, other)
    ensures t == p.(activeView := s.activeView, writeGeneration := s.writeGeneration, timer := true,
                    consumers := s.consumers, aborted := s.aborted)
  {
    t := Enrolls(p, s, view, other);
    t := SetsAgain(t, view, other, s.activeView, s.writeGeneration - p.writeGeneration);
  }

  function OtherView(view: View): View {
    if view == Terminal then Settings else Terminal
  }

  /** The continuation of an overtaken landing: the file shows the other view and the marker the stored one. */
  lemma {:induction false} ParkedResumes(s: State, view: View, other: View)
    requires Parked(s, view, other) && RunningIn(s, Renamed) && s.running.value.generation < s.writeGeneration
    requires s.inFlight == Some(s.running.value.generation)
    ensures OrdinarilyReachable(s.(running := None, inFlight := None))
  {
    Extends(s, RenameResumes, s.(running := None, inFlight := None));
  }

  /** A landing with or without a running drain, like `s`. */
  lemma {:induction false} LandingFor(s: State, view: View, other: View) returns (p: State)
    requires view != other
    requires s.drain.Idle? ==> s.consumers == NO_CONSUMERS
    requires s.drain.Awaiting? ==> s.consumers.signals != {} || s.consumers.unabortable > 0
    ensures Parked(p, view, other) && p.queue == [] && p.aborted == {} && p.drain.Idle? == s.drain.Idle?
    ensures RunningIn(p, Renamed) && p.running.value.generation == p.writeGeneration
    ensures p.inFlight == Some(p.writeGeneration) && p.writeGeneration == if s.drain.Idle? then 1 else 2
    ensures s.drain.Idle? ==> p.consumers == s.consumers
    ensures p.consumers.signals <= s.consumers.signals && p.consumers.unabortable <= s.consumers.unabortable
  {
    if s.drain.Idle? {
      IdleLanding(view, other, 1);
      p := Landing(view, other, 1, Idle, NO_CONSUMERS);
    } else {
      var signal := SomeConsumer(s.consumers);
      DrainLanding(view, other, 1, signal);
      p := Landing(view, other, 2, Awaiting(other, 2, 1, 1), FirstConsumer(signal));
    }
  }

  /** Any view can be active over a stale marker, from the second generation on, or the third in a drain. */
  lemma {:induction false} StaleStates(s: State, view: View) returns (t: State)
    requires s.drain.Idle? ==> s.consumers == NO_CONSUMERS
    requires s.drain.Awaiting? ==> s.consumers.signals != {} || s.consumers.unabortable > 0
    requires s.writeGeneration >= if s.drain.Idle? then 2 else 3
    ensures OrdinarilyReachable(t) && FileShows(t, OtherView(view))
    ensures t.persisted == Some(view) && t.activeView == s.activeView && t.timer && !Pending(t) && t.inFlight.None?
    ensures t.drain.Idle? == s.drain.Idle? && t.consumers == s.consumers && t.aborted == s.aborted
    ensures t.writeGeneration == s.writeGeneration && !t.quitStarted && !t.paused
  {
    var other := OtherView(view);
    var p := LandingFor(s, view, other);
    t := Dresses(p, s, view, other);
    ParkedResumes(t, view, other);
    t := t.(running := None, inFlight := None);
  }

  /** Whatever the fields, while a debounce is armed the same ones can stand over a file that shows another
      view. */
  lemma {:induction false} AnotherFileIsPossible(s: State) returns (t: State)
    requires OrdinarilyReachable(s) && s.timer && SkipsWrite(s)
    ensures OrdinarilyReachable(t) && SameFields(s, t) && FileShows(t, OtherView(s.activeView))
  {
    OrdinarilyReachableInv(s);
    IdleDebounceIsLate(s);
    t := StaleStates(s, s.activeView);
  }

  // ---------- the calls that believe the marker ----------

  /** The drain itself never touches the file. */
  lemma {:induction false} DrainKeepsFile(s: State, signal: Option<nat>)
    requires OrdinarilyReachable(s)
    ensures FlushPendingAsync(s, signal).file == s.file
    ensures s.drain.Awaiting? ==> DrainResume(s).file == s.file
  {
    OrdinarilyReachableInv(s);
    FlushPendingKeeps(s, signal);
    if s.drain.Awaiting? { DrainResumeKeeps(s); }
  }

  lemma {:induction false} SkippingTurnEnds(s: State, rounds: nat, first: nat)
    requires SkipsWrite(s)
    ensures DrainTurn(s, rounds, first).drain.Idle?
  {
  }

  /** With successful calls flushOrThrow leaves the active view in the file, in every run that leads to these
      fields, if and only if it does not drop an armed debounce with nothing to write. */
  lemma {:induction false} FlushExact(s: State)
    requires OrdinarilyReachable(s)
    ensures (forall t, calls ::
               OrdinarilyReachable(t) && SameFields(s, t) && Enabled(t, Flush(calls)) && Clean(t, Flush(calls)) ==>
                 FileShows(FlushOrThrow(t, calls).0, s.activeView))
       <==> !(s.timer && SkipsWrite(s))
  {
    OrdinarilyReachableInv(s);
    if s.timer && SkipsWrite(s) {
      var t := AnotherFileIsPossible(s);
      var calls := FlushCalls(Done, true, Written, true);
      assert Enabled(t, Flush(calls)) && Clean(t, Flush(calls));
      assert !FileShows(FlushOrThrow(t, calls).0, s.activeView);
    } else {
      forall t, calls |
        OrdinarilyReachable(t) && SameFields(s, t) && Enabled(t, Flush(calls)) && Clean(t, Flush(calls))
        ensures FileShows(FlushOrThrow(t, calls).0, s.activeView)
      {
        if SkipsWrite(t) { MarkerIsRight(t); }
      }
    }
  }

  /** A drain that finds nothing to write returns with the active view in the file, in every run that leads to
      these fields, if and only if it drops no armed debounce. */
  lemma {:induction false} DrainExact(s: State, signal: Option<nat>)
    requires OrdinarilyReachable(s) && s.drain.Idle? && SkipsWrite(s)
    requires signal.Some? ==> signal.value !in s.aborted
    ensures FlushPendingAsync(s, signal).drain.Idle? && Quiet(FlushPendingAsync(s, signal))
    ensures (forall t :: OrdinarilyReachable(t) && SameFields(s, t) ==>
               FileShows(FlushPendingAsync(t, signal), s.activeView))
       <==> !s.timer
  {
    OrdinarilyReachableInv(s);
    if s.timer {
      var t := AnotherFileIsPossible(s);
      DrainKeepsFile(t, signal);
      assert !FileShows(FlushPendingAsync(t, signal), s.activeView);
    } else {
      forall t | OrdinarilyReachable(t) && SameFields(s, t)
        ensures FileShows(FlushPendingAsync(t, signal), s.activeView)
      {
        DrainKeepsFile(t, signal);
        MarkerIsRight(t);
      }
    }
  }

  /** The same of a later turn of a running drain. */
  lemma {:induction false} DrainTurnExact(s: State)
    requires OrdinarilyReachable(s) && s.drain.Awaiting? && SkipsWrite(s) && !AllConsumersAborted(s)
    ensures DrainResume(s).drain.Idle?
    ensures (forall t :: OrdinarilyReachable(t) && SameFields(s, t) ==> FileShows(DrainResume(t), s.activeView))
       <==> !s.timer
  {
    SkippingTurnEnds(s, s.drain.rounds, s.drain.first);
    if s.timer {
      var t := AnotherFileIsPossible(s);
      DrainKeepsFile(t, None);
      assert !FileShows(DrainResume(t), s.activeView);
    } else {
      forall t | OrdinarilyReachable(t) && SameFields(s, t) ensures FileShows(DrainResume(t), s.activeView) {
        DrainKeepsFile(t, None);
        MarkerIsRight(t);
      }
    }
  }

  // ---------- maintenance ----------

  /** Whatever happens in the pause, its end, if no write is pending then, arms the debounce or leaves the
      active view in the file. */
  ghost predicate PausesSafely(s: State) {
    forall es, u :: OrdinarilyReaches(PauseForMaintenance(s), es, u) && !Pending(u) ==> ResumesSafely(u)
  }

  predicate ResumesSafely(s: State) {
    var t := ResumeAfterMaintenance(s);
    t.timer || FileShows(t, t.activeView)
  }

  lemma {:induction false} RunKeepsOrdinary(s: State, es: seq<Event>, t: State)
    requires OrdinaryInv(s) && OrdinarilyReaches(s, es, t)
    ensures OrdinaryInv(t)
    decreases |es|
  {
    if es != [] {
      StepShows(s, es[0]);
      RunKeepsOrdinary(Apply(s, es[0]), es[1..], t);
    }
  }

  lemma {:induction false} ResumeIsSafe(s: State)
    requires OrdinaryInv(s) && !Pending(s)
    ensures ResumesSafely(s)
  {
    UnpauseShows(s);
  }

  lemma {:induction false} PauseIsSafe(s: State)
    requires OrdinaryInv(s) && QuietShows(PauseForMaintenance(s))
    ensures PausesSafely(s)
  {
    StepDelivers(s, Pause);
    forall es, u | OrdinarilyReaches(PauseForMaintenance(s), es, u) && !Pending(u) ensures ResumesSafely(u) {
      RunKeepsOrdinary(PauseForMaintenance(s), es, u);
      ResumeIsSafe(u);
    }
  }

  /** The pause would stop an armed debounce over a marker that names the active view. A write that cannot land
      any more, enqueued for the very first request, does no harm. */
  predicate PauseLoses(s: State) {
    s.timer && Saved(s) && (!Pending(s) || s.inFlight.Some? || s.writeGeneration >= 3)
  }

  lemma {:induction false} PauseShowsUnlessLost(s: State)
    requires OrdinarilyReachable(s) && !PauseLoses(s)
    ensures OrdinaryInv(s) && QuietShows(PauseForMaintenance(s))
  {
    OrdinarilyReachableInv(s);
    if !TrustsMarker(s, Pause) { PauseShows(s); }
  }

  // ---------- a pause with a write pending ----------

  /** The write of a debounce that was armed over a stale marker. */
  function Refired(view: View, other: View): State {
    Landing(view, other, 1, Idle, NO_CONSUMERS)
    .(activeView := view, running := None, queue := [Request(view, 2)], writeGeneration := 2, inFlight := None,
      enqueued := Request(view, 2))
  }

  lemma {:induction false} RefiredIsReachable(view: View, other: View)
    requires view != other
    ensures Parked(Refired(view, other), view, other)
  {
    IdleLanding(view, other, 1);
    var p := SetsAgain(Landing(view, other, 1, Idle, NO_CONSUMERS), view, other, view, 1);
    ParkedResumes(p, view, other);
    assert [] + [Request(view, 2)] == [Request(view, 2)];
    ExtendsByTimer(p.(running := None, inFlight := None));
  }

  lemma {:induction false} ChainResumes(view: View, other: View, signal: Option<nat>)
    requires view != other
    ensures Parked(Chained(view, other, FirstConsumer(signal)).(running := None, inFlight := None), view, other)
  {
    ChainIsReachable(view, other, signal);
    ParkedResumes(Chained(view, other, FirstConsumer(signal)), view, other);
  }

  /** While a debounce is armed, the claim is of an earlier generation. */
  lemma {:induction false} ClaimIsOlder(s: State)
    requires OrdinarilyReachable(s) && s.timer
    ensures s.inFlight.Some? ==> 0 < s.inFlight.value < s.writeGeneration
  {
    OrdinarilyReachableInv(s);
  }

  /** A parked state without a running drain, with the claim of `s`. */
  lemma {:induction false} IdleParks(s: State, view: View, other: View) returns (p: State)
    requires s.drain.Idle? && view != other
    requires if s.inFlight.Some? then 0 < s.inFlight.value < s.writeGeneration else s.writeGeneration >= 3
    ensures Parked(p, view, other) && p.writeGeneration < s.writeGeneration && p.aborted == {}
    ensures p.drain.Idle? && p.consumers == NO_CONSUMERS && p.inFlight == s.inFlight
  {
    if s.inFlight.Some? {
      IdleLanding(view, other, s.inFlight.value);
      p := Landing(view, other, s.inFlight.value, Idle, NO_CONSUMERS);
    } else {
      RefiredIsReachable(view, other);
      p := Refired(view, other);
    }
  }

  /** A drain of these consumers runs, at this generation and with this claim. */
  predicate Draining(p: State, g: nat, claim: Option<nat>, consumers: Consumers) {
    p.drain.Awaiting? && p.writeGeneration == g && p.inFlight == claim && p.consumers == consumers && p.aborted == {}
  }

  lemma {:induction false} UnclaimedParks(view: View, other: View, signal: Option<nat>) returns (p: State)
    requires view != other
    ensures Parked(p, view, other) && Draining(p, 2, None, FirstConsumer(signal))
    ensures p.activeView == other && !p.timer
  {
    ChainResumes(view, other, signal);
    p := Chained(view, other, FirstConsumer(signal)).(running := None, inFlight := None);
  }

  lemma {:induction false} FirstClaimParks(view: View, other: View, signal: Option<nat>) returns (p: State)
    requires view != other
    ensures Parked(p, view, other) && Draining(p, 2, Some(1), FirstConsumer(signal))
    ensures p.activeView == other && !p.timer
  {
    ChainIsReachable(view, other, signal);
    p := Chained(view, other, FirstConsumer(signal));
  }

  lemma {:induction false} ClaimParks(view: View, other: View, g: nat, signal: Option<nat>) returns (p: State)
    requires view != other && g > 1
    ensures Parked(p, view, other) && Draining(p, g, Some(g), FirstConsumer(signal))
    ensures p.activeView == other && !p.timer
  {
    DrainLanding(view, other, g - 1, signal);
    p := Landing(view, other, g, Awaiting(other, g, 1, g - 1), FirstConsumer(signal));
  }

  /** A parked state with a running drain, with the claim of `s`. */
  lemma {:induction false} DrainParks(s: State, view: View, other: View, signal: Option<nat>) returns (p: State)
    requires s.writeGeneration >= 3 && view != other
    requires s.inFlight.Some? ==> 0 < s.inFlight.value < s.writeGeneration
    ensures Parked(p, view, other) && p.writeGeneration < s.writeGeneration
    ensures Draining(p, p.writeGeneration, s.inFlight, FirstConsumer(signal))
  {
    if s.inFlight.None? {
      p := UnclaimedParks(view, other, signal);
    } else if s.inFlight.value == 1 {
      p := FirstClaimParks(view, other, signal);
    } else {
      p := ClaimParks(view, other, s.inFlight.value, signal);
    }
  }

  lemma {:induction false} ParkedStates(s: State) returns (t: State)
    requires OrdinarilyReachable(s) && PauseLoses(s) && Pending(s)
    ensures Parked(t, s.activeView, OtherView(s.activeView)) && SameFields(s, t)
  {
    OrdinarilyReachableInv(s);
    ClaimIsOlder(s);
    var view, other := s.activeView, OtherView(s.activeView);
    var p;
    if s.drain.Idle? {
      p := IdleParks(s, view, other);
    } else {
      var signal := SomeConsumer(s.consumers);
      p := DrainParks(s, view, other, signal);
    }
    t := Dresses(p, s, view, other);
  }

  /** All pending writes are stale, and none of them is being renamed. */
  ghost predicate AllStale(s: State) {
    && (s.running.Some? ==> s.running.value.phase != Renaming && s.running.value.generation < s.writeGeneration)
    && (forall i :: 0 <= i < |s.queue| ==> s.queue[i].generation < s.writeGeneration)
  }

  /** What the chain of writers does next when no call fails. */
  function WriterStep(s: State): Event {
    if s.running.None? then WriterStarts
    else match s.running.value.phase
      case MakingDir => MkdirEnds(true)
      case WritingTmp => TmpWriteEnds(Written)
      case TmpWritten => TmpWriteResumes
      case Renaming => RenameEnds(Done)
      case Renamed => RenameResumes
      case RenameFailed => RenameResumes
      case Removing => RemoveEnds(true)
  }

  /** A bound on the steps that the chain still takes. */
  function StepsLeft(s: State): nat {
    6 * |s.queue| +
    if s.running.None? then 0
    else match s.running.value.phase
      case MakingDir => 5
      case WritingTmp => 4
      case TmpWritten => 3
      case Removing => 1
      case _ => 2
  }

  /** The step leaves all pending writes stale and takes the chain one on. */
  ghost predicate StepsOn(s: State, t: State) {
    && AllStale(t) && StepsLeft(t) < StepsLeft(s)
    && t == s.(running := t.running, queue := t.queue, inFlight := t.inFlight, temps := t.temps)
  }

  lemma {:induction false} StaleWriterBegins(s: State)
    requires AllStale(s) && s.running.None? && s.queue != []
    ensures StepsOn(s, Begin(s))
  {
  }

  lemma {:induction false} StaleWriterMoves(s: State)
    requires AllStale(s) && s.running.Some?
    ensures RunningIn(s, MakingDir) ==> StepsOn(s, Move(s, WritingTmp))
    ensures RunningIn(s, WritingTmp) ==> StepsOn(s, TmpWriteEnd(s, Written))
    ensures RunningIn(s, TmpWritten) ==> StepsOn(s, TmpWriteResume(s))
  {
  }

  lemma {:induction false} StaleRenameLeaves(s: State)
    requires AllStale(s) && (RunningIn(s, Renamed) || RunningIn(s, RenameFailed))
    ensures StepsOn(s, RenameResume(s))
  {
  }

  lemma {:induction false} StaleRemovalLeaves(s: State)
    requires AllStale(s) && RunningIn(s, Removing)
    ensures StepsOn(s, RemoveEnd(s, true))
  {
  }

  lemma {:induction false} StaleWriterSteps(s: State)
    requires AllStale(s) && Pending(s)
    ensures Enabled(s, WriterStep(s)) && Clean(s, WriterStep(s)) && Ordinary(s, WriterStep(s))
    ensures IsWriterStep(WriterStep(s))
    ensures StepsOn(s, Apply(s, WriterStep(s)))
  {
    if s.running.None? {
      StaleWriterBegins(s);
    } else {
      StaleWriterMoves(s);
      if RunningIn(s, Removing) {
        StaleRemovalLeaves(s);
      } else if RunningIn(s, Renamed) || RunningIn(s, RenameFailed) {
        StaleRenameLeaves(s);
      }
    }
  }

  lemma {:induction false} RunBegins(s: State, e: Event, es: seq<Event>, t: State)
    requires Enabled(s, e) && Clean(s, e) && Ordinary(s, e) && OrdinarilyReaches(Apply(s, e), es, t)
    ensures OrdinarilyReaches(s, [e] + es, t)
  {
    assert ([e] + es)[1..] == es;
  }

  /** Stale writers come to their end and leave the file and the marker as they are. */
  lemma {:induction false} StaleWritersEnd(s: State) returns (es: seq<Event>, u: State)
    requires AllStale(s)
    ensures OrdinarilyReaches(s, es, u) && !Pending(u)
    ensures forall i :: 0 <= i < |es| ==> IsWriterStep(es[i])
    ensures u == s.(running := u.running, queue := u.queue, inFlight := u.inFlight, temps := u.temps)
    decreases StepsLeft(s)
  {
    if Pending(s) {
      StaleWriterSteps(s);
      var e := WriterStep(s);
      es, u := StaleWritersEnd(Apply(s, e));
      RunBegins(s, e, es, u);
      es := [e] + es;
    } else {
      es, u := [], s;
    }
  }

  lemma {:induction false} ParkedPauseLoses(t: State, other: View)
    requires Parked(t, t.activeView, other) && t.timer
    ensures !PausesSafely(t)
  {
    OrdinarilyReachableInv(t);
    var es, u := StaleWritersEnd(PauseForMaintenance(t));
    assert !ResumesSafely(u);
  }

  lemma {:induction false} PauseMayLose(s: State) returns (t: State)
    requires OrdinarilyReachable(s) && PauseLoses(s)
    ensures OrdinarilyReachable(t) && SameFields(s, t) && !PausesSafely(t)
  {
    OrdinarilyReachableInv(s);
    if Pending(s) {
      t := ParkedStates(s);
      ParkedPauseLoses(t, OtherView(s.activeView));
    } else {
      t := AnotherFileIsPossible(s);
      var u := PauseForMaintenance(t);
      assert OrdinarilyReaches(u, [], u) && !ResumesSafely(u);
    }
  }

  /** Whatever happens in the pause, it is safe, in every run that leads to these fields, if and only if it does
      not stop an armed debounce over a marker that names the active view. */
  lemma {:induction false} PauseExact(s: State)
    requires OrdinarilyReachable(s)
    ensures (forall t :: OrdinarilyReachable(t) && SameFields(s, t) ==> PausesSafely(t)) <==> !PauseLoses(s)
  {
    if PauseLoses(s) {
      var t := PauseMayLose(s);
    } else {
      forall t | OrdinarilyReachable(t) && SameFields(s, t) ensures PausesSafely(t) {
        PauseShowsUnlessLost(t);
        PauseIsSafe(t);
      }
    }
  }
}
