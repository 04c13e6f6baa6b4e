/**
 The quit flush, after which nothing repairs the file: exactly when it resolves with the active view in it,
 whether it starts a drain of its own or joins one that is running.
 */
module ActiveViewQuit {
  import opened Options
  import opened ActiveViewProtocol
  import opened ActiveViewSafety
  import opened ActiveViewDrain
  import opened ActiveViewDelivery
  import opened ActiveViewQuiescence
  import opened ActiveViewEarlySaves
  import opened ActiveViewExactness

  /** A call of the object, as against what its timer, its writers and its drain do by themselves. */
  predicate IsCall(e: Event) {
    e.Set? || e.Flush? || e.FlushPending? || e.FlushQuit? || e.Pause? || e.Unpause?
  }

  ghost predicate NoCalls(es: seq<Event>) {
    forall i :: 0 <= i < |es| ==> !IsCall(es[i])
  }

  /** With successful file calls and no further call, the quit flush resolves with the active view in the file. */
  ghost predicate QuitsSafely(s: State) {
    forall es, u :: CleanlyReaches(FlushAsync(s), es, u) && NoCalls(es) && u.drain.Idle? ==> FileShows(u, u.activeView)
  }

  /** The drain of the quit flush would drop an armed debounce over a marker that names the active view: at once,
      or in a later turn of the drain it joins. */
  predicate QuitLoses(s: State) {
    s.timer && Saved(s) && (s.drain.Awaiting? || !Pending(s))
  }

  // ---------- where it is right ----------

  /** The newest write carries the active view. */
  predicate NewestIsActive(s: State) {
    0 < s.enqueued.generation == s.writeGeneration ==> s.enqueued.view == s.activeView
  }

  /** The quit flush on its way to the active view: an armed debounce has one to save, and a marker that is not
      true has a write behind it or another view to be saved. */
  ghost predicate QuitShows(s: State) {
    && s.quitStarted && NewestIsActive(s)
    && match s.drain
       case Idle => Quiet(s) && FileShows(s, s.activeView)
       case Awaiting(_, _, _, _) =>
         && s.consumers.unabortable > 0 && (s.timer ==> !Saved(s))
         && (MarkerTrue(s) || NewestPends(s) || !Saved(s) || Confirming(s))
         && (RunningIn(s, Renaming) && s.running.value.generation in s.temps ==>
               NewestPends(s) || !Saved(s) || Confirming(s))
  }

  lemma {:induction false} TimerQuits(s: State)
    requires CleanInv(s) && QuitShows(s) && s.timer
    ensures QuitShows(TimerFire(s))
  {
  }

  lemma {:induction false} BeginQuits(s: State)
    requires CleanInv(s) && QuitShows(s) && s.running.None? && s.queue != []
    ensures QuitShows(Begin(s))
  {
  }

  lemma {:induction false} EarlyMoveQuits(s: State, written: WriteOutcome)
    requires CleanInv(s) && QuitShows(s)
    ensures RunningIn(s, MakingDir) ==> QuitShows(Move(s, WritingTmp))
    ensures RunningIn(s, WritingTmp) ==> QuitShows(TmpWriteEnd(s, written))
    ensures RunningIn(s, TmpWritten) ==> QuitShows(TmpWriteResume(s))
  {
  }

  lemma {:induction false} RenameEndQuits(s: State, outcome: Outcome)
    requires CleanInv(s) && QuitShows(s)
    requires Enabled(s, RenameEnds(outcome)) && Clean(s, RenameEnds(outcome))
    ensures QuitShows(RenameEnd(s, outcome))
  {
  }

  lemma {:induction false} RenameResumeQuits(s: State)
    requires CleanInv(s) && QuitShows(s) && (RunningIn(s, Renamed) || RunningIn(s, RenameFailed))
    ensures QuitShows(RenameResume(s))
  {
  }

  lemma {:induction false} RemoveQuits(s: State)
    requires CleanInv(s) && QuitShows(s) && RunningIn(s, Removing)
    ensures QuitShows(RemoveEnd(s, true))
  {
  }

  lemma {:induction false} DrainResumeQuits(s: State)
    requires CleanInv(s) && QuitShows(s) && Enabled(s, DrainResumes)
    ensures QuitShows(DrainResume(s))
  {
    if s.drain.generation == s.writeGeneration { LastWriteLeft(s); }
  }

  lemma {:induction false} StepQuits(s: State, e: Event)
    requires CleanInv(s) && QuitShows(s) && Enabled(s, e) && Clean(s, e) && !IsCall(e)
    ensures CleanInv(Apply(s, e)) && QuitShows(Apply(s, e))
  {
    StepDelivers(s, e);
    match e
    case TimerFires => TimerQuits(s);
    case WriterStarts => BeginQuits(s);
    case MkdirEnds(_) => EarlyMoveQuits(s, Written);
    case TmpWriteEnds(written) => EarlyMoveQuits(s, written);
    case TmpWriteResumes => EarlyMoveQuits(s, Written);
    case RenameEnds(outcome) => RenameEndQuits(s, outcome);
    case RenameResumes => RenameResumeQuits(s);
    case RemoveEnds(_) => RemoveQuits(s);
    case DrainResumes => DrainResumeQuits(s);
    case SignalAborts(_) =>
  }

  lemma {:induction false} RunQuits(s: State, es: seq<Event>, t: State)
    requires CleanInv(s) && QuitShows(s) && CleanlyReaches(s, es, t) && NoCalls(es)
    ensures QuitShows(t)
    decreases |es|
  {
    if es != [] {
      assert !IsCall(es[0]);
      StepQuits(s, es[0]);
      RunQuits(Apply(s, es[0]), es[1..], t);
    }
  }

  lemma {:induction false} QuitJoinsDrain(s: State)
    requires OrdinaryInv(s) && !QuitLoses(s) && s.drain.Awaiting?
    ensures QuitShows(AddConsumer(s.(quitStarted := true), None))
  {
  }

  lemma {:induction false} QuitBegins(s: State)
    requires OrdinaryInv(s) && !QuitLoses(s)
    ensures CleanInv(FlushAsync(s)) && QuitShows(FlushAsync(s))
  {
    StepDelivers(s, FlushQuit);
    if s.drain.Idle? {
      QuitBeginsDrain(AddConsumer(s.(quitStarted := true), None), s.writeGeneration);
    } else {
      QuitJoinsDrain(s);
    }
  }

  lemma {:induction false} QuitBeginsDrain(s: State, first: nat)
    requires s.quitStarted && s.consumers.unabortable > 0 && NewestIsActive(s)
    requires SkipsWrite(s) ==> FileShows(s, s.activeView)
    ensures QuitShows(DrainTurn(s, 0, first))
  {
  }

  lemma {:induction false} QuitIsSafe(s: State)
    requires OrdinaryInv(s) && !QuitLoses(s)
    ensures QuitsSafely(s)
  {
    QuitBegins(s);
    forall es, u | CleanlyReaches(FlushAsync(s), es, u) && NoCalls(es) && u.drain.Idle?
      ensures FileShows(u, u.activeView)
    {
      RunQuits(FlushAsync(s), es, u);
    }
  }

  // ---------- where it may not be ----------

  lemma {:induction false} RunIsClean(s: State, es: seq<Event>, t: State, e: Event)
    requires OrdinarilyReaches(s, es, t) && Enabled(t, e) && Clean(t, e)
    ensures CleanlyReaches(s, es + [e], Apply(t, e))
    decreases |es|
  {
    if es == [] {
      assert CleanlyReaches(Apply(t, e), [], Apply(t, e));
      assert es + [e] == [e];
    } else {
      assert (es + [e])[0] == es[0] && (es + [e])[1..] == es[1..] + [e];
      RunIsClean(Apply(s, es[0]), es[1..], t, e);
    }
  }

  /** A drain that may not be aborted and finds nothing to write ends and leaves the file as it is. */
  lemma {:induction false} SkippingDrainEnds(s: State)
    requires s.drain.Awaiting? && SkipsWrite(s) && s.consumers.unabortable > 0
    ensures Enabled(s, DrainResumes) && DrainResume(s).drain.Idle?
    ensures DrainResume(s).file == s.file && DrainResume(s).activeView == s.activeView
  {
    SkippingTurnEnds(s, s.drain.rounds, s.drain.first);
  }

  /** The joined drain waits for stale writes, and then finds nothing to write over a file with another view. */
  lemma {:induction false} JoinedQuitLoses(t: State, other: View)
    requires OrdinarilyReachable(t) && t.timer && Saved(t) && t.drain.Awaiting? && FileShows(t, other)
    requires other != t.activeView && (t.running.Some? ==> RunningIn(t, Renamed))
    ensures !QuitsSafely(t)
  {
    OrdinarilyReachableInv(t);
    StaleQuitLoses(t, FlushAsync(t), other);
  }

  lemma {:induction false} StaleQuitLoses(t: State, s: State, other: View)
    requires s == FlushAsync(t) && s.drain.Awaiting? && AllStale(s) && s.consumers.unabortable > 0
    requires Saved(s) && FileShows(s, other) && other != s.activeView
    ensures !QuitsSafely(t)
  {
    var es, m := StaleWritersEnd(s);
    SkippingDrainEnds(m);
    RunIsClean(s, es, m, DrainResumes);
    var u := DrainResume(m);
    assert u.drain.Idle? && !FileShows(u, u.activeView);
    assert NoCalls(es + [DrainResumes]);
  }

  lemma {:induction false} QuitMayLose(s: State) returns (t: State)
    requires OrdinarilyReachable(s) && QuitLoses(s)
    ensures OrdinarilyReachable(t) && SameFields(s, t) && !QuitsSafely(t)
  {
    OrdinarilyReachableInv(s);
    if Pending(s) {
      t := ParkedStates(s);
    } else {
      t := AnotherFileIsPossible(s);
    }
    if s.drain.Awaiting? {
      JoinedQuitLoses(t, OtherView(s.activeView));
    } else {
      DrainKeepsFile(t, None);
      var u := FlushAsync(t);
      assert CleanlyReaches(u, [], u) && !FileShows(u, u.activeView);
    }
  }

  /** The quit flush resolves with the active view in the file, in every run that leads to these fields, if and only
      if no debounce is armed over a marker that names the active view while nothing is pending or a drain runs. */
  lemma {:induction false} QuitExact(s: State)
    requires OrdinarilyReachable(s)
    ensures (forall t :: OrdinarilyReachable(t) && SameFields(s, t) ==> QuitsSafely(t)) <==> !QuitLoses(s)
  {
    if QuitLoses(s) {
      var t := QuitMayLose(s);
    } else {
      forall t | OrdinarilyReachable(t) && SameFields(s, t) ensures QuitsSafely(t) {
        OrdinarilyReachableInv(t);
        QuitIsSafe(t);
      }
    }
  }

  // ---------- a quit flush that joins a drain just returned ----------

  /** The quit flush is called in the synchronous stretch in which a drain has returned but is still the pending one:
      it joins that drain, and resolves with it, without a turn of its own. */
  function JoinReturned(s: State): State {
    s.(quitStarted := true)
  }

  lemma {:induction false} LateWriteBegins(s: State) returns (es: seq<Event>, t: State)
    requires Inv(s) && s.timer && !Pending(s)
    ensures Reaches(s, es, t) && NoFlushPending(es)
    ensures RunningIn(t, WritingTmp) && t.running.value.generation == t.writeGeneration == s.writeGeneration
  {
    es := [TimerFires, WriterStarts, MkdirEnds(true)];
    var s1 := TimerFire(s);
    var s2 := Begin(s1);
    t := Move(s2, WritingTmp);
    assert Reaches(s2, es[2..], t) by { assert es[2..][1..] == []; }
    assert Reaches(s1, es[1..], t) by { assert es[1..][1..] == es[2..]; }
  }

  lemma {:induction false} LateWriteLands(s: State) returns (es: seq<Event>, t: State)
    requires RunningIn(s, WritingTmp) && s.running.value.generation == s.writeGeneration
    ensures Reaches(s, es, t) && NoFlushPending(es) && t.file.generation == s.writeGeneration
  {
    es := [TmpWriteEnds(Written), TmpWriteResumes, RenameEnds(Done)];
    var s1 := TmpWriteEnd(s, Written);
    var s2 := TmpWriteResume(s1);
    t := RenameEnd(s2, Done);
    assert Reaches(s2, es[2..], t) by { assert es[2..][1..] == []; }
    assert Reaches(s1, es[1..], t) by { assert es[1..][1..] == es[2..]; }
  }

  /** An armed debounce fires and its write lands, whatever has been resolved before. */
  lemma {:induction false} LateWriteChangesFile(s: State) returns (es: seq<Event>, t: State)
    requires Inv(s) && s.timer && !Pending(s)
    ensures Reaches(s, es, t) && NoFlushPending(es) && t.file != s.file
  {
    var first, m := LateWriteBegins(s);
    var second, u := LateWriteLands(m);
    RunsJoin(s, first, m, second, u);
    es, t := first + second, u;
  }

  lemma {:induction false} RunsJoin(s: State, first: seq<Event>, m: State, second: seq<Event>, t: State)
    requires Reaches(s, first, m) && Reaches(m, second, t)
    ensures Reaches(s, first + second, t)
    decreases |first|
  {
    if first == [] {
      assert first + second == second;
    } else {
      assert (first + second)[0] == first[0] && (first + second)[1..] == first[1..] + second;
      RunsJoin(Apply(s, first[0]), first[1..], m, second, t);
    }
  }

  /** Such a quit flush is the last write if and only if no debounce has been armed since the drain's last turn. */
  lemma {:induction false} JoinReturnedExact(s: State)
    requires Reachable(s) && s.drain.Idle? && !Pending(s)
    ensures (forall es, t :: Reaches(JoinReturned(s), es, t) && NoFlushPending(es) ==> t.file == s.file) <==> !s.timer
  {
    ReachableInv(s);
    var q := JoinReturned(s);
    if s.timer {
      RecordsKeep(s, s.drain, s.consumers, s.aborted, true);
      var es, t := LateWriteChangesFile(q);
    } else {
      forall es, t | Reaches(q, es, t) && NoFlushPending(es) ensures t.file == s.file { SealedStays(q, es, t); }
    }
  }
}
