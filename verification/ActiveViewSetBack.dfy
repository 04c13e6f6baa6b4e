/**
 The set that goes back, while saving is paused, to the view the marker names: exactly when the end of the
 pause may then find the file with another view.
 */
module ActiveViewSetBack {
  import opened Options
  import opened ActiveViewProtocol
  import opened ActiveViewSafety
  import opened ActiveViewDrain
  import opened ActiveViewDelivery
  import opened ActiveViewQuiescence
  import opened ActiveViewEarlySaves
  import opened ActiveViewExactness

  /** Whatever happens after the set, the end of the pause, if no write is pending then, arms the debounce or
      leaves the active view in the file. */
  ghost predicate SetsBackSafely(s: State, view: View) {
    forall es, u :: OrdinarilyReaches(SetView(s, Some(view)), es, u) && !Pending(u) ==> ResumesSafely(u)
  }

  /** The requests that it takes before a marker can be wrong. */
  function LeastRequests(s: State): nat {
    if s.drain.Idle? then 2 else 3
  }

  /** The set gives up a view still to be saved, or overtakes a pending write, and the file may show another view:
      the one being renamed, or the one that an overtaken write left there before. */
  predicate SetBackLoses(s: State) {
    if !Pending(s) then !Saved(s) && s.writeGeneration >= LeastRequests(s)
    else if Saved(s) then s.writeGeneration >= LeastRequests(s) && s.inFlight != Some(s.writeGeneration)
    else s.inFlight.Some? || s.writeGeneration >= 2
  }

  // ---------- where it does no harm ----------

  /** The claimed write of the newest generation carries the active view. */
  lemma {:induction false} NewestIsClaimed(s: State)
    requires CleanInv(s) && s.inFlight == Some(s.writeGeneration) && s.writeGeneration > 0 && !s.quitStarted
    ensures s.running.Some? && s.running.value.view == s.activeView && s.queue == []
    ensures RunningIn(s, Renaming) || (RunningIn(s, Renamed) && s.file.content == Whole(s.activeView))
  {
  }

  lemma {:induction false} SetBackShows(s: State, view: View)
    requires OrdinarilyReachable(s) && s.paused && s.persisted == Some(view) && !SetBackLoses(s)
    ensures OrdinaryInv(SetView(s, Some(view)))
  {
    OrdinarilyReachableInv(s);
    StepDelivers(s, Set(Some(view)));
    if Pending(s) && s.inFlight == Some(s.writeGeneration) { NewestIsClaimed(s); }
  }

  lemma {:induction false} SetBackIsSafe(s: State, view: View)
    requires OrdinaryInv(SetView(s, Some(view)))
    ensures SetsBackSafely(s, view)
  {
    forall es, u | OrdinarilyReaches(SetView(s, Some(view)), es, u) && !Pending(u) ensures ResumesSafely(u) {
      RunKeepsOrdinary(SetView(s, Some(view)), es, u);
      ResumeIsSafe(u);
    }
  }

  // ---------- where it may ----------

  /** The file shows another view than the marker, and no write is being renamed. */
  predicate Over(s: State, view: View) {
    && s.persisted == Some(view) && s.file.content.Whole? && !FileShows(s, view)
    && (s.running.Some? ==> RunningIn(s, Renamed))
  }

  lemma {:induction false} SetBackOverLoses(s: State, view: View)
    requires OrdinarilyReachable(s) && s.paused && Over(s, view)
    ensures !SetsBackSafely(s, view)
  {
    OrdinarilyReachableInv(s);
    var es, u := StaleWritersEnd(SetView(s, Some(view)));
    assert !ResumesSafely(u);
  }

  /** All fields of `s` but the pause, over a file that shows another view, in a state that may pause. */
  ghost predicate Mirrors(s: State, t: State, view: View) {
    && OrdinarilyReachable(t) && Over(t, view)
    && t.activeView == s.activeView && Pending(t) == Pending(s)
    && t.drain.Idle? == s.drain.Idle? && t.consumers == s.consumers && t.aborted == s.aborted
    && t.writeGeneration == s.writeGeneration && t.inFlight == s.inFlight
    && !t.quitStarted && !t.paused && (t.timer ==> !Saved(t))
  }

  lemma {:induction false} MirrorPauses(s: State, t: State, view: View) returns (u: State)
    requires OrdinarilyReachable(s) && s.paused && s.persisted == Some(view) && Mirrors(s, t, view)
    ensures OrdinarilyReachable(u) && SameFields(s, u) && !SetsBackSafely(u, view)
  {
    OrdinarilyReachableInv(s);
    u := PauseForMaintenance(t);
    Extends(t, Pause, u);
    SetBackOverLoses(u, view);
  }

  /** With no claim: over a stale marker, with the write of its debounce pending or none. */
  lemma {:induction false} UnclaimedMirrors(s: State, view: View) returns (t: State)
    requires OrdinaryInv(s) && EarlyFacts(s) && s.inFlight.None? && s.writeGeneration >= LeastRequests(s)
    requires Pending(s) || s.activeView != view
    ensures Mirrors(s, t, view)
  {
    t := StaleStates(s, view);
    if Pending(s) {
      ExtendsByTimer(t);
      t := TimerFire(t);
    }
  }

  /** With an older claim: behind a landing of that generation, and if need be the write of a debounce. */
  lemma {:induction false} ClaimedMirrors(s: State, view: View) returns (t: State)
    requires OrdinaryInv(s) && EarlyFacts(s) && s.writeGeneration >= LeastRequests(s)
    requires s.inFlight.Some? && 0 < s.inFlight.value < s.writeGeneration
    ensures Mirrors(s, t, view)
  {
    var p;
    if s.drain.Idle? {
      p := IdleParks(s, view, OtherView(view));
    } else {
      var signal := SomeConsumer(s.consumers);
      p := DrainParks(s, view, OtherView(view), signal);
    }
    t := Dresses(p, s, view, OtherView(view));
    if s.activeView == view {
      ExtendsByTimer(t);
      t := TimerFire(t);
    }
  }

  /** A parked state of a running drain with the claim and the generation of `s`, and its view in the file. */
  lemma {:induction false} UnsavedParks(s: State, view: View, signal: Option<nat>) returns (p: State)
    requires s.activeView != view && s.writeGeneration >= 2
    requires s.inFlight == Some(s.writeGeneration)
          || (s.writeGeneration == 2 && (s.inFlight.None? || s.inFlight == Some(1)))
    ensures Parked(p, view, s.activeView) && p.activeView == s.activeView && !p.timer
    ensures Draining(p, s.writeGeneration, s.inFlight, FirstConsumer(signal))
  {
    if s.inFlight.None? {
      p := UnclaimedParks(view, s.activeView, signal);
    } else if s.inFlight.value == s.writeGeneration {
      p := ClaimParks(view, s.activeView, s.writeGeneration, signal);
    } else {
      p := FirstClaimParks(view, s.activeView, signal);
    }
  }

  /** With a view still to be saved: that view is itself in the file, put there by the claimed write or by an
      overtaken one. */
  lemma {:induction false} UnsavedMirrors(s: State, view: View) returns (t: State)
    requires OrdinaryInv(s) && EarlyFacts(s) && s.activeView != view && Pending(s) && s.drain.Awaiting?
    requires s.writeGeneration >= 2
    requires s.inFlight == Some(s.writeGeneration)
          || (s.writeGeneration == 2 && (s.inFlight.None? || s.inFlight == Some(1)))
    ensures Mirrors(s, t, view)
  {
    var signal := SomeConsumer(s.consumers);
    var p := UnsavedParks(s, view, signal);
    t := Enrolls(p, s, view, s.activeView);
  }

  lemma {:induction false} IdleUnsavedMirrors(s: State, view: View) returns (t: State)
    requires OrdinaryInv(s) && s.activeView != view && Pending(s) && s.drain.Idle?
    requires s.inFlight == Some(s.writeGeneration) && s.writeGeneration > 0
    ensures Mirrors(s, t, view)
  {
    IdleLanding(view, s.activeView, s.writeGeneration);
    t := Enrolls(Landing(view, s.activeView, s.writeGeneration, Idle, NO_CONSUMERS), s, view, s.activeView);
  }

  lemma {:induction false} SetBackMayLose(s: State, view: View) returns (t: State)
    requires OrdinarilyReachable(s) && s.paused && s.persisted == Some(view) && SetBackLoses(s)
    ensures OrdinarilyReachable(t) && SameFields(s, t) && !SetsBackSafely(t, view)
  {
    OrdinarilyReachableInv(s);
    if s.inFlight.None? && s.writeGeneration >= LeastRequests(s) {
      t := UnclaimedMirrors(s, view);
    } else if s.inFlight.Some? && s.inFlight.value < s.writeGeneration && s.writeGeneration >= LeastRequests(s) {
      t := ClaimedMirrors(s, view);
    } else if s.drain.Idle? {
      t := IdleUnsavedMirrors(s, view);
    } else {
      t := UnsavedMirrors(s, view);
    }
    t := MirrorPauses(s, t, view);
  }

  /** A set back to the view that the marker names is safe, in every run that leads to these fields, if and only
      if it neither gives up a view still to be saved nor overtakes a pending write over a file that may show
      another view. */
  lemma {:induction false} SetBackExact(s: State, view: View)
    requires OrdinarilyReachable(s) && s.paused && s.persisted == Some(view)
    ensures (forall t :: OrdinarilyReachable(t) && SameFields(s, t) ==> SetsBackSafely(t, view)) <==> !SetBackLoses(s)
  {
    if SetBackLoses(s) {
      var t := SetBackMayLose(s, view);
    } else {
      forall t | OrdinarilyReachable(t) && SameFields(s, t) ensures SetsBackSafely(t, view) {
        SetBackShows(t, view);
        SetBackIsSafe(t, view);
      }
    }
  }
}
