/**
 The marker that is not true: a run of successful calls after which flushOrThrow, the drain and the
 maintenance pause each leave the file with a view that is not the active one.
 */
module ActiveViewStaleMarker {
  import opened Options
  import opened ActiveViewProtocol
  import opened ActiveViewDrain

  /** Terminal is stored; Settings is set and lands while Terminal is set again, so the landing is
      not recorded and the debounce that would rewrite Terminal is still armed. */
  const STALE_EVENTS := [
    Set(Some(Settings)), TimerFires, WriterStarts, MkdirEnds(true), TmpWriteEnds(Written),
    TmpWriteResumes, RenameEnds(Done), Set(Some(Terminal)), RenameResumes]

  const STALE := State(Terminal, Some(Terminal), true, None, [], 2, None, Idle, NO_CONSUMERS, {}, false, false,
                       Landed(Whole(Settings), 1), map[], Request(Settings, 1), false)

  /** A run that begins with the step to `next`. */
  lemma {:induction false} GoesOn(s: State, e: Event, next: State, es: seq<Event>, t: State)
    requires Enabled(s, e) && Clean(s, e) && Apply(s, e) == next && CleanlyReaches(next, es, t)
    ensures CleanlyReaches(s, [e] + es, t)
  {
    assert ([e] + es)[1..] == es;
  }

  /** The rename of Settings has landed and its continuation has not run. */
  const SETTINGS_PARKED := State(
    Settings, Some(Terminal), false, Some(Writer(Settings, 1, Renamed)), [], 1, Some(1), Idle, NO_CONSUMERS, {},
    false, false, Landed(Whole(Settings), 1), map[], Request(Settings, 1), false)

  /** The write of Settings stands in the given phase, with its temp file if that is written. */
  function WritingSettings(phase: Phase, temps: map<nat, Content>, claim: Option<nat>): State {
    SETTINGS_PARKED.(running := Some(Writer(Settings, 1, phase)), inFlight := claim, temps := temps,
            file := Landed(Whole(Terminal), 0), confirmed := true)
  }

  lemma {:induction false} ParkedGoesStale()
    ensures CleanlyReaches(SETTINGS_PARKED, [Set(Some(Terminal)), RenameResumes], STALE)
  {
    var overtaken := SetView(SETTINGS_PARKED, Some(Terminal));
    GoesOn(overtaken, RenameResumes, STALE, [], STALE);
    GoesOn(SETTINGS_PARKED, Set(Some(Terminal)), overtaken, [RenameResumes], STALE);
  }

  lemma {:induction false} WrittenParks()
    ensures CleanlyReaches(WritingSettings(TmpWritten, map[1 := Whole(Settings)], None), STALE_EVENTS[5..], STALE)
  {
    ParkedGoesStale();
    var es := [Set(Some(Terminal)), RenameResumes];
    var renaming := WritingSettings(Renaming, map[1 := Whole(Settings)], Some(1));
    assert RenameEnd(renaming, Done) == SETTINGS_PARKED;
    GoesOn(renaming, RenameEnds(Done), SETTINGS_PARKED, es, STALE);
    GoesOn(WritingSettings(TmpWritten, map[1 := Whole(Settings)], None), TmpWriteResumes, renaming,
           [RenameEnds(Done)] + es, STALE);
    assert STALE_EVENTS[5..] == [TmpWriteResumes] + ([RenameEnds(Done)] + es);
  }

  lemma {:induction false} WritingParks()
    ensures CleanlyReaches(WritingSettings(MakingDir, map[], None), STALE_EVENTS[3..], STALE)
  {
    WrittenParks();
    var es := STALE_EVENTS[5..];
    var written := WritingSettings(TmpWritten, map[1 := Whole(Settings)], None);
    assert TmpWriteEnd(WritingSettings(WritingTmp, map[], None), Written) == written;
    GoesOn(WritingSettings(WritingTmp, map[], None), TmpWriteEnds(Written), written, es, STALE);
    GoesOn(WritingSettings(MakingDir, map[], None), MkdirEnds(true), WritingSettings(WritingTmp, map[], None),
           [TmpWriteEnds(Written)] + es, STALE);
    assert STALE_EVENTS[3..] == [MkdirEnds(true)] + ([TmpWriteEnds(Written)] + es);
  }

  /** Settings has been set and its debounce is armed. */
  const SETTINGS_REQUESTED := State(
    Settings, Some(Terminal), true, None, [], 1, None, Idle, NO_CONSUMERS, {},
    false, false, Landed(Whole(Terminal), 0), map[], Request(Terminal, 0), true)

  lemma {:induction false} RequestIsWritten()
    ensures CleanlyReaches(SETTINGS_REQUESTED, STALE_EVENTS[1..], STALE)
  {
    WritingParks();
    var s2 := TimerFire(SETTINGS_REQUESTED);
    assert s2.queue == [Request(Settings, 1)];
    var es := STALE_EVENTS[3..];
    assert Begin(s2) == WritingSettings(MakingDir, map[], None);
    GoesOn(s2, WriterStarts, WritingSettings(MakingDir, map[], None), es, STALE);
    GoesOn(SETTINGS_REQUESTED, TimerFires, s2, [WriterStarts] + es, STALE);
    assert STALE_EVENTS[1..] == [TimerFires] + ([WriterStarts] + es);
  }

  lemma {:induction false} StaleIsReached()
    ensures CleanlyReaches(Init(Whole(Terminal), None), STALE_EVENTS, STALE)
  {
    RequestIsWritten();
    GoesOn(Init(Whole(Terminal), None), Set(Some(Settings)), SETTINGS_REQUESTED, STALE_EVENTS[1..], STALE);
    assert STALE_EVENTS == [Set(Some(Settings))] + STALE_EVENTS[1..];
  }

  /** The writer is quiet and shows Settings in the file while the active view is Terminal. */
  predicate Loses(s: State) {
    Quiet(s) && !s.paused && s.drain.Idle? && s.file.content == Whole(Settings) && s.activeView == Terminal
  }

  /** From there a flushOrThrow, a drain, or a maintenance pause and its end each stop the debounce
      for good. */
  lemma {:induction false} StaleMarkerLosesView(calls: FlushCalls)
    ensures Loses(FlushOrThrow(STALE, calls).0)
    ensures Loses(FlushPendingAsync(STALE, None))
    ensures Loses(ResumeAfterMaintenance(PauseForMaintenance(STALE)))
  {
  }
}
