/**
 The preference object itself: the source's fields, the promise chain and the directory it writes,
 and one method for each stretch of code between two awaits. Every method is proved against the
 step of the protocol it performs, so what the protocol's runs keep is kept by the object.
 */
module ActiveViewPreferences {
  import opened Options
  import opened ActiveViewProtocol

  class ActiveViewPreference {
    var activeView: View
    var persistedActiveView: Option<View>
    var writeTimer: bool
    var writeGeneration: nat
    var inFlightTmpFile: Option<nat>
    var pendingFlush: Drain
    var flushSignals: set<nat>
    var unabortableFlushConsumers: nat
    var quitFlushStarted: bool
    var maintenancePaused: bool

    // The promise chain that `pendingWrite` ends: the writer inside writeAsync, then those behind it.
    var running: Option<Writer>
    var queue: seq<Request>

    // The world outside: the directory, and the abort signals that have fired.
    var file: Landed
    var temps: map<nat, Content>
    var abortedSignals: set<nat>

    ghost var lastEnqueued: Request
    ghost var landingConfirmed: bool

    ghost function Abstract(): State
      reads this
    {
      State(activeView, persistedActiveView, writeTimer, running, queue, writeGeneration, inFlightTmpFile,
            pendingFlush, Consumers(flushSignals, unabortableFlushConsumers), abortedSignals,
            quitFlushStarted, maintenancePaused, file, temps, lastEnqueued, landingConfirmed)
    }

    constructor (stored: Content, legacy: Option<View>)
      ensures Abstract() == Init(stored, legacy)
      ensures stored.Whole? ==> activeView == stored.view && persistedActiveView == Some(stored.view)
      ensures !stored.Whole? ==>
                persistedActiveView == None && activeView == (if legacy.Some? then legacy.value else Terminal)
      ensures !writeTimer && !PendingWrite() && writeGeneration == 0 && !quitFlushStarted && !maintenancePaused
    {
      var view := Terminal;
      match ReadActiveView(stored) {
        case Some(v) => view := v;
        case None => match legacy {
          case Some(v) => view := v;
          case None =>
        }
      }
      activeView := view;
      persistedActiveView := ReadActiveView(stored);
      writeTimer := false;
      writeGeneration := 0;
      inFlightTmpFile := None;
      pendingFlush := Idle;
      flushSignals := {};
      unabortableFlushConsumers := 0;
      quitFlushStarted := false;
      maintenancePaused := false;
      running := None;
      queue := [];
      file := Landed(stored, 0);
      temps := map[];
      abortedSignals := {};
      lastEnqueued := Request(view, 0);
      landingConfirmed := true;
    }

    predicate PendingWrite()
      reads this
    {
      running.Some? || queue != []
    }

    method Set(value: Option<View>) returns (changed: bool)
      modifies this
      ensures Abstract() == SetView(old(Abstract()), value)
      ensures changed <==> value.Some? && value.value != old(activeView)
    {
      if value.None? {
        return false;
      }
      changed := value.value != activeView;
      activeView := value.value;
      if value != persistedActiveView || writeTimer || PendingWrite() {
        RequestSave();
      }
    }

    method RequestSave()
      modifies this
      ensures Abstract() == ScheduleSave(old(Abstract()))
    {
      if quitFlushStarted {
        return;
      }
      writeGeneration := writeGeneration + 1;
      if maintenancePaused {
        return;
      }
      writeTimer := true;
    }

    method FireTimer()
      requires writeTimer
      modifies this
      ensures Abstract() == TimerFire(old(Abstract()))
    {
      writeTimer := false;
      Enqueue(activeView, writeGeneration);
    }

    method Enqueue(view: View, generation: nat)
      modifies this
      ensures Abstract() == EnqueueWrite(old(Abstract()), view, generation)
    {
      queue := queue + [Request(view, generation)];
      lastEnqueued := Request(view, generation);
    }

    // ---------- writeAsync, one method per await ----------

    method StartWriter()
      requires running.None? && queue != []
      modifies this
      ensures Abstract() == Begin(old(Abstract()))
    {
      running := Some(Writer(queue[0].view, queue[0].generation, MakingDir));
      queue := queue[1..];
    }

    method EnterPhase(phase: Phase)
      requires running.Some?
      modifies this
      ensures Abstract() == Move(old(Abstract()), phase)
    {
      running := Some(running.value.(phase := phase));
    }

    method FinishTmpWrite(written: WriteOutcome)
      requires running.Some?
      modifies this
      ensures Abstract() == TmpWriteEnd(old(Abstract()), written)
    {
      var w := running.value;
      if written.Written? {
        temps := temps[w.generation := Whole(w.view)];
        EnterPhase(TmpWritten);
      } else {
        if written.leavesTorn {
          temps := temps[w.generation := Torn];
        }
        EnterPhase(Removing);
      }
    }

    method ContinueAfterTmpWrite()
      requires running.Some?
      modifies this
      ensures Abstract() == TmpWriteResume(old(Abstract()))
    {
      if running.value.generation != writeGeneration {
        EnterPhase(Removing);
        return;
      }
      inFlightTmpFile := Some(running.value.generation);
      EnterPhase(Renaming);
    }

    method FinishRename(outcome: Outcome)
      requires running.Some? && (outcome.Done? ==> running.value.generation in temps)
      modifies this
      ensures Abstract() == RenameEnd(old(Abstract()), outcome)
    {
      var g := running.value.generation;
      if outcome.Done? {
        file := Landed(temps[g], g);
        temps := temps - {g};
        landingConfirmed := false;
        EnterPhase(Renamed);
      } else {
        EnterPhase(RenameFailed);
      }
    }

    method ContinueAfterRename()
      requires running.Some?
      modifies this
      ensures Abstract() == RenameResume(old(Abstract()))
    {
      var w := running.value;
      var renamed := w.phase == Renamed;
      if renamed && w.generation == writeGeneration {
        persistedActiveView := Some(w.view);
        landingConfirmed := true;
      }
      if inFlightTmpFile == Some(w.generation) {
        inFlightTmpFile := None;
      }
      if renamed {
        running := None;
      } else {
        EnterPhase(Removing);
      }
    }

    method FinishRemove(ok: bool)
      requires running.Some?
      modifies this
      ensures Abstract() == RemoveEnd(old(Abstract()), ok)
    {
      if ok {
        temps := temps - {running.value.generation};
      }
      running := None;
    }

    // ---------- flushOrThrow ----------

    method FlushOrThrow(calls: FlushCalls) returns (result: FlushResult)
      modifies this
      ensures (Abstract(), result) == ActiveViewProtocol.FlushOrThrow(old(Abstract()), calls)
    {
      if quitFlushStarted {
        return Refused;
      }
      writeTimer := false;
      var asyncWriteWasInFlight := PendingWrite();
      writeGeneration := writeGeneration + 1;
      if !asyncWriteWasInFlight && Some(activeView) == persistedActiveView {
        return Skipped;
      }
      if inFlightTmpFile.Some? {
        match calls.unlink {
          case Done =>
            temps := temps - {inFlightTmpFile.value};
            inFlightTmpFile := None;
          case Missing =>
          case Failed =>
            Enqueue(activeView, writeGeneration);
            return Threw;
        }
      }
      result := WriteNow(calls);
    }

    /** mkdirSync, writeFileSync and renameSync, each of which may throw. */
    method WriteNow(calls: FlushCalls) returns (result: FlushResult)
      modifies this
      ensures (Abstract(), result) == FlushWrite(old(Abstract()), calls)
    {
      if !calls.mkdir {
        return Threw;
      }
      if calls.write.NotWritten? {
        if calls.write.leavesTorn {
          temps := temps[writeGeneration := Torn];
        }
        return Threw;
      }
      if !calls.rename {
        temps := temps[writeGeneration := Whole(activeView)];
        return Threw;
      }
      file := Landed(Whole(activeView), writeGeneration);
      persistedActiveView := Some(activeView);
      landingConfirmed := true;
      return Wrote;
    }

    // ---------- the asynchronous drain ----------

    predicate AllFlushConsumersAborted()
      reads this
    {
      unabortableFlushConsumers == 0 && flushSignals != {} && flushSignals <= abortedSignals
    }

    method StopDrain()
      modifies this
      ensures Abstract() == EndDrain(old(Abstract()))
    {
      pendingFlush := Idle;
      flushSignals := {};
      unabortableFlushConsumers := 0;
    }

    /** One iteration of drainPendingWrites, up to its await or its end. */
    method TurnDrain(rounds: nat, first: nat)
      modifies this
      ensures Abstract() == DrainTurn(old(Abstract()), rounds, first)
    {
      if AllFlushConsumersAborted() {
        StopDrain();
        return;
      }
      writeTimer := false;
      if !PendingWrite() && Some(activeView) == persistedActiveView {
        StopDrain();
        return;
      }
      writeGeneration := writeGeneration + 1;
      Enqueue(activeView, writeGeneration);
      pendingFlush := Awaiting(activeView, writeGeneration, rounds + 1, first);
    }

    method FlushPendingAsync(signal: Option<nat>) returns (rejected: bool)
      modifies this
      ensures Abstract() == ActiveViewProtocol.FlushPendingAsync(old(Abstract()), signal)
      ensures rejected <==> signal.Some? && signal.value in old(abortedSignals)
    {
      if signal.Some? && signal.value in abortedSignals {
        return true;
      }
      if signal.Some? {
        flushSignals := flushSignals + {signal.value};
      } else {
        unabortableFlushConsumers := unabortableFlushConsumers + 1;
      }
      if pendingFlush.Idle? {
        TurnDrain(0, writeGeneration);
      }
      return false;
    }

    method FlushAsync()
      modifies this
      ensures Abstract() == ActiveViewProtocol.FlushAsync(old(Abstract()))
    {
      if quitFlushStarted {
        return;
      }
      quitFlushStarted := true;
      var _ := FlushPendingAsync(None);
    }

    method ResumeDrain()
      requires pendingFlush.Awaiting?
      modifies this
      ensures Abstract() == DrainResume(old(Abstract()))
    {
      if AllFlushConsumersAborted() || pendingFlush.generation == writeGeneration {
        StopDrain();
      } else {
        TurnDrain(pendingFlush.rounds, pendingFlush.first);
      }
    }

    // ---------- maintenance ----------

    method PauseForMaintenance() returns (paused: bool)
      modifies this
      ensures Abstract() == ActiveViewProtocol.PauseForMaintenance(old(Abstract()))
      ensures paused <==> !old(maintenancePaused) && !old(quitFlushStarted)
    {
      if maintenancePaused || quitFlushStarted {
        return false;
      }
      maintenancePaused := true;
      writeTimer := false;
      return true;
    }

    method ResumeAfterMaintenance()
      modifies this
      ensures Abstract() == ActiveViewProtocol.ResumeAfterMaintenance(old(Abstract()))
    {
      maintenancePaused := false;
      if Some(activeView) != persistedActiveView {
        RequestSave();
      }
    }

    // ---------- every step ----------

    /** One step of any run: the object follows the protocol exactly. */
    method Perform(e: Event)
      requires Enabled(Abstract(), e)
      modifies this
      ensures Abstract() == Apply(old(Abstract()), e)
    {
      match e {
        case Set(value) => var _ := Set(value);
        case TimerFires => FireTimer();
        case WriterStarts => StartWriter();
        case MkdirEnds(ok) => EnterPhase(if ok then WritingTmp else Removing);
        case TmpWriteEnds(written) => FinishTmpWrite(written);
        case TmpWriteResumes => ContinueAfterTmpWrite();
        case RenameEnds(outcome) => FinishRename(outcome);
        case RenameResumes => ContinueAfterRename();
        case RemoveEnds(ok) => FinishRemove(ok);
        case Flush(calls) => var _ := FlushOrThrow(calls);
        case FlushPending(signal) => var _ := FlushPendingAsync(signal);
        case FlushQuit => FlushAsync();
        case SignalAborts(fired) => abortedSignals := abortedSignals + {fired};
        case DrainResumes => ResumeDrain();
        case Pause => var _ := PauseForMaintenance();
        case Unpause => ResumeAfterMaintenance();
      }
    }
  }
}
