/** The service object, its lease object and the blockers the system holds for it. */
module AgentAwakeServices {
  import opened Options
  import opened AwakeLease
  import opened AwakeService
  import opened AwakeStatusLease

  /** A call of one of the two platform assertions. */
  datatype AssertionCall = StartMac | StartLinux | StopMac | StopLinux | DisposeMac | DisposeLinux

  class AgentAwakeService {
    const darwin: bool
    const statusLease: AgentAwakeStatusLease
    var mode: Mode
    var blockerId: Option<nat>
    var lastPublishedStatus: Option<Published>

    // The world outside: the blockers that are live, the calls of the platform assertions, what listeners
    // were told, and whether the service hears of power resumes.
    var live: set<nat>
    var assertionCalls: seq<AssertionCall>
    var told: seq<Published>
    var hearsResumes: bool

    /** Listeners were last told what is published, and never the same twice in a row. */
    ghost predicate Valid()
      reads this, statusLease
    {
      && statusLease.Valid()
      && lastPublishedStatus == (if told == [] then None else Some(told[|told| - 1]))
      && forall i :: 0 <= i < |told| - 1 ==> told[i] != told[i + 1]
    }

    ghost function Abstract(): Service
      reads this, statusLease
    {
      Service(mode, lastPublishedStatus, statusLease.Abstract(), Power(blockerId, live))
    }

    constructor (darwin: bool, resumeSource: bool)
      ensures Valid() && fresh(statusLease) && this.darwin == darwin
      ensures hearsResumes == resumeSource && assertionCalls == [] && told == []
      ensures Abstract() == INITIAL_SERVICE
    {
      this.darwin := darwin;
      statusLease := new AgentAwakeStatusLease();
      mode := Off;
      blockerId := None;
      lastPublishedStatus := None;
      live := {};
      assertionCalls, told, hearsResumes := [], [], resumeSource;
    }

    method SetMode(mode: Mode, now: int, r: Replies)
      requires Valid()
      modifies this
      ensures Valid() && Abstract() == AwakeService.SetMode(old(Abstract()), mode, now, darwin, r)
    {
      if this.mode == mode {
        return;
      }
      this.mode := mode;
      Refresh(now, r);
    }

    method SetStatuses(rows: seq<Status>, at: int, now: int, r: Replies)
      requires Valid()
      modifies this, statusLease
      ensures Valid() && Abstract() == AwakeService.SetStatuses(old(Abstract()), rows, at, now, darwin, r)
    {
      statusLease.Replace(rows, at);
      Refresh(now, r);
    }

    method ObserveStatusFreshness(status: Status, now: int, r: Replies)
      requires Valid()
      modifies this, statusLease
      ensures Valid() && Abstract() == AwakeService.ObserveStatusFreshness(old(Abstract()), status, now, darwin, r)
    {
      var eligible := statusLease.Renew(status, now);
      if !eligible {
        return;
      }
      if mode == Auto && !(lastPublishedStatus.Some? && lastPublishedStatus.value.active) {
        ApplyDecision(1, r);
      }
    }

    /** The lease timer fires, reschedules and calls back. */
    method OnStaleExpiry(at: int, now: int, r: Replies)
      requires Valid()
      modifies this, statusLease
      ensures Valid() && Abstract() == OnExpiry(old(Abstract()), at, now, darwin, r)
    {
      statusLease.OnTimer(at);
      Refresh(now, r);
    }

    method GetStatus(now: int) returns (status: Published)
      requires Valid()
      ensures status.mode == mode
      ensures status.active <==> mode == On || (mode == Auto && Busy(Abstract(), now))
    {
      var count := statusLease.CountEligible(now);
      status := Published(mode, ShouldBlock(mode, count));
    }

    method Dispose(r: Replies)
      requires Valid()
      modifies this, statusLease
      ensures Valid()
      ensures var s := old(Abstract());
              Abstract() == s.(lease := s.lease.(due := None), power := AwakeService.StopBlocker(s.power, r))
      ensures !hearsResumes && told == old(told)
      ensures assertionCalls == old(assertionCalls) + [DisposeMac, DisposeLinux]
    {
      statusLease.Dispose();
      hearsResumes := false;
      StopBlocker(r);
      assertionCalls := assertionCalls + [DisposeMac];
      assertionCalls := assertionCalls + [DisposeLinux];
    }

    method Refresh(now: int, r: Replies)
      requires Valid()
      modifies this
      ensures Valid() && Abstract() == AwakeService.Refresh(old(Abstract()), now, darwin, r)
    {
      var count := statusLease.CountEligible(now);
      ApplyDecision(count, r);
    }

    method ApplyDecision(count: nat, r: Replies)
      requires Valid()
      modifies this`blockerId, this`live, this`lastPublishedStatus, this`told, this`assertionCalls
      ensures Valid() && Abstract() == ApplyAwakeDecision(old(Abstract()), count, darwin, r)
      ensures assertionCalls == old(assertionCalls)
              + if ShouldBlock(mode, count) then [StartMac, StartLinux] else [StopMac, StopLinux]
    {
      var shouldBlock := ShouldBlock(mode, count);
      if shouldBlock {
        assertionCalls := assertionCalls + [StartMac];
        if !darwin || !r.macActive {
          StartBlocker(r);
        } else {
          StopBlocker(r);
        }
        assertionCalls := assertionCalls + [StartLinux];
      } else {
        StopBlocker(r);
        assertionCalls := assertionCalls + [StopMac];
        assertionCalls := assertionCalls + [StopLinux];
      }
      Publish(shouldBlock);
    }

    /** Tells the listeners only what they were not told last. */
    method Publish(active: bool)
      requires Valid()
      modifies this`lastPublishedStatus, this`told
      ensures Valid() && lastPublishedStatus == Some(Published(mode, active))
      ensures told == old(told) + if old(lastPublishedStatus) == Some(Published(mode, active)) then []
                                  else [Published(mode, active)]
    {
      if lastPublishedStatus == Some(Published(mode, active)) {
        return;
      }
      lastPublishedStatus := Some(Published(mode, active));
      told := told + [Published(mode, active)];
    }

    method StartBlocker(r: Replies)
      modifies this`blockerId, this`live
      ensures Power(blockerId, live) == AwakeService.StartBlocker(old(Power(blockerId, live)), r)
    {
      if blockerId.Some? {
        var running := ReconcileBlocker(r.before);
        if running {
          return;
        }
      }
      if r.start.Starts? {
        live := live + {r.start.id};
        blockerId := Some(r.start.id);
        var _ := ReconcileBlocker(r.after);
      }
    }

    method StopBlocker(r: Replies)
      modifies this`blockerId, this`live
      ensures Power(blockerId, live) == AwakeService.StopBlocker(old(Power(blockerId, live)), r)
    {
      if blockerId.None? {
        return;
      }
      if r.stops {
        live := live - {blockerId.value};
      }
      var _ := ReconcileBlocker(r.after);
    }

    method ReconcileBlocker(asked: Asked) returns (running: bool)
      modifies this`blockerId
      ensures (Power(blockerId, live), running) == Reconcile(old(Power(blockerId, live)), asked)
    {
      if blockerId.None? {
        return false;
      }
      match asked {
        case Throws => return true;
        case Says(started) =>
          if !started {
            blockerId := None;
          }
          return started;
      }
    }
  }
}
