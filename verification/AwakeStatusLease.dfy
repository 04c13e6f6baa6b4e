/** The lease object: the rows, the timer and the loops over the rows. */
module AwakeStatusLease {
  import opened Options
  import opened AwakeLease

  class AgentAwakeStatusLease {
    var statuses: map<string, Status>
    var timer: Option<int>            // the time at which the armed timer is due
    var timerExpiresAt: Option<int>

    ghost predicate Valid()
      reads this
    {
      timer == timerExpiresAt
    }

    ghost function Abstract(): Lease
      reads this
    {
      Lease(statuses, timer)
    }

    constructor ()
      ensures Valid() && Abstract() == EMPTY_LEASE
    {
      statuses := map[];
      timer := None;
      timerExpiresAt := None;
    }

    method Replace(rows: seq<Status>, now: int)
      requires Valid()
      modifies this
      ensures Valid() && Abstract() == AwakeLease.Replace(old(Abstract()), rows, now)
      ensures Keeps(statuses, rows)
    {
      statuses := map[];
      for i := 0 to |rows|
        invariant statuses == MapOf(rows[..i])
        invariant timer == old(timer) && Valid()
      {
        assert rows[..i + 1][..i] == rows[..i];
        statuses := statuses[rows[i].paneKey := rows[i]];
      }
      assert rows[..|rows|] == rows;
      MapOfKeeps(rows);
      ScheduleNextExpiry(now);
    }

    method Renew(status: Status, now: int) returns (eligible: bool)
      requires Valid()
      modifies this
      ensures Valid() && Abstract() == AwakeLease.Renew(old(Abstract()), status, now)
      ensures eligible <==> Eligible(status, now)
    {
      statuses := statuses[status.paneKey := status];
      if !Eligible(status, now) {
        return false;
      }
      ArmAt(Expiry(status), now);
      return true;
    }

    method CountEligible(now: int) returns (count: nat)
      ensures count == |EligibleKeys(statuses, now)|
    {
      count := 0;
      var left := statuses.Keys;
      ghost var counted: set<string> := {};
      while left != {}
        invariant left <= statuses.Keys && counted !! left
        invariant counted == EligibleKeys(statuses, now) - left
        invariant count == |counted|
        decreases left
      {
        var k :| k in left;
        left := left - {k};
        if Eligible(statuses[k], now) {
          count := count + 1;
          counted := counted + {k};
        }
      }
    }

    method Dispose()
      requires Valid()
      modifies this
      ensures Valid() && Abstract() == old(Abstract()).(due := None)
    {
      ClearTimer();
    }

    /** The earliest next check of an eligible row. */
    method FindEarliest(now: int) returns (earliest: Option<int>)
      ensures IsEarliest(statuses, now, earliest)
    {
      earliest := None;
      var left := statuses.Keys;
      while left != {}
        invariant left <= statuses.Keys
        invariant earliest.None? ==> EligibleKeys(statuses, now) <= left
        invariant earliest.Some? ==>
          exists k :: k in EligibleKeys(statuses, now) && NextCheck(statuses[k], now) == earliest.value
        invariant earliest.Some? ==> forall k :: k in EligibleKeys(statuses, now) - left ==>
          earliest.value <= NextCheck(statuses[k], now)
        decreases left
      {
        var k :| k in left;
        left := left - {k};
        if Eligible(statuses[k], now) {
          assert k in EligibleKeys(statuses, now);
          var check := NextCheck(statuses[k], now);
          if earliest.None? || check < earliest.value {
            earliest := Some(check);
          }
        }
      }
    }

    method ScheduleNextExpiry(now: int)
      requires Valid()
      modifies this
      ensures Valid() && Abstract() == ScheduleNext(old(Abstract()), now)
    {
      ClearTimer();
      var earliest := FindEarliest(now);
      EarliestIsUnique(statuses, now, earliest, Earliest(statuses, now));
      if earliest.Some? {
        ArmAt(earliest.value, now);
      }
    }

    method ArmAt(expiry: int, now: int)
      requires Valid()
      modifies this
      ensures Valid() && Abstract() == ScheduleAt(old(Abstract()), expiry, now)
    {
      if expiry <= now || (timer.Some? && timerExpiresAt.Some? && timerExpiresAt.value <= expiry) {
        return;
      }
      ClearTimer();
      timerExpiresAt := Some(expiry);
      timer := Some(now + (expiry - now));
    }

    /** What the timer does when it fires, before it calls back. */
    method OnTimer(now: int)
      requires Valid()
      modifies this
      ensures Valid() && Abstract() == Fire(old(Abstract()), now)
    {
      timer := None;
      timerExpiresAt := None;
      ScheduleNextExpiry(now);
    }

    method ClearTimer()
      requires Valid()
      modifies this
      ensures Valid() && Abstract() == old(Abstract()).(due := None)
    {
      timer := None;
      timerExpiresAt := None;
    }
  }

  lemma {:induction false} EarliestIsUnique(statuses: map<string, Status>, now: int, a: Option<int>, b: Option<int>)
    requires IsEarliest(statuses, now, a) && IsEarliest(statuses, now, b)
    ensures a == b
  {
    if a.Some? {
      var k :| k in EligibleKeys(statuses, now) && NextCheck(statuses[k], now) == a.value;
    }
    if b.Some? {
      var k :| k in EligibleKeys(statuses, now) && NextCheck(statuses[k], now) == b.value;
    }
  }
}
