/**
 The lease on working-agent rows: which rows keep the machine awake, and the one timer that must
 wake the service when a row expires. Times are integer milliseconds on a clock that never goes
 back.
 */
module AwakeLease {
  import opened Options
  import opened Sequences

  const STALE_AFTER := 2 * 60 * 60 * 1000

  datatype AgentState = Working | Blocked | Waiting | Done

  /** `receivedAt` is None when the reported number is not finite. */
  datatype Status = Status(paneKey: string, state: AgentState, receivedAt: Option<int>, observed: bool)

  /** `due` is the time at which the armed timer is due, or None when no timer is armed. */
  datatype Lease = Lease(statuses: map<string, Status>, due: Option<int>)

  const EMPTY_LEASE := Lease(map[], None)

  predicate Eligible(status: Status, now: int) {
    && status.observed && status.state == Working && status.receivedAt.Some?
    && now - status.receivedAt.value <= STALE_AFTER
  }

  function Expiry(status: Status): int
    requires status.receivedAt.Some?
  {
    status.receivedAt.value + STALE_AFTER
  }

  /** When an eligible row must be looked at again: at its expiry, or just after it. */
  function NextCheck(status: Status, now: int): int
    requires Eligible(status, now)
  {
    if Expiry(status) == now then now + 1 else Expiry(status)
  }

  function EligibleKeys(statuses: map<string, Status>, now: int): set<string> {
    set k | k in statuses && Eligible(statuses[k], now)
  }

  /** `e` is the smallest next check of the eligible rows, or None when there is none. */
  ghost predicate IsEarliest(statuses: map<string, Status>, now: int, e: Option<int>) {
    && (e.None? ==> EligibleKeys(statuses, now) == {})
    && (e.Some? ==>
          && (exists k :: k in EligibleKeys(statuses, now) && NextCheck(statuses[k], now) == e.value)
          && (forall k :: k in EligibleKeys(statuses, now) ==> e.value <= NextCheck(statuses[k], now)))
  }

  ghost function Earliest(statuses: map<string, Status>, now: int): (e: Option<int>)
    ensures IsEarliest(statuses, now, e)
  {
    EarliestExists(statuses, now, EligibleKeys(statuses, now));
    var e :| IsEarliest(statuses, now, e);
    e
  }

  lemma {:induction false} EarliestExists(statuses: map<string, Status>, now: int, keys: set<string>)
    requires keys <= EligibleKeys(statuses, now)
    ensures keys == {} || exists m :: m in keys && forall k :: k in keys ==>
              NextCheck(statuses[m], now) <= NextCheck(statuses[k], now)
    ensures keys == EligibleKeys(statuses, now) ==> exists e :: IsEarliest(statuses, now, e)
    decreases keys
  {
    if keys == {} {
      assert keys == EligibleKeys(statuses, now) ==> IsEarliest(statuses, now, None);
    } else {
      var k :| k in keys;
      EarliestExists(statuses, now, keys - {k});
      var best := k;
      if keys != {k} {
        assert keys - {k} != {};
        var m :| m in keys - {k} && forall j :: j in keys - {k} ==>
          NextCheck(statuses[m], now) <= NextCheck(statuses[j], now);
        if NextCheck(statuses[m], now) < NextCheck(statuses[k], now) { best := m; }
      }
      assert forall j :: j in keys ==> NextCheck(statuses[best], now) <= NextCheck(statuses[j], now);
      assert keys == EligibleKeys(statuses, now) ==>
          IsEarliest(statuses, now, Some(NextCheck(statuses[best], now)));
    }
  }

  // ---------- the steps ----------

  function MapOf(rows: seq<Status>): map<string, Status> {
    if rows == [] then map[]
    else var last := rows[|rows| - 1]; MapOf(rows[..|rows| - 1])[last.paneKey := last]
  }

  function ScheduleAt(l: Lease, expiry: int, now: int): Lease {
    if expiry <= now || (l.due.Some? && l.due.value <= expiry) then l else l.(due := Some(expiry))
  }

  ghost function ScheduleNext(l: Lease, now: int): Lease {
    var cleared := l.(due := None);
    match Earliest(l.statuses, now)
    case None => cleared
    case Some(check) => ScheduleAt(cleared, check, now)
  }

  ghost function Replace(l: Lease, rows: seq<Status>, now: int): Lease {
    ScheduleNext(l.(statuses := MapOf(rows)), now)
  }

  function Renew(l: Lease, status: Status, now: int): Lease {
    var l1 := l.(statuses := l.statuses[status.paneKey := status]);
    if Eligible(status, now) then ScheduleAt(l1, Expiry(status), now) else l1
  }

  ghost function Fire(l: Lease, now: int): Lease {
    ScheduleNext(l.(due := None), now)
  }

  // ---------- the rows that are kept ----------

  /** No later row has the key of the `i`-th. */
  ghost predicate LastOfKey(rows: seq<Status>, i: int) {
    0 <= i < |rows| && forall j :: i < j < |rows| ==> rows[j].paneKey != rows[i].paneKey
  }

  /** Every key of the rows is kept, with its last row, and no other. */
  ghost predicate Keeps(statuses: map<string, Status>, rows: seq<Status>) {
    && (forall k :: k in statuses <==> exists i :: 0 <= i < |rows| && rows[i].paneKey == k)
    && (forall i :: LastOfKey(rows, i) ==> rows[i].paneKey in statuses && statuses[rows[i].paneKey] == rows[i])
  }

  lemma {:induction false} KeepsOneMore(statuses: map<string, Status>, rows: seq<Status>, row: Status)
    requires Keeps(statuses, rows)
    ensures Keeps(statuses[row.paneKey := row], rows + [row])
  {
    var more, longer := statuses[row.paneKey := row], rows + [row];
    forall k ensures k in more <==> exists i :: 0 <= i < |longer| && longer[i].paneKey == k {
      KeyIsKept(statuses, rows, row, k);
    }
    forall i | LastOfKey(longer, i) ensures longer[i].paneKey in more && more[longer[i].paneKey] == longer[i] {
      if i < |rows| {
        assert longer[|rows|] == row;
        assert LastOfKey(rows, i) by { assert forall j :: i < j < |rows| ==> longer[j] == rows[j]; }
      }
    }
  }

  lemma {:induction false} KeyIsKept(statuses: map<string, Status>, rows: seq<Status>, row: Status, k: string)
    requires k in statuses <==> exists i :: 0 <= i < |rows| && rows[i].paneKey == k
    ensures k in statuses[row.paneKey := row] <==> exists i :: 0 <= i < |rows + [row]| && (rows + [row])[i].paneKey == k
  {
    var longer := rows + [row];
    assert longer[|rows|] == row;
    if k in statuses {
      var i :| 0 <= i < |rows| && rows[i].paneKey == k;
      assert longer[i].paneKey == k;
    }
    if i :| 0 <= i < |rows| && longer[i].paneKey == k { assert rows[i].paneKey == k; }
  }

  lemma {:induction false} MapOfKeeps(rows: seq<Status>)
    ensures Keeps(MapOf(rows), rows)
    decreases |rows|
  {
    if rows != [] {
      var n := |rows| - 1;
      MapOfKeeps(rows[..n]);
      KeepsOneMore(MapOf(rows[..n]), rows[..n], rows[n]);
      assert rows == rows[..n] + [rows[n]];
    }
  }

  lemma {:induction false} EveryKeyHasALast(rows: seq<Status>, i: nat) returns (last: nat)
    requires i < |rows|
    ensures LastOfKey(rows, last) && rows[last].paneKey == rows[i].paneKey
    decreases |rows| - i
  {
    last := i;
    if !LastOfKey(rows, i) {
      var j :| i < j < |rows| && rows[j].paneKey == rows[i].paneKey;
      last := EveryKeyHasALast(rows, j);
    }
  }

  /** `replace` keeps exactly the last row of each key. */
  lemma {:induction false} LastRowsAreKept(l: Lease, rows: seq<Status>, now: int)
    ensures Keeps(Replace(l, rows, now).statuses, rows)
  {
    MapOfKeeps(rows);
    ScheduleNextCovers(l.(statuses := MapOf(rows)), now);
  }

  /** A row keeps the machine awake for two hours, when this runtime has seen the agent working. */
  ghost predicate WorkedRecently(status: Status, now: int) {
    && status.observed && status.state == Working
    && status.receivedAt.Some? && now <= status.receivedAt.value + 7200000
  }

  /** After `replace` some row is eligible if and only if the last row of some key has worked recently, and then
      its timer is armed. */
  lemma {:induction false} ReplaceCounts(l: Lease, rows: seq<Status>, at: int, now: int)
    ensures EligibleKeys(Replace(l, rows, at).statuses, now) != {}
       <==> exists i :: LastOfKey(rows, i) && WorkedRecently(rows[i], now)
    ensures Replace(l, rows, at).due.Some? <==> exists i :: LastOfKey(rows, i) && WorkedRecently(rows[i], at)
  {
    RowsCount(rows, now);
    RowsCount(rows, at);
    ScheduleNextCovers(l.(statuses := MapOf(rows)), at);
  }

  lemma {:induction false} RowsCount(rows: seq<Status>, now: int)
    ensures EligibleKeys(MapOf(rows), now) != {} <==> exists i :: LastOfKey(rows, i) && WorkedRecently(rows[i], now)
  {
    MapOfKeeps(rows);
    if k :| k in EligibleKeys(MapOf(rows), now) {
      var i :| 0 <= i < |rows| && rows[i].paneKey == k;
      var last := EveryKeyHasALast(rows, i);
      assert WorkedRecently(rows[last], now);
    }
    if i :| LastOfKey(rows, i) && WorkedRecently(rows[i], now) {
      assert rows[i].paneKey in EligibleKeys(MapOf(rows), now);
    }
  }

  // ---------- coverage ----------

  /** Every eligible row has an armed timer due at most one millisecond after its expiry. */
  ghost predicate Covered(l: Lease, now: int) {
    forall k :: k in l.statuses && Eligible(l.statuses[k], now) ==>
      l.due.Some? && l.due.value <= Expiry(l.statuses[k]) + 1
  }

  lemma {:induction false} ScheduleNextCovers(l: Lease, now: int)
    ensures Covered(ScheduleNext(l, now), now)
    ensures ScheduleNext(l, now).due.Some? <==> EligibleKeys(l.statuses, now) != {}
    ensures ScheduleNext(l, now).due.Some? ==> now < ScheduleNext(l, now).due.value
    ensures IsEarliest(l.statuses, now, ScheduleNext(l, now).due)
  {
    forall k | k in l.statuses && Eligible(l.statuses[k], now)
      ensures ScheduleNext(l, now).due.Some? && ScheduleNext(l, now).due.value <= Expiry(l.statuses[k]) + 1
    {
      assert k in EligibleKeys(l.statuses, now);
    }
  }

  lemma {:induction false} CoverageLasts(l: Lease, now: int, later: int)
    requires Covered(l, now) && now <= later
    ensures Covered(l, later)
  {
  }

  /** A renewal that leaves its own row without a timer: it arrives in the last millisecond of the
      row's life and nothing else is armed in time. */
  predicate Uncovering(l: Lease, status: Status, now: int) {
    Eligible(status, now) && Expiry(status) == now && !(l.due.Some? && l.due.value <= now + 1)
  }

  /** `renew` keeps the coverage exactly when it is not such a renewal. */
  lemma {:induction false} RenewExact(l: Lease, status: Status, now: int)
    requires Covered(l, now)
    ensures Covered(Renew(l, status, now), now) <==> !Uncovering(l, status, now)
  {
    var l1 := Renew(l, status, now);
    assert l1.statuses[status.paneKey] == status;
    if !Uncovering(l, status, now) {
      forall k | k in l1.statuses && Eligible(l1.statuses[k], now)
        ensures l1.due.Some? && l1.due.value <= Expiry(l1.statuses[k]) + 1
      {
        if k != status.paneKey { assert k in l.statuses && l.statuses[k] == l1.statuses[k]; }
      }
    }
  }

  // ---------- runs ----------

  datatype Event =
    | Replaces(rows: seq<Status>)
    | Renews(status: Status)
    | Fires

  /** What happens at `at`; a timer never fires early. */
  datatype Timed = Timed(event: Event, at: int)

  ghost function Apply(l: Lease, e: Timed): Lease {
    match e.event
    case Replaces(rows) => Replace(l, rows, e.at)
    case Renews(status) => Renew(l, status, e.at)
    case Fires => Fire(l, e.at)
  }

  ghost predicate Enabled(l: Lease, e: Timed) {
    match e.event
    case Replaces(_) => true
    case Renews(status) => !Uncovering(l, status, e.at)
    case Fires => l.due.Some? && l.due.value <= e.at
  }

  ghost predicate Reaches(l: Lease, clock: int, es: seq<Timed>, t: Lease, end: int)
    decreases |es|
  {
    if es == [] then l == t && clock <= end
    else clock <= es[0].at && Enabled(l, es[0]) && Reaches(Apply(l, es[0]), es[0].at, es[1..], t, end)
  }

  lemma {:induction false} StepCovers(l: Lease, e: Timed)
    requires Covered(l, e.at) && Enabled(l, e)
    ensures Covered(Apply(l, e), e.at)
  {
    match e.event
    case Replaces(rows) => ScheduleNextCovers(l.(statuses := MapOf(rows)), e.at);
    case Renews(status) => RenewExact(l, status, e.at);
    case Fires => ScheduleNextCovers(l.(due := None), e.at);
  }

  /** On every run, whatever the time, each eligible row has its timer. */
  lemma {:induction false} EveryRowIsCovered(l: Lease, clock: int, es: seq<Timed>, t: Lease, end: int)
    requires Covered(l, clock) && Reaches(l, clock, es, t, end)
    ensures Covered(t, end)
    decreases |es|
  {
    if es == [] {
      CoverageLasts(l, clock, end);
    } else {
      CoverageLasts(l, clock, es[0].at);
      StepCovers(l, es[0]);
      EveryRowIsCovered(Apply(l, es[0]), es[0].at, es[1..], t, end);
    }
  }

  // ---------- how often the timer can fire ----------

  predicate Counts(status: Status) {
    status.observed && status.state == Working && status.receivedAt.Some?
  }

  /** The distinct expiries not before `from`. */
  function ExpiriesFrom(statuses: map<string, Status>, from: int): set<int> {
    set k | k in statuses && Counts(statuses[k]) && from <= Expiry(statuses[k]) :: Expiry(statuses[k])
  }

  /** What is left to fire after the timer was set at `now`: two for each expiry to come, one for a
      row in its last millisecond. */
  function FiringsLeft(statuses: map<string, Status>, now: int): nat {
    2 * |ExpiriesFrom(statuses, now + 1)| + if now in ExpiriesFrom(statuses, now) then 1 else 0
  }

  lemma {:induction false} ExpiriesShrink(statuses: map<string, Status>, from: int, later: int)
    requires from <= later
    ensures ExpiriesFrom(statuses, later) <= ExpiriesFrom(statuses, from)
  {
  }

  /** The expiry `e`, past at `at`, and the expiry at `at` itself no longer count twice. */
  lemma {:induction false} ExpiryPasses(statuses: map<string, Status>, now: int, e: int, at: int)
    requires now < e <= at && e in ExpiriesFrom(statuses, now)
    ensures FiringsLeft(statuses, at) < FiringsLeft(statuses, now)
  {
    var before, after := ExpiriesFrom(statuses, now + 1), ExpiriesFrom(statuses, at + 1);
    ExpiriesShrink(statuses, now + 1, at + 1);
    assert e in before;
    SubsetSize(after, before - {e});
    if at in ExpiriesFrom(statuses, at) && at != e {
      assert at in before;
      SubsetSize(after, before - {e, at});
    }
  }

  lemma {:induction false} LastMillisecondPasses(statuses: map<string, Status>, now: int, at: int)
    requires now < at && now in ExpiriesFrom(statuses, now)
    ensures FiringsLeft(statuses, at) < FiringsLeft(statuses, now)
  {
    var before, after := ExpiriesFrom(statuses, now + 1), ExpiriesFrom(statuses, at + 1);
    ExpiriesShrink(statuses, now + 1, at + 1);
    SubsetSize(after, before);
    if at in ExpiriesFrom(statuses, at) {
      assert at in before;
      SubsetSize(after, before - {at});
    }
  }

  /** Each firing uses up at least one. */
  lemma {:induction false} FiringSpends(l: Lease, now: int, at: int)
    requires IsEarliest(l.statuses, now, l.due) && l.due.Some? && l.due.value <= at
    ensures FiringsLeft(l.statuses, at) < FiringsLeft(l.statuses, now)
  {
    var s := l.statuses;
    var k :| k in EligibleKeys(s, now) && NextCheck(s[k], now) == l.due.value;
    assert Expiry(s[k]) in ExpiriesFrom(s, now);
    if Expiry(s[k]) == now {
      LastMillisecondPasses(s, now, at);
    } else {
      ExpiryPasses(s, now, Expiry(s[k]), at);
    }
  }

  ghost predicate OnlyFires(es: seq<Timed>) {
    forall i :: 0 <= i < |es| ==> es[i].event.Fires?
  }

  lemma {:induction false} FiringsBounded(l: Lease, now: int, es: seq<Timed>, t: Lease, end: int)
    requires IsEarliest(l.statuses, now, l.due)
    requires Reaches(l, now, es, t, end) && OnlyFires(es)
    ensures |es| <= FiringsLeft(l.statuses, now)
    decreases |es|
  {
    if es != [] {
      assert es[0].event.Fires?;
      FiringSpends(l, now, es[0].at);
      ScheduleNextCovers(l.(due := None), es[0].at);
      FiringsBounded(Apply(l, es[0]), es[0].at, es[1..], t, end);
    }
  }

  lemma {:induction false} FiringsWithin(statuses: map<string, Status>, clock: int, at: int)
    requires clock <= at
    ensures FiringsLeft(statuses, at) <= 2 * |ExpiriesFrom(statuses, clock)|
  {
    var all := ExpiriesFrom(statuses, clock);
    ExpiriesShrink(statuses, clock, at + 1);
    SubsetSize(ExpiriesFrom(statuses, at + 1), all);
    if at in ExpiriesFrom(statuses, at) {
      assert at in all;
      SubsetSize(ExpiriesFrom(statuses, at + 1), all - {at});
    }
  }

  /** With no new calls and k distinct expiries left, the timer fires at most 2k + 1 times; when no
      timer is armed any more, no row is eligible. */
  lemma {:induction false} TimerStops(l: Lease, clock: int, es: seq<Timed>, t: Lease, end: int)
    requires Covered(l, clock) && Reaches(l, clock, es, t, end) && OnlyFires(es)
    ensures |es| <= 2 * |ExpiriesFrom(l.statuses, clock)| + 1
    ensures t.due.None? ==> EligibleKeys(t.statuses, end) == {}
  {
    EveryRowIsCovered(l, clock, es, t, end);
    if es != [] {
      assert es[0].event.Fires?;
      var at := es[0].at;
      ScheduleNextCovers(l.(due := None), at);
      FiringsBounded(Apply(l, es[0]), at, es[1..], t, end);
      FiringsWithin(l.statuses, clock, at);
    }
  }

  /** A row renewed in its last millisecond is eligible and has no timer. */
  lemma {:induction false} LastMillisecondRenewal(status: Status, now: int)
    requires Eligible(status, now) && Expiry(status) == now
    ensures !Covered(Renew(EMPTY_LEASE, status, now), now)
  {
    RenewExact(EMPTY_LEASE, status, now);
  }
}
