/**
 The awake service: the decision it takes from the mode and the lease, the status it publishes, and
 the power blocker it starts and stops. Calls of the blocker may throw; `Replies` says how each
 call in one decision ends.
 */
module AwakeService {
  import opened Options
  import opened Sequences
  import opened AwakeLease

  datatype Mode = On | Off | Auto

  datatype Published = Published(mode: Mode, active: bool)

  // ---------- the power blocker ----------

  /** `live` are the blockers the system holds; `blockerId` is the one the service remembers. */
  datatype Power = Power(blockerId: Option<nat>, live: set<nat>)

  datatype Asked = Throws | Says(started: bool)

  datatype Started = StartThrows | Starts(id: nat)

  /** `macActive`: the macOS assertion reports that it holds. `before`, `after`: the answers of
      isStarted before a start and after a start or stop. `stops`: the stop took effect, thrown or not. */
  datatype Replies = Replies(macActive: bool, before: Asked, start: Started, stops: bool, after: Asked)

  function Reconcile(p: Power, asked: Asked): (Power, bool) {
    if p.blockerId.None? then (p, false)
    else match asked
      case Throws => (p, true)
      case Says(started) => (if started then p else p.(blockerId := None), started)
  }

  /** "Not started" is a truthful answer; "started" need not be. */
  predicate Truthful(p: Power, asked: Asked) {
    p.blockerId.Some? && asked == Says(false) ==> p.blockerId.value !in p.live
  }

  function StartBlocker(p: Power, r: Replies): Power {
    var (p1, running) := Reconcile(p, r.before);
    if running then p1
    else match r.start
      case StartThrows => p1
      case Starts(id) => Reconcile(Power(Some(id), p1.live + {id}), r.after).0
  }

  predicate StartHonest(p: Power, r: Replies) {
    && Truthful(p, r.before)
    && (!Reconcile(p, r.before).1 && r.start.Starts? ==>
          r.start.id !in p.live && Truthful(Power(Some(r.start.id), p.live + {r.start.id}), r.after))
  }

  function Stopped(p: Power, stops: bool): Power {
    if p.blockerId.Some? && stops then p.(live := p.live - {p.blockerId.value}) else p
  }

  function StopBlocker(p: Power, r: Replies): Power {
    if p.blockerId.None? then p else Reconcile(Stopped(p, r.stops), r.after).0
  }

  predicate StopHonest(p: Power, r: Replies) {
    Truthful(Stopped(p, r.stops), r.after)
  }

  /** Which blocker call a decision makes. The macOS assertion alone is enough on darwin. */
  predicate WantsBlocker(should: bool, darwin: bool, r: Replies) {
    should && !(darwin && r.macActive)
  }

  function Decide(p: Power, should: bool, darwin: bool, r: Replies): Power {
    if WantsBlocker(should, darwin, r) then StartBlocker(p, r) else StopBlocker(p, r)
  }

  predicate Honest(p: Power, should: bool, darwin: bool, r: Replies) {
    if WantsBlocker(should, darwin, r) then StartHonest(p, r) else StopHonest(p, r)
  }

  // ---------- the service ----------

  datatype Service = Service(mode: Mode, published: Option<Published>, lease: Lease, power: Power)

  const INITIAL_SERVICE := Service(Off, None, EMPTY_LEASE, Power(None, {}))

  predicate ShouldBlock(mode: Mode, count: nat) {
    mode == On || (mode == Auto && count > 0)
  }

  function ApplyAwakeDecision(s: Service, count: nat, darwin: bool, r: Replies): Service {
    var should := ShouldBlock(s.mode, count);
    s.(power := Decide(s.power, should, darwin, r), published := Some(Published(s.mode, should)))
  }

  function Refresh(s: Service, now: int, darwin: bool, r: Replies): Service {
    ApplyAwakeDecision(s, |EligibleKeys(s.lease.statuses, now)|, darwin, r)
  }

  function SetMode(s: Service, mode: Mode, now: int, darwin: bool, r: Replies): Service {
    if s.mode == mode then s else Refresh(s.(mode := mode), now, darwin, r)
  }

  ghost function SetStatuses(s: Service, rows: seq<Status>, at: int, now: int, darwin: bool, r: Replies): Service {
    Refresh(s.(lease := Replace(s.lease, rows, at)), now, darwin, r)
  }

  /** The fast path of observeStatusFreshness is taken. */
  predicate TakesFastPath(s: Service, status: Status, now: int) {
    && Eligible(status, now) && s.mode == Auto
    && !(s.published.Some? && s.published.value.active)
  }

  function ObserveStatusFreshness(s: Service, status: Status, now: int, darwin: bool, r: Replies): Service {
    var s1 := s.(lease := Renew(s.lease, status, now));
    if TakesFastPath(s, status, now) then ApplyAwakeDecision(s1, 1, darwin, r) else s1
  }

  ghost function OnExpiry(s: Service, at: int, now: int, darwin: bool, r: Replies): Service {
    Refresh(s.(lease := Fire(s.lease, at)), now, darwin, r)
  }

  // ---------- runs ----------

  datatype Event =
    | ModeSet(mode: Mode)
    | StatusesSet(rows: seq<Status>)
    | FreshnessSeen(status: Status)
    | TimerFires
    | Refreshes                        // power resume, or an assertion that failed by itself
    | BlockersDie(dead: set<nat>)      // the system drops blockers on its own

  /** One event. The source reads the clock once or twice: at `at`, and then at `now`. */
  datatype Step = Step(event: Event, at: int, now: int, replies: Replies)

  ghost function Apply(s: Service, darwin: bool, e: Step): Service {
    match e.event
    case ModeSet(mode) => SetMode(s, mode, e.now, darwin, e.replies)
    case StatusesSet(rows) => SetStatuses(s, rows, e.at, e.now, darwin, e.replies)
    case FreshnessSeen(status) => ObserveStatusFreshness(s, status, e.at, darwin, e.replies)
    case TimerFires => OnExpiry(s, e.at, e.now, darwin, e.replies)
    case Refreshes => Refresh(s, e.now, darwin, e.replies)
    case BlockersDie(dead) => s.(power := s.power.(live := s.power.live - dead))
  }

  /** A renewal that arms nothing: it arrives in the last millisecond of its row and finds no timer. */
  predicate Unarming(l: Lease, status: Status, now: int) {
    Eligible(status, now) && Expiry(status) == now && l.due.None?
  }

  /** No such renewal, and a timer that never fires early. */
  ghost predicate Enabled(s: Service, e: Step) {
    && e.at <= e.now
    && match e.event
       case FreshnessSeen(status) => !Unarming(s.lease, status, e.at)
       case TimerFires => s.lease.due.Some? && s.lease.due.value <= e.at
       case _ => true
  }

  ghost predicate Reaches(s: Service, clock: int, darwin: bool, es: seq<Step>, t: Service, end: int)
    decreases |es|
  {
    if es == [] then s == t && clock <= end
    else
      && clock <= es[0].at && Enabled(s, es[0])
      && Reaches(Apply(s, darwin, es[0]), es[0].now, darwin, es[1..], t, end)
  }

  /** Some row is eligible. */
  predicate Busy(s: Service, now: int) {
    EligibleKeys(s.lease.statuses, now) != {}
  }

  /** While a row is eligible some timer is armed. */
  predicate Armed(s: Service, now: int) {
    Busy(s, now) ==> s.lease.due.Some?
  }

  ghost predicate ServiceInv(s: Service, now: int) {
    && Armed(s, now)
    && (match s.published
        case None => s.mode == Off
        case Some(p) => p.mode == s.mode && (s.mode == On ==> p.active) && (s.mode == Off ==> !p.active))
    && (s.mode == Auto && Busy(s, now) ==> s.published == Some(Published(Auto, true)))
    && (s.mode == Auto && s.published == Some(Published(Auto, true)) ==> s.lease.due.Some?)
  }

  /** Rows only ever stop being eligible while nothing is renewed. */
  lemma {:induction false} EligibleShrinks(statuses: map<string, Status>, now: int, later: int)
    requires now <= later
    ensures EligibleKeys(statuses, later) <= EligibleKeys(statuses, now)
  {
  }

  lemma {:induction false} TimeKeeps(s: Service, now: int, later: int)
    requires ServiceInv(s, now) && now <= later
    ensures ServiceInv(s, later)
  {
    EligibleShrinks(s.lease.statuses, now, later);
  }

  /** A full recount establishes every promise about the published status. */
  lemma {:induction false} RefreshKeeps(s: Service, at: int, now: int, darwin: bool, r: Replies)
    requires Armed(s, at) && at <= now
    ensures ServiceInv(Refresh(s, now, darwin, r), now)
  {
    EligibleShrinks(s.lease.statuses, at, now);
  }

  /** The rows after a renewal: some row is eligible if the new one is, and only if it or an old one is. */
  lemma {:induction false} RenewedRows(s: Service, status: Status, now: int)
    ensures var t := s.(lease := Renew(s.lease, status, now));
            && (Eligible(status, now) ==> Busy(t, now))
            && (Busy(t, now) ==> Eligible(status, now) || Busy(s, now))
  {
    var t := s.(lease := Renew(s.lease, status, now));
    assert t.lease.statuses[status.paneKey] == status;
    if Eligible(status, now) {
      assert status.paneKey in EligibleKeys(t.lease.statuses, now);
    } else {
      assert EligibleKeys(t.lease.statuses, now) <= EligibleKeys(s.lease.statuses, now);
    }
  }

  lemma {:induction false} ObserveKeeps(s: Service, status: Status, now: int, darwin: bool, r: Replies)
    requires ServiceInv(s, now) && !Unarming(s.lease, status, now)
    ensures ServiceInv(ObserveStatusFreshness(s, status, now, darwin, r), now)
  {
    RenewedRows(s, status, now);
  }

  lemma {:induction false} StepKeeps(s: Service, darwin: bool, e: Step)
    requires ServiceInv(s, e.at) && Enabled(s, e)
    ensures ServiceInv(Apply(s, darwin, e), e.now)
  {
    match e.event
    case ModeSet(mode) =>
      if mode == s.mode { TimeKeeps(s, e.at, e.now); }
      else { RefreshKeeps(s.(mode := mode), e.at, e.now, darwin, e.replies); }
    case StatusesSet(rows) =>
      ScheduleNextCovers(s.lease.(statuses := MapOf(rows)), e.at);
      RefreshKeeps(s.(lease := Replace(s.lease, rows, e.at)), e.at, e.now, darwin, e.replies);
    case FreshnessSeen(status) =>
      ObserveKeeps(s, status, e.at, darwin, e.replies);
      TimeKeeps(ObserveStatusFreshness(s, status, e.at, darwin, e.replies), e.at, e.now);
    case TimerFires =>
      ScheduleNextCovers(s.lease.(due := None), e.at);
      RefreshKeeps(s.(lease := Fire(s.lease, e.at)), e.at, e.now, darwin, e.replies);
    case Refreshes => RefreshKeeps(s, e.at, e.now, darwin, e.replies);
    case BlockersDie(_) => TimeKeeps(s, e.at, e.now);
  }

  lemma {:induction false} RunKeeps(s: Service, clock: int, darwin: bool, es: seq<Step>, t: Service, end: int)
    requires ServiceInv(s, clock) && Reaches(s, clock, darwin, es, t, end)
    ensures ServiceInv(t, end)
    decreases |es|
  {
    if es == [] {
      TimeKeeps(s, clock, end);
    } else {
      TimeKeeps(s, clock, es[0].at);
      StepKeeps(s, darwin, es[0]);
      RunKeeps(Apply(s, darwin, es[0]), es[0].now, darwin, es[1..], t, end);
    }
  }

  /** In auto mode, before dispose: an eligible row means "active" is published, and while "active" is
      published a timer is armed that will look again. */
  lemma {:induction false} PublishedStatusIsKept(clock: int, darwin: bool, es: seq<Step>, t: Service, end: int)
    requires Reaches(INITIAL_SERVICE, clock, darwin, es, t, end) && t.mode == Auto
    ensures Busy(t, end) ==> t.published == Some(Published(Auto, true))
    ensures t.published == Some(Published(Auto, true)) ==> t.lease.due.Some?
    ensures t.published.Some? && t.published.value.mode == Auto
  {
    RunKeeps(INITIAL_SERVICE, clock, darwin, es, t, end);
  }

  /** The fast path decides exactly what a recount at that instant would. */
  lemma {:induction false} FastPathIsRecount(s: Service, status: Status, now: int, darwin: bool, r: Replies)
    requires TakesFastPath(s, status, now)
    ensures ObserveStatusFreshness(s, status, now, darwin, r)
         == Refresh(s.(lease := Renew(s.lease, status, now)), now, darwin, r)
  {
    var lease := Renew(s.lease, status, now);
    assert lease.statuses[status.paneKey] == status;
    assert status.paneKey in EligibleKeys(lease.statuses, now);
  }

  /** In auto mode the fast path keeps both promises, that an eligible row is published as "active" and that
      "active" has a timer to look again, if and only if the renewal does not arrive in the last millisecond of
      its row and find no timer. */
  lemma {:induction false} FastPathExact(s: Service, status: Status, now: int, darwin: bool, r: Replies)
    requires ServiceInv(s, now) && s.mode == Auto
    ensures var t := ObserveStatusFreshness(s, status, now, darwin, r);
            (&& (Busy(t, now) ==> t.published == Some(Published(Auto, true)))
             && (t.published == Some(Published(Auto, true)) ==> t.lease.due.Some?))
            <==> !Unarming(s.lease, status, now)
  {
    RenewedRows(s, status, now);
  }

  /** A renewal in the last millisecond of its row publishes "active" with nothing armed to end it. */
  lemma {:induction false} LastMillisecondSticks(s: Service, status: Status, now: int, darwin: bool, r: Replies)
    requires s.mode == Auto && s.published == Some(Published(Auto, false)) && s.lease.due.None?
    requires Eligible(status, now) && Expiry(status) == now
    ensures var t := ObserveStatusFreshness(s, status, now, darwin, r);
            t.published == Some(Published(Auto, true)) && t.lease.due.None?
  {
  }

  // ---------- at most one blocker ----------

  /** The only blocker that can be live is the remembered one. */
  predicate NoLeak(p: Power) {
    p.live <= (if p.blockerId.Some? then {p.blockerId.value} else {})
  }

  lemma {:induction false} DecideNeverLeaks(p: Power, should: bool, darwin: bool, r: Replies)
    requires NoLeak(p) && Honest(p, should, darwin, r)
    ensures NoLeak(Decide(p, should, darwin, r))
  {
  }

  /** What the step asks of the blocker, if it takes a decision. */
  ghost predicate RepliesHonestly(s: Service, darwin: bool, e: Step) {
    match e.event
    case ModeSet(mode) =>
      mode == s.mode
      || Honest(s.power, ShouldBlock(mode, |EligibleKeys(s.lease.statuses, e.now)|), darwin, e.replies)
    case StatusesSet(rows) =>
      Honest(s.power, ShouldBlock(s.mode, |EligibleKeys(MapOf(rows), e.now)|), darwin, e.replies)
    case FreshnessSeen(status) =>
      TakesFastPath(s, status, e.at) ==> Honest(s.power, ShouldBlock(s.mode, 1), darwin, e.replies)
    case BlockersDie(_) => true
    case _ =>
      Honest(s.power, ShouldBlock(s.mode, |EligibleKeys(s.lease.statuses, e.now)|), darwin, e.replies)
  }

  ghost predicate HonestlyReaches(s: Service, darwin: bool, es: seq<Step>, t: Service)
    decreases |es|
  {
    if es == [] then s == t
    else RepliesHonestly(s, darwin, es[0]) && HonestlyReaches(Apply(s, darwin, es[0]), darwin, es[1..], t)
  }

  lemma {:induction false} RefreshNeverLeaks(s: Service, now: int, darwin: bool, r: Replies)
    requires NoLeak(s.power)
    ensures Honest(s.power, ShouldBlock(s.mode, |EligibleKeys(s.lease.statuses, now)|), darwin, r) ==>
              NoLeak(Refresh(s, now, darwin, r).power)
  {
    var should := ShouldBlock(s.mode, |EligibleKeys(s.lease.statuses, now)|);
    if Honest(s.power, should, darwin, r) { DecideNeverLeaks(s.power, should, darwin, r); }
  }

  lemma {:induction false} StepNeverLeaks(s: Service, darwin: bool, e: Step)
    requires NoLeak(s.power) && RepliesHonestly(s, darwin, e)
    ensures NoLeak(Apply(s, darwin, e).power)
  {
    match e.event
    case ModeSet(mode) => RefreshNeverLeaks(s.(mode := mode), e.now, darwin, e.replies);
    case StatusesSet(rows) =>
      ScheduleNextCovers(s.lease.(statuses := MapOf(rows)), e.at);
      RefreshNeverLeaks(s.(lease := Replace(s.lease, rows, e.at)), e.now, darwin, e.replies);
    case FreshnessSeen(status) =>
      if TakesFastPath(s, status, e.at) {
        DecideNeverLeaks(s.power, ShouldBlock(s.mode, 1), darwin, e.replies);
      }
    case TimerFires => RefreshNeverLeaks(s.(lease := Fire(s.lease, e.at)), e.now, darwin, e.replies);
    case Refreshes => RefreshNeverLeaks(s, e.now, darwin, e.replies);
    case BlockersDie(_) =>
  }

  /** However often start, stop and isStarted throw, at most one blocker is live, and it is the
      remembered one. */
  lemma {:induction false} AtMostOneBlocker(s: Service, darwin: bool, es: seq<Step>, t: Service)
    requires NoLeak(s.power) && HonestlyReaches(s, darwin, es, t)
    ensures |t.power.live| <= 1
    ensures forall id :: id in t.power.live ==> t.power.blockerId == Some(id)
    decreases |es|
  {
    if es == [] {
      if t.power.blockerId.Some? {
        SubsetSize(t.power.live, {t.power.blockerId.value});
      }
    } else {
      StepNeverLeaks(s, darwin, es[0]);
      AtMostOneBlocker(Apply(s, darwin, es[0]), darwin, es[1..], t);
    }
  }

  /** Replies of a blocker none of whose calls throws and whose answers are true. */
  predicate Exact(p: Power, r: Replies) {
    && r.stops && r.start.Starts? && r.start.id !in p.live
    && r.before == Says(p.blockerId.Some? && p.blockerId.value in p.live)
  }

  /** With such a blocker, a decision leaves a blocker live if and only if the machine should be kept awake and the
      macOS assertion does not do it alone. */
  lemma {:induction false} DecisionTakesEffect(p: Power, should: bool, darwin: bool, r: Replies)
    requires NoLeak(p) && Exact(p, r)
    ensures Decide(p, should, darwin, r).live != {} <==> should && !(darwin && r.macActive)
  {
  }

  // ---------- what the calls decide ----------

  /** In auto mode `setStatuses` publishes "active", and arms a timer, if and only if the last row of some agent has
      worked recently. */
  lemma {:induction false} StatusesDecide(s: Service, rows: seq<Status>, at: int, now: int, darwin: bool, r: Replies)
    requires s.mode == Auto
    ensures var t := SetStatuses(s, rows, at, now, darwin, r);
            && t.published == Some(Published(Auto, exists i :: LastOfKey(rows, i) && WorkedRecently(rows[i], now)))
            && (t.lease.due.Some? <==> exists i :: LastOfKey(rows, i) && WorkedRecently(rows[i], at))
            && Keeps(t.lease.statuses, rows)
  {
    ReplaceCounts(s.lease, rows, at, now);
    LastRowsAreKept(s.lease, rows, at);
  }

  /** ... and with a blocker whose start and stop take effect, that decides whether one is live. */
  lemma {:induction false} StatusesTakeEffect(s: Service, rows: seq<Status>, at: int, now: int, darwin: bool,
                                              r: Replies)
    requires s.mode == Auto && NoLeak(s.power) && Exact(s.power, r)
    ensures SetStatuses(s, rows, at, now, darwin, r).power.live != {}
       <==> (exists i :: LastOfKey(rows, i) && WorkedRecently(rows[i], now)) && !(darwin && r.macActive)
  {
    ReplaceCounts(s.lease, rows, at, now);
    DecisionTakesEffect(s.power, ShouldBlock(Auto, |EligibleKeys(MapOf(rows), now)|), darwin, r);
    ScheduleNextCovers(s.lease.(statuses := MapOf(rows)), at);
  }

  /** A change of mode publishes "active" if and only if the mode is on, or auto while some row has worked recently. */
  lemma {:induction false} ModeDecides(s: Service, mode: Mode, now: int, darwin: bool, r: Replies)
    requires mode != s.mode
    ensures SetMode(s, mode, now, darwin, r).published
         == Some(Published(mode, mode == On || (mode == Auto
              && exists k :: k in s.lease.statuses && WorkedRecently(s.lease.statuses[k], now))))
  {
    var keys := EligibleKeys(s.lease.statuses, now);
    if k :| k in s.lease.statuses && WorkedRecently(s.lease.statuses[k], now) { assert k in keys; }
    if k :| k in keys { assert WorkedRecently(s.lease.statuses[k], now); }
  }

  /** A renewal stores its row and, if that has worked recently, moves the timer up to the end of the two hours. In
      auto mode, unless "active" is published already, it then publishes it and decides. */
  lemma {:induction false} FreshnessDecides(s: Service, status: Status, now: int, darwin: bool, r: Replies)
    ensures var t := ObserveStatusFreshness(s, status, now, darwin, r);
            var recent := WorkedRecently(status, now);
            var decides := recent && s.mode == Auto && !(s.published.Some? && s.published.value.active);
            && t.mode == s.mode && t.lease.statuses == s.lease.statuses[status.paneKey := status]
            && t.lease.due == (if recent && now < status.receivedAt.value + 7200000
                                  && (s.lease.due.Some? ==> status.receivedAt.value + 7200000 < s.lease.due.value)
                               then Some(status.receivedAt.value + 7200000) else s.lease.due)
            && t.published == (if decides then Some(Published(Auto, true)) else s.published)
            && (!decides ==> t.power == s.power)
  {
  }

  /** A firing publishes "active" if and only if the mode is on, or auto while some row has worked recently. */
  lemma {:induction false} FiringDecides(s: Service, at: int, now: int, darwin: bool, r: Replies)
    ensures var t := OnExpiry(s, at, now, darwin, r);
            && t.mode == s.mode && t.lease.statuses == s.lease.statuses
            && t.published == Some(Published(s.mode, s.mode == On || (s.mode == Auto
                 && exists k :: k in s.lease.statuses && WorkedRecently(s.lease.statuses[k], now))))
  {
    var keys := EligibleKeys(s.lease.statuses, now);
    if k :| k in s.lease.statuses && WorkedRecently(s.lease.statuses[k], now) { assert k in keys; }
    if k :| k in keys { assert WorkedRecently(s.lease.statuses[k], now); }
  }
}
