/**
 Who nests the trust locks, and in which order: the launch of an agent, which takes the managed file, the
 system one and last that of an account home; and the hook installer of a home, which takes that home's
 file and then the system one. The two orders of an account file and the system file are opposite.
 */
module TrustCallers {
  import opened Options
  import opened TrustLocks

  /** `Single` is a caller that takes one lock alone. */
  datatype Caller = Launch(account: Option<Key>) | Installer(home: Key) | Single(file: Key)

  function LocksOf(c: Caller, managed: Key, system: Key): seq<Key> {
    match c
    case Launch(account) =>
      if account.Some? && account.value !in [managed, system] then [managed, system, account.value]
      else [managed, system]
    case Installer(home) => [home, system]
    case Single(file) => [file]
  }

  function LockLists(callers: seq<Caller>, managed: Key, system: Key): seq<seq<Key>> {
    seq(|callers|, i requires 0 <= i < |callers| => LocksOf(callers[i], managed, system))
  }

  /** An account home other than the managed and the system one is both launched with and installed into. */
  ghost predicate Mixed(callers: seq<Caller>, managed: Key, system: Key) {
    exists account :: account != managed && account != system
                   && Launch(Some(account)) in callers && Installer(account) in callers
  }

  ghost predicate Reached(lists: seq<seq<Key>>, t: State) {
    exists turns :: Reaches(Start(lists), turns, t)
  }

  /** Some writer has not finished, and none can go on. */
  ghost predicate Stuck(t: State) {
    WellFormed(t) && !AllFinished(t) && !SomeEnabled(t)
  }

  // ---------- a mix without such an account ----------

  /** The account homes of launches come last, the system file before them, all other homes first. */
  function RankOf(callers: seq<Caller>, managed: Key, system: Key): Key -> nat {
    k => if k == system then 1 else if k != managed && Launch(Some(k)) in callers then 2 else 0
  }

  lemma {:induction false} UnmixedAscends(callers: seq<Caller>, managed: Key, system: Key)
    requires managed != system && !Mixed(callers, managed, system)
    ensures AllAscend(RankOf(callers, managed, system), LockLists(callers, managed, system))
  {
    var lists, rank := LockLists(callers, managed, system), RankOf(callers, managed, system);
    forall w | 0 <= w < |lists| ensures Ascending(rank, lists[w]) {
      assert callers[w] in callers;
      forall j | 0 <= j < |lists[w]|
        ensures lists[w][j] in lists[w][..j] || forall i :: 0 <= i < j ==> rank(lists[w][i]) < rank(lists[w][j])
      {
        if callers[w].Installer? && callers[w].home == system && j == 1 { assert lists[w][..1] == [system]; }
      }
    }
  }

  // ---------- a mix with one ----------

  lemma {:induction false} RunGoesOn(s: State, turns: seq<Turn>, t: State, w: nat, ok: bool)
    requires Reaches(s, turns, t) && WellFormed(t) && w < |t.lists| && Enabled(t, w)
    ensures Reaches(s, turns + [Turn(w, ok)], Step(t, w, ok))
    decreases |turns|
  {
    var longer := turns + [Turn(w, ok)];
    if turns == [] {
      assert longer[1..] == [] && longer[0] == Turn(w, ok);
    } else {
      assert longer[0] == turns[0] && longer[1..] == turns[1..] + [Turn(w, ok)];
      RunGoesOn(Step(s, turns[0].writer, turns[0].ok), turns[1..], t, w, ok);
    }
  }

  lemma {:induction false} Advances(lists: seq<seq<Key>>, t: State, w: nat)
    requires Reached(lists, t) && WellFormed(t) && w < |t.lists| && Enabled(t, w)
    ensures Reached(lists, Step(t, w, true))
  {
    var turns :| Reaches(Start(lists), turns, t);
    RunGoesOn(Start(lists), turns, t, w, true);
  }

  /** Writer `w` is about to take a lock that it does not hold. */
  predicate AsksFor(s: State, w: nat, k: Key) {
    && WellFormed(s) && w < |s.lists| && s.phases[w].Acquiring? && !s.phases[w].queued
    && s.phases[w].depth < |s.lists[w]| && s.lists[w][s.phases[w].depth] == k
    && k !in s.lists[w][..s.phases[w].depth]
  }

  /** It joins the lane. */
  lemma {:induction false} Queues(lists: seq<seq<Key>>, s: State, w: nat, k: Key) returns (t: State)
    requires Reached(lists, s) && AsksFor(s, w, k)
    ensures Reached(lists, t) && WellFormed(t) && t.lists == s.lists
    ensures t.phases == s.phases[w := Acquiring(s.phases[w].depth, true)]
    ensures Lane(t, k) == Lane(s, k) + [w] && forall other :: other != k ==> Lane(t, other) == Lane(s, other)
  {
    StepIsWellFormed(s, w, true);
    Advances(lists, s, w);
    t := Step(s, w, true);
  }

  /** It joins an empty lane and enters at once. */
  lemma {:induction false} Locks(lists: seq<seq<Key>>, s: State, w: nat, k: Key) returns (t: State)
    requires Reached(lists, s) && AsksFor(s, w, k) && Lane(s, k) == []
    ensures Reached(lists, t) && WellFormed(t) && t.lists == s.lists
    ensures t.phases == s.phases[w := Acquiring(s.phases[w].depth + 1, false)]
    ensures Lane(t, k) == [w] && forall other :: other != k ==> Lane(t, other) == Lane(s, other)
  {
    var queued := Queues(lists, s, w, k);
    StepIsWellFormed(queued, w, true);
    Advances(lists, queued, w);
    t := Step(queued, w, true);
  }

  /** Each of the two holds the lock that the other waits for. */
  predicate BlockEachOther(s: State, v: nat, w: nat, k: Key, l: Key) {
    && WellFormed(s) && v < |s.lists| && w < |s.lists| && v != w
    && Waits(s, v, k) && Holds(s, w, k) && Waits(s, w, l) && Holds(s, v, l)
  }

  /** The launch takes the managed and the system file, the installer the account file, and each asks for the next. */
  lemma {:induction false} MixBlocks(lists: seq<seq<Key>>, v: nat, w: nat, managed: Key, system: Key, account: Key)
      returns (t: State)
    requires managed != system && account != managed && account != system
    requires v < |lists| && w < |lists| && lists[v] == [managed, system, account] && lists[w] == [account, system]
    ensures Reached(lists, t) && BlockEachOther(t, v, w, account, system)
  {
    StartIsReached(lists);
    t := Locks(lists, Start(lists), v, managed);
    assert lists[v][..1] == [managed] && lists[v][..2] == [managed, system] && lists[w][..1] == [account];
    t := Locks(lists, t, v, system);
    t := Locks(lists, t, w, account);
    t := Queues(lists, t, v, account);
    t := Queues(lists, t, w, system);
  }

  lemma {:induction false} StartIsReached(lists: seq<seq<Key>>)
    ensures Reached(lists, Start(lists)) && WellFormed(Start(lists))
  {
    assert Reaches(Start(lists), [], Start(lists));
  }

  /** No step of another writer gets them out of it, and neither can take one. */
  lemma {:induction false} BlockStays(s: State, v: nat, w: nat, k: Key, l: Key, u: nat, ok: bool)
    requires Inv(s) && BlockEachOther(s, v, w, k, l) && u < |s.lists| && Enabled(s, u)
    ensures BlockEachOther(Step(s, u, ok), v, w, k, l)
  {
    assert LaneInv(s, k) && LaneInv(s, l);
    assert u != v && u != w;
    StepIsWellFormed(s, u, ok);
    StepSpends(s, u, ok);
  }

  lemma {:induction false} RunsJoin(s: State, first: seq<Turn>, m: State, second: seq<Turn>, t: State)
    requires Reaches(s, first, m) && Reaches(m, second, t)
    ensures Reaches(s, first + second, t)
    decreases |first|
  {
    if first == [] {
      assert first + second == second;
    } else {
      assert (first + second)[0] == first[0] && (first + second)[1..] == first[1..] + second;
      RunsJoin(Step(s, first[0].writer, first[0].ok), first[1..], m, second, t);
    }
  }

  /** From any state the others come to an end, and the two stay where they are. */
  lemma {:induction false} BlockEndsStuck(s: State, v: nat, w: nat, k: Key, l: Key) returns (turns: seq<Turn>, t: State)
    requires Inv(s) && BlockEachOther(s, v, w, k, l)
    ensures Reaches(s, turns, t) && Stuck(t)
    decreases TotalLeft(s, |s.lists|)
  {
    if SomeEnabled(s) {
      var u :| 0 <= u < |s.lists| && Enabled(s, u);
      StepKeeps(s, u, true);
      TotalSpends(s, u, true, |s.lists|);
      BlockStays(s, v, w, k, l, u, true);
      turns, t := BlockEndsStuck(Step(s, u, true), v, w, k, l);
      turns := [Turn(u, true)] + turns;
    } else {
      turns, t := [], s;
      assert !s.phases[v].Finished?;
    }
  }

  lemma {:induction false} MixedGetsStuck(callers: seq<Caller>, managed: Key, system: Key)
    requires managed != system && Mixed(callers, managed, system)
    ensures exists t :: Reached(LockLists(callers, managed, system), t) && Stuck(t)
  {
    var lists := LockLists(callers, managed, system);
    var account :| account != managed && account != system
                && Launch(Some(account)) in callers && Installer(account) in callers;
    var v :| 0 <= v < |callers| && callers[v] == Launch(Some(account));
    var w :| 0 <= w < |callers| && callers[w] == Installer(account);
    var m := MixBlocks(lists, v, w, managed, system, account);
    var first :| Reaches(Start(lists), first, m);
    StartKeeps(lists);
    RunKeeps(Start(lists), first, m);
    var second, t := BlockEndsStuck(m, v, w, account, system);
    RunsJoin(Start(lists), first, m, second, t);
  }

  /** Launches, hook installers and single callers can get stuck if and only if some account home is both launched
      with and installed into. */
  lemma {:induction false} MixExact(callers: seq<Caller>, managed: Key, system: Key)
    requires managed != system
    ensures (exists t :: Reached(LockLists(callers, managed, system), t) && Stuck(t))
       <==> Mixed(callers, managed, system)
  {
    var lists := LockLists(callers, managed, system);
    if Mixed(callers, managed, system) {
      MixedGetsStuck(callers, managed, system);
    } else {
      UnmixedAscends(callers, managed, system);
      forall t | Reached(lists, t) ensures !Stuck(t) {
        var turns :| Reaches(Start(lists), turns, t);
        NoDeadlock(RankOf(callers, managed, system), lists, turns, t);
      }
    }
  }

  /** In any other mix every run that goes on as long as it can ends with all callers finished. */
  lemma {:induction false} UnmixedRunsEnd(callers: seq<Caller>, managed: Key, system: Key, turns: seq<Turn>, t: State)
    requires managed != system && !Mixed(callers, managed, system)
    requires Reaches(Start(LockLists(callers, managed, system)), turns, t)
    ensures Maximal(LockLists(callers, managed, system), turns, t) ==> AllFinished(t)
  {
    UnmixedAscends(callers, managed, system);
    RunsEnd(RankOf(callers, managed, system), LockLists(callers, managed, system), turns, t);
  }
}
