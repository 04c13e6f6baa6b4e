/**
 Trust writers that nest one lock per config file. Each lock is a lane that serves its callers in
 the order they came and lets a caller through that already holds it. Keys are numbers: the
 normalised paths in some fixed global order.
 */
module TrustLocks {
  import opened Options
  import opened Sequences

  type Key = nat

  /** Where a writer stands. `depth` counts the layers entered; `queued` says that it waits in the
      lane of the next one. */
  datatype Phase =
    | Acquiring(depth: nat, queued: bool)
    | Writing(file: nat)
    | Releasing(depth: nat)
    | Finished

  /** `lists` are the lock lists, one for each writer; `lanes` holds, for each key, the writers that have
      called and not yet left, in order. */
  datatype State = State(lists: seq<seq<Key>>, phases: seq<Phase>, lanes: map<Key, seq<nat>>)

  predicate Sensible(list: seq<Key>, p: Phase) {
    match p
    case Acquiring(depth, queued) => depth <= |list| && (queued ==> depth < |list| && list[depth] !in list[..depth])
    case Writing(file) => file <= |list|
    case Releasing(depth) => depth <= |list|
    case Finished => true
  }

  predicate WellFormed(s: State) {
    |s.lists| == |s.phases| && forall w :: 0 <= w < |s.lists| ==> Sensible(s.lists[w], s.phases[w])
  }

  function Lane(s: State, k: Key): seq<nat> {
    if k in s.lanes then s.lanes[k] else []
  }

  /** How many layers of its list the writer is inside of. */
  function Layers(list: seq<Key>, p: Phase): (n: nat)
    requires Sensible(list, p)
    ensures n <= |list|
  {
    match p
    case Acquiring(depth, _) => depth
    case Writing(_) => |list|
    case Releasing(depth) => depth
    case Finished => 0
  }

  predicate Holds(s: State, w: nat, k: Key)
    requires WellFormed(s) && w < |s.lists|
  {
    k in s.lists[w][..Layers(s.lists[w], s.phases[w])]
  }

  predicate Waits(s: State, w: nat, k: Key)
    requires WellFormed(s) && w < |s.lists|
  {
    s.phases[w].Acquiring? && s.phases[w].queued && s.lists[w][s.phases[w].depth] == k
  }

  function Start(lists: seq<seq<Key>>): State {
    State(lists, seq(|lists|, _ => Acquiring(0, false)), map[])
  }

  // ---------- the steps of one writer ----------

  /** Every writer can take its next step at once, unless it waits in a lane behind another. */
  predicate Enabled(s: State, w: nat)
    requires WellFormed(s) && w < |s.lists|
  {
    match s.phases[w]
    case Finished => false
    case Acquiring(depth, queued) => queued ==> Lane(s, s.lists[w][depth]) != [] && Lane(s, s.lists[w][depth])[0] == w
    case _ => true
  }

  function Put(s: State, w: nat, p: Phase): State
    requires w < |s.phases|
  {
    s.(phases := s.phases[w := p])
  }

  /** `ok` is false when the step is a write that throws, which starts the way out. */
  function Step(s: State, w: nat, ok: bool): State
    requires WellFormed(s) && w < |s.lists| && Enabled(s, w)
  {
    var list := s.lists[w];
    match s.phases[w]
    case Acquiring(depth, queued) =>
      if queued then Put(s, w, Acquiring(depth + 1, false))
      else if depth == |list| then Put(s, w, Writing(0))
      else if list[depth] in list[..depth] then Put(s, w, Acquiring(depth + 1, false))
      else Put(s.(lanes := s.lanes[list[depth] := Lane(s, list[depth]) + [w]]), w, Acquiring(depth, true))
    case Writing(file) =>
      if ok && file < |list| then Put(s, w, Writing(file + 1)) else Put(s, w, Releasing(|list|))
    case Releasing(depth) =>
      if depth == 0 then Put(s, w, Finished)
      else if list[depth - 1] in list[..depth - 1] then Put(s, w, Releasing(depth - 1))
      else
        var lane := Lane(s, list[depth - 1]);
        Put(s.(lanes := s.lanes[list[depth - 1] := if lane == [] then [] else lane[1..]]), w, Releasing(depth - 1))
  }

  // ---------- the lanes and their holders ----------

  /** The writers in a lane are those that hold its key or wait for it, each once; a holder is first. */
  ghost predicate LaneInv(s: State, k: Key)
    requires WellFormed(s)
  {
    var lane := Lane(s, k);
    && (forall i, j :: 0 <= i < j < |lane| ==> lane[i] != lane[j])
    && (forall i :: 0 <= i < |lane| ==> lane[i] < |s.lists|)
    && (forall w :: 0 <= w < |s.lists| ==> (w in lane <==> Holds(s, w, k) || Waits(s, w, k)))
    && (forall w :: 0 <= w < |s.lists| && Holds(s, w, k) ==> lane != [] && lane[0] == w)
  }

  ghost predicate Inv(s: State) {
    WellFormed(s) && forall k :: LaneInv(s, k)
  }

  lemma {:induction false} StartKeeps(lists: seq<seq<Key>>)
    ensures Inv(Start(lists))
  {
  }

  /** A lane no step touches: the same writers hold its key or wait for it as before. */
  lemma {:induction false} OtherLaneKeeps(s: State, t: State, k: Key)
    requires WellFormed(s) && WellFormed(t) && t.lists == s.lists
    requires LaneInv(s, k) && Lane(t, k) == Lane(s, k)
    requires forall w :: 0 <= w < |s.lists| ==>
               (Holds(t, w, k) <==> Holds(s, w, k)) && (Waits(t, w, k) <==> Waits(s, w, k))
    ensures LaneInv(t, k)
  {
  }

  lemma {:induction false} PrefixGrows(list: seq<Key>, n: nat, k: Key)
    requires n < |list|
    ensures k in list[..n + 1] <==> k in list[..n] || k == list[n]
  {
    assert list[..n + 1] == list[..n] + [list[n]];
  }

  lemma {:induction false} StepIsWellFormed(s: State, w: nat, ok: bool)
    requires WellFormed(s) && w < |s.lists| && Enabled(s, w)
    ensures WellFormed(Step(s, w, ok)) && Step(s, w, ok).lists == s.lists
  {
  }

  /** The head of a lane enters: it waited for the key before and holds it now. */
  lemma {:induction false} GrantKeeps(s: State, w: nat, k: Key)
    requires Inv(s) && w < |s.lists| && Enabled(s, w) && s.phases[w].Acquiring? && s.phases[w].queued
    requires k == s.lists[w][s.phases[w].depth]
    ensures LaneInv(Step(s, w, true), k)
  {
    var t := Step(s, w, true);
    StepIsWellFormed(s, w, true);
    PrefixGrows(s.lists[w], s.phases[w].depth, k);
    assert LaneInv(s, k);
    assert Holds(t, w, k);
    forall x | 0 <= x < |s.lists| && x != w
      ensures Holds(t, x, k) == Holds(s, x, k) && Waits(t, x, k) == Waits(s, x, k)
    {
      assert t.phases[x] == s.phases[x];
    }
  }

  /** A writer joins the end of a lane it was not in. */
  lemma {:induction false} EnqueueKeeps(s: State, w: nat, k: Key)
    requires Inv(s) && w < |s.lists| && Enabled(s, w) && s.phases[w].Acquiring? && !s.phases[w].queued
    requires s.phases[w].depth < |s.lists[w]| && k == s.lists[w][s.phases[w].depth]
             && k !in s.lists[w][..s.phases[w].depth]
    ensures LaneInv(Step(s, w, true), k)
  {
    var t := Step(s, w, true);
    StepIsWellFormed(s, w, true);
    assert LaneInv(s, k) && !Holds(s, w, k) && !Waits(s, w, k);
    assert Lane(t, k) == Lane(s, k) + [w] && w !in Lane(s, k);
    assert Waits(t, w, k) && !Holds(t, w, k);
    forall x | 0 <= x < |s.lists| && x != w
      ensures Holds(t, x, k) == Holds(s, x, k) && Waits(t, x, k) == Waits(s, x, k)
    {
      assert t.phases[x] == s.phases[x];
    }
  }

  /** The first of a lane leaves it. */
  lemma {:induction false} UnlockKeeps(s: State, w: nat, k: Key)
    requires Inv(s) && w < |s.lists| && s.phases[w].Releasing? && s.phases[w].depth > 0
    requires k == s.lists[w][s.phases[w].depth - 1] && k !in s.lists[w][..s.phases[w].depth - 1]
    ensures LaneInv(Step(s, w, true), k)
  {
    var t := Step(s, w, true);
    StepIsWellFormed(s, w, true);
    PrefixGrows(s.lists[w], s.phases[w].depth - 1, k);
    assert LaneInv(s, k) && Holds(s, w, k);
    assert Lane(s, k) == [w] + Lane(t, k);
    assert !Holds(t, w, k) && !Waits(t, w, k);
    forall x | 0 <= x < |s.lists| && x != w
      ensures Holds(t, x, k) == Holds(s, x, k) && Waits(t, x, k) == Waits(s, x, k)
    {
      assert t.phases[x] == s.phases[x];
    }
  }

  /** A step of writer `w` that leaves the lane of `k` alone, and whether `w` holds `k` or waits for it. */
  lemma {:induction false} AsideKeeps(s: State, t: State, w: nat, k: Key)
    requires WellFormed(s) && WellFormed(t) && t.lists == s.lists && w < |s.lists|
    requires forall x :: 0 <= x < |s.lists| && x != w ==> t.phases[x] == s.phases[x]
    requires LaneInv(s, k) && Lane(t, k) == Lane(s, k)
    requires Holds(t, w, k) == Holds(s, w, k) && Waits(t, w, k) == Waits(s, w, k)
    ensures LaneInv(t, k)
  {
    forall x | 0 <= x < |s.lists|
      ensures Holds(t, x, k) == Holds(s, x, k) && Waits(t, x, k) == Waits(s, x, k)
    {
      if x != w { assert t.phases[x] == s.phases[x]; }
    }
    OtherLaneKeeps(s, t, k);
  }

  lemma {:induction false} EnterKeeps(s: State, w: nat, k: Key)
    requires Inv(s) && w < |s.lists| && Enabled(s, w) && s.phases[w].Acquiring?
    ensures WellFormed(Step(s, w, true)) && LaneInv(Step(s, w, true), k)
  {
    var list, depth := s.lists[w], s.phases[w].depth;
    StepIsWellFormed(s, w, true);
    assert LaneInv(s, k);
    if depth == |list| {
      assert list[..|list|] == list;
      AsideKeeps(s, Step(s, w, true), w, k);
    } else {
      PrefixGrows(list, depth, k);
      if k != list[depth] || (!s.phases[w].queued && k in list[..depth]) {
        AsideKeeps(s, Step(s, w, true), w, k);
      } else if s.phases[w].queued {
        GrantKeeps(s, w, k);
      } else {
        EnqueueKeeps(s, w, k);
      }
    }
  }

  lemma {:induction false} LeaveKeeps(s: State, w: nat, k: Key)
    requires Inv(s) && w < |s.lists| && s.phases[w].Releasing?
    ensures WellFormed(Step(s, w, true)) && LaneInv(Step(s, w, true), k)
  {
    var list, depth := s.lists[w], s.phases[w].depth;
    StepIsWellFormed(s, w, true);
    assert LaneInv(s, k);
    if depth > 0 { PrefixGrows(list, depth - 1, k); }
    if depth > 0 && k == list[depth - 1] && k !in list[..depth - 1] {
      UnlockKeeps(s, w, k);
    } else {
      AsideKeeps(s, Step(s, w, true), w, k);
    }
  }

  lemma {:induction false} WriteKeeps(s: State, w: nat, ok: bool, k: Key)
    requires Inv(s) && w < |s.lists| && s.phases[w].Writing?
    ensures WellFormed(Step(s, w, ok)) && LaneInv(Step(s, w, ok), k)
  {
    StepIsWellFormed(s, w, ok);
    assert s.lists[w][..|s.lists[w]|] == s.lists[w];
    assert LaneInv(s, k);
    AsideKeeps(s, Step(s, w, ok), w, k);
  }

  lemma {:induction false} StepKeeps(s: State, w: nat, ok: bool)
    requires Inv(s) && w < |s.lists| && Enabled(s, w)
    ensures Inv(Step(s, w, ok)) && Step(s, w, ok).lists == s.lists
  {
    StepIsWellFormed(s, w, ok);
    forall k ensures LaneInv(Step(s, w, ok), k) {
      match s.phases[w]
      case Acquiring(_, _) => EnterKeeps(s, w, k);
      case Writing(_) => WriteKeeps(s, w, ok, k);
      case Releasing(_) => LeaveKeeps(s, w, k);
      case Finished =>
    }
  }

  // ---------- runs ----------

  datatype Turn = Turn(writer: nat, ok: bool)

  ghost predicate Reaches(s: State, turns: seq<Turn>, t: State)
    decreases |turns|
  {
    if turns == [] then s == t
    else
      && WellFormed(s) && turns[0].writer < |s.lists| && Enabled(s, turns[0].writer)
      && Reaches(Step(s, turns[0].writer, turns[0].ok), turns[1..], t)
  }

  lemma {:induction false} RunKeeps(s: State, turns: seq<Turn>, t: State)
    requires Inv(s) && Reaches(s, turns, t)
    ensures Inv(t) && t.lists == s.lists
    decreases |turns|
  {
    if turns != [] {
      StepKeeps(s, turns[0].writer, turns[0].ok);
      RunKeeps(Step(s, turns[0].writer, turns[0].ok), turns[1..], t);
    }
  }

  /** Two writers never hold the same key: writers of the same file never overlap. */
  lemma {:induction false} WritersNeverOverlap(lists: seq<seq<Key>>, turns: seq<Turn>, t: State, v: nat, w: nat)
    requires Reaches(Start(lists), turns, t) && v < |lists| && w < |lists| && v != w
    ensures WellFormed(t) && t.lists == lists
    ensures t.phases[v].Writing? && t.phases[w].Writing? ==> forall k :: k in lists[v] ==> k !in lists[w]
  {
    StartKeeps(lists);
    RunKeeps(Start(lists), turns, t);
    if t.phases[v].Writing? && t.phases[w].Writing? {
      forall k | k in lists[v] ensures k !in lists[w] {
        assert LaneInv(t, k);
        assert lists[v][..|lists[v]|] == lists[v] && lists[w][..|lists[w]|] == lists[w];
        assert Holds(t, v, k) && !Holds(t, w, k);
      }
    }
  }

  // ---------- what a writer writes ----------

  /** The writer's turn is a write that does not throw. */
  predicate Writes(s: State, turn: Turn, w: nat)
    requires WellFormed(s) && w < |s.lists|
  {
    turn.writer == w && turn.ok && s.phases[w].Writing? && s.phases[w].file < |s.lists[w]|
  }

  /** The positions in its list of the files that the writer writes in the run, in order. */
  ghost function Written(s: State, turns: seq<Turn>, t: State, w: nat): seq<nat>
    requires Reaches(s, turns, t) && WellFormed(s) && w < |s.lists|
    decreases |turns|
  {
    if turns == [] then []
    else
      var next := Step(s, turns[0].writer, turns[0].ok);
      StepIsWellFormed(s, turns[0].writer, turns[0].ok);
      (if Writes(s, turns[0], w) then [s.phases[w].file] else []) + Written(next, turns[1..], t, w)
  }

  /** The numbers from `from` to `to`. */
  function UpTo(from: nat, to: nat): seq<nat>
    requires from <= to
  {
    seq(to - from, i requires 0 <= i < to - from => from + i)
  }

  /** On its way out a writer writes nothing. */
  lemma {:induction false} LeavingWritesNothing(s: State, turns: seq<Turn>, t: State, w: nat)
    requires Reaches(s, turns, t) && WellFormed(s) && w < |s.lists|
    requires s.phases[w].Releasing? || s.phases[w].Finished?
    ensures Written(s, turns, t, w) == []
    decreases |turns|
  {
    if turns != [] {
      StepIsWellFormed(s, turns[0].writer, turns[0].ok);
      LeavingWritesNothing(Step(s, turns[0].writer, turns[0].ok), turns[1..], t, w);
    }
  }

  /** Where the writing of a writer stands before it has begun or while it goes on. */
  function FirstLeft(p: Phase): nat
    requires p.Acquiring? || p.Writing?
  {
    if p.Writing? then p.file else 0
  }

  /** A step of any writer moves this one's writing on by the file written, or ends it: behind the last file, or where
      a step of its own throws. */
  lemma {:induction false} StepWritesOn(s: State, turn: Turn, w: nat)
    requires WellFormed(s) && w < |s.lists| && turn.writer < |s.lists| && Enabled(s, turn.writer)
    requires s.phases[w].Acquiring? || s.phases[w].Writing?
    ensures var p := Step(s, turn.writer, turn.ok).phases[w];
            && !p.Finished?
            && (p.Releasing? ==>
                  !Writes(s, turn, w) && (FirstLeft(s.phases[w]) == |s.lists[w]| || (turn.writer == w && !turn.ok)))
            && (!p.Releasing? ==> FirstLeft(p) == FirstLeft(s.phases[w]) + if Writes(s, turn, w) then 1 else 0)
            && (Writes(s, turn, w) ==> FirstLeft(s.phases[w]) == s.phases[w].file < |s.lists[w]|)
  {
  }

  lemma {:induction false} UpToFirst(from: nat, to: nat)
    requires from < to
    ensures UpTo(from, to) == [from] + UpTo(from + 1, to)
  {
  }

  /** A finished writer has written its files in order, each once: all of them unless a step of its own threw. */
  lemma {:induction false} WritesInOrder(s: State, turns: seq<Turn>, t: State, w: nat) returns (n: nat)
    requires Reaches(s, turns, t) && WellFormed(s) && w < |s.lists|
    requires (s.phases[w].Acquiring? || s.phases[w].Writing?) && t.lists == s.lists && WellFormed(t)
    requires t.phases[w].Finished?
    ensures FirstLeft(s.phases[w]) <= n <= |s.lists[w]| && Written(s, turns, t, w) == UpTo(FirstLeft(s.phases[w]), n)
    ensures n < |s.lists[w]| ==> exists i :: 0 <= i < |turns| && turns[i].writer == w && !turns[i].ok
    decreases |turns|
  {
    var turn, next := turns[0], Step(s, turns[0].writer, turns[0].ok);
    StepIsWellFormed(s, turn.writer, turn.ok);
    StepWritesOn(s, turn, w);
    if next.phases[w].Releasing? {
      LeavingWritesNothing(next, turns[1..], t, w);
      n := FirstLeft(s.phases[w]);
      assert [] + Written(next, turns[1..], t, w) == UpTo(n, n);
    } else {
      n := WritesInOrder(next, turns[1..], t, w);
      if Writes(s, turn, w) { UpToFirst(FirstLeft(s.phases[w]), n); }
      if n < |s.lists[w]| {
        var i :| 0 <= i < |turns[1..]| && turns[1..][i].writer == w && !turns[1..][i].ok;
        assert turns[i + 1] == turns[1..][i];
      }
    }
  }

  /** So in every run of writers from the start. */
  lemma {:induction false} FinishedHasWritten(lists: seq<seq<Key>>, turns: seq<Turn>, t: State, w: nat) returns (n: nat)
    requires Reaches(Start(lists), turns, t) && w < |lists|
    ensures WellFormed(t) && t.lists == lists
    ensures t.phases[w].Finished? ==>
              && n <= |lists[w]| && Written(Start(lists), turns, t, w) == UpTo(0, n)
              && (n < |lists[w]| ==> exists i :: 0 <= i < |turns| && turns[i].writer == w && !turns[i].ok)
  {
    n := 0;
    StartKeeps(lists);
    RunKeeps(Start(lists), turns, t);
    if t.phases[w].Finished? { n := WritesInOrder(Start(lists), turns, t, w); }
  }

  // ---------- first come, first served ----------

  predicate Ahead(lane: seq<nat>, u: nat, v: nat) {
    exists i, j :: 0 <= i < j < |lane| && lane[i] == u && lane[j] == v
  }

  /** A step leaves a lane as it is, or joins its end, or is that of its holder leaving. */
  lemma {:induction false} LaneAfter(s: State, w: nat, ok: bool, k: Key)
    requires Inv(s) && w < |s.lists| && Enabled(s, w)
    ensures var lane, after := Lane(s, k), Lane(Step(s, w, ok), k);
            after == lane || after == lane + [w] || (lane != [] && after == lane[1..] && lane[0] == w && Holds(s, w, k))
  {
    assert LaneInv(s, k);
    var list, depth := s.lists[w], Layers(s.lists[w], s.phases[w]);
    if s.phases[w].Releasing? && depth > 0 && k == list[depth - 1] && k !in list[..depth - 1] {
      PrefixGrows(list, depth - 1, k);
      assert Holds(s, w, k);
      assert Lane(Step(s, w, ok), k) == Lane(s, k)[1..];
    } else if s.phases[w].Acquiring? && depth < |list| && k == list[depth] {
      assert Lane(Step(s, w, ok), k) in {Lane(s, k), Lane(s, k) + [w]};
    } else {
      assert Lane(Step(s, w, ok), k) == Lane(s, k);
    }
  }

  lemma {:induction false} AheadInLonger(lane: seq<nat>, w: nat, u: nat, v: nat)
    requires Ahead(lane, u, v)
    ensures Ahead(lane + [w], u, v)
  {
    var i, j :| 0 <= i < j < |lane| && lane[i] == u && lane[j] == v;
    assert (lane + [w])[i] == u && (lane + [w])[j] == v;
  }

  lemma {:induction false} AheadInRest(lane: seq<nat>, u: nat, v: nat)
    requires Ahead(lane, u, v) && lane[0] != u
    ensures Ahead(lane[1..], u, v)
  {
    var i, j :| 0 <= i < j < |lane| && lane[i] == u && lane[j] == v;
    assert lane[1..][i - 1] == u && lane[1..][j - 1] == v;
  }

  lemma {:induction false} AheadIsWriter(s: State, k: Key, u: nat, v: nat)
    requires Inv(s) && Ahead(Lane(s, k), u, v)
    ensures u < |s.lists|
  {
    assert LaneInv(s, k);
  }

  /** One that is ahead stays ahead until it leaves, and then it held the key. */
  lemma {:induction false} StepKeepsOrder(s: State, w: nat, ok: bool, k: Key, u: nat, v: nat)
    requires Inv(s) && w < |s.lists| && Enabled(s, w) && Ahead(Lane(s, k), u, v)
    ensures u < |s.lists| && (Ahead(Lane(Step(s, w, ok), k), u, v) || Holds(s, u, k))
  {
    AheadIsWriter(s, k, u, v);
    LaneAfter(s, w, ok, k);
    AheadInLonger(Lane(s, k), w, u, v);
    if Lane(s, k)[0] != u { AheadInRest(Lane(s, k), u, v); }
  }

  lemma {:induction false} SecondDoesNotHold(s: State, k: Key, u: nat, v: nat)
    requires Inv(s) && Ahead(Lane(s, k), u, v)
    ensures v < |s.lists| && !Holds(s, v, k)
  {
    assert LaneInv(s, k);
  }

  /** A writer enters only after those ahead of it: some state on the way has the other inside. */
  lemma {:induction false} FirstComeFirstServed(s: State, turns: seq<Turn>, t: State, k: Key, u: nat, v: nat)
    returns (n: nat, m: State)
    requires Inv(s) && Reaches(s, turns, t) && Ahead(Lane(s, k), u, v)
    requires WellFormed(t) && v < |t.lists| && Holds(t, v, k)
    ensures n < |turns| && Reaches(s, turns[..n], m) && Reaches(m, turns[n..], t)
    ensures WellFormed(m) && u < |m.lists| && Holds(m, u, k)
    decreases |turns|
  {
    SecondDoesNotHold(s, k, u, v);
    var w, ok := turns[0].writer, turns[0].ok;
    StepKeepsOrder(s, w, ok, k, u, v);
    if Holds(s, u, k) {
      n, m := 0, s;
      assert turns[..0] == [] && turns[0..] == turns;
    } else {
      StepKeeps(s, w, ok);
      n, m := FirstComeFirstServed(Step(s, w, ok), turns[1..], t, k, u, v);
      n := n + 1;
      assert turns[..n][1..] == turns[1..][..n - 1] && turns[n..] == turns[1..][n - 1..];
    }
  }

  // ---------- no deadlock ----------

  /** Each lock comes after all locks before it in the global order that `rank` gives, or repeats one of them. */
  predicate Ascending(rank: Key -> nat, list: seq<Key>) {
    forall j :: 0 <= j < |list| ==> list[j] in list[..j] || forall i :: 0 <= i < j ==> rank(list[i]) < rank(list[j])
  }

  ghost predicate AllAscend(rank: Key -> nat, lists: seq<seq<Key>>) {
    forall w :: 0 <= w < |lists| ==> Ascending(rank, lists[w])
  }

  ghost predicate Bounded(rank: Key -> nat, s: State, bound: nat) {
    forall w, i :: 0 <= w < |s.lists| && 0 <= i < |s.lists[w]| ==> rank(s.lists[w][i]) <= bound
  }

  /** From a writer that waits, the holder it waits for leads to a greater key, and so in the end to a
      writer that can go on. */
  lemma {:induction false} SomeoneCanGoOn(rank: Key -> nat, s: State, w: nat, bound: nat) returns (v: nat)
    requires Inv(s) && Bounded(rank, s, bound) && AllAscend(rank, s.lists)
    requires w < |s.lists| && s.phases[w].Acquiring? && s.phases[w].queued
    ensures v < |s.lists| && Enabled(s, v)
    decreases bound - rank(s.lists[w][s.phases[w].depth])
  {
    var k := s.lists[w][s.phases[w].depth];
    assert LaneInv(s, k) && Waits(s, w, k);
    v := Lane(s, k)[0];
    if !Enabled(s, v) {
      assert Holds(s, v, k);
      var deeper := s.lists[v][s.phases[v].depth];
      assert deeper !in s.lists[v][..s.phases[v].depth];
      v := SomeoneCanGoOn(rank, s, v, bound);
    }
  }

  function Largest(rank: Key -> nat, list: seq<Key>): (bound: nat)
    ensures forall i :: 0 <= i < |list| ==> rank(list[i]) <= bound
  {
    if list == [] then 0
    else
      var rest, last := Largest(rank, list[..|list| - 1]), rank(list[|list| - 1]);
      if last <= rest then rest else last
  }

  function LargestOf(rank: Key -> nat, lists: seq<seq<Key>>): (bound: nat)
    ensures forall w, i :: 0 <= w < |lists| && 0 <= i < |lists[w]| ==> rank(lists[w][i]) <= bound
  {
    if lists == [] then 0
    else
      var rest, last := LargestOf(rank, lists[..|lists| - 1]), Largest(rank, lists[|lists| - 1]);
      if last <= rest then rest else last
  }

  ghost predicate AllFinished(s: State) {
    WellFormed(s) && forall w :: 0 <= w < |s.lists| ==> s.phases[w].Finished?
  }

  ghost predicate SomeEnabled(s: State) {
    WellFormed(s) && exists v :: 0 <= v < |s.lists| && Enabled(s, v)
  }

  /** With ascending lists some writer can always go on until all have finished. */
  lemma {:induction false} NoDeadlock(rank: Key -> nat, lists: seq<seq<Key>>, turns: seq<Turn>, t: State)
    requires Reaches(Start(lists), turns, t) && AllAscend(rank, lists)
    ensures t.lists == lists && (AllFinished(t) || SomeEnabled(t))
  {
    StartKeeps(lists);
    RunKeeps(Start(lists), turns, t);
    if w :| 0 <= w < |lists| && !t.phases[w].Finished? {
      if !Enabled(t, w) {
        var v := SomeoneCanGoOn(rank, t, w, LargestOf(rank, lists));
      }
    }
  }

  // ---------- all finish ----------

  /** A bound on the steps a writer still has to take. */
  function Left(list: seq<Key>, p: Phase): nat
    requires Sensible(list, p)
  {
    match p
    case Acquiring(depth, queued) => 2 * (|list| - depth) + 2 * |list| + 4 - if queued then 1 else 0
    case Writing(file) => |list| - file + |list| + 2
    case Releasing(depth) => depth + 1
    case Finished => 0
  }

  function TotalLeft(s: State, n: nat): nat
    requires WellFormed(s) && n <= |s.lists|
  {
    if n == 0 then 0 else TotalLeft(s, n - 1) + Left(s.lists[n - 1], s.phases[n - 1])
  }

  lemma {:induction false} StepSpends(s: State, w: nat, ok: bool)
    requires WellFormed(s) && w < |s.lists| && Enabled(s, w)
    ensures WellFormed(Step(s, w, ok))
    ensures Left(s.lists[w], Step(s, w, ok).phases[w]) < Left(s.lists[w], s.phases[w])
    ensures forall v :: 0 <= v < |s.lists| && v != w ==> Step(s, w, ok).phases[v] == s.phases[v]
  {
  }

  lemma {:induction false} TotalSpends(s: State, w: nat, ok: bool, n: nat)
    requires WellFormed(s) && w < |s.lists| && Enabled(s, w) && n <= |s.lists|
    ensures WellFormed(Step(s, w, ok)) && Step(s, w, ok).lists == s.lists
    ensures TotalLeft(Step(s, w, ok), n) + (if w < n then 1 else 0) <= TotalLeft(s, n)
    decreases n
  {
    StepIsWellFormed(s, w, ok);
    StepSpends(s, w, ok);
    if n > 0 { TotalSpends(s, w, ok, n - 1); }
  }

  lemma {:induction false} RunSpends(s: State, turns: seq<Turn>, t: State)
    requires WellFormed(s) && Reaches(s, turns, t)
    ensures WellFormed(t) && t.lists == s.lists
    ensures |turns| + TotalLeft(t, |t.lists|) <= TotalLeft(s, |s.lists|)
    decreases |turns|
  {
    if turns != [] {
      TotalSpends(s, turns[0].writer, turns[0].ok, |s.lists|);
      RunSpends(Step(s, turns[0].writer, turns[0].ok), turns[1..], t);
    }
  }

  /** A run that cannot be longer, or that leaves no writer able to go on, has come to its end. */
  ghost predicate Maximal(lists: seq<seq<Key>>, turns: seq<Turn>, t: State) {
    WellFormed(Start(lists)) && (|turns| == TotalLeft(Start(lists), |lists|) || !SomeEnabled(t))
  }

  /** No run is longer than the bound, whatever the order of the turns, so one that cannot get stuck ends with all
      writers finished. */
  lemma {:induction false} UnstuckRunsEnd(lists: seq<seq<Key>>, turns: seq<Turn>, t: State)
    requires Reaches(Start(lists), turns, t) && (AllFinished(t) || SomeEnabled(t))
    ensures WellFormed(Start(lists)) && |turns| <= TotalLeft(Start(lists), |lists|)
    ensures Maximal(lists, turns, t) ==> AllFinished(t)
  {
    StartKeeps(lists);
    RunSpends(Start(lists), turns, t);
    if SomeEnabled(t) {
      var v :| 0 <= v < |t.lists| && Enabled(t, v);
      TotalSpends(t, v, true, |t.lists|);
    }
  }

  /** With ascending lists every run that goes on as long as it can ends with all writers finished. */
  lemma {:induction false} RunsEnd(rank: Key -> nat, lists: seq<seq<Key>>, turns: seq<Turn>, t: State)
    requires Reaches(Start(lists), turns, t) && AllAscend(rank, lists)
    ensures WellFormed(Start(lists)) && |turns| <= TotalLeft(Start(lists), |lists|)
    ensures Maximal(lists, turns, t) ==> AllFinished(t)
  {
    NoDeadlock(rank, lists, turns, t);
    UnstuckRunsEnd(lists, turns, t);
  }

  // ---------- one gate for all ----------

  /** If all lists begin with the same lock, their order behind it does not matter: some writer can always go on,
      and every run that goes on as long as it can ends with all writers finished. */
  lemma {:induction false} CommonFirstLockIsEnough(lists: seq<seq<Key>>, gate: Key, turns: seq<Turn>, t: State)
    requires Reaches(Start(lists), turns, t)
    requires forall w :: 0 <= w < |lists| ==> lists[w] != [] && lists[w][0] == gate
    ensures t.lists == lists && (AllFinished(t) || SomeEnabled(t))
    ensures Maximal(lists, turns, t) ==> AllFinished(t)
  {
    StartKeeps(lists);
    RunKeeps(Start(lists), turns, t);
    if w :| 0 <= w < |lists| && !t.phases[w].Finished? {
      if !Enabled(t, w) {
        var v := GateLetsSomeoneOn(t, w, gate);
      }
    }
    UnstuckRunsEnd(lists, turns, t);
  }

  /** A writer inside the gate is the first in every other lane it joins. */
  lemma {:induction false} GateHolderGoesOn(s: State, v: nat, gate: Key)
    requires Inv(s) && forall x :: 0 <= x < |s.lists| ==> s.lists[x] != [] && s.lists[x][0] == gate
    requires v < |s.lists| && Holds(s, v, gate)
    ensures Enabled(s, v)
  {
    if s.phases[v].Acquiring? && s.phases[v].queued {
      var deeper := s.lists[v][s.phases[v].depth];
      assert LaneInv(s, deeper) && LaneInv(s, gate) && Waits(s, v, deeper);
      var u := Lane(s, deeper)[0];
      assert u in Lane(s, deeper);
      InsideHoldsGate(s, u, deeper, gate);
    }
  }

  lemma {:induction false} GateLetsSomeoneOn(s: State, w: nat, gate: Key) returns (v: nat)
    requires Inv(s) && forall x :: 0 <= x < |s.lists| ==> s.lists[x] != [] && s.lists[x][0] == gate
    requires w < |s.lists| && s.phases[w].Acquiring? && s.phases[w].queued
    ensures v < |s.lists| && Enabled(s, v)
  {
    var k := s.lists[w][s.phases[w].depth];
    assert LaneInv(s, k) && Waits(s, w, k);
    v := Lane(s, k)[0];
    assert v in Lane(s, k);
    if Holds(s, v, k) {
      if k != gate { InsideHoldsGate(s, v, k, gate); }
      GateHolderGoesOn(s, v, gate);
    }
  }

  /** A writer that holds any key, or waits for another one than the gate, holds the gate. */
  lemma {:induction false} InsideHoldsGate(s: State, w: nat, k: Key, gate: Key)
    requires WellFormed(s) && w < |s.lists| && s.lists[w] != [] && s.lists[w][0] == gate
    requires k != gate && (Holds(s, w, k) || Waits(s, w, k))
    ensures Holds(s, w, gate)
  {
    var n := Layers(s.lists[w], s.phases[w]);
    assert n > 0;
    assert s.lists[w][..n][0] == gate;
  }

  // ---------- the list itself ----------

  /** `withCodexHomeOverride`: the file of an explicit CODEX_HOME comes last, unless it is listed. */
  function WithCodexHomeOverride(configFiles: seq<string>, overrideFile: Option<string>): seq<string> {
    if overrideFile.Some? && overrideFile.value !in configFiles then configFiles + [overrideFile.value] else configFiles
  }

  /** The override repeats no file, keeps the given order and loses nothing. */
  lemma {:induction false} OverrideRepeatsNothing(configFiles: seq<string>, overrideFile: Option<string>)
    requires NoRepeats(configFiles)
    ensures NoRepeats(WithCodexHomeOverride(configFiles, overrideFile))
    ensures configFiles <= WithCodexHomeOverride(configFiles, overrideFile)
    ensures forall f :: f in WithCodexHomeOverride(configFiles, overrideFile)
                   <==> f in configFiles || overrideFile == Some(f)
  {
  }

  // ---------- lists that disagree ----------

  const CROSSED_LISTS: seq<seq<Key>> := [[0, 1], [1, 0]]

  const CROSSED_TURNS := [Turn(0, true), Turn(0, true), Turn(1, true), Turn(1, true), Turn(0, true), Turn(1, true)]

  const CROSSED := State(CROSSED_LISTS, [Acquiring(1, true), Acquiring(1, true)], map[0 := [0, 1], 1 := [1, 0]])

  lemma {:induction false} CrossedAsks(s: State, w: nat)
    requires WellFormed(s) && s.lists == CROSSED_LISTS && w < 2 && s.phases[w].Acquiring? && s.phases[w].depth < 2
    ensures Enabled(s, w) && !s.phases[w].queued ==>
      Step(s, w, true) == (var k := CROSSED_LISTS[w][s.phases[w].depth];
        State(CROSSED_LISTS, s.phases[w := Acquiring(s.phases[w].depth, true)], s.lanes[k := Lane(s, k) + [w]]))
    ensures Enabled(s, w) && s.phases[w].queued ==>
      Step(s, w, true) == State(CROSSED_LISTS, s.phases[w := Acquiring(s.phases[w].depth + 1, false)], s.lanes)
  {
    var depth := s.phases[w].depth;
    if depth == 1 { assert CROSSED_LISTS[w][..1] == [CROSSED_LISTS[w][0]]; }
  }

  /** Two writers that take the same two locks in opposite orders block each other for good. */
  lemma {:induction false} CrossedListsDeadlock()
    ensures Reaches(Start(CROSSED_LISTS), CROSSED_TURNS, CROSSED)
    ensures WellFormed(CROSSED) && !Enabled(CROSSED, 0) && !Enabled(CROSSED, 1)
  {
    CrossedEnds();
    var s0 := Start(CROSSED_LISTS);
    assert s0.phases == [Acquiring(0, false), Acquiring(0, false)];
    CrossedAsks(s0, 0);
    var s1 := State(CROSSED_LISTS, [Acquiring(0, true), Acquiring(0, false)], map[0 := [0]]);
    assert Lane(s0, 0) + [0] == [0];
    assert Step(s0, 0, true) == s1;
    CrossedAsks(s1, 0);
    assert Step(s1, 0, true) == CROSSED_HALF;
    var ts := CROSSED_TURNS;
    assert Reaches(s1, ts[1..], CROSSED) by { assert ts[1..][1..] == ts[2..]; }
  }

  const CROSSED_HALF := State(CROSSED_LISTS, [Acquiring(1, false), Acquiring(0, false)], map[0 := [0]])

  lemma {:induction false} CrossedEnds()
    ensures WellFormed(CROSSED_HALF) && Reaches(CROSSED_HALF, CROSSED_TURNS[2..], CROSSED)
  {
    var s3 := State(CROSSED_LISTS, [Acquiring(1, false), Acquiring(0, true)], map[0 := [0], 1 := [1]]);
    CrossedAsks(CROSSED_HALF, 1);
    assert Lane(CROSSED_HALF, 1) + [1] == [1];
    assert Step(CROSSED_HALF, 1, true) == s3;
    CrossedMeet();
    var s4 := State(CROSSED_LISTS, [Acquiring(1, false), Acquiring(1, false)], map[0 := [0], 1 := [1]]);
    CrossedAsks(s3, 1);
    assert Step(s3, 1, true) == s4;
    var ts := CROSSED_TURNS;
    assert Reaches(s3, ts[3..], CROSSED) by { assert ts[3..][1..] == ts[4..]; }
    assert Reaches(CROSSED_HALF, ts[2..], CROSSED) by { assert ts[2..][1..] == ts[3..]; }
  }

  lemma {:induction false} CrossedMeet()
    ensures Reaches(State(CROSSED_LISTS, [Acquiring(1, false), Acquiring(1, false)], map[0 := [0], 1 := [1]]),
                    CROSSED_TURNS[4..], CROSSED)
  {
    var s4 := State(CROSSED_LISTS, [Acquiring(1, false), Acquiring(1, false)], map[0 := [0], 1 := [1]]);
    var s5 := State(CROSSED_LISTS, [Acquiring(1, true), Acquiring(1, false)], map[0 := [0], 1 := [1, 0]]);
    assert CROSSED_LISTS[0][..1] == [0] && CROSSED_LISTS[1][..1] == [1];
    CrossedAsks(s4, 0);
    assert Lane(s4, 1) + [0] == [1, 0];
    assert Step(s4, 0, true) == s5;
    CrossedAsks(s5, 1);
    assert Lane(s5, 0) + [1] == [0, 1];
    assert Step(s5, 1, true) == CROSSED;
    var ts := CROSSED_TURNS;
    assert Reaches(s5, ts[5..], CROSSED) by { assert ts[5..][1..] == []; }
    assert Reaches(s4, ts[4..], CROSSED) by { assert ts[4..][1..] == ts[5..]; }
  }
}
