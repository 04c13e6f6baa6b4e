/**
 Typo recovery for commands and flags: candidates, the guard on destructive commands, pruning by
 length, and the ranking by distance and name.
 */
module CommandSuggestion {
  import opened CommandSpecs
  import opened EditDistance
  import opened Sequences
  import Words

  const SUGGESTION_THRESHOLD: nat := 3
  const MAX_SUGGESTIONS: nat := 3
  const DESTRUCTIVE_INTENT_THRESHOLD: nat := 1

  datatype Scored = Scored(name: string, distance: nat)

  /** `localeCompare`: negative, zero or positive. */
  type Collation = (string, string) -> int

  ghost predicate IsCollation(cmp: Collation) {
    && (forall x, y :: cmp(x, y) <= 0 || cmp(y, x) <= 0)
    && (forall x, y, z :: cmp(x, y) <= 0 && cmp(y, z) <= 0 ==> cmp(x, z) <= 0)
  }

  // ---------- ranking ----------

  /** The order of the sort: by distance, then by name. */
  predicate Precedes(cmp: Collation, x: Scored, y: Scored) {
    x.distance < y.distance || (x.distance == y.distance && cmp(x.name, y.name) <= 0)
  }

  /** Inserts behind every entry that precedes it, so equal entries keep their order. */
  function InsertSorted(cmp: Collation, sorted: seq<Scored>, x: Scored): seq<Scored> {
    if sorted == [] then [x]
    else
      var n := |sorted| - 1;
      if Precedes(cmp, sorted[n], x) then sorted + [x] else InsertSorted(cmp, sorted[..n], x) + [sorted[n]]
  }

  function Sort(cmp: Collation, xs: seq<Scored>): seq<Scored> {
    if xs == [] then [] else InsertSorted(cmp, Sort(cmp, xs[..|xs| - 1]), xs[|xs| - 1])
  }

  predicate Near(x: Scored) {
    0 < x.distance <= SUGGESTION_THRESHOLD
  }

  function KeepNear(xs: seq<Scored>): seq<Scored> {
    if xs == [] then []
    else KeepNear(xs[..|xs| - 1]) + if Near(xs[|xs| - 1]) then [xs[|xs| - 1]] else []
  }

  function FirstThree<T>(xs: seq<T>): seq<T> {
    if |xs| <= MAX_SUGGESTIONS then xs else xs[..MAX_SUGGESTIONS]
  }

  function Labels(xs: seq<Scored>): seq<string> {
    seq(|xs|, i requires 0 <= i < |xs| => xs[i].name)
  }

  function RankByDistance(cmp: Collation, scored: seq<Scored>): seq<string> {
    Labels(FirstThree(Sort(cmp, KeepNear(scored))))
  }

  ghost predicate Sorted(cmp: Collation, xs: seq<Scored>) {
    forall i, j :: 0 <= i < j < |xs| ==> Precedes(cmp, xs[i], xs[j])
  }

  lemma {:induction false} InsertAdds(cmp: Collation, sorted: seq<Scored>, x: Scored)
    ensures multiset(InsertSorted(cmp, sorted, x)) == multiset(sorted) + multiset{x}
    ensures forall y :: y in InsertSorted(cmp, sorted, x) <==> y in sorted || y == x
    decreases |sorted|
  {
    if sorted != [] {
      var n := |sorted| - 1;
      assert sorted == sorted[..n] + [sorted[n]];
      if !Precedes(cmp, sorted[n], x) { InsertAdds(cmp, sorted[..n], x); }
    }
  }

  lemma {:induction false} InsertKeepsSorted(cmp: Collation, sorted: seq<Scored>, x: Scored)
    requires IsCollation(cmp) && Sorted(cmp, sorted)
    ensures Sorted(cmp, InsertSorted(cmp, sorted, x))
    decreases |sorted|
  {
    if sorted != [] {
      var n := |sorted| - 1;
      if !Precedes(cmp, sorted[n], x) {
        var before := InsertSorted(cmp, sorted[..n], x);
        InsertKeepsSorted(cmp, sorted[..n], x);
        InsertAdds(cmp, sorted[..n], x);
        forall i | 0 <= i < |before| ensures Precedes(cmp, before[i], sorted[n]) {
          assert before[i] in before;
          if before[i] != x { assert before[i] in sorted[..n]; }
        }
      }
    }
  }

  lemma {:induction false} SortPermutes(cmp: Collation, xs: seq<Scored>)
    ensures multiset(Sort(cmp, xs)) == multiset(xs)
    decreases |xs|
  {
    if xs != [] {
      var n := |xs| - 1;
      SortPermutes(cmp, xs[..n]);
      InsertAdds(cmp, Sort(cmp, xs[..n]), xs[n]);
      assert xs == xs[..n] + [xs[n]];
    }
  }

  lemma {:induction false} SortSorts(cmp: Collation, xs: seq<Scored>)
    requires IsCollation(cmp)
    ensures Sorted(cmp, Sort(cmp, xs))
    decreases |xs|
  {
    if xs != [] {
      var n := |xs| - 1;
      SortSorts(cmp, xs[..n]);
      InsertKeepsSorted(cmp, Sort(cmp, xs[..n]), xs[n]);
    }
  }

  // ---------- scoring, with and without pruning ----------

  /** Scores the candidates in order; `prune` skips those whose length alone rules them out. */
  function Score(input: string, labels: seq<string>, prune: bool): seq<Scored> {
    if labels == [] then []
    else
      var last := labels[|labels| - 1];
      Score(input, labels[..|labels| - 1], prune)
      + if !prune || Gap(input, last) <= SUGGESTION_THRESHOLD then [Scored(last, Distance(input, last))] else []
  }

  lemma {:induction false} KeepNearAppends(xs: seq<Scored>, x: Scored)
    ensures KeepNear(xs + [x]) == KeepNear(xs) + if Near(x) then [x] else []
  {
    assert (xs + [x])[..|xs|] == xs;
  }

  lemma {:induction false} PruningScoresTheSame(input: string, labels: seq<string>)
    ensures KeepNear(Score(input, labels, true)) == KeepNear(Score(input, labels, false))
    decreases |labels|
  {
    if labels != [] {
      var n := |labels| - 1;
      var x := Scored(labels[n], Distance(input, labels[n]));
      PruningScoresTheSame(input, labels[..n]);
      GapIsALowerBound(input, labels[n]);
      KeepNearAppends(Score(input, labels[..n], true), x);
      KeepNearAppends(Score(input, labels[..n], false), x);
      assert Score(input, labels[..n], true) + [] == Score(input, labels[..n], true);
    }
  }

  // ---------- commands ----------

  function FinalToken(path: seq<string>): string {
    if path == [] then "" else path[|path| - 1]
  }

  function DestructiveVerbs(specs: seq<CommandSpec>): set<string> {
    set i, j | 0 <= i < |specs| && specs[i].destructive && 0 <= j < |specs[i].paths| :: FinalToken(specs[i].paths[j])
  }

  predicate IntendsDestruction(token: string, verbs: set<string>) {
    exists verb :: verb in verbs && Distance(token, verb) <= DESTRUCTIVE_INTENT_THRESHOLD
  }

  method DestructiveVerbsOf(specs: seq<CommandSpec>) returns (verbs: set<string>)
    ensures verbs == DestructiveVerbs(specs)
  {
    verbs := {};
    for i := 0 to |specs|
      invariant verbs == DestructiveVerbs(specs[..i])
    {
      ghost var before := verbs;
      if specs[i].destructive {
        for j := 0 to |specs[i].paths|
          invariant verbs == before + set k | 0 <= k < j :: FinalToken(specs[i].paths[k])
        {
          verbs := verbs + {FinalToken(specs[i].paths[j])};
        }
      }
      VerbsOfOneMore(specs, i);
    }
    assert specs[..|specs|] == specs;
  }

  lemma {:induction false} VerbsOfOneMore(specs: seq<CommandSpec>, i: nat)
    requires i < |specs|
    ensures DestructiveVerbs(specs[..i + 1]) == DestructiveVerbs(specs[..i])
         + if specs[i].destructive then set k | 0 <= k < |specs[i].paths| :: FinalToken(specs[i].paths[k]) else {}
  {
    var more, less := specs[..i + 1], specs[..i];
    forall verb | verb in DestructiveVerbs(more)
      ensures verb in DestructiveVerbs(less)
           || (specs[i].destructive && verb in set k | 0 <= k < |specs[i].paths| :: FinalToken(specs[i].paths[k]))
    {
      var a, j :| 0 <= a < |more| && more[a].destructive && 0 <= j < |more[a].paths|
        && verb == FinalToken(more[a].paths[j]);
      if a < i { assert less[a] == more[a]; } else { assert more[a] == specs[i]; }
    }
    forall verb | verb in DestructiveVerbs(less) ensures verb in DestructiveVerbs(more) {
      var a, j :| 0 <= a < |less| && less[a].destructive && 0 <= j < |less[a].paths|
        && verb == FinalToken(less[a].paths[j]);
      assert more[a] == less[a];
    }
    assert more[i] == specs[i];
  }

  /** The length test before each distance changes nothing. */
  method IntendsDestructionPruned(token: string, verbs: set<string>) returns (intends: bool)
    ensures intends <==> IntendsDestruction(token, verbs)
  {
    var left := verbs;
    while left != {}
      invariant left <= verbs
      invariant forall verb :: verb in verbs - left ==> Distance(token, verb) > DESTRUCTIVE_INTENT_THRESHOLD
      decreases left
    {
      var verb :| verb in left;
      left := left - {verb};
      GapIsALowerBound(token, verb);
      if Gap(token, verb) <= DESTRUCTIVE_INTENT_THRESHOLD {
        var distance := Levenshtein(token, verb);
        if distance <= DESTRUCTIVE_INTENT_THRESHOLD {
          return true;
        }
      }
    }
    return false;
  }

  /** Single-token input is compared with the first tokens of the paths. */
  function Candidate(path: seq<string>, input: seq<string>): seq<string> {
    if |input| == 1 && |path| >= 1 then path[..1] else path
  }

  function SpecLabels(paths: seq<seq<string>>, input: seq<string>): seq<string> {
    if paths == [] then []
    else
      var candidate := Candidate(paths[|paths| - 1], input);
      SpecLabels(paths[..|paths| - 1], input) + if |candidate| == |input| then [Words.Join(candidate)] else []
  }

  predicate Offered(spec: CommandSpec, allowDestructive: bool) {
    !spec.hidden && (spec.destructive ==> allowDestructive)
  }

  /** Every candidate name of the offered specs, in registry order. */
  function AllLabels(specs: seq<CommandSpec>, input: seq<string>, allow: bool): seq<string> {
    if specs == [] then []
    else
      var last := specs[|specs| - 1];
      AllLabels(specs[..|specs| - 1], input, allow) + if Offered(last, allow) then SpecLabels(last.paths, input) else []
  }

  /** Keeps the first occurrence of each name. */
  function Distinct(labels: seq<string>): seq<string> {
    if labels == [] then []
    else
      var before, last := labels[..|labels| - 1], labels[|labels| - 1];
      Distinct(before) + if last in before then [] else [last]
  }

  ghost predicate Allows(specs: seq<CommandSpec>, path: seq<string>) {
    IntendsDestruction(FinalToken(path), DestructiveVerbs(specs))
  }

  ghost function CandidateLabels(specs: seq<CommandSpec>, path: seq<string>): seq<string> {
    Distinct(AllLabels(specs, path, Allows(specs, path)))
  }

  lemma {:induction false} DistinctAppends(labels: seq<string>, name: string)
    ensures Distinct(labels + [name]) == Distinct(labels) + if name in labels then [] else [name]
  {
    assert (labels + [name])[..|labels|] == labels;
  }

  lemma {:induction false} ScoreAppends(input: string, labels: seq<string>, name: string, prune: bool)
    ensures Score(input, labels + [name], prune) == Score(input, labels, prune)
         + if !prune || Gap(input, name) <= SUGGESTION_THRESHOLD then [Scored(name, Distance(input, name))] else []
  {
    assert (labels + [name])[..|labels|] == labels;
  }

  /** `seen` and `scored` after the candidates `offered`. */
  ghost predicate Tracks(input: string, offered: seq<string>, seen: set<string>, scored: seq<Scored>) {
    seen == Elements(offered) && scored == Score(input, Distinct(offered), true)
  }

  method OfferCandidate(input: string, joined: string, seen: set<string>, scored: seq<Scored>,
                        ghost offered: seq<string>)
      returns (seenNow: set<string>, scoredNow: seq<Scored>)
    requires Tracks(input, offered, seen, scored)
    ensures Tracks(input, offered + [joined], seenNow, scoredNow)
  {
    DistinctAppends(offered, joined);
    assert Distinct(offered) + [] == Distinct(offered);
    ElementsAppend(offered, joined);
    if joined in seen {
      return seen, scored;
    }
    ScoreAppends(input, Distinct(offered), joined, true);
    seenNow, scoredNow := seen + {joined}, scored;
    if Gap(input, joined) <= SUGGESTION_THRESHOLD {
      var distance := Levenshtein(input, joined);
      scoredNow := scored + [Scored(joined, distance)];
    }
  }

  lemma {:induction false} SpecLabelsNext(paths: seq<seq<string>>, input: seq<string>, j: nat, offered: seq<string>)
    requires j < |paths|
    ensures var candidate := Candidate(paths[j], input);
            offered + SpecLabels(paths[..j + 1], input)
            == offered + SpecLabels(paths[..j], input) + if |candidate| == |input| then [Words.Join(candidate)] else []
  {
    assert paths[..j + 1][..j] == paths[..j];
  }

  method OfferSpec(input: string, paths: seq<seq<string>>, commandPath: seq<string>, seen: set<string>,
                   scored: seq<Scored>, ghost offered: seq<string>)
      returns (seenNow: set<string>, scoredNow: seq<Scored>)
    requires Tracks(input, offered, seen, scored)
    ensures Tracks(input, offered + SpecLabels(paths, commandPath), seenNow, scoredNow)
  {
    seenNow, scoredNow := seen, scored;
    ghost var now := offered;
    for j := 0 to |paths|
      invariant now == offered + SpecLabels(paths[..j], commandPath)
      invariant Tracks(input, now, seenNow, scoredNow)
    {
      SpecLabelsNext(paths, commandPath, j, offered);
      var candidate := Candidate(paths[j], commandPath);
      if |candidate| == |commandPath| {
        var joined := Words.Join(candidate);
        seenNow, scoredNow := OfferCandidate(input, joined, seenNow, scoredNow, now);
        now := now + [joined];
      }
    }
    assert paths[..|paths|] == paths;
  }

  method SuggestCommands(cmp: Collation, specs: seq<CommandSpec>, commandPath: seq<string>)
      returns (suggestions: seq<string>)
    ensures suggestions
         == RankByDistance(cmp, Score(Words.Join(commandPath), CandidateLabels(specs, commandPath), false))
  {
    var input := Words.Join(commandPath);
    var verbs := DestructiveVerbsOf(specs);
    var allowDestructive := IntendsDestructionPruned(FinalToken(commandPath), verbs);
    var seen: set<string> := {};
    var scored: seq<Scored> := [];
    ghost var offered: seq<string> := [];
    for i := 0 to |specs|
      invariant offered == AllLabels(specs[..i], commandPath, allowDestructive)
      invariant Tracks(input, offered, seen, scored)
    {
      assert specs[..i + 1][..i] == specs[..i];
      var spec := specs[i];
      if spec.hidden || (spec.destructive && !allowDestructive) {
        continue;
      }
      seen, scored := OfferSpec(input, spec.paths, commandPath, seen, scored, offered);
      offered := offered + SpecLabels(spec.paths, commandPath);
    }
    assert specs[..|specs|] == specs;
    PruningScoresTheSame(input, CandidateLabels(specs, commandPath));
    suggestions := RankByDistance(cmp, scored);
  }

  // ---------- what is suggested ----------

  lemma {:induction false} DistinctIsDistinct(labels: seq<string>)
    ensures forall name :: name in Distinct(labels) <==> name in labels
    ensures NoRepeats(Distinct(labels))
    decreases |labels|
  {
    if labels != [] {
      var n := |labels| - 1;
      DistinctIsDistinct(labels[..n]);
      assert labels == labels[..n] + [labels[n]];
    }
  }

  /** `kept` scores exactly the near labels. */
  ghost predicate KeptExactly(input: string, labels: seq<string>, kept: seq<Scored>) {
    && (forall i :: 0 <= i < |kept| ==>
          kept[i].name in labels && kept[i].distance == Distance(input, kept[i].name) && Near(kept[i]))
    && (forall i :: 0 <= i < |labels| && Near(Scored(labels[i], Distance(input, labels[i]))) ==>
          Scored(labels[i], Distance(input, labels[i])) in kept)
  }

  /** Every label with its distance. */
  function Scores(input: string, labels: seq<string>): seq<Scored> {
    seq(|labels|, i requires 0 <= i < |labels| => Scored(labels[i], Distance(input, labels[i])))
  }

  lemma {:induction false} ScoreIsScores(input: string, labels: seq<string>)
    ensures Score(input, labels, false) == Scores(input, labels)
    decreases |labels|
  {
    if labels != [] {
      var n := |labels| - 1;
      ScoreIsScores(input, labels[..n]);
      assert Scores(input, labels) == Scores(input, labels[..n]) + [Scored(labels[n], Distance(input, labels[n]))];
    }
  }

  lemma {:induction false} KeepsTheNear(xs: seq<Scored>)
    ensures forall x :: x in KeepNear(xs) <==> x in xs && Near(x)
    decreases |xs|
  {
    if xs != [] {
      KeepsTheNear(xs[..|xs| - 1]);
      assert xs == xs[..|xs| - 1] + [xs[|xs| - 1]];
    }
  }

  lemma {:induction false} KeepNearDiffers(xs: seq<Scored>)
    requires NamesDiffer(xs)
    ensures NamesDiffer(KeepNear(xs))
    decreases |xs|
  {
    if xs != [] {
      var n := |xs| - 1;
      KeepNearDiffers(xs[..n]);
      KeepsTheNear(xs[..n]);
      assert forall i :: 0 <= i < |KeepNear(xs[..n])| ==> KeepNear(xs[..n])[i] in KeepNear(xs[..n]);
    }
  }

  lemma {:induction false} KeptOfScores(input: string, labels: seq<string>)
    ensures KeptExactly(input, labels, KeepNear(Scores(input, labels)))
  {
    var scores := Scores(input, labels);
    var kept := KeepNear(scores);
    KeepsTheNear(scores);
    forall i | 0 <= i < |kept|
      ensures kept[i].name in labels && kept[i].distance == Distance(input, kept[i].name) && Near(kept[i])
    {
      assert kept[i] in kept;
      var j :| 0 <= j < |scores| && scores[j] == kept[i];
    }
    forall i | 0 <= i < |labels| && Near(Scored(labels[i], Distance(input, labels[i])))
      ensures Scored(labels[i], Distance(input, labels[i])) in kept
    {
      assert scores[i] in scores;
    }
  }

  ghost predicate NamesDiffer(xs: seq<Scored>) {
    forall i, j :: 0 <= i < j < |xs| ==> xs[i].name != xs[j].name
  }

  lemma {:induction false} PermutationKeepsDistinct(xs: seq<Scored>, ys: seq<Scored>)
    requires multiset(xs) == multiset(ys) && NamesDiffer(xs)
    ensures NamesDiffer(ys)
  {
    forall i, j | 0 <= i < j < |ys| ensures ys[i].name != ys[j].name {
      assert ys[i] in multiset(ys) && ys[j] in multiset(ys);
      var a :| 0 <= a < |xs| && xs[a] == ys[i];
      var b :| 0 <= b < |xs| && xs[b] == ys[j];
      if a == b {
        assert ys == ys[..i] + [ys[i]] + ys[i + 1..j] + [ys[j]] + ys[j + 1..];
        assert multiset(ys)[ys[i]] >= 2;
        OnceEach(xs, a);
        assert false;
      }
    }
  }

  lemma {:induction false} PermutationKeepsKept(input: string, labels: seq<string>, xs: seq<Scored>, ys: seq<Scored>)
    requires multiset(xs) == multiset(ys) && KeptExactly(input, labels, xs)
    ensures KeptExactly(input, labels, ys)
  {
    forall x ensures x in ys <==> x in xs { assert x in multiset(ys) <==> x in multiset(xs); }
    forall i | 0 <= i < |ys|
      ensures ys[i].name in labels && ys[i].distance == Distance(input, ys[i].name) && Near(ys[i])
    {
      assert ys[i] in ys;
      var j :| 0 <= j < |xs| && xs[j] == ys[i];
    }
  }

  lemma {:induction false} OnceEach(xs: seq<Scored>, a: nat)
    requires a < |xs| && NamesDiffer(xs)
    ensures multiset(xs)[xs[a]] == 1
  {
    assert xs == xs[..a] + [xs[a]] + xs[a + 1..];
    assert xs[a] !in xs[..a] && xs[a] !in xs[a + 1..];
  }

  /** The suggestions are the first three, by distance and then by name, of the labels at distance 1 to 3:
      none twice, none out of order, and no nearer one left out. */
  ghost predicate BestThree(cmp: Collation, input: string, labels: seq<string>, suggestions: seq<string>) {
    && |suggestions| <= 3
    && (forall s :: s in suggestions ==> s in labels && 1 <= Distance(input, s) <= 3)
    && (forall i, j :: 0 <= i < j < |suggestions| ==>
          && suggestions[i] != suggestions[j]
          && NotFarther(cmp, input, suggestions[i], suggestions[j]))
    && (forall name :: name in labels && 1 <= Distance(input, name) <= 3 && name !in suggestions ==>
          && |suggestions| == 3
          && forall s :: s in suggestions ==> NotFarther(cmp, input, s, name))
  }

  /** A smaller distance, or the same one and a name that does not sort behind. */
  ghost predicate NotFarther(cmp: Collation, input: string, x: string, y: string) {
    Distance(input, x) < Distance(input, y) || (Distance(input, x) == Distance(input, y) && cmp(x, y) <= 0)
  }

  /** `sorted` lists exactly the near candidates, each once, in order. */
  ghost predicate SortedCandidates(cmp: Collation, input: string, labels: seq<string>, sorted: seq<Scored>) {
    && Sorted(cmp, sorted)
    && NamesDiffer(sorted)
    && KeptExactly(input, labels, sorted)
  }

  lemma {:induction false} SortGivesCandidates(cmp: Collation, input: string, labels: seq<string>)
    requires IsCollation(cmp)
    requires NoRepeats(labels)
    ensures SortedCandidates(cmp, input, labels, Sort(cmp, KeepNear(Score(input, labels, false))))
  {
    var kept := KeepNear(Score(input, labels, false));
    var sorted := Sort(cmp, kept);
    ScoreIsScores(input, labels);
    KeptOfScores(input, labels);
    KeepNearDiffers(Scores(input, labels));
    SortSorts(cmp, kept);
    SortPermutes(cmp, kept);
    PermutationKeepsDistinct(kept, sorted);
    PermutationKeepsKept(input, labels, kept, sorted);
  }

  /** What stands earlier among the sorted candidates is not farther. */
  lemma {:induction false} SortedIsNotFarther(cmp: Collation, input: string, labels: seq<string>, sorted: seq<Scored>,
                                              i: nat, j: nat)
    requires SortedCandidates(cmp, input, labels, sorted) && i < j < |sorted|
    ensures NotFarther(cmp, input, sorted[i].name, sorted[j].name) && sorted[i].name != sorted[j].name
  {
    assert Precedes(cmp, sorted[i], sorted[j]);
  }

  lemma {:induction false} FirstThreeAre(cmp: Collation, input: string, labels: seq<string>, sorted: seq<Scored>)
    requires SortedCandidates(cmp, input, labels, sorted)
    ensures var suggestions := Labels(FirstThree(sorted));
            && |suggestions| == (if |sorted| <= 3 then |sorted| else 3)
            && forall i :: 0 <= i < |suggestions| ==> suggestions[i] == sorted[i].name && suggestions[i] in labels
                                                      && 1 <= Distance(input, suggestions[i]) <= 3
  {
  }

  lemma {:induction false} FirstThreeAreBest(cmp: Collation, input: string, labels: seq<string>, sorted: seq<Scored>)
    requires SortedCandidates(cmp, input, labels, sorted)
    ensures BestThree(cmp, input, labels, Labels(FirstThree(sorted)))
  {
    var suggestions := Labels(FirstThree(sorted));
    FirstThreeAre(cmp, input, labels, sorted);
    forall i, j | 0 <= i < j < |suggestions|
      ensures suggestions[i] != suggestions[j] && NotFarther(cmp, input, suggestions[i], suggestions[j])
    {
      SortedIsNotFarther(cmp, input, labels, sorted, i, j);
    }
    forall name | name in labels && 1 <= Distance(input, name) <= 3 && name !in suggestions
      ensures |suggestions| == 3 && forall s :: s in suggestions ==> NotFarther(cmp, input, s, name)
    {
      LeftOutIsBehind(cmp, input, labels, sorted, name);
    }
  }

  lemma {:induction false} LeftOutIsBehind(cmp: Collation, input: string, labels: seq<string>, sorted: seq<Scored>,
                                           name: string)
    requires SortedCandidates(cmp, input, labels, sorted)
    requires name in labels && 1 <= Distance(input, name) <= 3 && name !in Labels(FirstThree(sorted))
    ensures var suggestions := Labels(FirstThree(sorted));
            |suggestions| == 3 && forall s :: s in suggestions ==> NotFarther(cmp, input, s, name)
  {
    var suggestions := Labels(FirstThree(sorted));
    FirstThreeAre(cmp, input, labels, sorted);
    var l :| 0 <= l < |labels| && labels[l] == name;
    assert Near(Scored(labels[l], Distance(input, labels[l])));
    var k :| 0 <= k < |sorted| && sorted[k] == Scored(name, Distance(input, name));
    forall i | 0 <= i < |suggestions| ensures NotFarther(cmp, input, suggestions[i], name) {
      SortedIsNotFarther(cmp, input, labels, sorted, i, k);
    }
  }

  lemma {:induction false} RankingIsBestThree(cmp: Collation, input: string, labels: seq<string>)
    requires IsCollation(cmp)
    requires NoRepeats(labels)
    ensures BestThree(cmp, input, labels, RankByDistance(cmp, Score(input, labels, true)))
  {
    PruningScoresTheSame(input, labels);
    SortGivesCandidates(cmp, input, labels);
    FirstThreeAreBest(cmp, input, labels, Sort(cmp, KeepNear(Score(input, labels, false))));
  }

  /** What suggestCommands answers. */
  lemma {:induction false} CommandSuggestionsAreBest(cmp: Collation, specs: seq<CommandSpec>, path: seq<string>)
    requires IsCollation(cmp)
    ensures var input, labels := Words.Join(path), CandidateLabels(specs, path);
            && BestThree(cmp, input, labels, RankByDistance(cmp, Score(input, labels, true)))
            && RankByDistance(cmp, Score(input, labels, true)) == RankByDistance(cmp, Score(input, labels, false))
  {
    DistinctIsDistinct(AllLabels(specs, path, Allows(specs, path)));
    RankingIsBestThree(cmp, Words.Join(path), CandidateLabels(specs, path));
    PruningScoresTheSame(Words.Join(path), CandidateLabels(specs, path));
  }

  lemma {:induction false} SpecLabelsCome(paths: seq<seq<string>>, input: seq<string>, name: string)
    requires name in SpecLabels(paths, input)
    ensures exists j :: 0 <= j < |paths| && Words.Join(Candidate(paths[j], input)) == name
    decreases |paths|
  {
    var n := |paths| - 1;
    if name in SpecLabels(paths[..n], input) { SpecLabelsCome(paths[..n], input, name); }
  }

  lemma {:induction false} AllLabelsCome(specs: seq<CommandSpec>, input: seq<string>, allow: bool, name: string)
    requires name in AllLabels(specs, input, allow)
    ensures exists i, j :: 0 <= i < |specs| && Offered(specs[i], allow) && 0 <= j < |specs[i].paths|
              && Words.Join(Candidate(specs[i].paths[j], input)) == name
    decreases |specs|
  {
    var n := |specs| - 1;
    if name in AllLabels(specs[..n], input, allow) {
      AllLabelsCome(specs[..n], input, allow, name);
      var i, j :| 0 <= i < n && Offered(specs[..n][i], allow) && 0 <= j < |specs[..n][i].paths|
               && Words.Join(Candidate(specs[..n][i].paths[j], input)) == name;
      assert specs[i] == specs[..n][i];
    } else {
      SpecLabelsCome(specs[n].paths, input, name);
    }
  }

  /** Unless the last token nearly is a destructive verb, every suggestion is the name of a command
      that is neither hidden nor destructive. */
  lemma {:induction false} NoDestructiveSuggestion(cmp: Collation, specs: seq<CommandSpec>, path: seq<string>,
                                                   s: string)
    requires IsCollation(cmp) && !Allows(specs, path)
    requires s in RankByDistance(cmp, Score(Words.Join(path), CandidateLabels(specs, path), true))
    ensures exists i, j :: 0 <= i < |specs| && !specs[i].hidden && !specs[i].destructive && 0 <= j < |specs[i].paths|
              && Words.Join(Candidate(specs[i].paths[j], path)) == s
  {
    CommandSuggestionsAreBest(cmp, specs, path);
    DistinctIsDistinct(AllLabels(specs, path, false));
    AllLabelsCome(specs, path, false, s);
    var i, j :| 0 <= i < |specs| && Offered(specs[i], false) && 0 <= j < |specs[i].paths|
             && Words.Join(Candidate(specs[i].paths[j], path)) == s;
  }

  // ---------- flags ----------

  const FLAG_SYNONYMS := map["from" := "terminal"]

  function Without(names: seq<string>, name: string): seq<string> {
    if names == [] then []
    else Without(names[..|names| - 1], name) + if names[|names| - 1] == name then [] else [names[|names| - 1]]
  }

  function WithSynonym(flag: string, validFlags: seq<string>, ranked: seq<string>): seq<string> {
    if flag in FLAG_SYNONYMS && FLAG_SYNONYMS[flag] in validFlags
    then FirstThree([FLAG_SYNONYMS[flag]] + Without(ranked, FLAG_SYNONYMS[flag]))
    else ranked
  }

  lemma {:induction false} WithoutOne(names: seq<string>, name: string)
    requires NoRepeats(names)
    ensures forall x :: x in Without(names, name) <==> x in names && x != name
    ensures NoRepeats(Without(names, name))
    decreases |names|
  {
    if names != [] {
      var n := |names| - 1;
      WithoutOne(names[..n], name);
      var before := Without(names[..n], name);
      assert names == names[..n] + [names[n]];
      assert names[n] !in names[..n];
      assert forall i :: 0 <= i < |before| ==> before[i] in before;
    }
  }

  /** `x` stands before `y`. */
  ghost predicate Before(names: seq<string>, x: string, y: string) {
    exists a, b :: 0 <= a < b < |names| && names[a] == x && names[b] == y
  }

  lemma {:induction false} WithoutKeepsOrder(names: seq<string>, name: string, i: nat, j: nat)
    requires NoRepeats(names) && i < j < |Without(names, name)|
    ensures Before(names, Without(names, name)[i], Without(names, name)[j])
    decreases |names|
  {
    var n := |names| - 1;
    var fewer := Without(names[..n], name);
    if j < |fewer| {
      WithoutKeepsOrder(names[..n], name, i, j);
      var a, b :| 0 <= a < b < n && names[..n][a] == fewer[i] && names[..n][b] == fewer[j];
      assert names[a] == fewer[i] && names[b] == fewer[j];
    } else {
      WithoutOne(names[..n], name);
      assert fewer[i] in fewer;
      var a :| 0 <= a < n && names[..n][a] == fewer[i];
      assert names[a] == fewer[i];
    }
  }

  /** `answer` is the synonym and then the best ones, in their order and without it, as far as there is room. */
  ghost predicate SynonymAndBest(synonym: string, best: seq<string>, answer: seq<string>) {
    && answer != [] && answer[0] == synonym
    && (forall i :: 0 < i < |answer| ==> answer[i] in best)
    && (forall i, j :: 0 < i < j < |answer| ==> Before(best, answer[i], answer[j]))
    && (forall s :: s in best && s !in answer ==>
          |answer| == MAX_SUGGESTIONS && forall i :: 0 < i < |answer| ==> Before(best, answer[i], s))
  }

  lemma {:induction false} SynonymComesFirst(synonym: string, best: seq<string>)
    requires NoRepeats(best)
    ensures SynonymAndBest(synonym, best, FirstThree([synonym] + Without(best, synonym)))
  {
    var others := Without(best, synonym);
    var all := [synonym] + others;
    var answer := FirstThree(all);
    WithoutOne(best, synonym);
    assert forall i :: 0 < i < |all| ==> all[i] == others[i - 1] && all[i] in others;
    forall i, j | 0 < i < j < |answer| ensures Before(best, answer[i], answer[j]) {
      WithoutKeepsOrder(best, synonym, i - 1, j - 1);
    }
    forall s | s in best && s !in answer
      ensures |answer| == MAX_SUGGESTIONS && forall i :: 0 < i < |answer| ==> Before(best, answer[i], s)
    {
      assert s != synonym by { assert answer[0] == synonym; }
      var k :| 0 <= k < |others| && others[k] == s;
      assert all[k + 1] == s;
      forall i | 0 < i < |answer| ensures Before(best, answer[i], s) { WithoutKeepsOrder(best, synonym, i - 1, k); }
    }
  }

  /** For distinct flags the answer is the best three, but `terminal` comes first for the flag `from` where it is
      valid, and the best three follow, in their order and without it, as far as there is room. */
  lemma {:induction false} FlagSuggestionsAreBest(cmp: Collation, flag: string, validFlags: seq<string>)
    requires IsCollation(cmp)
    requires NoRepeats(validFlags)
    ensures var best := RankByDistance(cmp, Score(flag, validFlags, false));
            var answer := WithSynonym(flag, validFlags, best);
            && BestThree(cmp, flag, validFlags, best)
            && |answer| <= 3 && (forall s :: s in answer ==> s in validFlags)
            && (forall i, j :: 0 <= i < j < |answer| ==> answer[i] != answer[j])
            && (flag == "from" && "terminal" in validFlags ==> SynonymAndBest("terminal", best, answer))
            && (!(flag == "from" && "terminal" in validFlags) ==> answer == best)
  {
    var best := RankByDistance(cmp, Score(flag, validFlags, false));
    RankingIsBestThree(cmp, flag, validFlags);
    PruningScoresTheSame(flag, validFlags);
    if flag in FLAG_SYNONYMS && FLAG_SYNONYMS[flag] in validFlags {
      WithoutOne(best, FLAG_SYNONYMS[flag]);
      SynonymLeads(FLAG_SYNONYMS[flag], Without(best, FLAG_SYNONYMS[flag]));
      SynonymComesFirst(FLAG_SYNONYMS[flag], best);
    }
  }

  lemma {:induction false} SynonymLeads(name: string, others: seq<string>)
    requires name !in others && forall i, j :: 0 <= i < j < |others| ==> others[i] != others[j]
    ensures var answer := FirstThree([name] + others);
            && 0 < |answer| <= MAX_SUGGESTIONS && answer[0] == name
            && (forall i :: 0 < i < |answer| ==> answer[i] in others)
            && (forall i, j :: 0 <= i < j < |answer| ==> answer[i] != answer[j])
  {
    var answer := FirstThree([name] + others);
    var all := [name] + others;
    assert forall i :: 0 < i < |all| ==> all[i] == others[i - 1];
    assert answer <= all;
  }

  method SuggestFlags(cmp: Collation, flag: string, validFlags: seq<string>) returns (suggestions: seq<string>)
    ensures suggestions == WithSynonym(flag, validFlags, RankByDistance(cmp, Score(flag, validFlags, false)))
  {
    var scored: seq<Scored> := [];
    for i := 0 to |validFlags|
      invariant scored == Score(flag, validFlags[..i], true)
    {
      assert validFlags[..i + 1] == validFlags[..i] + [validFlags[i]];
      ScoreAppends(flag, validFlags[..i], validFlags[i], true);
      if Gap(flag, validFlags[i]) <= SUGGESTION_THRESHOLD {
        var distance := Levenshtein(flag, validFlags[i]);
        scored := scored + [Scored(validFlags[i], distance)];
      }
    }
    assert validFlags[..|validFlags|] == validFlags;
    PruningScoresTheSame(flag, validFlags);
    suggestions := WithSynonym(flag, validFlags, RankByDistance(cmp, scored));
  }
}
