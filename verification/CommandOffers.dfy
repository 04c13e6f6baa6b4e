/**
 Which commands a mistyped command line is offered, in terms of the tokens of the line and of the registry: the
 guard on destructive commands, the names that are candidates, and the ranking of what is offered.
 */
module CommandOffers {
  import opened CommandSpecs
  import opened CommandSuggestion
  import opened EditDistance
  import opened Sequences
  import Words

  /** The name ends in a token at most one edit from `token`; one without tokens counts as ending in the empty one. */
  ghost predicate EndsNear(p: seq<string>, token: string) {
    if p == [] then |token| <= 1 else Distance(token, p[|p| - 1]) <= 1
  }

  /** Some destructive command has a name that ends near `token`. */
  ghost predicate ReachesFor(specs: seq<CommandSpec>, token: string) {
    exists i, j :: 0 <= i < |specs| && specs[i].destructive && 0 <= j < |specs[i].paths|
                   && EndsNear(specs[i].paths[j], token)
  }

  ghost predicate Opens(specs: seq<CommandSpec>, path: seq<string>) {
    ReachesFor(specs, if path == [] then "" else path[|path| - 1])
  }

  /** The name `p` stands for `name` when `path` was typed: of the same number of tokens, or, for a single token,
      the first token of any name. */
  ghost predicate Stands(p: seq<string>, path: seq<string>, name: string) {
    (|p| == |path| && name == Words.Join(p)) || (|path| == 1 && p != [] && name == p[0])
  }

  /** Some name of a command that is not hidden, and not destructive while the guard is shut, stands for the name. */
  ghost predicate IsOffered(specs: seq<CommandSpec>, path: seq<string>, name: string) {
    exists i, j :: 0 <= i < |specs| && !specs[i].hidden && (specs[i].destructive ==> Opens(specs, path))
      && 0 <= j < |specs[i].paths| && Stands(specs[i].paths[j], path, name)
  }

  // ---------- the guard ----------

  lemma {:induction false} DistanceToNothing(token: string)
    ensures Distance(token, "") == |token|
  {
  }

  /** The guard opens exactly when the last token is near the last token of a destructive name. */
  lemma {:induction false} GuardOpensExactly(specs: seq<CommandSpec>, path: seq<string>)
    ensures Allows(specs, path) <==> Opens(specs, path)
  {
    var token := FinalToken(path);
    DistanceToNothing(token);
    if verb :| verb in DestructiveVerbs(specs) && Distance(token, verb) <= DESTRUCTIVE_INTENT_THRESHOLD {
      var i, j :| 0 <= i < |specs| && specs[i].destructive && 0 <= j < |specs[i].paths|
        && verb == FinalToken(specs[i].paths[j]);
    }
    if i, j :| 0 <= i < |specs| && specs[i].destructive && 0 <= j < |specs[i].paths|
               && EndsNear(specs[i].paths[j], token)
    {
      assert FinalToken(specs[i].paths[j]) in DestructiveVerbs(specs);
    }
  }

  // ---------- the candidates ----------

  lemma {:induction false} CandidateStands(p: seq<string>, path: seq<string>, name: string)
    ensures |Candidate(p, path)| == |path| && Words.Join(Candidate(p, path)) == name <==> Stands(p, path, name)
  {
    if |path| == 1 && p != [] { assert p[..1] == [p[0]]; }
    if |path| == 1 && |p| == 1 { assert p == [p[0]]; }
  }

  lemma {:induction false} SpecLabelsAre(paths: seq<seq<string>>, path: seq<string>, name: string)
    ensures name in SpecLabels(paths, path) <==> exists j :: 0 <= j < |paths| && Stands(paths[j], path, name)
    decreases |paths|
  {
    if paths != [] {
      var n := |paths| - 1;
      SpecLabelsAre(paths[..n], path, name);
      CandidateStands(paths[n], path, name);
      if j :| 0 <= j < n && Stands(paths[..n][j], path, name) { assert Stands(paths[j], path, name); }
      if j :| 0 <= j < |paths| && Stands(paths[j], path, name) {
        if j < n { assert paths[..n][j] == paths[j]; }
      }
    }
  }

  lemma {:induction false} AllLabelsAre(specs: seq<CommandSpec>, path: seq<string>, allow: bool, name: string)
    ensures name in AllLabels(specs, path, allow)
       <==> exists i :: 0 <= i < |specs| && Offered(specs[i], allow) && name in SpecLabels(specs[i].paths, path)
    decreases |specs|
  {
    if specs != [] {
      var n := |specs| - 1;
      AllLabelsAre(specs[..n], path, allow, name);
      if i :| 0 <= i < n && Offered(specs[..n][i], allow) && name in SpecLabels(specs[..n][i].paths, path) {
        assert specs[i] == specs[..n][i];
      }
      if i :| 0 <= i < |specs| && Offered(specs[i], allow) && name in SpecLabels(specs[i].paths, path) {
        if i < n { assert specs[..n][i] == specs[i]; }
      }
    }
  }

  /** The candidates are the labels on offer, each once. */
  lemma {:induction false} CandidatesExactly(specs: seq<CommandSpec>, path: seq<string>)
    ensures forall name :: name in CandidateLabels(specs, path) <==> IsOffered(specs, path, name)
    ensures NoRepeats(CandidateLabels(specs, path))
  {
    var allow := Allows(specs, path);
    DistinctIsDistinct(AllLabels(specs, path, allow));
    GuardOpensExactly(specs, path);
    forall name ensures name in CandidateLabels(specs, path) <==> IsOffered(specs, path, name) {
      AllLabelsAre(specs, path, allow, name);
      LabelsAreOffered(specs, path, name);
    }
  }

  lemma {:induction false} LabelsAreOffered(specs: seq<CommandSpec>, path: seq<string>, name: string)
    ensures IsOffered(specs, path, name)
       <==> exists i :: 0 <= i < |specs| && Offered(specs[i], Opens(specs, path))
                       && name in SpecLabels(specs[i].paths, path)
  {
    if i, j :| 0 <= i < |specs| && !specs[i].hidden && (specs[i].destructive ==> Opens(specs, path))
               && 0 <= j < |specs[i].paths| && Stands(specs[i].paths[j], path, name)
    {
      SpecLabelsAre(specs[i].paths, path, name);
      assert Offered(specs[i], Opens(specs, path));
    }
    if i :| 0 <= i < |specs| && Offered(specs[i], Opens(specs, path)) && name in SpecLabels(specs[i].paths, path) {
      SpecLabelsAre(specs[i].paths, path, name);
      var j :| 0 <= j < |specs[i].paths| && Stands(specs[i].paths[j], path, name);
      assert IsOffered(specs, path, name);
    }
  }

  // ---------- the answer ----------

  /** What `suggestCommands` answers: at most three labels on offer, one to three edits away, none twice, in order;
      a near name on offer is left out only when there are three that are not farther. */
  lemma {:induction false} SuggestionsExactly(cmp: Collation, specs: seq<CommandSpec>, path: seq<string>)
    requires IsCollation(cmp)
    ensures var input := Words.Join(path);
            var answer := RankByDistance(cmp, Score(input, CandidateLabels(specs, path), false));
            && |answer| <= 3
            && (forall s :: s in answer ==> IsOffered(specs, path, s) && 1 <= Distance(input, s) <= 3)
            && (forall i, j :: 0 <= i < j < |answer| ==>
                 answer[i] != answer[j] && NotFarther(cmp, input, answer[i], answer[j]))
            && (forall s :: IsOffered(specs, path, s) && 1 <= Distance(input, s) <= 3 && s !in answer ==>
                 |answer| == 3 && forall t :: t in answer ==> NotFarther(cmp, input, t, s))
  {
    CommandSuggestionsAreBest(cmp, specs, path);
    CandidatesExactly(specs, path);
  }

  /** With the last token two edits or more from the last token of every destructive name, whatever is suggested is
      the name of a command that is neither hidden nor destructive. */
  lemma {:induction false} FarFromDestruction(cmp: Collation, specs: seq<CommandSpec>, path: seq<string>, s: string)
    requires IsCollation(cmp) && path != []
    requires forall i, j :: 0 <= i < |specs| && specs[i].destructive && 0 <= j < |specs[i].paths| ==>
      var p := specs[i].paths[j];
      if p == [] then |path[|path| - 1]| > 1 else Distance(path[|path| - 1], p[|p| - 1]) > 1
    requires s in RankByDistance(cmp, Score(Words.Join(path), CandidateLabels(specs, path), false))
    ensures exists i, j :: 0 <= i < |specs| && !specs[i].hidden && !specs[i].destructive
              && 0 <= j < |specs[i].paths| && Stands(specs[i].paths[j], path, s)
  {
    SuggestionsExactly(cmp, specs, path);
    assert !Opens(specs, path);
    assert IsOffered(specs, path, s);
    var i, j :| 0 <= i < |specs| && !specs[i].hidden && (specs[i].destructive ==> Opens(specs, path))
      && 0 <= j < |specs[i].paths| && Stands(specs[i].paths[j], path, s);
  }

  /** With it at most one edit from one of these, every destructive command that is not hidden is on offer by each of
      its names. */
  lemma {:induction false} NearDestruction(specs: seq<CommandSpec>, path: seq<string>, i: nat, j: nat, a: nat, b: nat,
                                           name: string)
    requires path != [] && i < |specs| && specs[i].destructive && j < |specs[i].paths| && specs[i].paths[j] != []
    requires var p := specs[i].paths[j]; Distance(path[|path| - 1], p[|p| - 1]) <= 1
    requires a < |specs| && specs[a].destructive && !specs[a].hidden && b < |specs[a].paths|
    requires Stands(specs[a].paths[b], path, name)
    ensures name in CandidateLabels(specs, path)
  {
    CandidatesExactly(specs, path);
    assert Opens(specs, path);
    assert IsOffered(specs, path, name);
  }
}
