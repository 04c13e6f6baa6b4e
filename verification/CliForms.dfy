/**
 What a command line means to the argument parser, token by token: which flags take the token after them,
 which stand alone, which value of a flag given more than once is kept. The statements speak of the tokens
 themselves; a flag token is one that starts with two dashes.
 */
module CliForms {
  import opened CommandSpecs
  import opened CliArgs
  import opened Options

  /** The token is `--name` or `--name=` and anything. */
  predicate Mentions(token: string, name: string) {
    token == "--" + name || "--" + name + "=" <= token
  }

  predicate NoMention(tokens: seq<string>, name: string) {
    forall j :: 0 <= j < |tokens| ==> !Mentions(tokens[j], name)
  }

  /** Tokens that start a command and whose last one takes no value from the tokens that follow. */
  predicate Closed(r: Registry, before: seq<string>) {
    && before != [] && !("--" <= before[0])
    && var last := before[|before| - 1];
       "--" <= last ==> last[2..] in r.booleans || '=' in last
  }

  /** Every token is a flag that carries its value or takes none. */
  predicate SelfContained(r: Registry, tokens: seq<string>) {
    forall j :: 0 <= j < |tokens| ==> "--" <= tokens[j] && (tokens[j][2..] in r.booleans || '=' in tokens[j])
  }

  // ---------- single tokens ----------

  lemma {:induction false} FlagTokens(token: string)
    ensures IsFlagToken(token) <==> "--" <= token
  {
    if IsFlagToken(token) { assert token == "--" + token[2..]; }
  }

  lemma {:induction false} NoEqualsIndex(s: string)
    requires NoEquals(s)
    ensures EqualsIndex(s) == |s|
  {
    if EqualsIndex(s) < |s| { assert s[EqualsIndex(s)] == '='; }
  }

  lemma {:induction false} BareFlag(name: string)
    requires NoEquals(name)
    ensures var t := "--" + name; "--" <= t && IsFlagToken(t) && t[2..] == name && EqualsIndex(name) == |name|
  {
    NoEqualsIndex(name);
  }

  lemma {:induction false} AssignedFlag(name: string, v: string)
    requires NoEquals(name)
    ensures var t := "--" + name + "=" + v;
            && IsFlagToken(t) && t[2..] == name + "=" + v && EqualsIndex(t[2..]) == |name|
            && t[2..][..|name|] == name && t[2..][|name| + 1..] == v
  {
    var a := name + "=" + v;
    assert a[..|name|] == name;
    FirstEquals(a, |name|);
  }

  lemma {:induction false} HasEquals(token: string)
    requires "--" <= token && '=' in token
    ensures EqualsIndex(token[2..]) < |token| - 2
  {
    var j :| 0 <= j < |token| && token[j] == '=';
    assert token[0] == '-' && token[1] == '-';
    assert token[2..][j - 2] == '=';
  }

  // ---------- walks that meet at a token ----------

  /** From a token on, only the tokens after it matter once there is a path. */
  lemma {:induction false} SuffixDecides(r: Registry, a: seq<string>, i: nat, b: seq<string>, j: nat,
                                         path: seq<string>, entries: seq<Entry>)
    requires i <= |a| && j <= |b| && a[i..] == b[j..] && path != []
    ensures Walk(r, a, i, path, entries) == Walk(r, b, j, path, entries)
    decreases |a| - i
  {
    assert |a| - i == |b| - j;
    if i < |a| {
      assert a[i] == a[i..][0] == b[j];
      assert a[i + 1..] == a[i..][1..] == b[j + 1..];
      if !IsFlagToken(a[i]) {
        SuffixDecides(r, a, i + 1, b, j + 1, path + [a[i]], entries);
      } else {
        if i + 1 < |a| { assert a[i + 1] == a[i + 1..][0] == b[j + 1]; }
        var (e, next) := TakeFlag(r, a, i, path);
        assert TakeFlag(r, b, j, path) == (e, next - i + j);
        assert a[next..] == a[i..][next - i..] == b[next - i + j..];
        SuffixDecides(r, a, next, b, next - i + j, path, entries + [e]);
      }
    }
  }

  /** The walk stops at the end of closed tokens, whatever follows them. */
  lemma {:induction false} StopsAt(r: Registry, before: seq<string>, rest: seq<string>, i: nat, path: seq<string>,
                                   entries: seq<Entry>)
    requires i <= |before| && Closed(r, before) && (path == [] ==> i == 0)
    ensures var argv := before + rest; var (p, e) := Walk(r, before, i, path, entries);
            && Walk(r, argv, i, path, entries) == Walk(r, argv, |before|, p, e)
            && (p != [])
    decreases |before| - i
  {
    var argv := before + rest;
    if i < |before| {
      assert argv[i] == before[i];
      FlagTokens(before[i]);
      if !IsFlagToken(before[i]) {
        StopsAt(r, before, rest, i + 1, path + [before[i]], entries);
      } else {
        if i + 1 < |before| {
          assert argv[i + 1] == before[i + 1];
        } else if '=' in before[i] {
          HasEquals(before[i]);
        }
        assert path != [];
        assert TakeFlag(r, argv, i, path) == TakeFlag(r, before, i, path);
        var (e, next) := TakeFlag(r, before, i, path);
        StopsAt(r, before, rest, next, path, entries + [e]);
      }
    }
  }

  /** A flag token is never taken as a value: the walk stops at it. */
  lemma {:induction false} StopsAtFlag(r: Registry, argv: seq<string>, i: nat, k: nat, path: seq<string>,
                                       entries: seq<Entry>)
    returns (p: seq<string>, e: seq<Entry>)
    requires i <= k < |argv| && IsFlagToken(argv[k])
    ensures Walk(r, argv, i, path, entries) == Walk(r, argv, k, p, e)
    decreases k - i
  {
    p, e := path, entries;
    if i < k {
      if !IsFlagToken(argv[i]) {
        p, e := StopsAtFlag(r, argv, i + 1, k, path + [argv[i]], entries);
      } else {
        var (taken, next) := TakeFlag(r, argv, i, path);
        p, e := StopsAtFlag(r, argv, next, k, path, entries + [taken]);
      }
    }
  }

  /** A walk adds to the path and to the entries it starts from. */
  lemma {:induction false} WalkAdds(r: Registry, argv: seq<string>, i: nat, path: seq<string>, entries: seq<Entry>,
                                    more: seq<Entry>)
    requires i <= |argv|
    ensures Walk(r, argv, i, path, more + entries).0 == Walk(r, argv, i, path, entries).0
    ensures Walk(r, argv, i, path, more + entries).1 == more + Walk(r, argv, i, path, entries).1
    ensures path <= Walk(r, argv, i, path, entries).0
    decreases |argv| - i
  {
    if i < |argv| {
      if !IsFlagToken(argv[i]) {
        WalkAdds(r, argv, i + 1, path + [argv[i]], entries, more);
      } else {
        var (e, next) := TakeFlag(r, argv, i, path);
        assert more + entries + [e] == more + (entries + [e]);
        WalkAdds(r, argv, next, path, entries + [e], more);
      }
    }
  }

  // ---------- the flag map, name by name ----------

  /** What the values a flag was given leave in the map. */
  function Kept(values: seq<FlagValue>, repeats: bool): Option<FlagValue> {
    if values == [] then None
    else
      var last, before := values[|values| - 1], Kept(values[..|values| - 1], repeats);
      match (last, before)
      case (Text(v), Some(Text(w))) => Some(if repeats then Text(w + [NUL] + v) else last)
      case _ => Some(last)
  }

  function At(flags: map<string, FlagValue>, name: string): Option<FlagValue> {
    if name in flags then Some(flags[name]) else None
  }

  lemma {:induction false} FlagIsKept(entries: seq<Entry>, repeatable: set<string>, name: string)
    ensures At(FlagMap(entries, repeatable), name) == Kept(ValuesOf(entries, name), name in repeatable)
    decreases |entries|
  {
    if entries != [] {
      var n := |entries| - 1;
      FlagIsKept(entries[..n], repeatable, name);
      var before := ValuesOf(entries[..n], name);
      var last := entries[n].value;
      assert before + [] == before;
      assert (before + [last])[..|before|] == before && (before + [last])[|before|] == last;
    }
  }

  lemma {:induction false} ValuesOfJoin(a: seq<Entry>, b: seq<Entry>, name: string)
    ensures ValuesOf(a + b, name) == ValuesOf(a, name) + ValuesOf(b, name)
    decreases |b|
  {
    if b == [] {
      assert a + b == a;
    } else {
      assert (a + b)[..|a + b| - 1] == a + b[..|b| - 1];
      ValuesOfJoin(a, b[..|b| - 1], name);
    }
  }

  /** Tokens that do not mention a flag give it no value. */
  lemma {:induction false} UnmentionedIsUnset(r: Registry, argv: seq<string>, i: nat, path: seq<string>,
                                              entries: seq<Entry>, name: string)
    requires i <= |argv| && NoEquals(name) && NoMention(argv[i..], name)
    ensures ValuesOf(Walk(r, argv, i, path, entries).1, name) == ValuesOf(entries, name)
  {
    assert forall j :: i <= j < |argv| ==> argv[j] == argv[i..][j - i];
    WalkCollects(r, argv, i, path, entries, name);
    NothingGiven(argv, i, name);
  }

  lemma {:induction false} NothingGiven(argv: seq<string>, i: nat, name: string)
    requires i <= |argv| && forall j :: i <= j < |argv| ==> !Mentions(argv[j], name)
    ensures GivenValues(argv, i, name) == []
    decreases |argv| - i
  {
    if i < |argv| {
      assert !Mentions(argv[i], name);
      NothingGiven(argv, i + 1, name);
    }
  }

  // ---------- flags that take the next token ----------

  /** After closed tokens, `--k v` means `--k=v`. */
  lemma {:induction false} SpaceMeansEquals(r: Registry, before: seq<string>, k: string, v: string, rest: seq<string>)
    requires Closed(r, before) && NoEquals(k) && k !in r.booleans && !("--" <= v)
    ensures Parse(r, before + ["--" + k, v] + rest) == Parse(r, before + ["--" + k + "=" + v] + rest)
  {
    var n := |before|;
    var (path, entries) := Walk(r, before, 0, [], []);
    var spaced, joined := before + (["--" + k, v] + rest), before + (["--" + k + "=" + v] + rest);
    assert before + ["--" + k, v] + rest == spaced;
    assert before + ["--" + k + "=" + v] + rest == joined;
    StopsAt(r, before, ["--" + k, v] + rest, 0, [], []);
    StopsAt(r, before, ["--" + k + "=" + v] + rest, 0, [], []);
    BareFlag(k);
    AssignedFlag(k, v);
    assert spaced[n] == "--" + k && spaced[n + 1] == v && joined[n] == "--" + k + "=" + v;
    assert spaced[n + 2..] == rest == joined[n + 1..];
    SuffixDecides(r, spaced, n + 2, joined, n + 1, path, entries + [Entry(k, Text(v))]);
  }

  /** In particular a command followed by one such pair has that one flag. */
  lemma {:induction false} PairIsRead(r: Registry, path: seq<string>, k: string, v: string)
    requires path != [] && (forall i :: 0 <= i < |path| ==> !("--" <= path[i]))
    requires NoEquals(k) && k !in r.booleans && !("--" <= v)
    ensures Parse(r, path + ["--" + k, v]) == ParsedArgs(path, map[k := Text(v)])
  {
    var argv := path + ["--" + k, v];
    WalkPath(r, argv, 0, |path|, []);
    assert argv[0..|path|] == path && [] + path == path;
    BareFlag(k);
    PairEntries(r, argv, path, k, v);
    OneEntry(Entry(k, Text(v)), RepeatableFlags(r, path));
  }

  lemma {:induction false} PairEntries(r: Registry, argv: seq<string>, path: seq<string>, k: string, v: string)
    requires path != [] && |argv| == |path| + 2 && argv[|path|] == "--" + k && argv[|path| + 1] == v
    requires NoEquals(k) && k !in r.booleans && !IsFlagToken(v)
    ensures Walk(r, argv, |path|, path, []) == (path, [Entry(k, Text(v))])
  {
    BareFlag(k);
    var e := [Entry(k, Text(v))];
    assert [] + e == e;
    assert Walk(r, argv, |path| + 2, path, e) == (path, e);
  }

  lemma {:induction false} OneEntry(e: Entry, repeatable: set<string>)
    ensures FlagMap([e], repeatable) == map[e.name := e.value]
  {
    assert [e][..0] == [];
  }

  // ---------- flags that stand alone ----------

  /** After closed tokens a boolean flag, a last flag and a flag before a flag take nothing: the tokens
      after them are read as if they were not there, and the flag is bare unless it is given again. */
  lemma {:induction false} LoneFlagTakesNothing(r: Registry, before: seq<string>, k: string, rest: seq<string>)
    requires Closed(r, before) && NoEquals(k)
    requires k in r.booleans || rest == [] || "--" <= rest[0]
    ensures var with, without := Parse(r, before + ["--" + k] + rest), Parse(r, before + rest);
            && with.commandPath == without.commandPath
            && (forall x :: x != k ==> At(with.flags, x) == At(without.flags, x))
            && (NoMention(rest, k) ==> At(with.flags, k) == Some(Bare))
  {
    var n := |before|;
    var (path, entries) := Walk(r, before, 0, [], []);
    var argv, plain := before + (["--" + k] + rest), before + rest;
    assert before + ["--" + k] + rest == argv;
    StopsAt(r, before, ["--" + k] + rest, 0, [], []);
    StopsAt(r, before, rest, 0, [], []);
    BareFlag(k);
    assert argv[n] == "--" + k && argv[n + 1..] == rest == plain[n..];
    if rest != [] {
      assert argv[n + 1] == rest[0];
      FlagTokens(rest[0]);
    }
    var e := [Entry(k, Bare)];
    assert Walk(r, argv, n, path, entries) == Walk(r, argv, n + 1, path, entries + e);
    SuffixDecides(r, argv, n + 1, plain, n, path, entries + e);
    SuffixDecides(r, plain, n, plain, n, path, entries);
    assert entries + [] == entries && (entries + e) + [] == entries + e;
    WalkAdds(r, plain, n, path, [], entries);
    WalkAdds(r, plain, n, path, [], entries + e);
    var (p, after) := Walk(r, plain, n, path, []);
    assert Walk(r, argv, 0, [], []) == (p, entries + e + after);
    assert Walk(r, plain, 0, [], []) == (p, entries + after);
    var repeatable := RepeatableFlags(r, p);
    assert Parse(r, argv) == ParsedArgs(p, FlagMap(entries + e + after, repeatable));
    LoneEntry(entries, k, after, repeatable);
    if NoMention(rest, k) {
      assert plain[n..] == rest;
      UnmentionedIsUnset(r, plain, n, path, [], k);
    }
  }

  lemma {:induction false} LoneEntry(entries: seq<Entry>, k: string, after: seq<Entry>, repeatable: set<string>)
    ensures var with, without := FlagMap(entries + [Entry(k, Bare)] + after, repeatable),
                                 FlagMap(entries + after, repeatable);
            && (forall x :: x != k ==> At(with, x) == At(without, x))
            && (ValuesOf(after, k) == [] ==> At(with, k) == Some(Bare))
  {
    var e := [Entry(k, Bare)];
    assert e[..0] == [];
    forall x
      ensures var with, without := FlagMap(entries + e + after, repeatable), FlagMap(entries + after, repeatable);
              && (x != k ==> At(with, x) == At(without, x))
              && (x == k && ValuesOf(after, k) == [] ==> At(with, k) == Some(Bare))
    {
      FlagIsKept(entries + e + after, repeatable, x);
      FlagIsKept(entries + after, repeatable, x);
      ValuesOfJoin(entries + e, after, x);
      ValuesOfJoin(entries, e, x);
      ValuesOfJoin(entries, after, x);
      AddsEntry([], Entry(k, Bare), x);
      assert [] + e == e && ValuesOf(entries, x) + [] == ValuesOf(entries, x);
      assert ValuesOf(e, x) == if x == k then [Bare] else [];
    }
  }

  // ---------- before the command ----------

  /** A flag before the command, with flags in front that need no token, leaves the token after it alone
      just when the command starts there; else that token is its value. */
  lemma {:induction false} FlagBeforeCommand(r: Registry, lead: seq<string>, k: string, c: string, rest: seq<string>)
    requires SelfContained(r, lead) && NoMention(lead, k) && NoMention(rest, k)
    requires NoEquals(k) && k !in r.booleans && !("--" <= c)
    ensures var argv := lead + ["--" + k, c] + rest; var p := Parse(r, argv);
            if r.commandIndex(argv) == |lead| + 1
            then At(p.flags, k) == Some(Bare) && [c] <= p.commandPath
            else At(p.flags, k) == Some(Text(c)) && (rest == [] ==> p.commandPath == [])
  {
    var n, argv := |lead|, lead + ["--" + k, c] + rest;
    assert argv[..n] == lead;
    var entries := LeadIsFlags(r, argv, 0, n, [], k);
    BareFlag(k);
    assert argv[n] == "--" + k && argv[n + 1] == c && argv[n + 2..] == rest;
    var bare := r.commandIndex(argv) == n + 1;
    var e := Entry(k, if bare then Bare else Text(c));
    var path := if bare then [c] else [];
    assert [] + [c] == [c];
    assert Walk(r, argv, n, [], entries) == Walk(r, argv, n + 2, path, entries + [e]);
    AddsEntry(entries, e, k);
    UnmentionedIsUnset(r, argv, n + 2, path, entries + [e], k);
    WalkAdds(r, argv, n + 2, path, entries + [e], []);
    FlagIsKept(Walk(r, argv, 0, [], []).1, RepeatableFlags(r, Parse(r, argv).commandPath), k);
  }

  lemma {:induction false} LeadIsFlags(r: Registry, argv: seq<string>, i: nat, n: nat, entries: seq<Entry>, k: string)
    returns (es: seq<Entry>)
    requires i <= n <= |argv| && SelfContained(r, argv[..n]) && NoEquals(k) && NoMention(argv[..n], k)
    ensures Walk(r, argv, i, [], entries) == Walk(r, argv, n, [], es) && ValuesOf(es, k) == ValuesOf(entries, k)
    decreases n - i
  {
    es := entries;
    if i < n {
      assert argv[i] == argv[..n][i];
      FlagTokens(argv[i]);
      if '=' in argv[i] { HasEquals(argv[i]); }
      var (e, next) := TakeFlag(r, argv, i, []);
      assert !Mentions(argv[i], k);
      TakeCollects(r, argv, i, [], k);
      AddsEntry(entries, e, k);
      assert ValuesOf(entries, k) + [] == ValuesOf(entries, k);
      es := LeadIsFlags(r, argv, i + 1, n, entries + [e], k);
    }
  }

  // ---------- flags given more than once ----------

  /** `label`, `skill` and what the most specific command for the path declares repeat. */
  ghost predicate Repeats(r: Registry, path: seq<string>, name: string) {
    name == "label" || name == "skill" || exists s: nat, c: nat :: Declares(r.specs, s, c, path, name)
  }

  /** Path `c` of spec `s` leads the path, no spec has a longer such path, the specs before it only shorter ones,
      and the spec declares the flag repeatable. */
  ghost predicate Declares(specs: seq<CommandSpec>, s: nat, c: nat, path: seq<string>, name: string) {
    && s < |specs| && c < |specs[s].paths|
    && specs[s].repeatable.Some? && name in specs[s].repeatable.value
    && specs[s].paths[c] <= path
    && forall t, d :: 0 <= t < |specs| && 0 <= d < |specs[t].paths| && specs[t].paths[d] <= path ==>
         if t < s then |specs[t].paths[d]| < |specs[s].paths[c]| else |specs[t].paths[d]| <= |specs[s].paths[c]|
  }

  lemma {:induction false} PrefixIsLedBy(c: seq<string>, path: seq<string>)
    ensures IsPrefix(c, path) <==> c <= path
  {
  }

  lemma {:induction false} DeclaresIsChosen(r: Registry, s: nat, c: nat, path: seq<string>, name: string)
    requires Declares(r.specs, s, c, path, name)
    ensures MostSpecific(r.specs, path) == Some(s)
  {
    var specs := r.specs;
    MostSpecificIsFirstLongest(specs, |specs|, path);
    LongestPrefixIsLongest(specs[s].paths, path);
    assert IsPrefix(specs[s].paths[c], path);
    assert MatchLength(specs, s, path) == |specs[s].paths[c]|;
    var best := MostSpecific(specs, path).value;
    LongestPrefixIsLongest(specs[best].paths, path);
    var d :| 0 <= d < |specs[best].paths| && IsPrefix(specs[best].paths[d], path)
             && |specs[best].paths[d]| == MatchLength(specs, best, path);
    assert specs[best].paths[d] <= path;
  }

  lemma {:induction false} ChosenDeclares(r: Registry, s: nat, path: seq<string>, name: string)
    requires MostSpecific(r.specs, path) == Some(s)
    requires r.specs[s].repeatable.Some? && name in r.specs[s].repeatable.value
    ensures exists c: nat :: Declares(r.specs, s, c, path, name)
  {
    var specs := r.specs;
    MostSpecificIsFirstLongest(specs, |specs|, path);
    LongestPrefixIsLongest(specs[s].paths, path);
    var c: nat :| c < |specs[s].paths| && IsPrefix(specs[s].paths[c], path)
             && |specs[s].paths[c]| == MatchLength(specs, s, path);
    forall t, d | 0 <= t < |specs| && 0 <= d < |specs[t].paths| && specs[t].paths[d] <= path
      ensures if t < s then |specs[t].paths[d]| < |specs[s].paths[c]| else |specs[t].paths[d]| <= |specs[s].paths[c]|
    {
      assert IsPrefix(specs[t].paths[d], path);
      LongestPrefixIsLongest(specs[t].paths, path);
      assert MatchLength(specs, t, path) <= MatchLength(specs, s, path);
    }
    assert Declares(specs, s, c, path, name);
  }

  /** The set the parser joins values for is this one. */
  lemma {:induction false} RepeatableExactly(r: Registry, path: seq<string>, name: string)
    ensures name in RepeatableFlags(r, path) <==> Repeats(r, path, name)
  {
    if s: nat, c: nat :| Declares(r.specs, s, c, path, name) {
      DeclaresIsChosen(r, s, c, path, name);
    }
    var best := MostSpecific(r.specs, path);
    if best.Some? && r.specs[best.value].repeatable.Some? && name in r.specs[best.value].repeatable.value {
      ChosenDeclares(r, best.value, path, name);
    }
  }

  /** What the map holds for a flag whose last mention makes the entry of `value`. */
  lemma {:induction false} LastMention(r: Registry, argv: seq<string>, i: nat, name: string, value: FlagValue)
    returns (before: seq<FlagValue>)
    requires i < |argv| && IsFlagToken(argv[i]) && NoEquals(name) && NoMention(argv[i + 1..], name)
    requires forall path :: TakeFlag(r, argv, i, path) == (Entry(name, value), i + 1)
    ensures var p := Parse(r, argv);
            At(p.flags, name) == Kept(before + [value], name in RepeatableFlags(r, p.commandPath))
  {
    var path, entries := StopsAtFlag(r, argv, 0, i, [], []);
    var e := Entry(name, value);
    assert TakeFlag(r, argv, i, path) == (e, i + 1);
    AddsEntry(entries, e, name);
    UnmentionedIsUnset(r, argv, i + 1, path, entries + [e], name);
    FlagIsKept(Walk(r, argv, 0, [], []).1, RepeatableFlags(r, Parse(r, argv).commandPath), name);
    before := ValuesOf(entries, name);
  }

  lemma {:induction false} KeptLast(before: seq<FlagValue>, value: FlagValue, repeats: bool)
    ensures var kept := Kept(before + [value], repeats);
            match (value, Kept(before, repeats))
            case (Text(v), Some(Text(w))) => kept == Some(if repeats then Text(w + [NUL] + v) else value)
            case _ => kept == Some(value)
  {
    assert (before + [value])[..|before|] == before;
  }

  /** The last `--name=v` decides a flag that does not repeat; one that repeats has this value behind the
      others, alone or after a NUL. */
  lemma {:induction false} LastValueWins(r: Registry, argv: seq<string>, i: nat, name: string, v: string)
    requires i < |argv| && argv[i] == "--" + name + "=" + v && NoEquals(name) && NoMention(argv[i + 1..], name)
    ensures var p := Parse(r, argv);
            && name in p.flags
            && if Repeats(r, p.commandPath, name) then EndsIn(p.flags[name], v) else p.flags[name] == Text(v)
  {
    AssignedFlag(name, v);
    var before := LastMention(r, argv, i, name, Text(v));
    var p := Parse(r, argv);
    RepeatableExactly(r, p.commandPath, name);
    var repeats := name in RepeatableFlags(r, p.commandPath);
    KeptLast(before, Text(v), repeats);
    JoinedEnds(if Kept(before, repeats).Some? then Kept(before, repeats).value else Bare, v);
  }

  /** The value is `v`, or ends in a NUL and `v`. */
  predicate EndsIn(value: FlagValue, v: string) {
    value.Text? && (value.value == v
      || (|value.value| > |v| && value.value[|value.value| - |v| - 1..] == [NUL] + v))
  }

  lemma {:induction false} JoinedEnds(value: FlagValue, v: string)
    ensures value.Text? ==> EndsIn(Text(value.value + [NUL] + v), v)
  {
    if value.Text? {
      var t := value.value + [NUL] + v;
      assert t[|t| - |v| - 1..] == [NUL] + v;
    }
  }

  /** A flag given last without a value is bare, whatever values it was given before. */
  lemma {:induction false} LastBareWins(r: Registry, argv: seq<string>, i: nat, name: string)
    requires i < |argv| && argv[i] == "--" + name && NoEquals(name) && NoMention(argv[i + 1..], name)
    requires name in r.booleans || i + 1 == |argv| || "--" <= argv[i + 1]
    ensures At(Parse(r, argv).flags, name) == Some(Bare)
  {
    BareFlag(name);
    if i + 1 < |argv| { FlagTokens(argv[i + 1]); }
    var before := LastMention(r, argv, i, name, Bare);
    KeptLast(before, Bare, name in RepeatableFlags(r, Parse(r, argv).commandPath));
  }

  /** The accessor of a repeated flag refuses one that is given last without a value, and has no values for one that is
      not mentioned. */
  lemma {:induction false} BareIsRefused(r: Registry, argv: seq<string>, name: string)
    requires NoEquals(name)
    ensures NoMention(argv, name) ==> GetRepeatedStringFlag(Parse(r, argv).flags, name) == Values([])
    ensures argv != [] && argv[|argv| - 1] == "--" + name ==>
              GetRepeatedStringFlag(Parse(r, argv).flags, name) == Refused
  {
    if NoMention(argv, name) {
      assert argv[0..] == argv;
      UnmentionedIsUnset(r, argv, 0, [], [], name);
      FlagIsKept(Walk(r, argv, 0, [], []).1, RepeatableFlags(r, Parse(r, argv).commandPath), name);
    }
    if argv != [] && argv[|argv| - 1] == "--" + name {
      assert argv[|argv|..] == [];
      LastBareWins(r, argv, |argv| - 1, name);
    }
  }
}
