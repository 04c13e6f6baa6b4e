/**
 The CLI argument parser: tokens become a command path and flag entries, entries become a flag map,
 and repeatable flags are joined by NUL and split again by their accessor.
 */
module CliArgs {
  import opened CommandSpecs
  import opened Options

  /** A flag given without a value is `Bare`. */
  datatype FlagValue = Bare | Text(value: string)

  datatype Entry = Entry(name: string, value: FlagValue)

  /** What the parser is configured with; `commandIndex` stands for findCliCommandIndex. */
  datatype Registry = Registry(booleans: set<string>, specs: seq<CommandSpec>, commandIndex: seq<string> -> int)

  datatype ParsedArgs = ParsedArgs(commandPath: seq<string>, flags: map<string, FlagValue>)

  const NUL: char := '\0'

  const REPEATABLE_STRING_FLAGS := {"label", "skill"}

  // ---------- tokens ----------

  predicate IsFlagToken(token: string) {
    |token| >= 2 && token[0] == '-' && token[1] == '-'
  }

  /** The index of the first equals sign, or the length if there is none. */
  function EqualsIndex(s: string): (i: nat)
    ensures i <= |s|
    ensures i < |s| ==> s[i] == '='
    ensures forall j :: 0 <= j < i ==> s[j] != '='
  {
    if s == "" || s[0] == '=' then 0 else 1 + EqualsIndex(s[1..])
  }

  /** The flag token takes no following token as its value. */
  predicate StandsAlone(r: Registry, argv: seq<string>, i: nat, path: seq<string>)
    requires i < |argv| && IsFlagToken(argv[i])
  {
    || argv[i][2..] in r.booleans
    || (path == [] && i + 1 == r.commandIndex(argv))
    || i + 1 == |argv|
    || IsFlagToken(argv[i + 1])
  }

  /** The entry a flag token makes, and the index of the next token to look at. */
  function TakeFlag(r: Registry, argv: seq<string>, i: nat, path: seq<string>): (taken: (Entry, nat))
    requires i < |argv| && IsFlagToken(argv[i])
    ensures i < taken.1 <= |argv|
  {
    var assignment := argv[i][2..];
    var equals := EqualsIndex(assignment);
    if equals < |assignment| then (Entry(assignment[..equals], Text(assignment[equals + 1..])), i + 1)
    else if StandsAlone(r, argv, i, path) then (Entry(assignment, Bare), i + 1)
    else (Entry(assignment, Text(argv[i + 1])), i + 2)
  }

  /** The token loop from index `i` on. */
  function Walk(r: Registry, argv: seq<string>, i: nat, path: seq<string>, entries: seq<Entry>)
    : (seq<string>, seq<Entry>)
    requires i <= |argv|
    decreases |argv| - i
  {
    if i == |argv| then (path, entries)
    else if !IsFlagToken(argv[i]) then Walk(r, argv, i + 1, path + [argv[i]], entries)
    else var (e, next) := TakeFlag(r, argv, i, path); Walk(r, argv, next, path, entries + [e])
  }

  // ---------- the spec that says which flags repeat ----------

  predicate IsPrefix(candidate: seq<string>, path: seq<string>) {
    |candidate| <= |path| && candidate == path[..|candidate|]
  }

  /** The length of the longest of `paths` that prefixes `path`, or -1. */
  function LongestPrefix(paths: seq<seq<string>>, path: seq<string>): int {
    if paths == [] then -1
    else
      var last := paths[|paths| - 1];
      var before := LongestPrefix(paths[..|paths| - 1], path);
      if IsPrefix(last, path) && |last| > before then |last| else before
  }

  lemma {:induction false} LongestPrefixIsLongest(paths: seq<seq<string>>, path: seq<string>)
    ensures var n := LongestPrefix(paths, path);
            && n >= -1
            && (n >= 0 ==> exists i :: 0 <= i < |paths| && IsPrefix(paths[i], path) && |paths[i]| == n)
            && (forall i :: 0 <= i < |paths| && IsPrefix(paths[i], path) ==> |paths[i]| <= n)
    decreases |paths|
  {
    if paths != [] {
      LongestPrefixIsLongest(paths[..|paths| - 1], path);
    }
  }

  /** How well a spec matches: the length of its longest matching path, or -1. */
  function MatchLength(specs: seq<CommandSpec>, i: nat, path: seq<string>): int
    requires i < |specs|
  {
    LongestPrefix(specs[i].paths, path)
  }

  /** The spec chosen among the first `n`. */
  function MostSpecificOf(specs: seq<CommandSpec>, n: nat, path: seq<string>): (best: Option<nat>)
    requires n <= |specs|
    ensures best.Some? ==> best.value < n
  {
    if n == 0 then None
    else
      var before := MostSpecificOf(specs, n - 1, path);
      var length := MatchLength(specs, n - 1, path);
      if length >= 0 && (before.None? || length > MatchLength(specs, before.value, path)) then Some(n - 1) else before
  }

  function MostSpecific(specs: seq<CommandSpec>, path: seq<string>): Option<nat> {
    MostSpecificOf(specs, |specs|, path)
  }

  /** The chosen spec is the first of those whose longest matching path is longest; none is chosen only
      if none matches. */
  lemma {:induction false} MostSpecificIsFirstLongest(specs: seq<CommandSpec>, n: nat, path: seq<string>)
    requires n <= |specs|
    ensures var best := MostSpecificOf(specs, n, path);
            match best
            case None => forall i :: 0 <= i < n ==> MatchLength(specs, i, path) < 0
            case Some(b) =>
              && 0 <= MatchLength(specs, b, path)
              && (forall i :: 0 <= i < n ==> MatchLength(specs, i, path) <= MatchLength(specs, b, path))
              && (forall i :: 0 <= i < b ==> MatchLength(specs, i, path) < MatchLength(specs, b, path))
    decreases n
  {
    if n > 0 {
      MostSpecificIsFirstLongest(specs, n - 1, path);
    }
  }

  method SpecForPathPrefix(specs: seq<CommandSpec>, path: seq<string>) returns (best: Option<nat>)
    ensures best == MostSpecific(specs, path)
  {
    best := None;
    var length := -1;
    for s := 0 to |specs|
      invariant best == MostSpecificOf(specs, s, path)
      invariant length == if best.Some? then MatchLength(specs, best.value, path) else -1
      invariant best.Some? ==> length >= 0
    {
      ghost var oldBest, oldLength := best, length;
      var paths := specs[s].paths;
      for c := 0 to |paths|
        invariant length == if LongestPrefix(paths[..c], path) > oldLength
                            then LongestPrefix(paths[..c], path) else oldLength
        invariant best == if LongestPrefix(paths[..c], path) > oldLength then Some(s) else oldBest
      {
        assert paths[..c + 1][..c] == paths[..c];
        if IsPrefix(paths[c], path) && (best.None? || |paths[c]| > length) {
          best := Some(s);
          length := |paths[c]|;
        }
      }
      assert paths[..|paths|] == paths;
    }
  }

  function RepeatableFlags(r: Registry, path: seq<string>): set<string> {
    var best := MostSpecific(r.specs, path);
    if best.Some? && r.specs[best.value].repeatable.Some?
    then REPEATABLE_STRING_FLAGS + r.specs[best.value].repeatable.value
    else REPEATABLE_STRING_FLAGS
  }

  // ---------- the flag map ----------

  function SetFlag(flags: map<string, FlagValue>, e: Entry, repeatable: set<string>): map<string, FlagValue> {
    if e.value.Text? && e.name in repeatable && e.name in flags && flags[e.name].Text?
    then flags[e.name := Text(flags[e.name].value + [NUL] + e.value.value)]
    else flags[e.name := e.value]
  }

  function FlagMap(entries: seq<Entry>, repeatable: set<string>): map<string, FlagValue> {
    if entries == [] then map[]
    else
      var n := |entries| - 1;
      SetFlag(FlagMap(entries[..n], repeatable), entries[n], repeatable)
  }

  function Parse(r: Registry, argv: seq<string>): ParsedArgs {
    var (path, entries) := Walk(r, argv, 0, [], []);
    ParsedArgs(path, FlagMap(entries, RepeatableFlags(r, path)))
  }

  method ParseArgs(r: Registry, argv: seq<string>) returns (parsed: ParsedArgs)
    ensures parsed == Parse(r, argv)
  {
    var commandPath: seq<string> := [];
    var flagEntries: seq<Entry> := [];
    var commandIndex := r.commandIndex(argv);
    var i := 0;
    while i < |argv|
      invariant 0 <= i <= |argv|
      invariant Walk(r, argv, i, commandPath, flagEntries) == Walk(r, argv, 0, [], [])
    {
      var token := argv[i];
      if !IsFlagToken(token) {
        commandPath := commandPath + [token];
        i := i + 1;
        continue;
      }
      var assignment := token[2..];
      var equalsIndex := EqualsIndex(assignment);
      if equalsIndex < |assignment| {
        flagEntries := flagEntries + [Entry(assignment[..equalsIndex], Text(assignment[equalsIndex + 1..]))];
        i := i + 1;
        continue;
      }
      if assignment in r.booleans {
        flagEntries := flagEntries + [Entry(assignment, Bare)];
      } else if commandPath == [] && i + 1 == commandIndex {
        flagEntries := flagEntries + [Entry(assignment, Bare)];
      } else if i + 1 == |argv| || IsFlagToken(argv[i + 1]) {
        flagEntries := flagEntries + [Entry(assignment, Bare)];
      } else {
        flagEntries := flagEntries + [Entry(assignment, Text(argv[i + 1]))];
        i := i + 1;
      }
      i := i + 1;
    }
    var best := SpecForPathPrefix(r.specs, commandPath);
    var repeatable := REPEATABLE_STRING_FLAGS;
    if best.Some? && r.specs[best.value].repeatable.Some? {
      repeatable := repeatable + r.specs[best.value].repeatable.value;
    }
    var flags: map<string, FlagValue> := map[];
    for k := 0 to |flagEntries|
      invariant flags == FlagMap(flagEntries[..k], repeatable)
    {
      assert flagEntries[..k + 1][..k] == flagEntries[..k];
      flags := SetFlag(flags, flagEntries[k], repeatable);
    }
    assert flagEntries[..|flagEntries|] == flagEntries;
    parsed := ParsedArgs(commandPath, flags);
  }

  // ---------- the canonical form ----------

  predicate NoEquals(name: string) {
    forall i :: 0 <= i < |name| ==> name[i] != '='
  }

  function Assignment(name: string, value: string): string {
    "--" + name + "=" + value
  }

  function Assignments(names: seq<string>, flags: map<string, FlagValue>): seq<string>
    requires forall i :: 0 <= i < |names| ==> names[i] in flags && flags[names[i]].Text?
  {
    seq(|names|, i requires 0 <= i < |names| => Assignment(names[i], flags[names[i]].value))
  }

  function BareTokens(names: seq<string>): seq<string> {
    seq(|names|, i requires 0 <= i < |names| => "--" + names[i])
  }

  /** `texts` and `bares` list the names with and without a value, each once, in any order. */
  ghost predicate Lists(flags: map<string, FlagValue>, texts: seq<string>, bares: seq<string>) {
    && (forall i :: 0 <= i < |texts| ==> texts[i] in flags && flags[texts[i]].Text?)
    && (forall i :: 0 <= i < |bares| ==> bares[i] in flags && flags[bares[i]].Bare?)
    && (forall k :: k in flags ==> k in texts || k in bares)
    && (forall i, j :: 0 <= i < j < |texts| ==> texts[i] != texts[j])
    && (forall i, j :: 0 <= i < j < |bares| ==> bares[i] != bares[j])
  }

  ghost function Render(p: ParsedArgs, texts: seq<string>, bares: seq<string>): seq<string>
    requires Lists(p.flags, texts, bares)
  {
    p.commandPath + Assignments(texts, p.flags) + BareTokens(bares)
  }

  ghost predicate WellFormed(path: seq<string>, entries: seq<Entry>) {
    && (forall i :: 0 <= i < |path| ==> !IsFlagToken(path[i]))
    && (forall i :: 0 <= i < |entries| ==> NoEquals(entries[i].name))
  }

  /** No path token looks like a flag and no flag name holds an equals sign. */
  ghost predicate Renderable(p: ParsedArgs) {
    && (forall i :: 0 <= i < |p.commandPath| ==> !IsFlagToken(p.commandPath[i]))
    && (forall k :: k in p.flags ==> NoEquals(k))
  }

  lemma {:induction false} WalkIsWellFormed(r: Registry, argv: seq<string>, i: nat, path: seq<string>,
                                            entries: seq<Entry>)
    requires i <= |argv| && WellFormed(path, entries)
    ensures var (p, e) := Walk(r, argv, i, path, entries); WellFormed(p, e)
    decreases |argv| - i
  {
    if i < |argv| {
      if !IsFlagToken(argv[i]) {
        WalkIsWellFormed(r, argv, i + 1, path + [argv[i]], entries);
      } else {
        var (e, next) := TakeFlag(r, argv, i, path);
        assert NoEquals(e.name);
        WalkIsWellFormed(r, argv, next, path, entries + [e]);
      }
    }
  }

  lemma {:induction false} FlagMapNames(entries: seq<Entry>, repeatable: set<string>, k: string)
    requires k in FlagMap(entries, repeatable)
    ensures exists i :: 0 <= i < |entries| && entries[i].name == k
    decreases |entries|
  {
    if entries != [] {
      var n := |entries| - 1;
      if entries[n].name != k { FlagMapNames(entries[..n], repeatable, k); }
    }
  }

  /** Path tokens are walked into the path. */
  lemma {:induction false} WalkPath(r: Registry, argv: seq<string>, i: nat, end: nat, path: seq<string>)
    requires i <= end <= |argv|
    requires forall j :: i <= j < end ==> !IsFlagToken(argv[j])
    ensures Walk(r, argv, i, path, []) == Walk(r, argv, end, path + argv[i..end], [])
    decreases end - i
  {
    if i == end {
      assert path + argv[i..end] == path;
    } else {
      WalkPath(r, argv, i + 1, end, path + [argv[i]]);
      assert path + [argv[i]] + argv[i + 1..end] == path + argv[i..end];
    }
  }

  lemma {:induction false} FirstEquals(s: string, i: nat)
    requires i < |s| && s[i] == '=' && NoEquals(s[..i])
    ensures EqualsIndex(s) == i
  {
    assert forall j :: 0 <= j < i ==> s[..i][j] == s[j];
  }

  function TextEntries(names: seq<string>, flags: map<string, FlagValue>): seq<Entry>
    requires forall i :: 0 <= i < |names| ==> names[i] in flags
  {
    seq(|names|, i requires 0 <= i < |names| => Entry(names[i], flags[names[i]]))
  }

  /** Assignment tokens become text entries wherever they stand. */
  lemma {:induction false} WalkAssignments(r: Registry, argv: seq<string>, i: nat, path: seq<string>,
                                           entries: seq<Entry>, names: seq<string>, flags: map<string, FlagValue>)
    requires i + |names| <= |argv|
    requires forall j :: 0 <= j < |names| ==> names[j] in flags && flags[names[j]].Text? && NoEquals(names[j])
    requires forall j :: 0 <= j < |names| ==> argv[i + j] == Assignment(names[j], flags[names[j]].value)
    ensures Walk(r, argv, i, path, entries) == Walk(r, argv, i + |names|, path, entries + TextEntries(names, flags))
    decreases |names|
  {
    if names == [] {
      assert entries + TextEntries(names, flags) == entries;
    } else {
      var name, value := names[0], flags[names[0]].value;
      assert argv[i + 0] == Assignment(name, value);
      AssignmentIsTaken(r, argv, i, path, name, value);
      WalkAssignments(r, argv, i + 1, path, entries + [Entry(name, Text(value))], names[1..], flags);
      assert entries + [Entry(name, Text(value))] + TextEntries(names[1..], flags)
          == entries + TextEntries(names, flags);
    }
  }

  lemma {:induction false} AssignmentIsTaken(r: Registry, argv: seq<string>, i: nat, path: seq<string>, name: string,
                                             value: string)
    requires i < |argv| && argv[i] == Assignment(name, value) && NoEquals(name)
    ensures TakeFlag(r, argv, i, path) == (Entry(name, Text(value)), i + 1)
  {
    assert argv[i][2..] == name + "=" + value;
    assert (name + "=" + value)[..|name|] == name;
    FirstEquals(argv[i][2..], |name|);
    assert argv[i][2..][|name| + 1..] == value;
  }

  function BareEntries(names: seq<string>): seq<Entry> {
    seq(|names|, i requires 0 <= i < |names| => Entry(names[i], Bare))
  }

  /** Trailing bare tokens have no value to take. */
  lemma {:induction false} WalkBares(r: Registry, argv: seq<string>, i: nat, path: seq<string>,
                                     entries: seq<Entry>, names: seq<string>)
    requires i + |names| == |argv|
    requires forall j :: 0 <= j < |names| ==> NoEquals(names[j]) && argv[i + j] == "--" + names[j]
    ensures Walk(r, argv, i, path, entries) == (path, entries + BareEntries(names))
    decreases |names|
  {
    if names == [] {
      assert entries + BareEntries(names) == entries;
    } else {
      assert argv[i + 0] == "--" + names[0];
      assert argv[i][2..] == names[0];
      assert EqualsIndex(names[0]) == |names[0]|;
      if |names| > 1 { assert argv[i + 1] == "--" + names[1]; }
      WalkBares(r, argv, i + 1, path, entries + [Entry(names[0], Bare)], names[1..]);
      assert entries + [Entry(names[0], Bare)] + BareEntries(names[1..]) == entries + BareEntries(names);
    }
  }

  /** Entries with distinct names make the map that sends each name to its value. */
  lemma {:induction false} DistinctEntries(entries: seq<Entry>, repeatable: set<string>)
    requires forall i, j :: 0 <= i < j < |entries| ==> entries[i].name != entries[j].name
    ensures forall i :: 0 <= i < |entries| ==>
      entries[i].name in FlagMap(entries, repeatable)
        && FlagMap(entries, repeatable)[entries[i].name] == entries[i].value
    decreases |entries|
  {
    if entries != [] {
      var n := |entries| - 1;
      DistinctEntries(entries[..n], repeatable);
      if entries[n].name in FlagMap(entries[..n], repeatable) {
        FlagMapNames(entries[..n], repeatable, entries[n].name);
        assert false;
      }
    }
  }

  lemma {:induction false} EntriesOfLists(flags: map<string, FlagValue>, texts: seq<string>, bares: seq<string>,
                                          repeatable: set<string>)
    requires Lists(flags, texts, bares)
    ensures FlagMap(TextEntries(texts, flags) + BareEntries(bares), repeatable) == flags
  {
    var entries := TextEntries(texts, flags) + BareEntries(bares);
    DistinctEntries(entries, repeatable);
    var built := FlagMap(entries, repeatable);
    forall k | k in flags ensures k in built && built[k] == flags[k] {
      if k in texts {
        var i :| 0 <= i < |texts| && texts[i] == k;
        assert entries[i] == Entry(k, flags[k]);
      } else {
        var i :| 0 <= i < |bares| && bares[i] == k;
        assert entries[|texts| + i] == Entry(k, Bare);
      }
    }
    forall k | k in built ensures k in flags {
      FlagMapNames(entries, repeatable, k);
    }
  }

  lemma {:induction false} ParseIsRenderable(r: Registry, argv: seq<string>)
    ensures Renderable(Parse(r, argv))
  {
    var (path, entries) := Walk(r, argv, 0, [], []);
    WalkIsWellFormed(r, argv, 0, [], []);
    forall k | k in Parse(r, argv).flags ensures NoEquals(k) {
      FlagMapNames(entries, RepeatableFlags(r, path), k);
    }
  }

  /** `out` is the path, then an assignment for each of `texts`, then a bare token for each of `bares`. */
  ghost predicate LaidOut(out: seq<string>, path: seq<string>, flags: map<string, FlagValue>,
                          texts: seq<string>, bares: seq<string>) {
    && |out| == |path| + |texts| + |bares|
    && (forall j :: 0 <= j < |path| ==> out[j] == path[j])
    && (forall j :: 0 <= j < |texts| ==>
          texts[j] in flags && flags[texts[j]].Text? && out[|path| + j] == Assignment(texts[j], flags[texts[j]].value))
    && (forall j :: 0 <= j < |bares| ==> out[|path| + |texts| + j] == "--" + bares[j])
  }

  lemma {:induction false} RenderLaysOut(p: ParsedArgs, texts: seq<string>, bares: seq<string>)
    requires Lists(p.flags, texts, bares)
    ensures LaidOut(Render(p, texts, bares), p.commandPath, p.flags, texts, bares)
  {
  }

  lemma {:induction false} ListsHaveNoEquals(p: ParsedArgs, texts: seq<string>, bares: seq<string>)
    requires Renderable(p) && Lists(p.flags, texts, bares)
    ensures forall j :: 0 <= j < |texts| ==> NoEquals(texts[j])
    ensures forall j :: 0 <= j < |bares| ==> NoEquals(bares[j])
  {
  }

  lemma {:induction false} RenderWalks(r: Registry, p: ParsedArgs, texts: seq<string>, bares: seq<string>)
    requires Renderable(p) && Lists(p.flags, texts, bares)
    ensures Walk(r, Render(p, texts, bares), 0, [], [])
         == (p.commandPath, TextEntries(texts, p.flags) + BareEntries(bares))
  {
    RenderLaysOut(p, texts, bares);
    ListsHaveNoEquals(p, texts, bares);
    ShapeWalks(r, Render(p, texts, bares), p.commandPath, p.flags, texts, bares);
  }

  lemma {:induction false} ShapeWalks(r: Registry, out: seq<string>, path: seq<string>, flags: map<string, FlagValue>,
                                      texts: seq<string>, bares: seq<string>)
    requires LaidOut(out, path, flags, texts, bares)
    requires forall j :: 0 <= j < |path| ==> !IsFlagToken(path[j])
    requires forall j :: 0 <= j < |texts| ==> NoEquals(texts[j])
    requires forall j :: 0 <= j < |bares| ==> NoEquals(bares[j])
    ensures Walk(r, out, 0, [], []) == (path, TextEntries(texts, flags) + BareEntries(bares))
  {
    assert out[0..|path|] == path;
    WalkPath(r, out, 0, |path|, []);
    assert [] + path == path;
    WalkAssignments(r, out, |path|, path, [], texts, flags);
    assert [] + TextEntries(texts, flags) == TextEntries(texts, flags);
    WalkBares(r, out, |path| + |texts|, path, TextEntries(texts, flags), bares);
  }

  /** Rendering a parse as path tokens, then `--k=v`, then bare `--k`, parses back to the same path
      and flag map, under any registry and command index whatever. */
  lemma {:induction false} RenderedParsesBack(r: Registry, argv: seq<string>, other: Registry, texts: seq<string>,
                                              bares: seq<string>)
    requires Lists(Parse(r, argv).flags, texts, bares)
    ensures Parse(other, Render(Parse(r, argv), texts, bares)) == Parse(r, argv)
  {
    var p := Parse(r, argv);
    ParseIsRenderable(r, argv);
    RenderWalks(other, p, texts, bares);
    EntriesOfLists(p.flags, texts, bares, RepeatableFlags(other, p.commandPath));
  }

  // ---------- repeated flags ----------

  datatype Repeated = Refused | Values(values: seq<string>)

  /** JavaScript's split on NUL: always at least one piece. */
  function SplitNul(s: string): (pieces: seq<string>)
    ensures pieces != []
  {
    if s == "" then [""]
    else
      var rest := SplitNul(s[1..]);
      if s[0] == NUL then [""] + rest else [[s[0]] + rest[0]] + rest[1..]
  }

  function KeepNonEmpty(pieces: seq<string>): seq<string> {
    if pieces == [] then []
    else
      var last := pieces[|pieces| - 1];
      KeepNonEmpty(pieces[..|pieces| - 1]) + if last == "" then [] else [last]
  }

  /** `getRepeatedStringFlag`: a bare flag is refused, a missing or empty one has no values. */
  function GetRepeatedStringFlag(flags: map<string, FlagValue>, name: string): Repeated {
    if name !in flags then Values([])
    else match flags[name]
      case Bare => Refused
      case Text(value) => if value == "" then Values([]) else Values(KeepNonEmpty(SplitNul(value)))
  }

  function JoinNul(values: seq<string>): string
    requires values != []
  {
    var last := values[|values| - 1];
    if |values| == 1 then last else JoinNul(values[..|values| - 1]) + [NUL] + last
  }

  predicate IsPlainValue(v: string) {
    v != "" && NUL !in v
  }

  /** The values of the tokens `--name=value` from index `i` on, in order. */
  function GivenValues(argv: seq<string>, i: nat, name: string): seq<string>
    requires i <= |argv|
    decreases |argv| - i
  {
    if i == |argv| then []
    else
      var prefix := "--" + name + "=";
      (if prefix <= argv[i] then [argv[i][|prefix|..]] else []) + GivenValues(argv, i + 1, name)
  }

  function ValuesOf(entries: seq<Entry>, name: string): seq<FlagValue> {
    if entries == [] then []
    else
      var last := entries[|entries| - 1];
      ValuesOf(entries[..|entries| - 1], name) + if last.name == name then [last.value] else []
  }

  function Texts(values: seq<string>): seq<FlagValue> {
    seq(|values|, i requires 0 <= i < |values| => Text(values[i]))
  }

  lemma {:induction false} AssignmentSplits(token: string, name: string)
    requires IsFlagToken(token) && NoEquals(name)
    ensures var assignment := token[2..]; var equals := EqualsIndex(assignment);
            ("--" + name + "=" <= token) <==> (equals < |assignment| && assignment[..equals] == name)
  {
    var assignment := token[2..];
    var prefix := "--" + name + "=";
    assert token == "--" + assignment;
    var equals := EqualsIndex(assignment);
    if equals < |assignment| && assignment[..equals] == name {
      assert token == prefix + assignment[equals + 1..];
    }
    if prefix <= token {
      assert forall j :: 0 <= j < |name| ==> assignment[j] == prefix[j + 2];
      assert assignment[|name|] == prefix[|name| + 2];
      assert assignment[..|name|] == name;
      FirstEquals(assignment, |name|);
    }
  }

  /** A flag token other than a bare `--name` makes an entry for `name` just when it is `--name=value`. */
  lemma {:induction false} TakeCollects(r: Registry, argv: seq<string>, i: nat, path: seq<string>, name: string)
    requires i < |argv| && IsFlagToken(argv[i]) && NoEquals(name) && argv[i] != "--" + name
    ensures var (e, next) := TakeFlag(r, argv, i, path);
            var prefix := "--" + name + "=";
            && (e.name == name <==> prefix <= argv[i])
            && (e.name == name ==> e.value == Text(argv[i][|prefix|..]))
            && (next == i + 1 || (next == i + 2 && !IsFlagToken(argv[i + 1])))
  {
    AssignmentSplits(argv[i], name);
    assert argv[i] == "--" + argv[i][2..];
    var (e, next) := TakeFlag(r, argv, i, path);
    if e.name == name {
      assert argv[i][2..][|name| + 1..] == argv[i][|name| + 3..];
    }
  }

  /** Whatever stands between them, exactly the `--name=value` tokens make entries for `name`. */
  lemma {:induction false} WalkCollects(r: Registry, argv: seq<string>, i: nat, path: seq<string>,
                                        entries: seq<Entry>, name: string)
    requires i <= |argv| && NoEquals(name)
    requires forall j :: i <= j < |argv| ==> argv[j] != "--" + name
    ensures ValuesOf(Walk(r, argv, i, path, entries).1, name)
         == ValuesOf(entries, name) + Texts(GivenValues(argv, i, name))
    decreases |argv| - i
  {
    if i < |argv| {
      if !IsFlagToken(argv[i]) {
        WalkCollects(r, argv, i + 1, path + [argv[i]], entries, name);
      } else {
        var (e, next) := TakeFlag(r, argv, i, path);
        TakeCollects(r, argv, i, path, name);
        AddsEntry(entries, e, name);
        WalkCollects(r, argv, next, path, entries + [e], name);
        assert Texts(GivenValues(argv, i, name))
            == (if e.name == name then [e.value] else []) + Texts(GivenValues(argv, next, name));
      }
    }
  }

  lemma {:induction false} AddsEntry(entries: seq<Entry>, e: Entry, name: string)
    ensures ValuesOf(entries + [e], name) == ValuesOf(entries, name) + if e.name == name then [e.value] else []
  {
    assert (entries + [e])[..|entries|] == entries;
  }

  /** A repeatable flag given only with values holds them joined by NUL. */
  lemma {:induction false} FlagMapJoins(entries: seq<Entry>, repeatable: set<string>, name: string, values: seq<string>)
    requires name in repeatable && ValuesOf(entries, name) == Texts(values)
    ensures var flags := FlagMap(entries, repeatable);
            if values == [] then name !in flags else name in flags && flags[name] == Text(JoinNul(values))
    decreases |entries|
  {
    if entries != [] {
      var n := |entries| - 1;
      if entries[n].name == name {
        var m := |values| - 1;
        assert Texts(values)[m] == entries[n].value;
        assert Texts(values)[..m] == Texts(values[..m]);
        FlagMapJoins(entries[..n], repeatable, name, values[..m]);
      } else {
        FlagMapJoins(entries[..n], repeatable, name, values);
      }
    }
  }

  lemma {:induction false} SplitJoins(a: string, b: string)
    ensures SplitNul(a + [NUL] + b) == SplitNul(a) + SplitNul(b)
    decreases |a|
  {
    var s := a + [NUL] + b;
    if a == "" {
      assert s[1..] == b;
    } else {
      assert s[1..] == a[1..] + [NUL] + b;
      SplitJoins(a[1..], b);
    }
  }

  lemma {:induction false} SplitPlain(v: string)
    requires NUL !in v
    ensures SplitNul(v) == [v]
    decreases |v|
  {
    if v != "" {
      SplitPlain(v[1..]);
      assert [v[0]] + v[1..] == v;
    }
  }

  lemma {:induction false} PiecesHaveNoNul(s: string)
    ensures forall i :: 0 <= i < |SplitNul(s)| ==> NUL !in SplitNul(s)[i]
    decreases |s|
  {
    if s != "" { PiecesHaveNoNul(s[1..]); }
  }

  lemma {:induction false} KeptAreNonEmpty(pieces: seq<string>)
    ensures forall v :: v in KeepNonEmpty(pieces) ==> v != "" && v in pieces
    decreases |pieces|
  {
    if pieces != [] {
      KeptAreNonEmpty(pieces[..|pieces| - 1]);
    }
  }

  lemma {:induction false} NonEmptyAreKept(pieces: seq<string>)
    requires forall i :: 0 <= i < |pieces| ==> pieces[i] != ""
    ensures KeepNonEmpty(pieces) == pieces
    decreases |pieces|
  {
    if pieces != [] {
      var last := pieces[|pieces| - 1];
      assert pieces == pieces[..|pieces| - 1] + [last];
      NonEmptyAreKept(pieces[..|pieces| - 1]);
    }
  }

  lemma {:induction false} JoinedSplits(values: seq<string>)
    requires values != [] && forall v :: v in values ==> NUL !in v
    ensures SplitNul(JoinNul(values)) == values
    decreases |values|
  {
    var n := |values| - 1;
    assert values[n] in values;
    SplitPlain(values[n]);
    if n == 0 {
      assert values == [values[0]];
    } else {
      JoinedSplits(values[..n]);
      SplitJoins(JoinNul(values[..n]), values[n]);
      assert values == values[..n] + [values[n]];
    }
  }

  lemma {:induction false} PlainReadBack(values: seq<string>)
    requires values != [] && forall v :: v in values ==> IsPlainValue(v)
    ensures JoinNul(values) != "" && KeepNonEmpty(SplitNul(JoinNul(values))) == values
  {
    JoinedSplits(values);
    assert forall i :: 0 <= i < |values| ==> values[i] in values;
    NonEmptyAreKept(values);
    assert values[|values| - 1] in values;
  }

  lemma {:induction false} ReadBackArePlain(values: seq<string>)
    requires values != [] && JoinNul(values) != "" && KeepNonEmpty(SplitNul(JoinNul(values))) == values
    ensures forall v :: v in values ==> IsPlainValue(v)
  {
    KeptAreNonEmpty(SplitNul(JoinNul(values)));
    PiecesHaveNoNul(JoinNul(values));
  }

  /** A repeatable flag given as `--name=v1` to `--name=vn`, whatever other tokens stand between, reads
      back as exactly these values in order if and only if none is empty or holds a NUL. */
  lemma {:induction false} RepeatedFlagReadsBack(r: Registry, argv: seq<string>, name: string)
    requires NoEquals(name) && name in RepeatableFlags(r, Parse(r, argv).commandPath)
    requires forall j :: 0 <= j < |argv| ==> argv[j] != "--" + name
    ensures var values := GivenValues(argv, 0, name);
            GetRepeatedStringFlag(Parse(r, argv).flags, name) == Values(values)
            <==> forall v :: v in values ==> IsPlainValue(v)
  {
    var values := GivenValues(argv, 0, name);
    var (path, entries) := Walk(r, argv, 0, [], []);
    WalkCollects(r, argv, 0, [], [], name);
    assert [] + Texts(values) == Texts(values);
    FlagMapJoins(entries, RepeatableFlags(r, path), name, values);
    if values != [] {
      if forall v :: v in values ==> IsPlainValue(v) {
        PlainReadBack(values);
      } else if JoinNul(values) != "" && KeepNonEmpty(SplitNul(JoinNul(values))) == values {
        ReadBackArePlain(values);
      }
    }
  }
}
