/**
 The build guard on entries that run under plain Node: the chunks an entry reaches through static and
 dynamic imports, and the failure when one of them requires electron.
 */
module ChunkGraph {
  import opened Options

  datatype Chunk = Chunk(fileName: string, imports: seq<string>, dynamicImports: seq<string>, requiresElectron: bool)

  type Bundle = map<string, Chunk>

  /** The file names a file imports; a name outside the bundle imports nothing. */
  function Imported(bundle: Bundle, name: string): seq<string> {
    if name in bundle then bundle[name].imports + bundle[name].dynamicImports else []
  }

  /** The chunk of that name names the other among its static or its dynamic imports. */
  ghost predicate Imports(bundle: Bundle, name: string, other: string) {
    name in bundle && (other in bundle[name].imports || other in bundle[name].dynamicImports)
  }

  ghost predicate IsPath(bundle: Bundle, path: seq<string>) {
    path != [] && forall i :: 0 <= i < |path| - 1 ==> Imports(bundle, path[i], path[i + 1])
  }

  /** `name` is reached from `start` by some chain of imports. */
  ghost predicate Reaches(bundle: Bundle, start: string, name: string) {
    exists path :: IsPath(bundle, path) && path[0] == start && path[|path| - 1] == name
  }

  lemma {:induction false} StartReachesItself(bundle: Bundle, start: string)
    ensures Reaches(bundle, start, start)
  {
    assert IsPath(bundle, [start]) && [start][0] == start;
  }

  lemma {:induction false} ReachesImported(bundle: Bundle, start: string, name: string, next: string)
    requires Reaches(bundle, start, name) && next in Imported(bundle, name)
    ensures Reaches(bundle, start, next)
  {
    var path :| IsPath(bundle, path) && path[0] == start && path[|path| - 1] == name;
    var longer := path + [next];
    assert IsPath(bundle, longer) && longer[0] == start && longer[|longer| - 1] == next;
  }

  /** All names the walk can ever meet. */
  function Universe(bundle: Bundle, start: string): set<string> {
    {start} + set name, i | name in bundle && 0 <= i < |Imported(bundle, name)| :: Imported(bundle, name)[i]
  }

  /** The file can be met, and by some chain of imports. */
  ghost predicate Met(bundle: Bundle, start: string, name: string) {
    Reaches(bundle, start, name) && name in Universe(bundle, start)
  }

  /** Every import of a finished file has been seen or waits on the stack. */
  ghost predicate Finished(bundle: Bundle, seen: set<string>, stack: seq<string>) {
    forall name, next :: name in seen && next in Imported(bundle, name) ==> next in seen || next in stack
  }

  /** The walk so far: it meets nothing but reachable files, and has lost none. */
  ghost predicate Explored(bundle: Bundle, start: string, seen: set<string>, stack: seq<string>) {
    && (start in seen || start in stack)
    && (forall name :: name in seen ==> Met(bundle, start, name))
    && (forall name :: name in stack ==> Met(bundle, start, name))
    && Finished(bundle, seen, stack)
  }

  lemma {:induction false} ClosedHoldsPath(bundle: Bundle, start: string, seen: set<string>, path: seq<string>)
    requires Explored(bundle, start, seen, [])
    requires IsPath(bundle, path) && path[0] == start
    ensures path[|path| - 1] in seen
    decreases |path|
  {
    if |path| > 1 {
      var n := |path| - 1;
      ClosedHoldsPath(bundle, start, seen, path[..n]);
      assert path[..n][n - 1] == path[n - 1];
      assert Imports(bundle, path[n - 1], path[n - 1 + 1]);
    }
  }

  /** When nothing is left on the stack, the files seen are exactly the reachable ones. */
  lemma {:induction false} ClosedIsReachable(bundle: Bundle, start: string, seen: set<string>)
    requires Explored(bundle, start, seen, [])
    ensures forall name :: name in seen <==> Reaches(bundle, start, name)
  {
    forall name | Reaches(bundle, start, name) ensures name in seen {
      var path :| IsPath(bundle, path) && path[0] == start && path[|path| - 1] == name;
      ClosedHoldsPath(bundle, start, seen, path);
    }
  }

  lemma {:induction false} SkipFinishes(bundle: Bundle, seen: set<string>, stack: seq<string>, name: string)
    requires Finished(bundle, seen, stack + [name]) && name in seen
    ensures Finished(bundle, seen, stack)
  {
    forall x, next | x in seen && next in Imported(bundle, x) ensures next in seen || next in stack {
      assert next in seen || next in stack + [name];
    }
  }

  lemma {:induction false} SkipSeen(bundle: Bundle, start: string, seen: set<string>, stack: seq<string>, name: string)
    requires Explored(bundle, start, seen, stack + [name]) && name in seen
    ensures Explored(bundle, start, seen, stack)
  {
    SkipFinishes(bundle, seen, stack, name);
    forall x | x in stack ensures Met(bundle, start, x) { assert x in stack + [name]; }
  }

  lemma {:induction false} ImportsAreMet(bundle: Bundle, start: string, name: string)
    requires Reaches(bundle, start, name)
    ensures forall next :: next in Imported(bundle, name) ==> Met(bundle, start, next)
  {
    forall next | next in Imported(bundle, name) ensures Met(bundle, start, next) {
      ReachesImported(bundle, start, name, next);
      assert name in bundle;
    }
  }

  lemma {:induction false} VisitFinishes(bundle: Bundle, seen: set<string>, stack: seq<string>, name: string)
    requires Finished(bundle, seen, stack + [name])
    ensures Finished(bundle, seen + {name}, stack + Imported(bundle, name))
  {
    forall x, next | x in seen + {name} && next in Imported(bundle, x)
      ensures next in seen + {name} || next in stack + Imported(bundle, name)
    {
      if x != name { assert next in seen || next in stack + [name]; }
    }
  }

  lemma {:induction false} VisitUnseen(bundle: Bundle, start: string, seen: set<string>, stack: seq<string>,
                                       name: string)
    requires Explored(bundle, start, seen, stack + [name])
    ensures Explored(bundle, start, seen + {name}, stack + Imported(bundle, name))
  {
    assert name in stack + [name];
    VisitFinishes(bundle, seen, stack, name);
    ImportsAreMet(bundle, start, name);
    forall x | x in stack + Imported(bundle, name) ensures Met(bundle, start, x) {
      if x in stack { assert x in stack + [name]; }
    }
  }

  /** The chunks of the names listed, each name once. */
  ghost predicate ListsChunks(bundle: Bundle, chunks: seq<Chunk>, names: seq<string>) {
    && |chunks| == |names|
    && (forall i :: 0 <= i < |names| ==> names[i] in bundle && chunks[i] == bundle[names[i]])
    && (forall i, j :: 0 <= i < j < |names| ==> names[i] != names[j])
  }

  /** `names` are the files seen that the bundle knows. */
  ghost predicate KnownOf(bundle: Bundle, seen: set<string>, names: seq<string>) {
    forall name :: name in names <==> name in seen && name in bundle
  }

  lemma {:induction false} ListsOneMore(bundle: Bundle, seen: set<string>, name: string, chunks: seq<Chunk>,
                                        names: seq<string>)
    requires ListsChunks(bundle, chunks, names) && KnownOf(bundle, seen, names) && name !in seen && name in bundle
    ensures ListsChunks(bundle, chunks + [bundle[name]], names + [name])
            && KnownOf(bundle, seen + {name}, names + [name])
  {
    assert name !in names;
    forall x ensures x in names + [name] <==> x in seen + {name} && x in bundle {
      assert x in names + [name] <==> x in names || x == name;
    }
  }

  /** The known files that imports lead to, each once, and their chunks. */
  ghost predicate ListsReachable(bundle: Bundle, start: string, chunks: seq<Chunk>, names: seq<string>) {
    && ListsChunks(bundle, chunks, names)
    && forall name :: name in names <==> name in bundle && Reaches(bundle, start, name)
  }

  lemma {:induction false} WalkIsDone(bundle: Bundle, start: string, seen: set<string>, chunks: seq<Chunk>,
                                      names: seq<string>)
    requires Explored(bundle, start, seen, []) && ListsChunks(bundle, chunks, names) && KnownOf(bundle, seen, names)
    ensures ListsReachable(bundle, start, chunks, names)
  {
    ClosedIsReachable(bundle, start, seen);
  }

  ghost predicate IsReachable(bundle: Bundle, start: string, chunk: Chunk) {
    exists name :: name in bundle && Reaches(bundle, start, name) && bundle[name] == chunk
  }

  lemma {:induction false} ListedAreReachable(bundle: Bundle, start: string, chunks: seq<Chunk>, names: seq<string>)
    requires ListsReachable(bundle, start, chunks, names)
    ensures forall chunk :: chunk in chunks <==> IsReachable(bundle, start, chunk)
  {
    forall chunk | chunk in chunks ensures IsReachable(bundle, start, chunk) {
      var i :| 0 <= i < |chunks| && chunks[i] == chunk;
      assert names[i] in names;
    }
    forall chunk | IsReachable(bundle, start, chunk) ensures chunk in chunks {
      var name :| name in bundle && Reaches(bundle, start, name) && bundle[name] == chunk;
      assert name in names;
      var i :| 0 <= i < |names| && names[i] == name;
      assert chunks[i] == chunk;
    }
  }

  method PushAll(stack: seq<string>, imported: seq<string>) returns (pushed: seq<string>)
    ensures pushed == stack + imported
  {
    pushed := stack;
    for k := 0 to |imported|
      invariant pushed == stack + imported[..k]
    {
      pushed := pushed + [imported[k]];
    }
  }

  /** Terminates on any import graph, cyclic or not, and returns each known reachable chunk once and
      nothing else. */
  method CollectReachableChunks(start: string, bundle: Bundle) returns (reachable: seq<Chunk>)
    ensures exists names: seq<string> :: ListsReachable(bundle, start, reachable, names)
    ensures forall chunk :: chunk in reachable <==> IsReachable(bundle, start, chunk)
  {
    var seen: set<string> := {};
    reachable := [];
    ghost var names: seq<string> := [];
    var stack := [start];
    StartReachesItself(bundle, start);
    while |stack| > 0
      invariant Explored(bundle, start, seen, stack)
      invariant ListsChunks(bundle, reachable, names)
      invariant KnownOf(bundle, seen, names)
      decreases Universe(bundle, start) - seen, |stack|
    {
      var fileName := stack[|stack| - 1];
      assert stack == stack[..|stack| - 1] + [fileName] && fileName in stack;
      stack := stack[..|stack| - 1];
      if fileName in seen {
        SkipSeen(bundle, start, seen, stack, fileName);
        continue;
      }
      VisitUnseen(bundle, start, seen, stack, fileName);
      ghost var before := seen;
      seen := seen + {fileName};
      if fileName !in bundle {
        assert stack + [] == stack;
        continue;
      }
      var chunk := bundle[fileName];
      ListsOneMore(bundle, before, fileName, reachable, names);
      reachable := reachable + [chunk];
      names := names + [fileName];
      assert Imported(bundle, fileName) == chunk.imports + chunk.dynamicImports;
      stack := PushAll(stack, chunk.imports + chunk.dynamicImports);
    }
    assert stack == [];
    WalkIsDone(bundle, start, seen, reachable, names);
    ListedAreReachable(bundle, start, reachable, names);
  }

  /** The guard fails, naming an offending chunk, exactly when some reachable chunk requires electron. */
  method AssertNoElectronRequire(start: string, bundle: Bundle) returns (offender: Option<Chunk>)
    ensures offender.Some? <==> exists chunk :: IsReachable(bundle, start, chunk) && chunk.requiresElectron
    ensures offender.Some? ==> IsReachable(bundle, start, offender.value) && offender.value.requiresElectron
  {
    var chunks := CollectReachableChunks(start, bundle);
    for i := 0 to |chunks|
      invariant forall j :: 0 <= j < i ==> !chunks[j].requiresElectron
    {
      if chunks[i].requiresElectron {
        assert chunks[i] in chunks;
        return Some(chunks[i]);
      }
    }
    return None;
  }
}
