/**
 The edit distance used by typo recovery: the two-row loop computes the recursive definition, which is
 the least cost of any edit script.
 */
module EditDistance {

  function Min(x: nat, y: nat): nat {
    if x <= y then x else y
  }

  function Init(s: string): string
    requires s != ""
  {
    s[..|s| - 1]
  }

  function Last(s: string): char
    requires s != ""
  {
    s[|s| - 1]
  }

  function Distance(a: string, b: string): nat
    decreases |a| + |b|
  {
    if a == "" then |b|
    else if b == "" then |a|
    else
      var cost := if Last(a) == Last(b) then 0 else 1;
      Min(Min(Distance(Init(a), b) + 1, Distance(a, Init(b)) + 1), Distance(Init(a), Init(b)) + cost)
  }

  /** The distance between the first `i` characters of `a` and the first `j` of `b`. */
  function Cell(a: string, b: string, i: nat, j: nat): nat
    requires i <= |a| && j <= |b|
  {
    Distance(a[..i], b[..j])
  }

  lemma {:induction false} CellStep(a: string, b: string, i: nat, j: nat)
    requires 1 <= i <= |a| && 1 <= j <= |b|
    ensures Cell(a, b, i, j)
         == Min(Min(Cell(a, b, i - 1, j) + 1, Cell(a, b, i, j - 1) + 1),
                Cell(a, b, i - 1, j - 1) + if a[i - 1] == b[j - 1] then 0 else 1)
  {
    assert Init(a[..i]) == a[..i - 1] && Init(b[..j]) == b[..j - 1];
  }

  /** `row` holds the cells of row `i` up to, but not including, column `end`. */
  ghost predicate HoldsRow(row: array<nat>, a: string, b: string, i: nat, end: nat)
    requires i <= |a|
    reads row
  {
    row.Length == |b| + 1 && end <= |b| + 1 && forall j :: 0 <= j < end ==> row[j] == Cell(a, b, i, j)
  }

  /** One pass of the inner loop. */
  method FillRow(a: string, b: string, i: nat, previous: array<nat>, current: array<nat>)
    requires 1 <= i <= |a| && previous != current && current.Length == |b| + 1
    requires HoldsRow(previous, a, b, i - 1, |b| + 1)
    modifies current
    ensures HoldsRow(current, a, b, i, |b| + 1)
  {
    current[0] := i;
    var j := 1;
    while j <= |b|
      invariant 1 <= j <= |b| + 1
      invariant HoldsRow(current, a, b, i, j)
      invariant HoldsRow(previous, a, b, i - 1, |b| + 1)
    {
      var cost := if a[i - 1] == b[j - 1] then 0 else 1;
      CellStep(a, b, i, j);
      current[j] := Min(Min(previous[j] + 1, current[j - 1] + 1), previous[j - 1] + cost);
      j := j + 1;
    }
  }

  method Levenshtein(a: string, b: string) returns (distance: nat)
    ensures distance == Distance(a, b)
  {
    var m, n := |a|, |b|;
    if m == 0 {
      return n;
    }
    if n == 0 {
      return m;
    }
    var previous := new nat[n + 1](index => index);
    var current := new nat[n + 1](_ => 0);
    var i := 1;
    while i <= m
      invariant 1 <= i <= m + 1
      invariant current.Length == n + 1 && previous != current && fresh(previous) && fresh(current)
      invariant HoldsRow(previous, a, b, i - 1, n + 1)
    {
      FillRow(a, b, i, previous, current);
      previous, current := current, previous;
      i := i + 1;
    }
    assert a[..m] == a && b[..n] == b;
    return previous[n];
  }

  // ---------- edit scripts ----------

  datatype Edit = Keep | Replace | Insert | Delete

  /** The script, applied from the left, turns `a` into `b`. */
  predicate Turns(script: seq<Edit>, a: string, b: string)
    decreases |script|
  {
    if script == [] then a == "" && b == ""
    else
      var before := script[..|script| - 1];
      match script[|script| - 1]
      case Keep => a != "" && b != "" && Last(a) == Last(b) && Turns(before, Init(a), Init(b))
      case Replace => a != "" && b != "" && Turns(before, Init(a), Init(b))
      case Insert => b != "" && Turns(before, a, Init(b))
      case Delete => a != "" && Turns(before, Init(a), b)
  }

  function Cost(script: seq<Edit>): nat {
    if script == [] then 0
    else Cost(script[..|script| - 1]) + if script[|script| - 1].Keep? then 0 else 1
  }

  lemma {:induction false} NoScriptIsCheaper(script: seq<Edit>, a: string, b: string)
    requires Turns(script, a, b)
    ensures Distance(a, b) <= Cost(script)
    decreases |script|
  {
    if script != [] {
      var before := script[..|script| - 1];
      match script[|script| - 1]
      case Keep => NoScriptIsCheaper(before, Init(a), Init(b));
      case Replace => NoScriptIsCheaper(before, Init(a), Init(b));
      case Insert => NoScriptIsCheaper(before, a, Init(b));
      case Delete => NoScriptIsCheaper(before, Init(a), b);
    }
  }

  lemma {:induction false} SomeScriptIsAsCheap(a: string, b: string) returns (script: seq<Edit>)
    ensures Turns(script, a, b) && Cost(script) == Distance(a, b)
    decreases |a| + |b|
  {
    if a == "" && b == "" {
      script := [];
    } else {
      var before: seq<Edit>, e: Edit;
      if b == "" || (a != "" && Distance(a, b) == Distance(Init(a), b) + 1) {
        before := SomeScriptIsAsCheap(Init(a), b);
        e := Delete;
      } else if a == "" || Distance(a, b) == Distance(a, Init(b)) + 1 {
        before := SomeScriptIsAsCheap(a, Init(b));
        e := Insert;
      } else {
        before := SomeScriptIsAsCheap(Init(a), Init(b));
        e := if Last(a) == Last(b) then Keep else Replace;
      }
      script := before + [e];
      assert script[..|script| - 1] == before;
    }
  }

  // ---------- what pruning by length relies on ----------

  function Gap(a: string, b: string): nat {
    if |a| <= |b| then |b| - |a| else |a| - |b|
  }

  /** The distance is at least the difference in length. */
  lemma {:induction false} GapIsALowerBound(a: string, b: string)
    ensures Gap(a, b) <= Distance(a, b)
    decreases |a| + |b|
  {
    if a != "" && b != "" {
      GapIsALowerBound(Init(a), b);
      GapIsALowerBound(a, Init(b));
      GapIsALowerBound(Init(a), Init(b));
    }
  }

  /** Only equal strings are at distance zero. */
  lemma {:induction false} ZeroMeansEqual(a: string, b: string)
    ensures Distance(a, b) == 0 <==> a == b
    decreases |a| + |b|
  {
    if a != "" && b != "" {
      ZeroMeansEqual(Init(a), Init(b));
      assert a == Init(a) + [Last(a)] && b == Init(b) + [Last(b)];
    }
  }
}
