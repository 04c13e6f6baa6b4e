/**
 The accessibility bridge's compaction of browser tabs: among the lines rendered for one node's
 children, many inactive tabs give way to one line with their number, and their records go too.
 */
module TabCompaction {
  import opened Options
  import opened Sequences

  /** `active`: the record is selected, or its value reads "1". */
  datatype Record = Record(index: nat, active: bool)

  // ---------- reading a rendered line ----------

  function Indent(depth: nat): string {
    seq(depth, _ => '\t')
  }

  predicate IsDigit(c: char) {
    '0' <= c <= '9'
  }

  /** The number of digits at the start. */
  function DigitsAhead(text: string): (n: nat)
    ensures n <= |text|
    ensures forall i :: 0 <= i < n ==> IsDigit(text[i])
  {
    if text == "" || !IsDigit(text[0]) then 0 else 1 + DigitsAhead(text[1..])
  }

  function Number(digits: string): nat
    requires forall i :: 0 <= i < |digits| ==> IsDigit(digits[i])
  {
    if digits == "" then 0
    else
      assert IsDigit(digits[|digits| - 1]);
      Number(digits[..|digits| - 1]) * 10 + (digits[|digits| - 1] as int - '0' as int)
  }

  function AfterIndent(line: string, depth: nat): string {
    if |line| <= depth then "" else line[depth..]
  }

  /** The element index a line starts with, behind its indentation. */
  function RenderedIndex(line: string, depth: nat): Option<nat> {
    var text := AfterIndent(line, depth);
    var n := DigitsAhead(text);
    if n == 0 then None else Some(Number(text[..n]))
  }

  function Lower(c: char): char {
    if 'A' <= c <= 'Z' then (c as int + 32) as char else c
  }

  /** `text` starts with `word` in any case, and the word ends there. */
  predicate StartsWithWord(text: string, word: string) {
    && |word| <= |text|
    && (forall i :: 0 <= i < |word| ==> Lower(text[i]) == word[i])
    && (|word| == |text| || text[|word|] in {' ', '(', ','} || text[|word|..] == "\n")
  }

  predicate IsDirectTabLine(line: string, depth: nat) {
    && Indent(depth) <= line
    && var text := AfterIndent(line, depth);
       var n := DigitsAhead(text);
       && 0 < n < |text| && text[n] == ' '
       && (StartsWithWord(text[n + 1..], "page tab") || StartsWithWord(text[n + 1..], "tab item")
           || StartsWithWord(text[n + 1..], "tab"))
  }

  predicate Contains(text: string, part: string) {
    part <= text || (text != "" && Contains(text[1..], part))
  }

  /** The last record with this index, as in a dictionary built in order. */
  function Lookup(records: seq<Record>, index: nat): Option<Record> {
    if records == [] then None
    else if records[|records| - 1].index == index then Some(records[|records| - 1])
    else Lookup(records[..|records| - 1], index)
  }

  predicate IsActiveTabLine(line: string, depth: nat, records: seq<Record>) {
    || Contains(line, "(selected")
    || var index := RenderedIndex(line, depth);
       index.Some? && Lookup(records, index.value).Some? && Lookup(records, index.value).value.active
  }

  lemma {:induction false} TabLinesHaveAnIndex(line: string, depth: nat)
    requires IsDirectTabLine(line, depth)
    ensures RenderedIndex(line, depth).Some?
  {
  }

  // ---------- the compaction ----------

  function TabIndexes(lines: seq<string>, start: nat, depth: nat): set<nat> {
    set i | start <= i < |lines| && IsDirectTabLine(lines[i], depth)
  }

  function Inactive(records: seq<Record>, lines: seq<string>, start: nat, depth: nat): set<nat> {
    set i | start <= i < |lines| && IsDirectTabLine(lines[i], depth) && !IsActiveTabLine(lines[i], depth, records)
  }

  /** The lines from `from` on that are not omitted. */
  function Kept(lines: seq<string>, from: nat, omit: set<nat>): seq<string>
    requires from <= |lines|
    decreases |lines| - from
  {
    if from == |lines| then []
    else (if from in omit then [] else [lines[from]]) + Kept(lines, from + 1, omit)
  }

  function IndexesNamed(lines: seq<string>, omit: set<nat>, depth: nat): set<nat> {
    set i | i in omit && i < |lines| && RenderedIndex(lines[i], depth).Some? :: RenderedIndex(lines[i], depth).value
  }

  function KeptRecords(records: seq<Record>, omitted: set<nat>): seq<Record> {
    if records == [] then []
    else
      var last := records[|records| - 1];
      KeptRecords(records[..|records| - 1], omitted) + if last.index in omitted then [] else [last]
  }

  function Decimal(n: nat): string {
    (if n < 10 then "" else Decimal(n / 10)) + [(n % 10 + '0' as int) as char]
  }

  function Marker(depth: nat, count: nat): string {
    Indent(depth) + ("... " + Decimal(count) + " inactive browser tabs omitted")
  }

  /** There are at least ten tabs, and some but not all are active. */
  predicate Compacts(records: seq<Record>, lines: seq<string>, start: nat, depth: nat) {
    var tabs, inactive := TabIndexes(lines, start, depth), Inactive(records, lines, start, depth);
    |tabs| >= 10 && inactive != tabs && inactive != {}
  }

  /** The position of the first tab. */
  function FirstTab(lines: seq<string>, start: nat, depth: nat): (i: nat)
    ensures i <= |lines| || start > |lines|
    ensures TabIndexes(lines, start, depth) != {} ==>
      i in TabIndexes(lines, start, depth) && forall j :: j in TabIndexes(lines, start, depth) ==> i <= j
    decreases |lines| - start
  {
    if start >= |lines| || IsDirectTabLine(lines[start], depth) then start
    else
      assert TabIndexes(lines, start, depth) == TabIndexes(lines, start + 1, depth);
      FirstTab(lines, start + 1, depth)
  }

  function CompactedLines(records: seq<Record>, lines: seq<string>, start: nat, depth: nat): seq<string> {
    if !Compacts(records, lines, start, depth) then lines
    else
      var inactive, first := Inactive(records, lines, start, depth), FirstTab(lines, start, depth);
      lines[..first] + [Marker(depth, |inactive|)] + Kept(lines, first, inactive)
  }

  function CompactedRecords(records: seq<Record>, lines: seq<string>, start: nat, depth: nat): seq<Record> {
    if !Compacts(records, lines, start, depth) then records
    else KeptRecords(records, IndexesNamed(lines, Inactive(records, lines, start, depth), depth))
  }

  // ---------- the lists, changed in place ----------

  lemma {:induction false} KeptOfGap(lines: seq<string>, from: nat, to: nat, omit: set<nat>)
    requires from <= to <= |lines| && forall i :: from <= i < to ==> i !in omit
    ensures Kept(lines, from, omit) == lines[from..to] + Kept(lines, to, omit)
    decreases |lines| - from
  {
    if from == to {
      assert lines[from..to] == [];
    } else {
      var rest := Kept(lines, to, omit);
      KeptOfGap(lines, from + 1, to, omit);
      assert lines[from..to] == [lines[from]] + lines[from + 1..to];
      Associate([lines[from]], lines[from + 1..to], rest);
    }
  }

  /** Deleting line `at` from a list whose tail was already filtered behind it. */
  lemma {:induction false} DeleteStep(lines: seq<string>, at: nat, end: nat, omit: set<nat>)
    requires at < end <= |lines| && at in omit && forall i :: at < i < end ==> i !in omit
    ensures var now := lines[..end] + Kept(lines, end, omit);
            now[..at] + now[at + 1..] == lines[..at] + Kept(lines, at, omit)
  {
    KeptOfGap(lines, at + 1, end, omit);
    SpliceOut(lines, at, end, Kept(lines, end, omit));
  }

  lemma {:induction false} SpliceOut(lines: seq<string>, at: nat, end: nat, rest: seq<string>)
    requires at < end <= |lines|
    ensures var now := lines[..end] + rest; now[..at] + now[at + 1..] == lines[..at] + (lines[at + 1..end] + rest)
  {
    var now := lines[..end] + rest;
    assert now[at + 1..] == lines[at + 1..end] + rest;
  }

  lemma {:induction false} SkipStep(lines: seq<string>, at: nat, end: nat, omit: set<nat>)
    requires at <= end <= |lines| && forall i :: at <= i < end ==> i !in omit
    ensures lines[..end] + Kept(lines, end, omit) == lines[..at] + Kept(lines, at, omit)
  {
    KeptOfGap(lines, at, end, omit);
    assert lines[..end] == lines[..at] + lines[at..end];
  }

  /** The omitted lines among the tabs from the `k`-th on. */
  function Tail(tabs: seq<nat>, k: nat, omit: set<nat>): set<nat>
    requires k <= |tabs|
  {
    set i | i in omit && i in tabs[k..]
  }

  /** Where the deletion has got to: everything from the `k`-th tab on is filtered. */
  function DoneFrom(lines: seq<string>, tabs: seq<nat>, k: nat): nat
    requires k <= |tabs|
  {
    if k == |tabs| then |lines| else tabs[k]
  }

  ghost predicate Deleting(before: seq<string>, now: seq<string>, tabs: seq<nat>, k: nat, omit: set<nat>)
    requires k <= |tabs|
  {
    var end := DoneFrom(before, tabs, k);
    end <= |before| && now == before[..end] + Kept(before, end, omit)
  }

  ghost predicate Collecting(before: seq<string>, tabs: seq<nat>, k: nat, omit: set<nat>, depth: nat,
                             omitted: set<nat>, count: nat)
    requires k <= |tabs|
  {
    omitted == IndexesNamed(before, Tail(tabs, k, omit), depth) && count == |Tail(tabs, k, omit)|
  }

  /** The tabs are increasing line indexes, and every omitted line is one of them. */
  ghost predicate TabList(lines: seq<string>, tabs: seq<nat>, omit: set<nat>) {
    && Increasing(tabs) && omit <= Elements(tabs)
    && (tabs != [] ==> tabs[|tabs| - 1] < |lines|)
  }

  lemma {:induction false} NothingBetween(lines: seq<string>, tabs: seq<nat>, k: nat, omit: set<nat>)
    requires k < |tabs| && TabList(lines, tabs, omit)
    ensures tabs[k] < DoneFrom(lines, tabs, k + 1) <= |lines|
    ensures forall i :: tabs[k] < i < DoneFrom(lines, tabs, k + 1) ==> i !in omit
  {
    forall i | tabs[k] < i < DoneFrom(lines, tabs, k + 1) ensures i !in omit {
      assert forall j :: 0 <= j < |tabs| ==> tabs[j] != i;
      assert i !in Elements(tabs);
    }
  }

  lemma {:induction false} DeletesOne(before: seq<string>, now: seq<string>, tabs: seq<nat>, k: nat, omit: set<nat>)
    requires k < |tabs| && TabList(before, tabs, omit) && Deleting(before, now, tabs, k + 1, omit)
    ensures var at := tabs[k];
            && at < |now| && now[at] == before[at]
            && Deleting(before, if at in omit then now[..at] + now[at + 1..] else now, tabs, k, omit)
  {
    NothingBetween(before, tabs, k, omit);
    var at, end := tabs[k], DoneFrom(before, tabs, k + 1);
    if at in omit { DeleteStep(before, at, end, omit); } else { SkipStep(before, at, end, omit); }
  }

  lemma {:induction false} TailStep(tabs: seq<nat>, k: nat, omit: set<nat>)
    requires k < |tabs| && Increasing(tabs)
    ensures Tail(tabs, k, omit) == Tail(tabs, k + 1, omit) + if tabs[k] in omit then {tabs[k]} else {}
    ensures tabs[k] !in Tail(tabs, k + 1, omit)
  {
    assert tabs[k..] == [tabs[k]] + tabs[k + 1..];
  }

  lemma {:induction false} CollectsOne(before: seq<string>, tabs: seq<nat>, k: nat, omit: set<nat>, depth: nat,
                                       omitted: set<nat>, count: nat)
    requires k < |tabs| && TabList(before, tabs, omit) && tabs[k] < |before|
    requires Collecting(before, tabs, k + 1, omit, depth, omitted, count)
    ensures var at := tabs[k];
            var index := RenderedIndex(before[at], depth);
            if at in omit
            then Collecting(before, tabs, k, omit, depth, omitted + if index.Some? then {index.value} else {},
                            count + 1)
            else Collecting(before, tabs, k, omit, depth, omitted, count)
  {
    var at := tabs[k];
    TailStep(tabs, k, omit);
    if at in omit {
      NamedOfOneMore(before, Tail(tabs, k + 1, omit), at, depth);
    }
  }

  /** `tabs` lists the members of `all` below `i`, in order. */
  ghost predicate MembersBelow(all: set<nat>, i: nat, tabs: seq<nat>) {
    && Increasing(tabs)
    && (forall k :: 0 <= k < |tabs| ==> tabs[k] in all && tabs[k] < i)
    && (forall j :: j in all && j < i ==> j in tabs)
  }

  lemma {:induction false} OneMoreMember(all: set<nat>, i: nat, tabs: seq<nat>)
    requires MembersBelow(all, i, tabs)
    ensures MembersBelow(all, i + 1, if i in all then tabs + [i] else tabs)
  {
    var more := if i in all then tabs + [i] else tabs;
    forall j | j in all && j < i + 1 ensures j in more {
      if j < i { assert j in tabs; }
    }
  }

  lemma {:induction false} TabIndexHere(lines: seq<string>, start: nat, depth: nat, i: nat)
    requires start <= i < |lines|
    ensures i in TabIndexes(lines, start, depth) <==> IsDirectTabLine(lines[i], depth)
  {
  }

  lemma {:induction false} AllMembers(all: set<nat>, i: nat, tabs: seq<nat>)
    requires MembersBelow(all, i, tabs) && forall j :: j in all ==> j < i
    ensures Elements(tabs) == all
  {
  }

  class RenderedLists {
    var records: seq<Record>
    var lines: seq<string>

    constructor (records: seq<Record>, lines: seq<string>)
      ensures this.records == records && this.lines == lines
    {
      this.records := records;
      this.lines := lines;
    }

    /** The tab lines, in order. */
    method FindTabs(start: nat, depth: nat) returns (tabs: seq<nat>)
      ensures Increasing(tabs) && Elements(tabs) == TabIndexes(lines, start, depth)
    {
      tabs := [];
      var i := start;
      while i < |lines|
        invariant start <= i && MembersBelow(TabIndexes(lines, start, depth), i, tabs)
      {
        TabIndexHere(lines, start, depth, i);
        OneMoreMember(TabIndexes(lines, start, depth), i, tabs);
        if IsDirectTabLine(lines[i], depth) {
          tabs := tabs + [i];
        }
        i := i + 1;
      }
      AllMembers(TabIndexes(lines, start, depth), i, tabs);
    }

    method FindInactive(tabs: seq<nat>, depth: nat) returns (inactive: set<nat>)
      requires forall k :: 0 <= k < |tabs| ==> tabs[k] < |lines|
      ensures inactive == set i | i in tabs && i < |lines| && !IsActiveTabLine(lines[i], depth, records)
    {
      inactive := {};
      for k := 0 to |tabs|
        invariant inactive == set i | i in tabs[..k] && i < |lines| && !IsActiveTabLine(lines[i], depth, records)
      {
        assert tabs[..k + 1] == tabs[..k] + [tabs[k]];
        if !IsActiveTabLine(lines[tabs[k]], depth, records) {
          inactive := inactive + {tabs[k]};
        }
      }
      assert tabs[..|tabs|] == tabs;
    }

    /** Deletes the omitted lines from the last to the first, and collects the indexes they name. */
    method DeleteLines(tabs: seq<nat>, omit: set<nat>, depth: nat) returns (omitted: set<nat>, count: nat)
      requires tabs != [] && TabList(lines, tabs, omit)
      modifies this`lines
      ensures tabs[0] <= |old(lines)| && lines == old(lines)[..tabs[0]] + Kept(old(lines), tabs[0], omit)
      ensures omitted == IndexesNamed(old(lines), omit, depth) && count == |omit|
    {
      ghost var before := lines;
      var k := |tabs|;
      omitted, count := {}, 0;
      assert before[..|before|] + [] == before;
      assert Tail(tabs, |tabs|, omit) == {};
      while k > 0
        invariant 0 <= k <= |tabs|
        invariant Deleting(before, lines, tabs, k, omit)
        invariant Collecting(before, tabs, k, omit, depth, omitted, count)
      {
        k := k - 1;
        var at := tabs[k];
        DeletesOne(before, lines, tabs, k, omit);
        NothingBetween(before, tabs, k, omit);
        CollectsOne(before, tabs, k, omit, depth, omitted, count);
        if at !in omit {
          continue;
        }
        var index := RenderedIndex(lines[at], depth);
        if index.Some? {
          omitted := omitted + {index.value};
        }
        lines := lines[..at] + lines[at + 1..];
        count := count + 1;
      }
      assert tabs[0..] == tabs && Tail(tabs, 0, omit) == omit;
    }

    method KeepRecords(omitted: set<nat>)
      modifies this`records
      ensures records == KeptRecords(old(records), omitted)
    {
      var kept: seq<Record> := [];
      for i := 0 to |records|
        invariant records == old(records) && kept == KeptRecords(records[..i], omitted)
      {
        assert records[..i + 1][..i] == records[..i];
        if records[i].index !in omitted {
          kept := kept + [records[i]];
        }
      }
      assert records[..|records|] == records;
      records := kept;
    }

    method CompactTabs(start: nat, depth: nat)
      modifies this
      ensures lines == CompactedLines(old(records), old(lines), start, depth)
      ensures records == CompactedRecords(old(records), old(lines), start, depth)
    {
      var tabs := FindTabs(start, depth);
      TabsAreLines(records, lines, start, depth, tabs);
      if |tabs| < 10 {
        return;
      }
      var inactive := FindInactive(tabs, depth);
      TabFacts(records, lines, start, depth, tabs, inactive);
      if |inactive| == |tabs| || |inactive| == 0 {
        return;
      }
      var omitted, count := DeleteLines(tabs, inactive, depth);
      KeepRecords(omitted);
      SpliceIn(old(lines), tabs[0], Marker(depth, count), Kept(old(lines), tabs[0], inactive));
      lines := lines[..tabs[0]] + [Marker(depth, count)] + lines[tabs[0]..];
    }
  }

  lemma {:induction false} SpliceIn(lines: seq<string>, at: nat, line: string, rest: seq<string>)
    requires at <= |lines|
    ensures var now := lines[..at] + rest; now[..at] + [line] + now[at..] == lines[..at] + [line] + rest
  {
    var now := lines[..at] + rest;
    assert now[..at] == lines[..at] && now[at..] == rest;
  }

  lemma {:induction false} TabsAreLines(records: seq<Record>, lines: seq<string>, start: nat, depth: nat,
                                        tabs: seq<nat>)
    requires Increasing(tabs) && Elements(tabs) == TabIndexes(lines, start, depth)
    ensures forall k :: 0 <= k < |tabs| ==> tabs[k] < |lines|
    ensures |tabs| < 10 ==> !Compacts(records, lines, start, depth)
  {
    MembersCount(tabs);
    assert forall k :: 0 <= k < |tabs| ==> tabs[k] in Elements(tabs);
  }

  lemma {:induction false} TabFacts(records: seq<Record>, lines: seq<string>, start: nat, depth: nat, tabs: seq<nat>,
                                    inactive: set<nat>)
    requires Increasing(tabs) && Elements(tabs) == TabIndexes(lines, start, depth) && |tabs| >= 10
    requires inactive == set i | i in tabs && i < |lines| && !IsActiveTabLine(lines[i], depth, records)
    ensures inactive == Inactive(records, lines, start, depth) && TabList(lines, tabs, inactive)
    ensures Compacts(records, lines, start, depth) <==> |inactive| != 0 && |inactive| != |tabs|
    ensures FirstTab(lines, start, depth) == tabs[0]
  {
    MembersCount(tabs);
    InactiveTabs(records, lines, start, depth, tabs, inactive);
    SubsetSize(inactive, Elements(tabs));
    FirstIsFirst(tabs, lines, start, depth);
  }

  lemma {:induction false} InactiveTabs(records: seq<Record>, lines: seq<string>, start: nat, depth: nat,
                                        tabs: seq<nat>, inactive: set<nat>)
    requires Increasing(tabs) && Elements(tabs) == TabIndexes(lines, start, depth) && |tabs| >= 10
    requires inactive == set i | i in tabs && i < |lines| && !IsActiveTabLine(lines[i], depth, records)
    ensures inactive == Inactive(records, lines, start, depth) && TabList(lines, tabs, inactive)
            && inactive <= Elements(tabs)
  {
    assert forall i :: i in tabs <==> i in Elements(tabs);
    assert tabs[|tabs| - 1] in Elements(tabs);
  }

  ghost predicate Increasing(xs: seq<nat>) {
    forall i, j :: 0 <= i < j < |xs| ==> xs[i] < xs[j]
  }

  lemma {:induction false} MembersCount(xs: seq<nat>)
    requires Increasing(xs)
    ensures |Elements(xs)| == |xs|
    decreases |xs|
  {
    if xs != [] {
      var n := |xs| - 1;
      MembersCount(xs[..n]);
      assert Elements(xs) == Elements(xs[..n]) + {xs[n]};
    }
  }

  lemma {:induction false} NamedOfOneMore(lines: seq<string>, done: set<nat>, at: nat, depth: nat)
    requires at < |lines|
    ensures IndexesNamed(lines, done + {at}, depth) == IndexesNamed(lines, done, depth)
         + if RenderedIndex(lines[at], depth).Some? then {RenderedIndex(lines[at], depth).value} else {}
  {
  }

  lemma {:induction false} FirstIsFirst(tabs: seq<nat>, lines: seq<string>, start: nat, depth: nat)
    requires tabs != [] && Increasing(tabs) && Elements(tabs) == TabIndexes(lines, start, depth)
    ensures FirstTab(lines, start, depth) == tabs[0]
  {
    assert tabs[0] in Elements(tabs);
    assert FirstTab(lines, start, depth) in Elements(tabs);
  }

  // ---------- what the compaction keeps ----------

  /** How many of the lines before `i` are omitted. */
  function OmittedBefore(omit: set<nat>, from: nat, i: nat): nat {
    |set j | j in omit && from <= j < i|
  }

  lemma {:induction false} OmittedBeforeNext(omit: set<nat>, from: nat, i: nat)
    requires from < i
    ensures OmittedBefore(omit, from, i) == OmittedBefore(omit, from + 1, i) + if from in omit then 1 else 0
  {
    var all, later := set j | j in omit && from <= j < i, set j | j in omit && from + 1 <= j < i;
    assert all == later + if from in omit then {from} else {};
  }

  /** Each line that is not omitted stands as many places further up as lines were omitted above it. */
  lemma {:induction false} KeptInOrder(lines: seq<string>, from: nat, omit: set<nat>, i: nat)
    requires from <= i < |lines| && i !in omit
    ensures var at := i - from - OmittedBefore(omit, from, i);
            0 <= at < |Kept(lines, from, omit)| && Kept(lines, from, omit)[at] == lines[i]
    decreases i - from
  {
    if from == i {
      assert (set j | j in omit && from <= j < i) == {};
    } else {
      KeptInOrder(lines, from + 1, omit, i);
      OmittedBeforeNext(omit, from, i);
    }
  }

  /** Nothing else is kept. */
  lemma {:induction false} KeptComesFromLines(lines: seq<string>, from: nat, omit: set<nat>, at: nat)
    requires from <= |lines| && at < |Kept(lines, from, omit)|
    ensures exists i :: from <= i < |lines| && i !in omit && Kept(lines, from, omit)[at] == lines[i]
    decreases |lines| - from
  {
    if from in omit {
      KeptComesFromLines(lines, from + 1, omit, at);
    } else if at > 0 {
      KeptComesFromLines(lines, from + 1, omit, at - 1);
    }
  }

  lemma {:induction false} KeptLength(lines: seq<string>, from: nat, omit: set<nat>)
    requires from <= |lines| && forall i :: i in omit ==> i < |lines|
    ensures |Kept(lines, from, omit)| == |lines| - from - OmittedBefore(omit, from, |lines|)
    decreases |lines| - from
  {
    if from == |lines| {
      assert (set j | j in omit && from <= j < |lines|) == {};
    } else {
      KeptLength(lines, from + 1, omit);
      OmittedBeforeNext(omit, from, |lines|);
    }
  }

  /** The compacted lines have one line in place of all the inactive tabs. */
  lemma {:induction false} CompactionLength(records: seq<Record>, lines: seq<string>, start: nat, depth: nat)
    requires Compacts(records, lines, start, depth)
    ensures |CompactedLines(records, lines, start, depth)| == |lines| + 1 - |Inactive(records, lines, start, depth)|
  {
    var omit, first := Inactive(records, lines, start, depth), FirstTab(lines, start, depth);
    assert omit <= TabIndexes(lines, start, depth);
    KeptLength(lines, first, omit);
    assert (set j | j in omit && first <= j < |lines|) == omit;
  }

  lemma {:induction false} DecimalReadsBack(n: nat)
    ensures Decimal(n) != "" && (forall i :: 0 <= i < |Decimal(n)| ==> IsDigit(Decimal(n)[i]))
    ensures Number(Decimal(n)) == n
  {
    if n >= 10 { DecimalReadsBack(n / 10); }
    var d := Decimal(n);
    assert d[..|d| - 1] == if n < 10 then "" else Decimal(n / 10);
  }

  /** How many of the first `i` records go. */
  function OmittedRecords(records: seq<Record>, omitted: set<nat>, i: nat): nat
    requires i <= |records|
  {
    if i == 0 then 0
    else OmittedRecords(records, omitted, i - 1) + if records[i - 1].index in omitted then 1 else 0
  }

  lemma {:induction false} OmittedRecordsOfPrefix(records: seq<Record>, omitted: set<nat>, n: nat, i: nat)
    requires i <= n <= |records|
    ensures OmittedRecords(records[..n], omitted, i) == OmittedRecords(records, omitted, i)
    decreases i
  {
    if i > 0 { OmittedRecordsOfPrefix(records, omitted, n, i - 1); }
  }

  /** As many records are left as were not omitted. */
  lemma {:induction false} RecordsLeft(records: seq<Record>, omitted: set<nat>)
    ensures |KeptRecords(records, omitted)| == |records| - OmittedRecords(records, omitted, |records|)
    decreases |records|
  {
    if records != [] {
      var n := |records| - 1;
      RecordsLeft(records[..n], omitted);
      OmittedRecordsOfPrefix(records, omitted, n, n);
    }
  }

  /** Each record that is not omitted stands as many places further up as records were omitted before it. */
  lemma {:induction false} RecordsKeptInOrder(records: seq<Record>, omitted: set<nat>, i: nat)
    requires i < |records| && records[i].index !in omitted
    ensures var at := i - OmittedRecords(records, omitted, i);
            0 <= at < |KeptRecords(records, omitted)| && KeptRecords(records, omitted)[at] == records[i]
    decreases |records|
  {
    var n := |records| - 1;
    OmittedRecordsOfPrefix(records, omitted, n, i);
    if i < n {
      RecordsKeptInOrder(records[..n], omitted, i);
    } else {
      RecordsLeft(records[..n], omitted);
    }
  }

  /** The record survives exactly when no omitted line names its index. */
  lemma {:induction false} RecordKept(records: seq<Record>, omitted: set<nat>, r: Record)
    ensures r in KeptRecords(records, omitted) <==> r in records && r.index !in omitted
    decreases |records|
  {
    if records != [] {
      var n := |records| - 1;
      RecordKept(records[..n], omitted, r);
      assert records == records[..n] + [records[n]];
    }
  }

  lemma {:induction false} LookupKept(records: seq<Record>, omitted: set<nat>, index: nat)
    requires index !in omitted
    ensures Lookup(KeptRecords(records, omitted), index) == Lookup(records, index)
    decreases |records|
  {
    if records != [] {
      var n := |records| - 1;
      var before := KeptRecords(records[..n], omitted);
      LookupKept(records[..n], omitted, index);
      if records[n].index !in omitted {
        assert (before + [records[n]])[..|before|] == before;
      } else {
        assert before + [] == before;
      }
    }
  }

  ghost predicate DistinctIndexes(records: seq<Record>) {
    forall i, j :: 0 <= i < j < |records| ==> records[i].index != records[j].index
  }

  lemma {:induction false} LookupOfDistinct(records: seq<Record>, index: nat, r: Record)
    requires DistinctIndexes(records) && r in records
    ensures Lookup(records, index) == Some(r) <==> r.index == index
    decreases |records|
  {
    var n := |records| - 1;
    if r in records[..n] {
      var i :| 0 <= i < n && records[..n][i] == r;
      assert records[i] == r;
      LookupOfDistinct(records[..n], index, r);
    } else {
      LookupComes(records, index);
    }
  }

  lemma {:induction false} LookupComes(records: seq<Record>, index: nat)
    ensures Lookup(records, index).Some? ==>
              Lookup(records, index).value in records && Lookup(records, index).value.index == index
    decreases |records|
  {
    if records != [] { LookupComes(records[..|records| - 1], index); }
  }

  /** Some inactive tab line is that of this record. */
  ghost predicate OfInactiveTab(records: seq<Record>, lines: seq<string>, start: nat, depth: nat, r: Record) {
    exists i :: i in Inactive(records, lines, start, depth)
             && RenderedIndex(lines[i], depth).Some? && Lookup(records, RenderedIndex(lines[i], depth).value) == Some(r)
  }

  /** With distinct record indexes exactly the records of the inactive tabs go. */
  lemma {:induction false} InactiveRecordsGo(records: seq<Record>, lines: seq<string>, start: nat, depth: nat,
                                             r: Record)
    requires DistinctIndexes(records) && r in records
    ensures Compacts(records, lines, start, depth) ==>
              (r !in CompactedRecords(records, lines, start, depth) <==> OfInactiveTab(records, lines, start, depth, r))
  {
    var omit := Inactive(records, lines, start, depth);
    RecordKept(records, IndexesNamed(lines, omit, depth), r);
    forall i | i in omit && RenderedIndex(lines[i], depth).Some?
      ensures Lookup(records, RenderedIndex(lines[i], depth).value) == Some(r)
         <==> r.index == RenderedIndex(lines[i], depth).value
    {
      LookupOfDistinct(records, RenderedIndex(lines[i], depth).value, r);
    }
  }

  // ---------- compacting twice ----------

  lemma {:induction false} MarkerIsNoTab(depth: nat, count: nat)
    ensures !IsDirectTabLine(Marker(depth, count), depth)
  {
    var marker := Marker(depth, count);
    assert AfterIndent(marker, depth)[0] == marker[depth] == '.';
  }

  /** An active tab line is still active once the inactive ones and their records are gone. */
  lemma {:induction false} ActiveStaysActive(records: seq<Record>, lines: seq<string>, start: nat, depth: nat, i: nat)
    requires start <= i < |lines| && IsDirectTabLine(lines[i], depth) && IsActiveTabLine(lines[i], depth, records)
    ensures IsActiveTabLine(lines[i], depth,
              KeptRecords(records, IndexesNamed(lines, Inactive(records, lines, start, depth), depth)))
  {
    var omit := Inactive(records, lines, start, depth);
    var omitted := IndexesNamed(lines, omit, depth);
    TabLinesHaveAnIndex(lines[i], depth);
    var index := RenderedIndex(lines[i], depth).value;
    if !Contains(lines[i], "(selected") {
      assert forall j :: j in omit ==> RenderedIndex(lines[j], depth) != Some(index);
      LookupKept(records, omitted, index);
    }
  }

  /** Compacting a second time changes nothing. */
  lemma {:induction false} CompactionIsIdempotent(records: seq<Record>, lines: seq<string>, start: nat, depth: nat)
    ensures var ls, rs := CompactedLines(records, lines, start, depth), CompactedRecords(records, lines, start, depth);
            CompactedLines(rs, ls, start, depth) == ls && CompactedRecords(rs, ls, start, depth) == rs
  {
    var ls, rs := CompactedLines(records, lines, start, depth), CompactedRecords(records, lines, start, depth);
    if Compacts(records, lines, start, depth) {
      forall j | start <= j < |ls| && IsDirectTabLine(ls[j], depth) ensures IsActiveTabLine(ls[j], depth, rs) {
        TabOfCompacted(records, lines, start, depth, j);
      }
      assert Inactive(rs, ls, start, depth) == {};
    }
  }

  lemma {:induction false} NoTabBeforeFirst(lines: seq<string>, start: nat, depth: nat, j: nat)
    requires start <= j < FirstTab(lines, start, depth) && j < |lines|
    ensures !IsDirectTabLine(lines[j], depth)
  {
    TabIndexHere(lines, start, depth, j);
  }

  lemma {:induction false} BesideMarker(before: seq<string>, marker: string, rest: seq<string>, j: nat)
    requires j < |before| + 1 + |rest|
    ensures (before + [marker] + rest)[j]
         == if j < |before| then before[j] else if j == |before| then marker else rest[j - |before| - 1]
  {
  }

  lemma {:induction false} KeptTabIsActive(records: seq<Record>, lines: seq<string>, start: nat, depth: nat,
                                           first: nat, k: nat)
    requires start <= first <= |lines|
    ensures var omit := Inactive(records, lines, start, depth);
            var kept := Kept(lines, first, omit);
            k < |kept| && IsDirectTabLine(kept[k], depth) ==>
              IsActiveTabLine(kept[k], depth, KeptRecords(records, IndexesNamed(lines, omit, depth)))
  {
    var omit := Inactive(records, lines, start, depth);
    var kept := Kept(lines, first, omit);
    if k < |kept| && IsDirectTabLine(kept[k], depth) {
      KeptComesFromLines(lines, first, omit, k);
      var i :| first <= i < |lines| && i !in omit && kept[k] == lines[i];
      ActiveStaysActive(records, lines, start, depth, i);
    }
  }

  lemma {:induction false} NoTabUpToMarker(lines: seq<string>, start: nat, depth: nat, count: nat, rest: seq<string>,
                                           j: nat)
    requires start <= j <= FirstTab(lines, start, depth) < |lines|
    ensures !IsDirectTabLine((lines[..FirstTab(lines, start, depth)] + [Marker(depth, count)] + rest)[j], depth)
  {
    var first := FirstTab(lines, start, depth);
    BesideMarker(lines[..first], Marker(depth, count), rest, j);
    if j < first { NoTabBeforeFirst(lines, start, depth, j); } else { MarkerIsNoTab(depth, count); }
  }

  lemma {:induction false} TabBehindMarker(records: seq<Record>, lines: seq<string>, start: nat, depth: nat,
                                           first: nat, marker: string, j: nat)
    requires start <= first < |lines| && first < j
    ensures var omit := Inactive(records, lines, start, depth);
            var ls := lines[..first] + [marker] + Kept(lines, first, omit);
            j < |ls| && IsDirectTabLine(ls[j], depth) ==>
              IsActiveTabLine(ls[j], depth, KeptRecords(records, IndexesNamed(lines, omit, depth)))
  {
    var kept := Kept(lines, first, Inactive(records, lines, start, depth));
    if j < first + 1 + |kept| {
      BesideMarker(lines[..first], marker, kept, j);
      KeptTabIsActive(records, lines, start, depth, first, j - first - 1);
    }
  }

  lemma {:induction false} TabOfCompacted(records: seq<Record>, lines: seq<string>, start: nat, depth: nat, j: nat)
    requires start <= j
    ensures var ls, rs := CompactedLines(records, lines, start, depth), CompactedRecords(records, lines, start, depth);
            Compacts(records, lines, start, depth) && j < |ls| && IsDirectTabLine(ls[j], depth) ==>
              IsActiveTabLine(ls[j], depth, rs)
  {
    if Compacts(records, lines, start, depth) {
      var omit, first := Inactive(records, lines, start, depth), FirstTab(lines, start, depth);
      FirstInside(records, lines, start, depth);
      if j <= first {
        NoTabUpToMarker(lines, start, depth, |omit|, Kept(lines, first, omit), j);
      } else {
        TabBehindMarker(records, lines, start, depth, first, Marker(depth, |omit|), j);
      }
    }
  }

  lemma {:induction false} FirstInside(records: seq<Record>, lines: seq<string>, start: nat, depth: nat)
    requires Compacts(records, lines, start, depth)
    ensures start <= FirstTab(lines, start, depth) < |lines|
  {
    assert FirstTab(lines, start, depth) in TabIndexes(lines, start, depth);
  }
}
