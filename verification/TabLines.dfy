/**
 What the compaction of browser tabs does, in terms of the characters of the lines and the positions in the lists:
 which lines are tabs, which of them are active, and what stands where afterwards.
 */
module TabLines {
  import opened Options
  import opened TabCompaction

  // ---------- a tab line ----------

  predicate AllDigits(s: string) {
    s != "" && forall i :: 0 <= i < |s| ==> '0' <= s[i] <= '9'
  }

  /** The same letters, in any case. */
  predicate Spells(text: string, word: string) {
    && |text| == |word|
    && forall i :: 0 <= i < |word| ==>
         text[i] == word[i] || ('a' <= word[i] <= 'z' && text[i] as int == word[i] as int - 32)
  }

  predicate EndsTabWord(rest: string) {
    rest == "" || rest == "\n" || rest[0] == ' ' || rest[0] == '(' || rest[0] == ','
  }

  /** Tabs, digits, a space, one of three words in any case, and then nothing more of a word. */
  ghost predicate ReadsAsTab(line: string, depth: nat, digits: string, word: string, rest: string) {
    && line == seq(depth, _ => '\t') + (digits + (" " + (word + rest)))
    && AllDigits(digits) && EndsTabWord(rest)
    && (Spells(word, "page tab") || Spells(word, "tab item") || Spells(word, "tab"))
  }

  lemma {:induction false} DigitsEnd(digits: string, rest: string)
    requires forall i :: 0 <= i < |digits| ==> '0' <= digits[i] <= '9'
    requires rest == "" || !('0' <= rest[0] <= '9')
    ensures DigitsAhead(digits + rest) == |digits|
    decreases |digits|
  {
    if digits == "" {
      assert digits + rest == rest;
    } else {
      assert (digits + rest)[1..] == digits[1..] + rest;
      DigitsEnd(digits[1..], rest);
    }
  }

  lemma {:induction false} IndentEnds(line: string, depth: nat, text: string)
    requires line == seq(depth, _ => '\t') + text
    ensures Indent(depth) <= line && AfterIndent(line, depth) == text
  {
    var indent := Indent(depth);
    assert indent + text == line;
  }

  lemma {:induction false} WordStarts(word: string, rest: string, name: string)
    requires forall i :: 0 <= i < |name| ==> name[i] == ' ' || 'a' <= name[i] <= 'z'
    requires Spells(word, name) && EndsTabWord(rest)
    ensures StartsWithWord(word + rest, name)
  {
    assert (word + rest)[|word|..] == rest;
    forall i | 0 <= i < |name| ensures Lower((word + rest)[i]) == name[i] {
      assert (word + rest)[i] == word[i];
    }
  }

  lemma {:induction false} StartSpells(text: string, name: string)
    requires forall i :: 0 <= i < |name| ==> name[i] == ' ' || 'a' <= name[i] <= 'z'
    requires StartsWithWord(text, name)
    ensures Spells(text[..|name|], name) && EndsTabWord(text[|name|..])
  {
    forall i | 0 <= i < |name|
      ensures text[i] == name[i] || ('a' <= name[i] <= 'z' && text[i] as int == name[i] as int - 32)
    {
      assert Lower(text[i]) == name[i];
    }
  }

  lemma {:induction false} TabWord(text: string)
    requires StartsWithWord(text, "page tab") || StartsWithWord(text, "tab item") || StartsWithWord(text, "tab")
    ensures exists n :: 0 <= n <= |text| && EndsTabWord(text[n..])
              && (Spells(text[..n], "page tab") || Spells(text[..n], "tab item") || Spells(text[..n], "tab"))
  {
    if StartsWithWord(text, "page tab") { StartSpells(text, "page tab"); }
    else if StartsWithWord(text, "tab item") { StartSpells(text, "tab item"); }
    else { StartSpells(text, "tab"); }
  }

  lemma {:induction false} TabWordStarts(word: string, rest: string)
    requires (Spells(word, "page tab") || Spells(word, "tab item") || Spells(word, "tab")) && EndsTabWord(rest)
    ensures StartsWithWord(word + rest, "page tab") || StartsWithWord(word + rest, "tab item")
         || StartsWithWord(word + rest, "tab")
  {
    if Spells(word, "page tab") { WordStarts(word, rest, "page tab"); }
    if Spells(word, "tab item") { WordStarts(word, rest, "tab item"); }
    if Spells(word, "tab") { WordStarts(word, rest, "tab"); }
  }

  lemma {:induction false} TabsRead(line: string, depth: nat, digits: string, word: string, rest: string)
    requires ReadsAsTab(line, depth, digits, word, rest)
    ensures IsDirectTabLine(line, depth) && RenderedIndex(line, depth) == Some(Number(digits))
  {
    var text := digits + (" " + (word + rest));
    IndentEnds(line, depth, text);
    DigitsEnd(digits, " " + (word + rest));
    assert text[|digits| + 1..] == word + rest && text[..|digits|] == digits;
    TabWordStarts(word, rest);
  }

  lemma {:induction false} Reassembled(line: string, depth: nat, n: nat, m: nat)
    requires Indent(depth) <= line
    requires var text := AfterIndent(line, depth); n < |text| && text[n] == ' ' && n + 1 + m <= |text|
    ensures var text := AfterIndent(line, depth); var behind := text[n + 1..];
            line == Indent(depth) + (text[..n] + (" " + (behind[..m] + behind[m..])))
  {
    var text := AfterIndent(line, depth);
    var behind := text[n + 1..];
    assert line == Indent(depth) + text;
    assert behind[..m] + behind[m..] == behind && text == text[..n] + (" " + behind);
  }

  lemma {:induction false} ReadTab(line: string, depth: nat) returns (digits: string, word: string, rest: string)
    requires IsDirectTabLine(line, depth)
    ensures ReadsAsTab(line, depth, digits, word, rest)
  {
    var text := AfterIndent(line, depth);
    var n := DigitsAhead(text);
    var behind := text[n + 1..];
    TabWord(behind);
    var m :| 0 <= m <= |behind| && EndsTabWord(behind[m..])
      && (Spells(behind[..m], "page tab") || Spells(behind[..m], "tab item") || Spells(behind[..m], "tab"));
    Reassembled(line, depth, n, m);
    digits, word, rest := text[..n], behind[..m], behind[m..];
  }

  /** The tab lines are the lines of this form. */
  lemma {:induction false} TabLinesExactly(line: string, depth: nat)
    ensures IsDirectTabLine(line, depth) <==> exists digits, word, rest :: ReadsAsTab(line, depth, digits, word, rest)
  {
    if IsDirectTabLine(line, depth) {
      var digits, word, rest := ReadTab(line, depth);
    }
    if digits, word, rest :| ReadsAsTab(line, depth, digits, word, rest) {
      TabsRead(line, depth, digits, word, rest);
    }
  }

  /** The digits are read, and the count is printed, in base ten. */
  lemma {:induction false} DecimalExample()
    ensures Number("0407") == 407 && Decimal(1203) == "1203" && Decimal(0) == "0"
  {
    assert "0407"[..3] == "040" && "040"[..2] == "04" && "04"[..1] == "0" && "0"[..0] == "";
    assert Number("0") == 0 && Number("04") == 4 && Number("040") == 40;
    assert Decimal(1) == "1" && Decimal(12) == "12" && Decimal(120) == "120";
  }

  // ---------- an active tab ----------

  lemma {:induction false} ContainsSomewhere(text: string, part: string)
    ensures Contains(text, part) <==> exists i :: 0 <= i <= |text| && part <= text[i..]
    decreases |text|
  {
    assert text[0..] == text;
    if text != "" {
      ContainsSomewhere(text[1..], part);
      forall i | 1 <= i <= |text| ensures text[1..][i - 1..] == text[i..] {
      }
      if i :| 0 <= i <= |text| && part <= text[i..] {
        if i > 0 { assert part <= text[1..][i - 1..]; }
      }
      if i :| 0 <= i <= |text| - 1 && part <= text[1..][i..] { assert part <= text[i + 1..]; }
    }
  }

  /** Record `i` is the last with this index. */
  ghost predicate LastWith(records: seq<Record>, i: nat, index: nat) {
    i < |records| && records[i].index == index && forall j :: i < j < |records| ==> records[j].index != index
  }

  lemma {:induction false} LookupIsLast(records: seq<Record>, index: nat)
    ensures Lookup(records, index).None? ==> forall j :: 0 <= j < |records| ==> records[j].index != index
    ensures Lookup(records, index).Some? ==>
              exists i: nat :: LastWith(records, i, index) && records[i] == Lookup(records, index).value
    decreases |records|
  {
    if records != [] {
      var n := |records| - 1;
      if records[n].index == index {
        assert LastWith(records, n, index);
      } else {
        LookupIsLast(records[..n], index);
        if Lookup(records, index).Some? {
          var i: nat :| LastWith(records[..n], i, index) && records[..n][i] == Lookup(records, index).value;
          assert forall j :: 0 <= j < n ==> records[..n][j] == records[j];
          assert LastWith(records, i, index);
        }
      }
    }
  }

  /** A tab is active when its line says so, or the last record with the number it starts with is active. */
  lemma {:induction false} ActiveExactly(records: seq<Record>, line: string, depth: nat, digits: string, word: string,
                                         rest: string)
    requires ReadsAsTab(line, depth, digits, word, rest)
    ensures IsActiveTabLine(line, depth, records)
       <==> ((exists i :: 0 <= i <= |line| && "(selected" <= line[i..])
             || (exists i: nat :: LastWith(records, i, Number(digits)) && records[i].active))
  {
    TabsRead(line, depth, digits, word, rest);
    ContainsSomewhere(line, "(selected");
    LookupIsLast(records, Number(digits));
  }

  // ---------- the compacted lines ----------

  ghost predicate TabAt(lines: seq<string>, start: nat, depth: nat, i: nat) {
    start <= i < |lines| && exists digits, word, rest :: ReadsAsTab(lines[i], depth, digits, word, rest)
  }

  ghost predicate InactiveAt(records: seq<Record>, lines: seq<string>, start: nat, depth: nat, i: nat) {
    TabAt(lines, start, depth, i) && !IsActiveTabLine(lines[i], depth, records)
  }

  ghost function TabsOf(lines: seq<string>, start: nat, depth: nat): set<nat> {
    set i: nat | i < |lines| && TabAt(lines, start, depth, i)
  }

  ghost function InactiveOf(records: seq<Record>, lines: seq<string>, start: nat, depth: nat): set<nat> {
    set i: nat | i < |lines| && InactiveAt(records, lines, start, depth, i)
  }

  lemma {:induction false} SameTabs(records: seq<Record>, lines: seq<string>, start: nat, depth: nat)
    ensures TabIndexes(lines, start, depth) == TabsOf(lines, start, depth)
    ensures Inactive(records, lines, start, depth) == InactiveOf(records, lines, start, depth)
  {
    forall i: nat | i < |lines|
      ensures i in TabIndexes(lines, start, depth) <==> TabAt(lines, start, depth, i)
      ensures i in Inactive(records, lines, start, depth) <==> InactiveAt(records, lines, start, depth, i)
    {
      TabLinesExactly(lines[i], depth);
    }
  }

  /** Nothing changes with fewer than ten tabs, with none active and with all active. */
  lemma {:induction false} WhenNothingChanges(records: seq<Record>, lines: seq<string>, start: nat, depth: nat)
    ensures var tabs, inactive := TabsOf(lines, start, depth), InactiveOf(records, lines, start, depth);
            (|tabs| < 10 || inactive == tabs || inactive == {}) ==>
              && CompactedLines(records, lines, start, depth) == lines
              && CompactedRecords(records, lines, start, depth) == records
  {
    SameTabs(records, lines, start, depth);
  }

  /** There are ten tabs or more, some but not all of them active, and `first` is the first one. */
  ghost predicate Shrinks(records: seq<Record>, lines: seq<string>, start: nat, depth: nat, first: nat) {
    var tabs, inactive := TabsOf(lines, start, depth), InactiveOf(records, lines, start, depth);
    && |tabs| >= 10 && inactive != tabs && inactive != {}
    && TabAt(lines, start, depth, first) && forall j: nat :: j < first ==> !TabAt(lines, start, depth, j)
  }

  /** Then one line with the number of the inactive tabs stands in their place where the first tab stood, and the lines
      before it stay. */
  lemma {:induction false} MarkerStands(records: seq<Record>, lines: seq<string>, start: nat, depth: nat, first: nat)
    requires Shrinks(records, lines, start, depth, first)
    ensures var count, out := |InactiveOf(records, lines, start, depth)|, CompactedLines(records, lines, start, depth);
            && first < |out| == |lines| + 1 - count && out[..first] == lines[..first]
            && out[first] == seq(depth, _ => '\t') + ("... " + Decimal(count) + " inactive browser tabs omitted")
  {
    ShrunkLines(records, lines, start, depth, first);
    SameTabs(records, lines, start, depth);
    CompactionLength(records, lines, start, depth);
    MarkerAfter(lines[..first], Marker(depth, |InactiveOf(records, lines, start, depth)|),
                Kept(lines, first, InactiveOf(records, lines, start, depth)));
  }

  lemma {:induction false} MarkerAfter(before: seq<string>, marker: string, rest: seq<string>)
    ensures var out := before + [marker] + rest;
            out[..|before|] == before && out[|before|] == marker && out[|before| + 1..] == rest
  {
  }

  /** Behind it every line but the inactive tabs follows in order. */
  lemma {:induction false} OthersFollow(records: seq<Record>, lines: seq<string>, start: nat, depth: nat, first: nat,
                                        i: nat)
    requires Shrinks(records, lines, start, depth, first)
    requires first <= i < |lines| && !InactiveAt(records, lines, start, depth, i)
    ensures var inactive, out := InactiveOf(records, lines, start, depth), CompactedLines(records, lines, start, depth);
            var at := i + 1 - |set j | j in inactive && j < i|;
            first < at < |out| && out[at] == lines[i]
  {
    ShrunkLines(records, lines, start, depth, first);
    var inactive := InactiveOf(records, lines, start, depth);
    KeptBehindMarker(lines, Marker(depth, |inactive|), inactive, first, i);
  }

  lemma {:induction false} ShrunkLines(records: seq<Record>, lines: seq<string>, start: nat, depth: nat, first: nat)
    requires Shrinks(records, lines, start, depth, first)
    ensures var inactive := InactiveOf(records, lines, start, depth);
            && CompactedLines(records, lines, start, depth)
               == lines[..first] + [Marker(depth, |inactive|)] + Kept(lines, first, inactive)
            && forall j :: j in inactive ==> first <= j
  {
    SameTabs(records, lines, start, depth);
    FirstTabIs(lines, start, depth, first);
    assert InactiveOf(records, lines, start, depth) <= TabsOf(lines, start, depth);
  }

  lemma {:induction false} KeptBehindMarker(lines: seq<string>, marker: string, omit: set<nat>, first: nat, i: nat)
    requires first <= i < |lines| && i !in omit && forall j :: j in omit ==> first <= j
    ensures var out := lines[..first] + [marker] + Kept(lines, first, omit);
            var at := i + 1 - |set j | j in omit && j < i|;
            first < at < |out| && out[at] == lines[i]
  {
    OmittedFrom(omit, first, i);
    KeptInOrder(lines, first, omit, i);
    BehindMarker(lines[..first], marker, Kept(lines, first, omit), i - first - OmittedBefore(omit, first, i));
  }

  lemma {:induction false} OmittedFrom(omit: set<nat>, first: nat, i: nat)
    requires forall j :: j in omit ==> first <= j
    ensures OmittedBefore(omit, first, i) == |set j | j in omit && j < i|
  {
    assert (set j | j in omit && first <= j < i) == (set j | j in omit && j < i);
  }

  lemma {:induction false} BehindMarker(before: seq<string>, marker: string, rest: seq<string>, at: nat)
    requires at < |rest|
    ensures var out := before + [marker] + rest; out[|before| + 1 + at] == rest[at]
  {
  }

  lemma {:induction false} FirstTabIs(lines: seq<string>, start: nat, depth: nat, first: nat)
    requires TabAt(lines, start, depth, first) && forall j: nat :: j < first ==> !TabAt(lines, start, depth, j)
    ensures FirstTab(lines, start, depth) == first
    ensures forall j :: j in TabsOf(lines, start, depth) ==> first <= j
  {
    SameTabs([], lines, start, depth);
    assert first in TabsOf(lines, start, depth);
    assert FirstTab(lines, start, depth) in TabsOf(lines, start, depth);
  }
}
