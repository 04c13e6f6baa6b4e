/**
 What a line means to the recovery parser, without the parser: words of pieces between white space, and
 perhaps a quote that stays open at the end. Every line has such a reading, and its reading fixes the result.
 */
module CommandLines {
  import opened Options
  import opened RecoveryCommand
  import opened Sequences

  /** A character inside double quotes, an escaped quote or backslash, or a backslash that escapes nothing. */
  datatype Item = Plain(c: char) | Escape(c: char) | Backslash

  datatype Piece = Unquoted(item: Item) | Single(text: string) | Double(items: seq<Item>)

  /** Pieces that touch make one word; `gap` is the white space behind it. */
  datatype Word = Word(pieces: seq<Piece>, gap: string)

  // ---------- the text ----------

  function ItemText(i: Item): string {
    match i
    case Plain(c) => [c]
    case Escape(c) => ['\\', c]
    case Backslash => "\\"
  }

  function ItemsText(items: seq<Item>): string {
    if items == [] then "" else ItemText(items[0]) + ItemsText(items[1..])
  }

  function PieceText(p: Piece): string {
    match p
    case Unquoted(i) => ItemText(i)
    case Single(text) => "'" + text + "'"
    case Double(items) => "\"" + ItemsText(items) + "\""
  }

  function PiecesText(pieces: seq<Piece>): string {
    if pieces == [] then "" else PieceText(pieces[0]) + PiecesText(pieces[1..])
  }

  function LineText(words: seq<Word>): string {
    if words == [] then "" else PiecesText(words[0].pieces) + words[0].gap + LineText(words[1..])
  }

  // ---------- the meaning ----------

  function ItemValue(i: Item): char {
    match i
    case Plain(c) => c
    case Escape(c) => c
    case Backslash => '\\'
  }

  function ItemValues(items: seq<Item>): string {
    seq(|items|, i requires 0 <= i < |items| => ItemValue(items[i]))
  }

  function PieceValue(p: Piece): string {
    match p
    case Unquoted(i) => [ItemValue(i)]
    case Single(text) => text
    case Double(items) => ItemValues(items)
  }

  function WordValue(pieces: seq<Piece>): string {
    if pieces == [] then "" else PieceValue(pieces[0]) + WordValue(pieces[1..])
  }

  function LineValue(words: seq<Word>): seq<string> {
    seq(|words|, i requires 0 <= i < |words| => WordValue(words[i].pieces))
  }

  // ---------- what may stand where ----------

  predicate Blank(s: string) {
    forall i :: 0 <= i < |s| ==> IsSpace(s[i])
  }

  /** With `rest` behind it: the escaped character is escapable, and a backslash by itself escapes nothing. */
  predicate ItemFits(i: Item, special: set<char>, escapable: set<char>, rest: string) {
    match i
    case Plain(c) => c !in special
    case Escape(c) => c in escapable
    case Backslash => rest == "" || rest[0] !in escapable
  }

  const QUOTED: set<char> := {'"', '\\'}

  predicate ItemsFit(items: seq<Item>, rest: string) {
    items == [] || (ItemFits(items[0], QUOTED, QUOTED, ItemsText(items[1..]) + rest) && ItemsFit(items[1..], rest))
  }

  predicate PieceFits(p: Piece, rest: string) {
    match p
    case Unquoted(i) =>
      && ItemFits(i, {'\'', '"', '\\'}, {' ', '\\', '\'', '"'}, rest)
      && (i.Plain? ==> !IsSpace(i.c))
    case Single(text) => '\'' !in text
    case Double(items) => ItemsFit(items, "\"" + rest)
  }

  predicate PiecesFit(pieces: seq<Piece>, rest: string) {
    pieces == [] || (PieceFits(pieces[0], PiecesText(pieces[1..]) + rest) && PiecesFit(pieces[1..], rest))
  }

  predicate WordsFit(words: seq<Word>, rest: string) {
    words == [] || (
      && words[0].pieces != [] && PiecesFit(words[0].pieces, words[0].gap + (LineText(words[1..]) + rest))
      && Blank(words[0].gap) && (words[0].gap == "" ==> |words| == 1)
      && WordsFit(words[1..], rest))
  }

  /** White space is what ECMAScript calls so: its white space and its line terminators. */
  lemma {:induction false} SpacesAre(c: char)
    ensures IsSpace(c) <==>
              (c in "\t\n\U{000b}\U{000c}\r \U{00a0}\U{1680}\U{2028}\U{2029}\U{202f}\U{205f}\U{3000}\U{feff}"
               || 0x2000 <= c as int <= 0x200a)
  {
  }

  /** A quote with no end: nothing in `s` closes the quote it starts with. */
  ghost predicate OpensQuote(s: string) {
    s != "" && if s[0] == '\'' then '\'' !in s[1..]
               else s[0] == '"' && exists items :: ItemsFit(items, "") && ItemsText(items) == s[1..]
  }

  /** The line is white space, words and perhaps an open quote. */
  ghost predicate Reading(line: string, lead: string, words: seq<Word>, rest: string) {
    && line == lead + (LineText(words) + rest) && Blank(lead) && WordsFit(words, rest)
    && (rest == "" || OpensQuote(rest))
  }

  // ---------- the parser on each part ----------

  lemma {:induction false} ItemIsScanned(i: Item, rest: string, part: string, parts: seq<string>)
    requires ItemFits(i, QUOTED, QUOTED, rest)
    ensures Scan(ItemText(i) + rest, DoubleQuote, part, true, parts)
         == Scan(rest, DoubleQuote, part + [ItemValue(i)], true, parts)
  {
    var s := ItemText(i) + rest;
    if i.Escape? {
      assert s[0] == '\\' && s[1] == i.c && s[2..] == rest;
    } else {
      assert s[1..] == rest;
    }
  }

  lemma {:induction false} ItemsAreScanned(items: seq<Item>, rest: string, part: string, parts: seq<string>)
    requires ItemsFit(items, rest)
    ensures Scan(ItemsText(items) + rest, DoubleQuote, part, true, parts)
         == Scan(rest, DoubleQuote, part + ItemValues(items), true, parts)
    decreases |items|
  {
    if items == [] {
      assert ItemsText(items) + rest == rest && part + ItemValues(items) == part;
    } else {
      var behind := ItemsText(items[1..]) + rest;
      assert ItemsText(items) + rest == ItemText(items[0]) + behind;
      ItemIsScanned(items[0], behind, part, parts);
      ItemsAreScanned(items[1..], rest, part + [ItemValue(items[0])], parts);
      assert part + [ItemValue(items[0])] + ItemValues(items[1..]) == part + ItemValues(items);
    }
  }

  lemma {:induction false} SingleIsScanned(text: string, rest: string, part: string, parts: seq<string>)
    requires '\'' !in text
    ensures Scan(text + rest, SingleQuote, part, true, parts) == Scan(rest, SingleQuote, part + text, true, parts)
    decreases |text|
  {
    if text == "" {
      assert text + rest == rest && part + text == part;
    } else {
      assert (text + rest)[1..] == text[1..] + rest;
      SingleIsScanned(text[1..], rest, part + [text[0]], parts);
      assert part + [text[0]] + text[1..] == part + text;
    }
  }

  lemma {:induction false} UnquotedIsScanned(i: Item, rest: string, part: string, started: bool, parts: seq<string>)
    requires PieceFits(Unquoted(i), rest)
    ensures Scan(ItemText(i) + rest, NoQuote, part, started, parts)
         == Scan(rest, NoQuote, part + [ItemValue(i)], true, parts)
  {
    var s := ItemText(i) + rest;
    if i.Escape? {
      assert s[0] == '\\' && s[1] == i.c && s[2..] == rest;
    } else {
      assert s[1..] == rest;
    }
  }

  lemma {:induction false} DoubleIsScanned(items: seq<Item>, rest: string, part: string, started: bool,
                                           parts: seq<string>)
    requires ItemsFit(items, "\"" + rest)
    ensures Scan("\"" + ItemsText(items) + "\"" + rest, NoQuote, part, started, parts)
         == Scan(rest, NoQuote, part + ItemValues(items), true, parts)
  {
    var close := "\"" + rest;
    var inner := ItemsText(items) + close;
    assert "\"" + ItemsText(items) + "\"" + rest == "\"" + inner && ("\"" + inner)[1..] == inner && close[1..] == rest;
    ItemsAreScanned(items, close, part, parts);
  }

  lemma {:induction false} QuotedIsScanned(text: string, rest: string, part: string, started: bool, parts: seq<string>)
    requires '\'' !in text
    ensures Scan("'" + text + "'" + rest, NoQuote, part, started, parts)
         == Scan(rest, NoQuote, part + text, true, parts)
  {
    var close := "'" + rest;
    var inner := text + close;
    assert "'" + text + "'" + rest == "'" + inner && ("'" + inner)[1..] == inner && close[1..] == rest;
    SingleIsScanned(text, close, part, parts);
  }

  lemma {:induction false} PieceIsScanned(p: Piece, rest: string, part: string, started: bool, parts: seq<string>)
    requires PieceFits(p, rest)
    ensures Scan(PieceText(p) + rest, NoQuote, part, started, parts)
         == Scan(rest, NoQuote, part + PieceValue(p), true, parts)
  {
    match p
    case Unquoted(i) => UnquotedIsScanned(i, rest, part, started, parts);
    case Single(text) => QuotedIsScanned(text, rest, part, started, parts);
    case Double(items) => DoubleIsScanned(items, rest, part, started, parts);
  }

  lemma {:induction false} PiecesAreScanned(pieces: seq<Piece>, rest: string, part: string, started: bool,
                                            parts: seq<string>)
    requires PiecesFit(pieces, rest)
    ensures Scan(PiecesText(pieces) + rest, NoQuote, part, started, parts)
         == Scan(rest, NoQuote, part + WordValue(pieces), started || pieces != [], parts)
    decreases |pieces|
  {
    if pieces == [] {
      assert PiecesText(pieces) + rest == rest && part + WordValue(pieces) == part;
    } else {
      var text, value := PieceText(pieces[0]), PieceValue(pieces[0]);
      Associate(text, PiecesText(pieces[1..]), rest);
      PieceIsScanned(pieces[0], PiecesText(pieces[1..]) + rest, part, started, parts);
      PiecesAreScanned(pieces[1..], rest, part + value, true, parts);
      Associate(part, value, WordValue(pieces[1..]));
    }
  }

  /** White space ends a word once. */
  lemma {:induction false} BlankIsScanned(gap: string, rest: string, part: string, started: bool, parts: seq<string>)
    requires Blank(gap) && gap != "" && (!started ==> part == "")
    ensures Scan(gap + rest, NoQuote, part, started, parts)
         == Scan(rest, NoQuote, "", false, if started then parts + [part] else parts)
    decreases |gap|
  {
    var after := if started then parts + [part] else parts;
    assert IsSpace(gap[0]);
    assert (gap + rest)[0] == gap[0] && (gap + rest)[1..] == gap[1..] + rest;
    if |gap| > 1 {
      assert forall i :: 0 <= i < |gap| - 1 ==> gap[1..][i] == gap[i + 1];
      BlankIsScanned(gap[1..], rest, "", false, after);
    } else {
      assert gap[1..] + rest == rest;
    }
  }

  /** Inside an open quote everything is read and nothing is returned. */
  lemma {:induction false} OpenQuoteFails(s: string, part: string, started: bool, parts: seq<string>)
    requires OpensQuote(s)
    ensures Scan(s, NoQuote, part, started, parts) == None
  {
    var inner := s[1..];
    assert inner + "" == inner;
    if s[0] == '\'' {
      SingleIsScanned(inner, "", part, parts);
    } else {
      var items :| ItemsFit(items, "") && ItemsText(items) == inner;
      ItemsAreScanned(items, "", part, parts);
    }
  }

  /** A word with white space behind it becomes an argument. */
  lemma {:induction false} WordIsScanned(w: Word, behind: string, parts: seq<string>)
    requires w.pieces != [] && PiecesFit(w.pieces, w.gap + behind) && Blank(w.gap) && w.gap != ""
    ensures Scan(PiecesText(w.pieces) + (w.gap + behind), NoQuote, "", false, parts)
         == Scan(behind, NoQuote, "", false, parts + [WordValue(w.pieces)])
  {
    var value := WordValue(w.pieces);
    PiecesAreScanned(w.pieces, w.gap + behind, "", false, parts);
    assert "" + value == value;
    BlankIsScanned(w.gap, behind, value, true, parts);
  }

  /** So does the word that ends the line, unless a quote opens behind it. */
  lemma {:induction false} LastIsScanned(pieces: seq<Piece>, rest: string, parts: seq<string>)
    requires pieces != [] && PiecesFit(pieces, rest) && (rest == "" || OpensQuote(rest))
    ensures Scan(PiecesText(pieces) + rest, NoQuote, "", false, parts)
         == if rest == "" then Some(parts + [WordValue(pieces)]) else None
  {
    var value := WordValue(pieces);
    PiecesAreScanned(pieces, rest, "", false, parts);
    assert "" + value == value;
    if rest != "" { OpenQuoteFails(rest, value, true, parts); }
  }

  lemma {:induction false} FirstWord(words: seq<Word>, rest: string)
    requires words != []
    ensures LineText(words) + rest == PiecesText(words[0].pieces) + (words[0].gap + (LineText(words[1..]) + rest))
    ensures LineValue(words) == [WordValue(words[0].pieces)] + LineValue(words[1..])
  {
  }

  lemma {:induction false} WordsAreScanned(words: seq<Word>, rest: string, parts: seq<string>)
    requires WordsFit(words, rest) && (rest == "" || OpensQuote(rest))
    ensures Scan(LineText(words) + rest, NoQuote, "", false, parts)
         == if rest == "" && parts + LineValue(words) != [] then Some(parts + LineValue(words)) else None
    decreases |words|
  {
    if words == [] {
      assert LineText(words) + rest == rest && parts + LineValue(words) == parts;
      if rest != "" { OpenQuoteFails(rest, "", false, parts); }
    } else {
      var w, behind := words[0], LineText(words[1..]) + rest;
      FirstWord(words, rest);
      var value := [WordValue(w.pieces)];
      Associate(parts, value, LineValue(words[1..]));
      if w.gap != "" {
        WordIsScanned(w, behind, parts);
        WordsAreScanned(words[1..], rest, parts + value);
      } else {
        assert w.gap + behind == rest && LineValue(words[1..]) == [] && value + [] == value;
        LastIsScanned(w.pieces, rest, parts);
      }
    }
  }

  /** A reading decides the result: one argument a word, and none at all for a blank line or an open quote. */
  lemma {:induction false} ReadingDecides(line: string, lead: string, words: seq<Word>, rest: string)
    requires Reading(line, lead, words, rest)
    ensures Parsed(line) == if rest == "" && words != [] then Some(LineValue(words)) else None
  {
    var behind := LineText(words) + rest;
    if lead == "" {
      assert line == behind;
    } else {
      BlankIsScanned(lead, behind, "", false, []);
    }
    WordsAreScanned(words, rest, []);
    assert [] + LineValue(words) == LineValue(words);
  }

  // ---------- every line has a reading ----------

  lemma {:induction false} ItemsOf(s: string) returns (items: seq<Item>, rest: string)
    ensures s == ItemsText(items) + rest && ItemsFit(items, rest) && (rest == "" || rest[0] == '"')
    decreases |s|
  {
    if s == "" || s[0] == '"' {
      items, rest := [], s;
    } else {
      var i := if s[0] != '\\' then Plain(s[0]) else if |s| > 1 && s[1] in QUOTED then Escape(s[1]) else Backslash;
      var behind := s[|ItemText(i)|..];
      assert s == ItemText(i) + behind;
      items, rest := ItemsOf(behind);
      assert ([i] + items)[1..] == items;
      items := [i] + items;
      assert s == ItemsText(items) + rest;
    }
  }

  lemma {:induction false} SingleOf(s: string) returns (text: string, rest: string)
    ensures s == text + rest && '\'' !in text && (rest == "" || rest[0] == '\'')
    decreases |s|
  {
    if s == "" || s[0] == '\'' {
      text, rest := "", s;
    } else {
      text, rest := SingleOf(s[1..]);
      text := [s[0]] + text;
    }
  }

  lemma {:induction false} SingleStarts(s: string) returns (piece: Option<Piece>, rest: string)
    requires s != "" && s[0] == '\''
    ensures piece.None? ==> OpensQuote(s)
    ensures piece.Some? ==> s == PieceText(piece.value) + rest && PieceFits(piece.value, rest) && |rest| < |s|
  {
    var text, close := SingleOf(s[1..]);
    if close == "" {
      assert text == s[1..];
      piece, rest := None, "";
    } else {
      piece, rest := Some(Single(text)), close[1..];
      assert close == "'" + rest && s == "'" + (text + close);
      assert "'" + (text + ("'" + rest)) == "'" + text + "'" + rest;
    }
  }

  lemma {:induction false} DoubleStarts(s: string) returns (piece: Option<Piece>, rest: string)
    requires s != "" && s[0] == '"'
    ensures piece.None? ==> OpensQuote(s)
    ensures piece.Some? ==> s == PieceText(piece.value) + rest && PieceFits(piece.value, rest) && |rest| < |s|
  {
    var items, close := ItemsOf(s[1..]);
    var text := ItemsText(items);
    if close == "" {
      assert text == s[1..];
      piece, rest := None, "";
    } else {
      piece, rest := Some(Double(items)), close[1..];
      assert close == "\"" + rest && s == "\"" + (text + close);
      assert "\"" + (text + ("\"" + rest)) == "\"" + text + "\"" + rest;
    }
  }

  /** The piece a text starts with, unless a quote it opens stays open. */
  lemma {:induction false} PieceOf(s: string) returns (piece: Option<Piece>, rest: string)
    requires s != "" && !IsSpace(s[0])
    ensures piece.None? ==> OpensQuote(s)
    ensures piece.Some? ==> s == PieceText(piece.value) + rest && PieceFits(piece.value, rest) && |rest| < |s|
  {
    if s[0] == '\'' {
      piece, rest := SingleStarts(s);
    } else if s[0] == '"' {
      piece, rest := DoubleStarts(s);
    } else {
      var i := if s[0] != '\\' then Plain(s[0])
               else if |s| > 1 && s[1] in {' ', '\\', '\'', '"'} then Escape(s[1]) else Backslash;
      piece, rest := Some(Unquoted(i)), s[|ItemText(i)|..];
      assert s == ItemText(i) + rest;
    }
  }

  lemma {:induction false} PiecesOf(s: string) returns (pieces: seq<Piece>, rest: string)
    ensures s == PiecesText(pieces) + rest && PiecesFit(pieces, rest)
    ensures rest == "" || IsSpace(rest[0]) || OpensQuote(rest)
    ensures pieces == [] ==> rest == s
    ensures pieces != [] ==> |rest| < |s|
    decreases |s|
  {
    pieces, rest := [], s;
    if s != "" && !IsSpace(s[0]) {
      var piece, behind := PieceOf(s);
      if piece.Some? {
        pieces, rest := PiecesOf(behind);
        AddPiece(s, piece.value, behind, pieces, rest);
        pieces := [piece.value] + pieces;
      }
    }
  }

  lemma {:induction false} AddPiece(s: string, p: Piece, behind: string, pieces: seq<Piece>, rest: string)
    requires s == PieceText(p) + behind && behind == PiecesText(pieces) + rest
    requires PieceFits(p, behind) && PiecesFit(pieces, rest)
    ensures s == PiecesText([p] + pieces) + rest && PiecesFit([p] + pieces, rest)
  {
    var all := [p] + pieces;
    assert all[1..] == pieces;
    Associate(PieceText(p), PiecesText(pieces), rest);
  }

  lemma {:induction false} BlankOf(s: string) returns (gap: string, rest: string)
    ensures s == gap + rest && Blank(gap) && (rest == "" || !IsSpace(rest[0]))
    ensures s != "" && IsSpace(s[0]) ==> gap != ""
    decreases |s|
  {
    gap, rest := "", s;
    if s != "" && IsSpace(s[0]) {
      gap, rest := BlankOf(s[1..]);
      gap := [s[0]] + gap;
    }
  }

  lemma {:induction false} WordsOf(s: string) returns (words: seq<Word>, rest: string)
    requires s == "" || !IsSpace(s[0])
    ensures s == LineText(words) + rest && WordsFit(words, rest) && (rest == "" || OpensQuote(rest))
    decreases |s|
  {
    var pieces, after := PiecesOf(s);
    if pieces == [] {
      words, rest := [], s;
    } else {
      var gap, behind := BlankOf(after);
      words, rest := [], after;
      if gap != "" { words, rest := WordsOf(behind); }
      AddWord(s, Word(pieces, gap), after, words, rest);
      words := [Word(pieces, gap)] + words;
    }
  }

  lemma {:induction false} AddWord(s: string, w: Word, after: string, words: seq<Word>, rest: string)
    requires s == PiecesText(w.pieces) + after && after == w.gap + (LineText(words) + rest)
    requires w.pieces != [] && PiecesFit(w.pieces, after) && Blank(w.gap) && WordsFit(words, rest)
    requires w.gap == "" ==> words == []
    ensures s == LineText([w] + words) + rest && WordsFit([w] + words, rest)
  {
    var all := [w] + words;
    assert all[1..] == words;
    FirstWord(all, rest);
  }

  /** Every line whatever has a reading, so that readings say of every line what is parsed. */
  lemma {:induction false} EveryLineIsRead(line: string)
    ensures exists lead, words, rest :: Reading(line, lead, words, rest)
  {
    var lead, behind := BlankOf(line);
    var words, rest := WordsOf(behind);
    assert Reading(line, lead, words, rest);
  }

  // ---------- the ways to write one argument ----------

  /** The value with a backslash before each of `escapes`. */
  function Escaped(value: string, escapes: set<char>): string {
    if value == "" then ""
    else (if value[0] in escapes then "\\" else "") + [value[0]] + Escaped(value[1..], escapes)
  }

  function EscapedItems(value: string, escapes: set<char>): seq<Item> {
    seq(|value|, i requires 0 <= i < |value| => if value[i] in escapes then Escape(value[i]) else Plain(value[i]))
  }

  lemma {:induction false} QuotedItems(v: string, rest: string)
    ensures var items := EscapedItems(v, QUOTED);
            ItemsText(items) == Escaped(v, QUOTED) && ItemsFit(items, rest) && ItemValues(items) == v
    decreases |v|
  {
    var items := EscapedItems(v, QUOTED);
    if v != "" {
      assert items[1..] == EscapedItems(v[1..], QUOTED);
      QuotedItems(v[1..], rest);
    }
  }

  /** Any value between double quotes, with a backslash before each double quote and backslash, reads as the value. */
  lemma {:induction false} DoubleQuotedReads(v: string)
    ensures ReadsAs("\"" + Escaped(v, {'"', '\\'}) + "\"", v)
  {
    var items := EscapedItems(v, QUOTED);
    forall tail: string, parts: seq<string> | EndsWord(tail)
      ensures Scan("\"" + ItemsText(items) + "\"" + tail, NoQuote, "", false, parts)
           == Scan(tail, NoQuote, v, true, parts)
    {
      QuotedItems(v, "\"" + tail);
      DoubleIsScanned(items, tail, "", false, parts);
      assert "" + v == v;
    }
    QuotedItems(v, "");
  }

  lemma {:induction false} EscapedIsScanned(v: string, tail: string, part: string, started: bool, parts: seq<string>)
    requires forall i :: 0 <= i < |v| ==> v[i] == ' ' || !IsSpace(v[i])
    ensures Scan(Escaped(v, {' ', '\\', '\'', '"'}) + tail, NoQuote, part, started, parts)
         == Scan(tail, NoQuote, part + v, started || v != "", parts)
    decreases |v|
  {
    var escapes := {' ', '\\', '\'', '"'};
    if v == "" {
      assert Escaped(v, escapes) + tail == tail && part + v == part;
    } else {
      var i := if v[0] in escapes then Escape(v[0]) else Plain(v[0]);
      var behind := Escaped(v[1..], escapes) + tail;
      assert Escaped(v, escapes) + tail == ItemText(i) + behind;
      UnquotedIsScanned(i, behind, part, started, parts);
      EscapedIsScanned(v[1..], tail, part + [v[0]], true, parts);
      assert part + [v[0]] + v[1..] == part + v;
    }
  }

  /** So does a value outside quotes with a backslash before each space, quote and backslash. */
  lemma {:induction false} EscapedReads(v: string)
    requires v != "" && forall i :: 0 <= i < |v| ==> v[i] == ' ' || !IsSpace(v[i])
    ensures ReadsAs(Escaped(v, {' ', '\\', '\'', '"'}), v)
  {
    var w := Escaped(v, {' ', '\\', '\'', '"'});
    forall tail: string, parts: seq<string> | EndsWord(tail)
      ensures Scan(w + tail, NoQuote, "", false, parts) == Scan(tail, NoQuote, v, true, parts)
    {
      EscapedIsScanned(v, tail, "", false, parts);
      assert "" + v == v;
    }
  }

  // ---------- lines of such words ----------

  /** Each word and the white space behind it. */
  function Spaced(words: seq<string>, gaps: seq<string>): string
    requires |words| == |gaps|
  {
    if words == [] then "" else words[0] + gaps[0] + Spaced(words[1..], gaps[1..])
  }

  /** Words that read as `values`, with white space between them and where one likes at the ends, are parsed as
      these values; with a quote opened behind them nothing is. */
  lemma {:induction false} SpacedWordsAreParsed(lead: string, words: seq<string>, gaps: seq<string>,
                                                values: seq<string>, rest: string)
    requires |words| == |gaps| == |values| && words != [] && Blank(lead)
    requires forall i :: 0 <= i < |words| ==> ReadsAs(words[i], values[i])
    requires forall i :: 0 <= i < |gaps| ==> Blank(gaps[i]) && (gaps[i] == "" ==> i == |gaps| - 1 && rest == "")
    requires rest == "" || OpensQuote(rest)
    ensures Parsed(lead + (Spaced(words, gaps) + rest)) == if rest == "" then Some(values) else None
  {
    var behind := Spaced(words, gaps) + rest;
    if lead == "" {
      assert lead + behind == behind;
    } else {
      BlankIsScanned(lead, behind, "", false, []);
    }
    SpacedIsScanned(words, gaps, values, rest, []);
    assert [] + values == values;
  }

  /** A word that reads as `v`, with white space behind it or at the end. */
  lemma {:induction false} WordBeforeGap(w: string, v: string, gap: string, behind: string, parts: seq<string>)
    requires ReadsAs(w, v) && Blank(gap) && (gap == "" ==> behind == "")
    ensures Scan(w + (gap + behind), NoQuote, "", false, parts)
         == if gap == "" then Some(parts + [v]) else Scan(behind, NoQuote, "", false, parts + [v])
  {
    if gap == "" {
      assert gap + behind == "";
    } else {
      assert (gap + behind)[0] == gap[0];
      BlankIsScanned(gap, behind, v, true, parts);
    }
  }

  lemma {:induction false} SpacedFirst(words: seq<string>, gaps: seq<string>, rest: string)
    requires |words| == |gaps| && words != []
    ensures Spaced(words, gaps) + rest == words[0] + (gaps[0] + (Spaced(words[1..], gaps[1..]) + rest))
  {
  }

  lemma {:induction false} SpacedIsScanned(words: seq<string>, gaps: seq<string>, values: seq<string>, rest: string,
                                           parts: seq<string>)
    requires |words| == |gaps| == |values| && parts + values != []
    requires forall i :: 0 <= i < |words| ==> ReadsAs(words[i], values[i])
    requires forall i :: 0 <= i < |gaps| ==> Blank(gaps[i]) && (gaps[i] == "" ==> i == |gaps| - 1 && rest == "")
    requires rest == "" || OpensQuote(rest)
    ensures Scan(Spaced(words, gaps) + rest, NoQuote, "", false, parts)
         == if rest == "" then Some(parts + values) else None
    decreases |words|
  {
    if words == [] {
      assert Spaced(words, gaps) + rest == rest && parts + values == parts;
      if rest != "" { OpenQuoteFails(rest, "", false, parts); }
    } else {
      var behind := Spaced(words[1..], gaps[1..]) + rest;
      SpacedFirst(words, gaps, rest);
      WordBeforeGap(words[0], values[0], gaps[0], behind, parts);
      if gaps[0] == "" {
        assert values == [values[0]];
      } else {
        assert forall i :: 0 <= i < |gaps| - 1 ==> gaps[1..][i] == gaps[i + 1];
        assert [values[0]] + values[1..] == values;
        Associate(parts, [values[0]], values[1..]);
        SpacedIsScanned(words[1..], gaps[1..], values[1..], rest, parts + [values[0]]);
      }
    }
  }
}
