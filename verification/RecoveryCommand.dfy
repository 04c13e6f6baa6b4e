/**
 The command lines a CLI error prints for recovery, rendered for a POSIX shell (quoting as in
 section 2.2 of the POSIX.1-2017 Shell Command Language), and the parser that reads an original
 command line back into its arguments.
 */
module RecoveryCommand {
  import opened Options
  import Words

  // ---------- the parser ----------

  datatype Quote = NoQuote | SingleQuote | DoubleQuote

  /** The class \s of JavaScript regular expressions. */
  predicate IsSpace(c: char) {
    || '\U{0009}' <= c <= '\U{000d}' || c == ' ' || c == '\U{00a0}' || c == '\U{1680}'
    || '\U{2000}' <= c <= '\U{200a}' || c == '\U{2028}' || c == '\U{2029}' || c == '\U{202f}'
    || c == '\U{205f}' || c == '\U{3000}' || c == '\U{feff}'
  }

  /** A backslash escapes only these characters inside double quotes, and only these outside quotes. */
  predicate EscapesNext(s: string, quote: Quote) {
    |s| > 1 && s[0] == '\\' && (s[1] in {'"', '\\'} || (quote == NoQuote && s[1] in {' ', '\''}))
  }

  /** The parser in the middle of its input: `s` is what is left to read. */
  function Scan(s: string, quote: Quote, part: string, started: bool, parts: seq<string>): Option<seq<string>>
    decreases |s|
  {
    if s == "" then
      var all := if started then parts + [part] else parts;
      if quote != NoQuote || all == [] then None else Some(all)
    else if quote == SingleQuote then
      if s[0] == '\'' then Scan(s[1..], NoQuote, part, true, parts)
      else Scan(s[1..], quote, part + [s[0]], true, parts)
    else if quote == DoubleQuote then
      if s[0] == '"' then Scan(s[1..], NoQuote, part, true, parts)
      else if EscapesNext(s, quote) then Scan(s[2..], quote, part + [s[1]], true, parts)
      else Scan(s[1..], quote, part + [s[0]], true, parts)
    else if s[0] == '\'' then Scan(s[1..], SingleQuote, part, true, parts)
    else if s[0] == '"' then Scan(s[1..], DoubleQuote, part, true, parts)
    else if IsSpace(s[0]) then
      if started then Scan(s[1..], quote, "", false, parts + [part]) else Scan(s[1..], quote, part, started, parts)
    else if EscapesNext(s, quote) then Scan(s[2..], quote, part + [s[1]], true, parts)
    else Scan(s[1..], quote, part + [s[0]], true, parts)
  }

  function Parsed(value: string): Option<seq<string>> {
    Scan(value, NoQuote, "", false, [])
  }

  method ParseCommandLine(value: string) returns (result: Option<seq<string>>)
    ensures result == Parsed(value)
  {
    var parts: seq<string> := [];
    var part := "";
    var quote := NoQuote;
    var tokenStarted := false;
    var index := 0;
    while index < |value|
      invariant 0 <= index <= |value|
      invariant Scan(value[index..], quote, part, tokenStarted, parts) == Parsed(value)
    {
      var character := value[index];
      ghost var left := value[index..];
      assert left[0] == character && left[1..] == value[index + 1..];
      assert index + 1 < |value| ==> left[1] == value[index + 1] && left[2..] == value[index + 2..];
      if quote == SingleQuote {
        if character == '\'' {
          quote := NoQuote;
        } else {
          part := part + [character];
        }
        tokenStarted := true;
      } else if quote == DoubleQuote {
        if character == '"' {
          quote := NoQuote;
        } else if character == '\\' && index + 1 < |value| && value[index + 1] in {'"', '\\'} {
          index := index + 1;
          part := part + [value[index]];
        } else {
          part := part + [character];
        }
        tokenStarted := true;
      } else if character == '\'' || character == '"' {
        quote := if character == '\'' then SingleQuote else DoubleQuote;
        tokenStarted := true;
      } else if IsSpace(character) {
        if tokenStarted {
          parts := parts + [part];
          part := "";
          tokenStarted := false;
        }
      } else if character == '\\' && index + 1 < |value| && value[index + 1] in {' ', '\\', '\'', '"'} {
        index := index + 1;
        part := part + [value[index]];
        tokenStarted := true;
      } else {
        part := part + [character];
        tokenStarted := true;
      }
      index := index + 1;
    }
    assert value[index..] == "";
    if quote != NoQuote {
      return None;
    }
    if tokenStarted {
      parts := parts + [part];
    }
    return if |parts| > 0 then Some(parts) else None;
  }

  // ---------- the two POSIX quoters ----------

  predicate IsAlphanumeric(c: char) {
    'A' <= c <= 'Z' || 'a' <= c <= 'z' || '0' <= c <= '9'
  }

  function ReplaceQuotes(value: string, replacement: string): string {
    if value == "" then ""
    else (if value[0] == '\'' then replacement else [value[0]]) + ReplaceQuotes(value[1..], replacement)
  }

  /** `shellQuote`: a quote becomes a double-quoted quote between two quoted parts. */
  function ShellQuote(value: string): string {
    if value != "" && forall i :: 0 <= i < |value| ==>
      IsAlphanumeric(value[i]) || value[i] in {'_', '.', '/', ':', '@', '%', '+', '=', ',', '-'}
    then value
    else "'" + ReplaceQuotes(value, "'\"'\"'") + "'"
  }

  /** `quoteCliCommandArgument` off Windows: a quote becomes a backslash-escaped quote. */
  function QuoteCliCommandArgument(value: string): string {
    if value != "" && forall i :: 0 <= i < |value| ==>
      IsAlphanumeric(value[i]) || value[i] in {'.', '_', ':', '/', '@', '-'}
    then value
    else "'" + ReplaceQuotes(value, "'\\''") + "'"
  }

  function ShellWords(command: seq<string>): seq<string> {
    seq(|command|, i requires 0 <= i < |command| => ShellQuote(command[i]))
  }

  function RenderCommand(command: seq<string>): string {
    Words.Join(ShellWords(command))
  }

  function CliWords(command: seq<string>): seq<string> {
    seq(|command|, i requires 0 <= i < |command| => QuoteCliCommandArgument(command[i]))
  }

  function RenderCliCommand(command: seq<string>): string {
    Words.Join(CliWords(command))
  }

  /** `renderResolvedOrchestrationCommand`: replaces the program name of an orca command. */
  function RenderResolved(command: string, executable: string): string {
    match Parsed(command)
    case Some(parts) =>
      if parts != [] && parts[0] == "orca" then RenderCommand([executable] + parts[1..]) else command
    case None => command
  }

  // ---------- parsing undoes rendering ----------

  predicate EndsWord(tail: string) {
    tail == "" || IsSpace(tail[0])
  }

  /** The parser reads the word `w` as the argument `v`. */
  ghost predicate ReadsAs(w: string, v: string) {
    forall tail: string, parts: seq<string> | EndsWord(tail) ::
      Scan(w + tail, NoQuote, "", false, parts) == Scan(tail, NoQuote, v, true, parts)
  }

  predicate Literal(c: char) {
    c !in {'\'', '"', '\\'} && !IsSpace(c)
  }

  lemma {:induction false} PlainIsRead(v: string, tail: string, part: string, started: bool, parts: seq<string>)
    requires forall i :: 0 <= i < |v| ==> Literal(v[i])
    ensures Scan(v + tail, NoQuote, part, started, parts)
         == Scan(tail, NoQuote, part + v, started || v != "", parts)
    decreases |v|
  {
    var text := v + tail;
    if v == "" {
      assert text == tail && part + v == part;
    } else {
      assert text[0] == v[0] && text[1..] == v[1..] + tail;
      PlainIsRead(v[1..], tail, part + [v[0]], true, parts);
      assert part + [v[0]] + v[1..] == part + v;
    }
  }

  /** Both escapes of a single quote, met inside single quotes, add a quote and stay inside. */
  predicate IsQuoteEscape(e: string) {
    e == "'\"'\"'" || e == "'\\''"
  }

  lemma {:induction false} EscapeIsRead(e: string, rest: string, part: string, parts: seq<string>)
    requires IsQuoteEscape(e)
    ensures Scan(e + rest, SingleQuote, part, true, parts) == Scan(rest, SingleQuote, part + "'", true, parts)
  {
    var s := e + rest;
    var s1, s2 := s[1..], s[2..];
    assert s1[1..] == s2 && s1[2..] == s[3..];
    if e == "'\\''" {
      assert s1[0] == '\\' && s1[1] == '\'' && s[3] == '\'';
      assert s[3..][1..] == rest;
      assert Scan(s, SingleQuote, part, true, parts) == Scan(s1, NoQuote, part, true, parts);
      assert Scan(s1, NoQuote, part, true, parts) == Scan(s[3..], NoQuote, part + "'", true, parts);
    } else {
      assert s1[0] == '"' && s2[0] == '\'' && s[3..][0] == '"' && s[4..][0] == '\'';
      assert s2[1..] == s[3..] && s[3..][1..] == s[4..] && s[4..][1..] == rest;
      assert Scan(s, SingleQuote, part, true, parts) == Scan(s1, NoQuote, part, true, parts);
      assert Scan(s1, NoQuote, part, true, parts) == Scan(s2, DoubleQuote, part, true, parts);
      assert Scan(s2, DoubleQuote, part, true, parts) == Scan(s[3..], DoubleQuote, part + "'", true, parts);
      assert Scan(s[3..], DoubleQuote, part + "'", true, parts) == Scan(s[4..], NoQuote, part + "'", true, parts);
    }
  }

  lemma {:induction false} QuotedBodyIsRead(v: string, e: string, tail: string, part: string, parts: seq<string>)
    requires IsQuoteEscape(e)
    ensures Scan(ReplaceQuotes(v, e) + ("'" + tail), SingleQuote, part, true, parts)
         == Scan(tail, NoQuote, part + v, true, parts)
    decreases |v|
  {
    var close := "'" + tail;
    if v == "" {
      assert ReplaceQuotes(v, e) + close == close && close[1..] == tail && part + v == part;
    } else {
      var rest := ReplaceQuotes(v[1..], e) + close;
      QuotedBodyIsRead(v[1..], e, tail, part + [v[0]], parts);
      assert part + [v[0]] + v[1..] == part + v;
      if v[0] == '\'' {
        assert ReplaceQuotes(v, e) + close == e + rest;
        EscapeIsRead(e, rest, part, parts);
        assert "'" == [v[0]];
      } else {
        var text := [v[0]] + rest;
        assert ReplaceQuotes(v, e) + close == text;
        assert text[1..] == rest;
      }
    }
  }

  lemma {:induction false} QuotedReads(v: string, e: string)
    requires IsQuoteEscape(e)
    ensures ReadsAs("'" + ReplaceQuotes(v, e) + "'", v)
  {
    var w := "'" + ReplaceQuotes(v, e) + "'";
    forall tail: string, parts: seq<string> | EndsWord(tail)
      ensures Scan(w + tail, NoQuote, "", false, parts) == Scan(tail, NoQuote, v, true, parts)
    {
      var inner := ReplaceQuotes(v, e) + ("'" + tail);
      assert w + tail == "'" + inner;
      assert ("'" + inner)[1..] == inner;
      QuotedBodyIsRead(v, e, tail, "", parts);
      assert "" + v == v;
    }
  }

  lemma {:induction false} PlainReads(v: string)
    requires v != "" && forall i :: 0 <= i < |v| ==> Literal(v[i])
    ensures ReadsAs(v, v)
  {
    forall tail: string, parts: seq<string> | EndsWord(tail)
      ensures Scan(v + tail, NoQuote, "", false, parts) == Scan(tail, NoQuote, v, true, parts)
    {
      PlainIsRead(v, tail, "", false, parts);
      assert "" + v == v;
    }
  }

  lemma {:induction false} ShellQuoteReads(v: string)
    ensures ReadsAs(ShellQuote(v), v)
  {
    if ShellQuote(v) == v { SelfQuotedIsPlain(v); PlainReads(v); }
    else { QuotedReads(v, "'\"'\"'"); }
  }

  lemma {:induction false} CliQuoteReads(v: string)
    ensures ReadsAs(QuoteCliCommandArgument(v), v)
  {
    if QuoteCliCommandArgument(v) == v { SelfQuotedIsPlain(v); PlainReads(v); }
    else { QuotedReads(v, "'\\''"); }
  }

  lemma {:induction false} ReplacedIsNotShorter(v: string, e: string)
    requires e != ""
    ensures |v| <= |ReplaceQuotes(v, e)|
    decreases |v|
  {
    if v != "" { ReplacedIsNotShorter(v[1..], e); }
  }

  /** Only values without special characters are printed as they are. */
  lemma {:induction false} SelfQuotedIsPlain(v: string)
    requires ShellQuote(v) == v || QuoteCliCommandArgument(v) == v
    ensures v != "" && forall i :: 0 <= i < |v| ==> Literal(v[i])
  {
    ReplacedIsNotShorter(v, "'\"'\"'");
    ReplacedIsNotShorter(v, "'\\''");
  }

  lemma {:induction false} JoinIsParsed(words: seq<string>, values: seq<string>, parts: seq<string>)
    requires |words| == |values| > 0
    requires forall i :: 0 <= i < |words| ==> ReadsAs(words[i], values[i])
    ensures Scan(Words.Join(words), NoQuote, "", false, parts) == Some(parts + values)
    decreases |words|
  {
    var tail := if |words| == 1 then "" else " " + Words.Join(words[1..]);
    assert Words.Join(words) == words[0] + tail;
    assert ReadsAs(words[0], values[0]);
    if |words| == 1 {
      assert [values[0]] == values;
    } else {
      assert tail[1..] == Words.Join(words[1..]);
      JoinIsParsed(words[1..], values[1..], parts + [values[0]]);
      assert parts + [values[0]] + values[1..] == parts + values;
    }
  }

  /** parseCommandLine undoes renderCommand for a POSIX shell, for every non-empty list of arguments. */
  lemma {:induction false} ParseUndoesRender(command: seq<string>)
    requires command != []
    ensures Parsed(RenderCommand(command)) == Some(command)
  {
    var words := ShellWords(command);
    forall i | 0 <= i < |words| ensures ReadsAs(words[i], command[i]) { ShellQuoteReads(command[i]); }
    JoinIsParsed(words, command, []);
    assert [] + command == command;
  }

  /** The same holds of the other quoter, which escapes quotes differently. */
  lemma {:induction false} ParseUndoesCliRender(command: seq<string>)
    requires command != []
    ensures Parsed(RenderCliCommand(command)) == Some(command)
  {
    var words := CliWords(command);
    forall i | 0 <= i < |words| ensures ReadsAs(words[i], command[i]) { CliQuoteReads(command[i]); }
    JoinIsParsed(words, command, []);
    assert [] + command == command;
  }

  /** Resolving an orca command changes its program name and no other argument; any other command
      is left as it is. */
  lemma {:induction false} ResolvedKeepsArguments(command: string, executable: string)
    ensures var parts := Parsed(command);
            if parts.Some? && parts.value != [] && parts.value[0] == "orca"
            then Parsed(RenderResolved(command, executable)) == Some([executable] + parts.value[1..])
            else RenderResolved(command, executable) == command
  {
    var parts := Parsed(command);
    if parts.Some? && parts.value != [] && parts.value[0] == "orca" {
      ParseUndoesRender([executable] + parts.value[1..]);
    }
  }
}
