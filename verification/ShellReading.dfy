/**
 What a POSIX shell makes of the printed words (quoting as in section 2.2 of the POSIX.1-2017 Shell Command
 Language): the printed word, read by the shell's rules and not by the recovery parser, is the argument.
 */
module ShellReading {
  import opened Options
  import opened RecoveryCommand

  /** The characters the shell gives a meaning to outside quotes. */
  const SHELL_SPECIAL: set<char> :=
    {'|', '&', ';', '<', '>', '(', ')', '$', '`', '\\', '"', '\'', ' ', '\t', '\n', '*', '?', '[', '#', '~'}

  /** The characters that keep a meaning between double quotes. */
  const DOUBLE_SPECIAL: set<char> := {'$', '`', '\\', '"'}

  function After(c: char, rest: Option<string>): Option<string> {
    if rest.Some? then Some([c] + rest.value) else None
  }

  /** The one argument a shell reads, or none if the text is not a single word free of expansions. */
  function ShellReads(s: string, quote: Quote): Option<string> {
    if s == "" then (if quote == NoQuote then Some("") else None)
    else if quote == SingleQuote then
      if s[0] == '\'' then ShellReads(s[1..], NoQuote) else After(s[0], ShellReads(s[1..], quote))
    else if quote == DoubleQuote then
      if s[0] == '"' then ShellReads(s[1..], NoQuote)
      else if s[0] in DOUBLE_SPECIAL then None
      else After(s[0], ShellReads(s[1..], quote))
    else if s[0] == '\'' then ShellReads(s[1..], SingleQuote)
    else if s[0] == '"' then ShellReads(s[1..], DoubleQuote)
    else if s[0] == '\\' && |s| > 1 && s[1] != '\n' then After(s[1], ShellReads(s[2..], quote))
    else if s[0] in SHELL_SPECIAL then None
    else After(s[0], ShellReads(s[1..], quote))
  }

  lemma {:induction false} PlainWordIsRead(v: string)
    requires forall i :: 0 <= i < |v| ==> v[i] !in SHELL_SPECIAL
    ensures ShellReads(v, NoQuote) == Some(v)
    decreases |v|
  {
    if v != "" {
      PlainWordIsRead(v[1..]);
      assert [v[0]] + v[1..] == v;
    }
  }

  /** An escaped quote inside a single-quoted part, in either form. */
  lemma {:induction false} EscapeIsReadByShell(e: string, rest: string)
    requires IsQuoteEscape(e)
    ensures ShellReads(e + rest, SingleQuote) == After('\'', ShellReads(rest, SingleQuote))
  {
    var s := e + rest;
    var s1, s2, s3 := s[1..], s[2..], s[3..];
    assert s1[1..] == s2 && s1[2..] == s3 && s2[1..] == s3 && s[0] == '\'';
    if e == "'\\''" {
      assert s1[0] == '\\' && s1[1] == '\'' && s3[0] == '\'' && s3[1..] == rest;
      assert ShellReads(s, SingleQuote) == ShellReads(s1, NoQuote);
      assert ShellReads(s1, NoQuote) == After('\'', ShellReads(s3, NoQuote));
    } else {
      var s4 := s[4..];
      assert s1[0] == '"' && s2[0] == '\'' && s3[0] == '"' && s4[0] == '\'';
      assert s3[1..] == s4 && s4[1..] == rest;
      assert ShellReads(s, SingleQuote) == ShellReads(s1, NoQuote);
      assert ShellReads(s1, NoQuote) == ShellReads(s2, DoubleQuote);
      assert ShellReads(s2, DoubleQuote) == After('\'', ShellReads(s3, DoubleQuote));
      assert ShellReads(s3, DoubleQuote) == ShellReads(s4, NoQuote);
      assert ShellReads(s4, NoQuote) == ShellReads(rest, SingleQuote);
    }
  }

  lemma {:induction false} QuotedIsReadByShell(v: string, e: string)
    requires IsQuoteEscape(e)
    ensures ShellReads(ReplaceQuotes(v, e) + "'", SingleQuote) == Some(v)
    decreases |v|
  {
    var body := ReplaceQuotes(v, e) + "'";
    if v == "" {
      assert body == "'" && body[1..] == "";
    } else {
      var rest := ReplaceQuotes(v[1..], e) + "'";
      QuotedIsReadByShell(v[1..], e);
      assert [v[0]] + v[1..] == v;
      if v[0] == '\'' {
        assert body == e + rest;
        EscapeIsReadByShell(e, rest);
      } else {
        assert body == [v[0]] + rest && body[1..] == rest;
      }
    }
  }

  lemma {:induction false} WrappedIsReadByShell(v: string, e: string)
    requires IsQuoteEscape(e)
    ensures ShellReads("'" + ReplaceQuotes(v, e) + "'", NoQuote) == Some(v)
  {
    var body := ReplaceQuotes(v, e) + "'";
    assert "'" + ReplaceQuotes(v, e) + "'" == "'" + body && ("'" + body)[1..] == body;
    QuotedIsReadByShell(v, e);
  }

  /** Both quoters print, for every value, one word that a shell reads as this value. */
  lemma {:induction false} ShellReadsQuoted(v: string)
    ensures ShellReads(ShellQuote(v), NoQuote) == Some(v)
    ensures ShellReads(QuoteCliCommandArgument(v), NoQuote) == Some(v)
  {
    if ShellQuote(v) == v || QuoteCliCommandArgument(v) == v {
      SelfQuotedIsUnspecial(v);
      PlainWordIsRead(v);
    }
    WrappedIsReadByShell(v, "'\"'\"'");
    WrappedIsReadByShell(v, "'\\''");
  }

  lemma {:induction false} SelfQuotedIsUnspecial(v: string)
    requires ShellQuote(v) == v || QuoteCliCommandArgument(v) == v
    ensures forall i :: 0 <= i < |v| ==> v[i] !in SHELL_SPECIAL
  {
    ReplacedIsNotShorter(v, "'\"'\"'");
    ReplacedIsNotShorter(v, "'\\''");
  }

  /** A word is left as it is just when it has letters, digits and the quoter's few marks only. */
  lemma {:induction false} PlainWordsAreKept(v: string)
    ensures ShellQuote(v) == v <==> v != "" && forall i :: 0 <= i < |v| ==>
      'A' <= v[i] <= 'Z' || 'a' <= v[i] <= 'z' || '0' <= v[i] <= '9' || v[i] in "_./:@%+=,-"
  {
    ReplacedIsNotShorter(v, "'\"'\"'");
  }

  /** The marks of the other quoter. */
  lemma {:induction false} PlainArgumentsAreKept(v: string)
    ensures QuoteCliCommandArgument(v) == v <==> v != "" && forall i :: 0 <= i < |v| ==>
      'A' <= v[i] <= 'Z' || 'a' <= v[i] <= 'z' || '0' <= v[i] <= '9' || v[i] in "._:/@-"
  {
    ReplacedIsNotShorter(v, "'\\''");
  }
}
