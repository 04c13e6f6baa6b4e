/**
 The Windows launcher's argument quoting, and the rules by which a Windows program splits its
 command line again ("Parsing C++ command-line arguments", Microsoft C++ reference; the same
 backslash rules as CommandLineToArgvW). Splitting starts behind the program name.
 */
module WindowsQuoting {
  import Words

  function Backslashes(n: nat): string {
    seq(n, _ => '\\')
  }

  /** Char.IsWhiteSpace. */
  predicate IsWhiteSpace(c: char) {
    || '\U{0009}' <= c <= '\U{000d}' || c == ' ' || c == '\U{0085}' || c == '\U{00a0}' || c == '\U{1680}'
    || '\U{2000}' <= c <= '\U{200a}' || c == '\U{2028}' || c == '\U{2029}' || c == '\U{202f}' || c == '\U{205f}'
    || c == '\U{3000}'
  }

  predicate NeedsQuotes(value: string) {
    value == "" || exists i :: 0 <= i < |value| && (value[i] == '"' || IsWhiteSpace(value[i]))
  }

  /** What is appended for the rest `v` of the value while `pending` backslashes are held back. */
  function Body(pending: nat, v: string): string
    decreases |v|
  {
    if v == "" then Backslashes(pending * 2) + "\""
    else if v[0] == '\\' then Body(pending + 1, v[1..])
    else if v[0] == '"' then Backslashes(pending * 2 + 1) + "\"" + Body(0, v[1..])
    else Backslashes(pending) + [v[0]] + Body(0, v[1..])
  }

  function Quoted(value: string): string {
    if NeedsQuotes(value) then "\"" + Body(0, value) else value
  }

  function QuoteAll(args: seq<string>): seq<string> {
    seq(|args|, i requires 0 <= i < |args| => Quoted(args[i]))
  }

  method QuoteArgument(value: string) returns (result: string)
    ensures result == Quoted(value)
  {
    var requiresQuotes := |value| == 0;
    var index := 0;
    while index < |value| && !requiresQuotes
      invariant 0 <= index <= |value|
      invariant requiresQuotes ==> NeedsQuotes(value)
      invariant !requiresQuotes ==> value != ""
      invariant !requiresQuotes ==> forall i :: 0 <= i < index ==> value[i] != '"' && !IsWhiteSpace(value[i])
    {
      requiresQuotes := value[index] == '"' || IsWhiteSpace(value[index]);
      index := index + 1;
    }
    if !requiresQuotes {
      return value;
    }
    var quoted := "\"";
    var backslashCount := 0;
    for i := 0 to |value|
      invariant quoted + Body(backslashCount, value[i..]) == "\"" + Body(0, value)
    {
      var character := value[i];
      ghost var before, count, rest := quoted, backslashCount, Body(0, value[i + 1..]);
      assert value[i..][0] == character && value[i..][1..] == value[i + 1..];
      if character == '\\' {
        backslashCount := backslashCount + 1;
      } else if character == '"' {
        quoted := quoted + Backslashes(backslashCount * 2 + 1) + "\"";
        backslashCount := 0;
        assert quoted + rest == before + (Backslashes(count * 2 + 1) + "\"" + rest);
      } else {
        quoted := quoted + Backslashes(backslashCount) + [character];
        backslashCount := 0;
        assert quoted + rest == before + (Backslashes(count) + [character] + rest);
      }
    }
    quoted := quoted + Backslashes(backslashCount * 2);
    quoted := quoted + "\"";
    return quoted;
  }

  method BuildArguments(cliPath: string, args: seq<string>) returns (commandLine: string)
    ensures commandLine == Words.Join(QuoteAll([cliPath] + args))
    ensures forall keeps :: Split(keeps, commandLine) == [cliPath] + args
  {
    commandLine := QuoteArgument(cliPath);
    ghost var all := QuoteAll([cliPath] + args);
    assert all[..1] == [all[0]];
    for i := 0 to |args|
      invariant commandLine == Words.Join(all[..i + 1])
    {
      var quoted := QuoteArgument(args[i]);
      assert all[..i + 2] == all[..i + 1] + [quoted];
      Words.JoinSnoc(all[..i + 1], quoted);
      commandLine := commandLine + " ";
      commandLine := commandLine + quoted;
    }
    assert all[..|args| + 1] == all;
    forall keeps ensures Split(keeps, commandLine) == [cliPath] + args {
      SplitUndoesBuild(keeps, [cliPath] + args);
    }
  }

  // ---------- how a Windows program splits its command line ----------

  predicate IsSeparator(c: char) {
    c == ' ' || c == '\t'
  }

  /** Reads one argument; `pending` backslashes have been seen and not yet interpreted. Before a
      quote, 2n backslashes are n backslashes and a delimiter, 2n + 1 are n backslashes and a quote;
      elsewhere backslashes stand for themselves. Two quotes inside a quoted part are one quote, after
      which the quoted part goes on (`keeps`, the C runtime) or ends (CommandLineToArgvW). */
  function ReadArgument(keeps: bool, s: string, inQuotes: bool, pending: nat, acc: string): (result: (string, string))
    ensures |result.1| <= |s|
    ensures s != "" && (inQuotes || !IsSeparator(s[0])) ==> |result.1| < |s|
    decreases |s|
  {
    if s == "" then (acc + Backslashes(pending), "")
    else if s[0] == '\\' then ReadArgument(keeps, s[1..], inQuotes, pending + 1, acc)
    else if s[0] == '"' then
      var acc1 := acc + Backslashes(pending / 2);
      if pending % 2 == 1 then ReadArgument(keeps, s[1..], inQuotes, 0, acc1 + "\"")
      else if inQuotes && |s| > 1 && s[1] == '"' then ReadArgument(keeps, s[2..], keeps, 0, acc1 + "\"")
      else ReadArgument(keeps, s[1..], !inQuotes, 0, acc1)
    else if !inQuotes && IsSeparator(s[0]) then (acc + Backslashes(pending), s)
    else ReadArgument(keeps, s[1..], inQuotes, 0, acc + Backslashes(pending) + [s[0]])
  }

  function Split(keeps: bool, s: string): seq<string>
    decreases |s|
  {
    if s == "" then []
    else if IsSeparator(s[0]) then Split(keeps, s[1..])
    else var (arg, rest) := ReadArgument(keeps, s, false, 0, ""); [arg] + Split(keeps, rest)
  }

  lemma {:induction false} BackslashesAreHeld(keeps: bool, n: nat, s: string, inQuotes: bool, pending: nat, acc: string)
    ensures ReadArgument(keeps, Backslashes(n) + s, inQuotes, pending, acc)
         == ReadArgument(keeps, s, inQuotes, pending + n, acc)
    decreases n
  {
    var text := Backslashes(n) + s;
    if n == 0 {
      assert text == s;
    } else {
      assert text[1..] == Backslashes(n - 1) + s;
      BackslashesAreHeld(keeps, n - 1, s, inQuotes, pending + 1, acc);
    }
  }

  /** The rules as they are documented. Before a quote, 2n + 1 backslashes are n and the quote is part of the
      argument; 2n are n, and the quote delimits, unless it ends a quoted part and another one follows: then one
      quote is part of the argument. */
  lemma {:induction false} QuoteRules(keeps: bool, n: nat, rest: string, inQuotes: bool, acc: string)
    ensures ReadArgument(keeps, Backslashes(n * 2 + 1) + ("\"" + rest), inQuotes, 0, acc)
         == ReadArgument(keeps, rest, inQuotes, 0, acc + Backslashes(n) + "\"")
    ensures (inQuotes ==> rest == "" || rest[0] != '"') ==>
              (ReadArgument(keeps, Backslashes(n * 2) + ("\"" + rest), inQuotes, 0, acc)
               == ReadArgument(keeps, rest, !inQuotes, 0, acc + Backslashes(n)))
    ensures ReadArgument(keeps, Backslashes(n * 2) + ("\"" + ("\"" + rest)), true, 0, acc)
         == ReadArgument(keeps, rest, keeps, 0, acc + Backslashes(n) + "\"")
  {
    BackslashesAreHeld(keeps, n * 2 + 1, "\"" + rest, inQuotes, 0, acc);
    BackslashesAreHeld(keeps, n * 2, "\"" + rest, inQuotes, 0, acc);
    BackslashesAreHeld(keeps, n * 2, "\"" + ("\"" + rest), true, 0, acc);
    assert ("\"" + rest)[1..] == rest && ("\"" + ("\"" + rest))[2..] == rest;
  }

  /** Before anything else n backslashes are n. A space or tab outside quotes ends the argument. */
  lemma {:induction false} OtherRules(keeps: bool, n: nat, c: char, rest: string, inQuotes: bool, acc: string)
    ensures c != '\\' && c != '"' && (inQuotes || (c != ' ' && c != '\t')) ==>
              (ReadArgument(keeps, Backslashes(n) + ([c] + rest), inQuotes, 0, acc)
               == ReadArgument(keeps, rest, inQuotes, 0, acc + Backslashes(n) + [c]))
    ensures c == ' ' || c == '\t' ==>
              ReadArgument(keeps, Backslashes(n) + ([c] + rest), false, 0, acc) == (acc + Backslashes(n), [c] + rest)
    ensures ReadArgument(keeps, Backslashes(n) + "", inQuotes, 0, acc) == (acc + Backslashes(n), "")
  {
    BackslashesAreHeld(keeps, n, [c] + rest, inQuotes, 0, acc);
    BackslashesAreHeld(keeps, n, [c] + rest, false, 0, acc);
    BackslashesAreHeld(keeps, n, "", inQuotes, 0, acc);
    assert ([c] + rest)[1..] == rest;
  }

  /** An argument is left as it is just when it is not empty and has no quote and no white space. */
  lemma {:induction false} PlainArgumentsAreKept(v: string)
    ensures Quoted(v) == v <==> v != "" && forall i :: 0 <= i < |v| ==> v[i] != '"' && !IsWhiteSpace(v[i])
    ensures v == "" || '"' in v || ' ' in v || '\t' in v || '\r' in v || '\n' in v ==> Quoted(v) != v
    ensures Quoted(v) != v ==> |Quoted(v)| >= 2 && Quoted(v)[0] == '"' && Quoted(v)[|Quoted(v)| - 1] == '"'
    ensures v != "" && (forall i :: 0 <= i < |v| ==> ' ' < v[i] <= '~' && v[i] != '"') ==> Quoted(v) == v
  {
    BodyIsLonger(0, v);
  }

  lemma {:induction false} BodyIsLonger(pending: nat, v: string)
    ensures |Body(pending, v)| > pending + |v| && Body(pending, v)[|Body(pending, v)| - 1] == '"'
    decreases |v|
  {
    if v != "" { BodyIsLonger(if v[0] == '\\' then pending + 1 else 0, v[1..]); }
  }

  lemma {:induction false} BackslashesAdd(m: nat, n: nat)
    ensures Backslashes(m) + Backslashes(n) == Backslashes(m + n)
  {
  }

  /** The quoted body, read inside quotes, gives back the value and ends the quoted part. */
  lemma {:induction false} BodyIsRead(keeps: bool, pending: nat, v: string, acc: string, tail: string)
    requires tail == "" || tail[0] != '"'
    ensures ReadArgument(keeps, Body(pending, v) + tail, true, 0, acc)
         == ReadArgument(keeps, tail, false, 0, acc + (Backslashes(pending) + v))
    decreases |v|
  {
    var held := Backslashes(pending);
    if v == "" {
      assert Body(pending, v) + tail == Backslashes(pending * 2) + ("\"" + tail);
      QuoteRules(keeps, pending, tail, true, acc);
      assert held + v == held;
    } else if v[0] == '\\' {
      BodyIsRead(keeps, pending + 1, v[1..], acc, tail);
      assert Backslashes(pending + 1) + v[1..] == held + v;
    } else {
      var rest := Body(0, v[1..]) + tail;
      BodyIsRead(keeps, 0, v[1..], acc + held + [v[0]], tail);
      assert acc + held + [v[0]] + (Backslashes(0) + v[1..]) == acc + (held + v);
      if v[0] == '"' {
        assert Body(pending, v) + tail == Backslashes(pending * 2 + 1) + ("\"" + rest);
        QuoteRules(keeps, pending, rest, true, acc);
        assert "\"" == [v[0]];
      } else {
        assert Body(pending, v) + tail == held + ([v[0]] + rest);
        OtherRules(keeps, pending, v[0], rest, true, acc);
      }
    }
  }

  predicate EndsWord(tail: string) {
    tail == "" || IsSeparator(tail[0])
  }

  /** A value without quotes and white space is read as it stands. */
  lemma {:induction false} PlainIsRead(keeps: bool, v: string, pending: nat, acc: string, tail: string)
    requires forall i :: 0 <= i < |v| ==> v[i] != '"' && !IsWhiteSpace(v[i])
    requires EndsWord(tail)
    ensures ReadArgument(keeps, v + tail, false, pending, acc) == (acc + Backslashes(pending) + v, tail)
    decreases |v|
  {
    var text := v + tail;
    if v == "" {
      assert text == tail;
      assert acc + Backslashes(pending) + v == acc + Backslashes(pending);
    } else {
      assert text[0] == v[0] && text[1..] == v[1..] + tail;
      if v[0] == '\\' {
        PlainIsRead(keeps, v[1..], pending + 1, acc, tail);
        BackslashesAdd(pending, 1);
        assert v == Backslashes(1) + v[1..];
        assert acc + Backslashes(pending + 1) + v[1..] == acc + Backslashes(pending) + v;
      } else {
        PlainIsRead(keeps, v[1..], 0, acc + Backslashes(pending) + [v[0]], tail);
        assert acc + Backslashes(pending) + [v[0]] + Backslashes(0) + v[1..] == acc + Backslashes(pending) + v;
      }
    }
  }

  lemma {:induction false} WordEnds(keeps: bool, acc: string, tail: string)
    requires EndsWord(tail)
    ensures ReadArgument(keeps, tail, false, 0, acc) == (acc, tail)
  {
    assert acc + Backslashes(0) == acc;
  }

  lemma {:induction false} WrappedIsRead(keeps: bool, v: string, tail: string)
    requires EndsWord(tail)
    ensures ReadArgument(keeps, "\"" + (Body(0, v) + tail), false, 0, "") == (v, tail)
  {
    var inner := Body(0, v) + tail;
    assert ("\"" + inner)[1..] == inner && "" + Backslashes(0) == "";
    BodyIsRead(keeps, 0, v, "", tail);
    assert "" + (Backslashes(0) + v) == v;
    WordEnds(keeps, v, tail);
  }

  lemma {:induction false} QuotedIsRead(keeps: bool, v: string, tail: string)
    requires EndsWord(tail)
    ensures ReadArgument(keeps, Quoted(v) + tail, false, 0, "") == (v, tail)
    ensures Quoted(v) != "" && !IsSeparator(Quoted(v)[0])
  {
    if NeedsQuotes(v) {
      WrappedIsRead(keeps, v, tail);
      assert Quoted(v) + tail == "\"" + (Body(0, v) + tail);
    } else {
      PlainIsRead(keeps, v, 0, "", tail);
      assert "" + Backslashes(0) + v == v;
      assert !IsWhiteSpace(v[0]);
    }
  }

  /** Splitting undoes quoting and joining, for every list: empty arguments, quotes, white space and
      trailing backslashes included. */
  lemma {:induction false} SplitUndoesBuild(keeps: bool, args: seq<string>)
    ensures Split(keeps, Words.Join(QuoteAll(args))) == args
    decreases |args|
  {
    if args != [] {
      var words := QuoteAll(args);
      var line := Words.Join(words);
      assert words[1..] == QuoteAll(args[1..]);
      var tail := if |args| == 1 then "" else " " + Words.Join(words[1..]);
      assert line == Quoted(args[0]) + tail;
      QuotedIsRead(keeps, args[0], tail);
      assert line[0] == Quoted(args[0])[0];
      if |args| > 1 { assert tail[1..] == Words.Join(words[1..]); }
      SplitUndoesBuild(keeps, args[1..]);
      assert [args[0]] + args[1..] == args;
    }
  }
}
