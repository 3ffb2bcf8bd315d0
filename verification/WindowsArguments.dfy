/**
 Quoting of a guest command line (`src/guest/powershell_direct/mod.rs`) and its
 inverse, the argument rules of Microsoft's C runtime and `CommandLineToArgvW`.
 */
module WindowsArguments {
  import opened Prelude

  function Backslashes(n: nat): (r: string)
    ensures |r| == n && forall i :: 0 <= i < n ==> r[i] == '\\'
  {
    seq(n, _ => '\\')
  }

  // ----- Printer ---------------------------------------------------------

  predicate NeedsQuotes(argument: string) {
    argument == "" || exists i :: 0 <= i < |argument| && (IsWhitespace(argument[i]) || argument[i] == '"')
  }

  /** What the quoting loop still emits for `rest` when `pending` backslashes are held back. */
  function Escaped(rest: string, pending: nat): string {
    if rest == "" then Backslashes(2 * pending)
    else if rest[0] == '\\' then Escaped(rest[1..], pending + 1)
    else if rest[0] == '"' then Backslashes(2 * pending + 1) + "\"" + Escaped(rest[1..], 0)
    else Backslashes(pending) + [rest[0]] + Escaped(rest[1..], 0)
  }

  function Quoted(argument: string): string {
    if NeedsQuotes(argument) then "\"" + Escaped(argument, 0) + "\"" else argument
  }

  function CommandLine(arguments: seq<string>): string {
    if arguments == [] then ""
    else if |arguments| == 1 then Quoted(arguments[0])
    else Quoted(arguments[0]) + " " + CommandLine(arguments[1..])
  }

  method QuoteWindowsArgument(argument: string) returns (output: string)
    ensures output == Quoted(argument)
  {
    if !NeedsQuotes(argument) {
      return argument;
    }
    output := "\"";
    var backslashes := 0;
    for i := 0 to |argument|
      invariant output + Escaped(argument[i..], backslashes) == "\"" + Escaped(argument, 0)
    {
      ghost var before := output;
      ghost var held := backslashes;
      var character := argument[i];
      assert argument[i..][1..] == argument[i + 1..];
      if character == '\\' {
        backslashes := backslashes + 1;
      } else if character == '"' {
        output := output + Backslashes(backslashes * 2 + 1);
        output := output + "\"";
        backslashes := 0;
        assert output + Escaped(argument[i + 1..], 0) == before + Escaped(argument[i..], held);
      } else {
        output := output + Backslashes(backslashes);
        backslashes := 0;
        output := output + [character];
        assert output + Escaped(argument[i + 1..], 0) == before + Escaped(argument[i..], held);
      }
    }
    output := output + Backslashes(backslashes * 2);
    output := output + "\"";
  }

  // ----- Reference parser ------------------------------------------------

  /** The two published readings of `""` inside a quoted part: both give a literal
      quote; afterwards the C runtime stays in the quoted part, the older rule leaves it. */
  datatype Dialect = StayQuoted | LeaveQuoted

  predicate Separates(c: char) { c == ' ' || c == '\t' }

  /** Reads one argument: `n` backslashes have been seen and not yet interpreted.
      2n backslashes before a quote stand for n, 2n+1 for n and a literal quote;
      backslashes not before a quote stand for themselves. */
  function ParseOne(d: Dialect, s: string, quoted: bool, n: nat): (r: (string, string))
    ensures |r.1| <= |s|
    ensures s != "" && (quoted || !Separates(s[0])) ==> |r.1| < |s|
    decreases |s|
  {
    if s == "" then (Backslashes(n), "")
    else if s[0] == '\\' then ParseOne(d, s[1..], quoted, n + 1)
    else if s[0] == '"' then
      if n % 2 == 1 then
        var r := ParseOne(d, s[1..], quoted, 0);
        (Backslashes(n / 2) + "\"" + r.0, r.1)
      else if quoted && |s| > 1 && s[1] == '"' then
        var r := ParseOne(d, s[2..], d.StayQuoted?, 0);
        (Backslashes(n / 2) + "\"" + r.0, r.1)
      else
        var r := ParseOne(d, s[1..], !quoted, 0);
        (Backslashes(n / 2) + r.0, r.1)
    else if Separates(s[0]) && !quoted then (Backslashes(n), s)
    else
      var r := ParseOne(d, s[1..], quoted, 0);
      (Backslashes(n) + [s[0]] + r.0, r.1)
  }

  function ParseArguments(d: Dialect, s: string): seq<string>
    decreases |s|
  {
    if s == "" then []
    else if Separates(s[0]) then ParseArguments(d, s[1..])
    else
      var r := ParseOne(d, s, false, 0);
      [r.0] + ParseArguments(d, r.1)
  }

  // ----- Round trip ------------------------------------------------------

  lemma {:induction false} ParseBackslashes(d: Dialect, k: nat, s: string, quoted: bool, n: nat)
    ensures ParseOne(d, Backslashes(k) + s, quoted, n) == ParseOne(d, s, quoted, n + k)
    decreases k
  {
    if k == 0 {
      assert Backslashes(0) + s == s;
    } else {
      assert (Backslashes(k) + s)[1..] == Backslashes(k - 1) + s;
      ParseBackslashes(d, k - 1, s, quoted, n + 1);
    }
  }

  /** A tail at which an argument may end: the end of the line or a separator. */
  predicate Ends(tail: string) { tail == "" || Separates(tail[0]) }

  /** The closing quote after an even run of backslashes ends the argument. */
  lemma ParseClosing(d: Dialect, pending: nat, tail: string)
    requires Ends(tail)
    ensures ParseOne(d, Backslashes(2 * pending) + ("\"" + tail), true, 0) == (Backslashes(pending), tail)
  {
    ParseBackslashes(d, 2 * pending, "\"" + tail, true, 0);
    assert ("\"" + tail)[1..] == tail;
    assert ParseOne(d, tail, false, 0) == (Backslashes(0), tail);
    assert Backslashes(pending) + Backslashes(0) == Backslashes(pending);
  }

  lemma ParseStep(d: Dialect, c: char, inner: string, n: nat)
    requires c != '\\' && (c == '"' ==> n % 2 == 1)
    ensures var r := ParseOne(d, inner, true, 0);
            ParseOne(d, [c] + inner, true, n) == (Backslashes(if c == '"' then n / 2 else n) + [c] + r.0, r.1)
  {
    var s := [c] + inner;
    assert s[1..] == inner && s[0] == c;
    hide Backslashes;
  }

  /** Inside quotes, one printed character is read back before the rest. */
  lemma ParseCharacter(d: Dialect, pending: nat, c: char, inner: string)
    requires c != '\\'
    ensures var k := if c == '"' then 2 * pending + 1 else pending;
            var r := ParseOne(d, inner, true, 0);
            ParseOne(d, Backslashes(k) + ([c] + inner), true, 0) == (Backslashes(pending) + [c] + r.0, r.1)
  {
    var k := if c == '"' then 2 * pending + 1 else pending;
    hide ParseOne, Backslashes;
    ParseBackslashes(d, k, [c] + inner, true, 0);
    ParseStep(d, c, inner, k);
  }

  lemma EscapedCharacter(rest: string, pending: nat, tail: string)
    requires rest != "" && rest[0] != '\\'
    ensures Escaped(rest, pending) + "\"" + tail ==
            Backslashes(if rest[0] == '"' then 2 * pending + 1 else pending)
            + ([rest[0]] + (Escaped(rest[1..], 0) + "\"" + tail))
  {
  }

  lemma {:induction false} ParseEscaped(d: Dialect, rest: string, pending: nat, tail: string)
    requires Ends(tail)
    ensures ParseOne(d, Escaped(rest, pending) + "\"" + tail, true, 0) == (Backslashes(pending) + rest, tail)
    decreases rest
  {
    hide ParseOne;
    var whole := Escaped(rest, pending) + "\"" + tail;
    if rest == "" {
      ParseClosing(d, pending, tail);
      assert whole == Backslashes(2 * pending) + ("\"" + tail);
      assert Backslashes(pending) + rest == Backslashes(pending);
    } else if rest[0] == '\\' {
      ParseEscaped(d, rest[1..], pending + 1, tail);
      assert Backslashes(pending + 1) + rest[1..] == Backslashes(pending) + rest;
    } else {
      var inner := Escaped(rest[1..], 0) + "\"" + tail;
      ParseEscaped(d, rest[1..], 0, tail);
      ParseCharacter(d, pending, rest[0], inner);
      EscapedCharacter(rest, pending, tail);
      assert Backslashes(pending) + [rest[0]] + (Backslashes(0) + rest[1..]) == Backslashes(pending) + rest;
    }
  }

  lemma {:induction false} ParsePlain(d: Dialect, rest: string, n: nat, tail: string)
    requires Ends(tail)
    requires forall i :: 0 <= i < |rest| ==> !IsWhitespace(rest[i]) && rest[i] != '"'
    ensures ParseOne(d, rest + tail, false, n) == (Backslashes(n) + rest, tail)
    decreases rest
  {
    if rest == "" {
      assert rest + tail == tail;
      assert Backslashes(n) + rest == Backslashes(n);
    } else {
      assert (rest + tail)[1..] == rest[1..] + tail;
      if rest[0] == '\\' {
        ParsePlain(d, rest[1..], n + 1, tail);
        assert Backslashes(n + 1) + rest[1..] == Backslashes(n) + rest;
      } else {
        ParsePlain(d, rest[1..], 0, tail);
        assert Backslashes(n) + [rest[0]] + (Backslashes(0) + rest[1..]) == Backslashes(n) + rest;
      }
    }
  }

  /** One printed argument is read back whole, whatever may follow it. */
  lemma ParseQuoted(d: Dialect, argument: string, tail: string)
    requires Ends(tail)
    ensures Quoted(argument) != "" && !Separates(Quoted(argument)[0])
    ensures ParseOne(d, Quoted(argument) + tail, false, 0) == (argument, tail)
  {
    if NeedsQuotes(argument) {
      var inner := Escaped(argument, 0) + "\"" + tail;
      assert Quoted(argument) + tail == "\"" + inner;
      assert ("\"" + inner)[1..] == inner;
      ParseEscaped(d, argument, 0, tail);
      assert Backslashes(0) + (Backslashes(0) + argument) == argument;
    } else {
      ParsePlain(d, argument, 0, tail);
      assert Backslashes(0) + argument == argument;
    }
  }

  /** The parser steps over the separator and over one printed argument. */
  lemma ParseNext(d: Dialect, argument: string, tail: string)
    requires Ends(tail)
    ensures ParseArguments(d, Quoted(argument) + tail) == [argument] + ParseArguments(d, tail)
  {
    ParseQuoted(d, argument, tail);
    hide ParseOne, Quoted;
    assert (Quoted(argument) + tail)[0] == Quoted(argument)[0];
  }

  /** Every list of arguments survives printing and parsing, under both dialects. */
  lemma {:induction false} CommandLineRoundTrip(d: Dialect, arguments: seq<string>)
    ensures ParseArguments(d, CommandLine(arguments)) == arguments
    decreases |arguments|
  {
    hide Quoted, ParseOne;
    if |arguments| == 1 {
      ParseNext(d, arguments[0], "");
      assert Quoted(arguments[0]) + "" == Quoted(arguments[0]);
    } else if |arguments| > 1 {
      var tail := " " + CommandLine(arguments[1..]);
      ParseNext(d, arguments[0], tail);
      assert CommandLine(arguments) == Quoted(arguments[0]) + tail;
      assert tail[1..] == CommandLine(arguments[1..]);
      CommandLineRoundTrip(d, arguments[1..]);
    }
  }

  /** Two different argument lists never share a command line. */
  lemma CommandLineInjective(a: seq<string>, b: seq<string>)
    requires CommandLine(a) == CommandLine(b)
    ensures a == b
  {
    CommandLineRoundTrip(StayQuoted, a);
    CommandLineRoundTrip(StayQuoted, b);
  }
}
