/** The line-oriented shell session (`run_shell_session`). */
module ShellSession {
  import opened Prelude
  import opened LineReaders

  // ----- Lines -----------------------------------------------------------

  function TrimStart(s: string): string {
    if s != "" && IsWhitespace(s[0]) then TrimStart(s[1..]) else s
  }

  function TrimEnd(s: string): string {
    if s != "" && IsWhitespace(s[|s| - 1]) then TrimEnd(s[..|s| - 1]) else s
  }

  function Lower(c: char): char { if 'A' <= c <= 'Z' then c - 'A' + 'a' else c }

  predicate SameIgnoringCase(a: string, b: string) {
    |a| == |b| && forall i :: 0 <= i < |a| ==> Lower(a[i]) == Lower(b[i])
  }

  datatype Kind = Blank | Exit | Help | Command

  function KindOf(line: string): Kind {
    var directive := TrimEnd(TrimStart(line));
    if directive == "" then Blank
    else if SameIgnoringCase(directive, ".exit") then Exit
    else if SameIgnoringCase(directive, ".help") then Help
    else Command
  }

  /** The lines of the stream that a session without interruption hands to the executor. */
  function Commands(s: seq<byte>, ending: Ending, decode: Decoder): seq<string>
    decreases |s|
  {
    var next := ShellLine(s, ending, decode);
    if s == [] || next.Err? || next.value.None? then []
    else
      var line := next.value.value;
      match KindOf(line)
      case Exit => []
      case Command => [line] + Commands(s[LineEnd(s)..], ending, decode)
      case _ => Commands(s[LineEnd(s)..], ending, decode)
  }

  // ----- Reference: cut the whole stream, keep the commands --------------

  /** The lines of the stream, each with its newline if it has one. */
  function Lines(s: seq<byte>): (r: seq<seq<byte>>)
    ensures Flatten(r) == s
    decreases |s|
  {
    if s == [] then []
    else
      assert s == s[..LineEnd(s)] + s[LineEnd(s)..];
      [s[..LineEnd(s)]] + Lines(s[LineEnd(s)..])
  }

  /** The texts of those lines that are readable and neither blank nor directives. */
  function Wanted(lines: seq<seq<byte>>, decode: Decoder): seq<string> {
    if lines == [] then []
    else
      var text := ShellText(lines[0], decode);
      var rest := Wanted(lines[1..], decode);
      if text.Ok? && text.value.Some? && KindOf(text.value.value) == Command then [text.value.value] + rest else rest
  }

  /** A session only ever gets to see a prefix of the wanted lines. */
  lemma {:induction false} CommandsArePrefix(s: seq<byte>, ending: Ending, decode: Decoder)
    ensures Commands(s, ending, decode) <= Wanted(Lines(s), decode)
    decreases |s|
  {
    hide KindOf, LineEnd, ShellText;
    if s != [] {
      var rest := s[LineEnd(s)..];
      CommandsArePrefix(rest, ending, decode);
      assert Lines(s) == [s[..LineEnd(s)]] + Lines(rest) && Lines(s)[1..] == Lines(rest);
    }
  }

  // ----- The session -----------------------------------------------------

  datatype End = AtEof | ExitRequested | Interrupted

  datatype Outcome = Finished(end: End) | InvalidInput | ReadFailed | CommandFailed

  const U64_MAX := 0xFFFF_FFFF_FFFF_FFFF

  function ResultAt(results: seq<Option<int>>, i: nat): Option<int> { if i < |results| then results[i] else Some(0) }

  function Later(results: seq<Option<int>>, n: nat): seq<Option<int>> { if n <= |results| then results[n..] else [] }

  function ReadOutcome(e: LineError): Outcome {
    match e
    case ReadFault(interrupted) => if interrupted then Finished(Interrupted) else ReadFailed
    case _ => InvalidInput
  }

  /** How a session without interruption and without failing commands ends. */
  function NaturalEnd(s: seq<byte>, ending: Ending, decode: Decoder): Outcome
    decreases |s|
  {
    var next := ShellLine(s, ending, decode);
    if next.Err? then ReadOutcome(next.error)
    else if s == [] || next.value.None? then Finished(AtEof)
    else if KindOf(next.value.value) == Exit then Finished(ExitRequested)
    else NaturalEnd(s[LineEnd(s)..], ending, decode)
  }

  /** What the session cannot influence: whether an interruption is pending each time it looks, and what
      becomes of each command (`None` is a failure). Beyond the lists nothing interrupts and every command exits with
      0. */
  class Surroundings {
    var pending: seq<bool>
    var results: seq<Option<int>>
    /** The lines handed to the executor, in order. */
    var executed: seq<string>

    method LookForInterruption() returns (interrupted: bool)
      modifies this`pending
      ensures true !in old(pending) ==> !interrupted && true !in pending
    {
      if pending == [] {
        return false;
      }
      interrupted := pending[0];
      pending := pending[1..];
    }

    method Execute(line: string) returns (result: Option<int>)
      modifies this`results, this`executed
      ensures executed == old(executed) + [line]
      ensures result == ResultAt(old(results), 0)
      ensures results == Later(old(results), 1)
    {
      executed := executed + [line];
      if results == [] {
        return Some(0);
      }
      result := results[0];
      results := results[1..];
    }
  }

  /** One line of the two specifications above. */
  lemma NextLine(s: seq<byte>, ending: Ending, decode: Decoder)
    ensures var next := ShellLine(s, ending, decode);
            && (next.Err? ==>
                  && Commands(s, ending, decode) == []
                  && NaturalEnd(s, ending, decode) == ReadOutcome(next.error))
            && (next == Ok(None) ==>
                  && Commands(s, ending, decode) == []
                  && NaturalEnd(s, ending, decode) == Finished(AtEof))
            && (next.Ok? && next.value.Some? ==>
                  var kind, rest := KindOf(next.value.value), s[LineEnd(s)..];
                  && |rest| < |s|
                  && Commands(s, ending, decode) ==
                     (if kind == Exit then []
                      else (if kind == Command then [next.value.value] else []) + Commands(rest, ending, decode))
                  && NaturalEnd(s, ending, decode) == (if kind == Exit then Finished(ExitRequested)
                     else NaturalEnd(rest, ending, decode)))
  {
    hide KindOf, ShellText;
  }

  /** The report so far: every executed command succeeded; `left` are the results still to come. */
  ghost predicate Tally(results: seq<Option<int>>, executed: seq<string>, left: seq<Option<int>>, count: nat,
                        lastExit: int) {
    && left == Later(results, |executed|)
    && (forall i :: 0 <= i < |executed| ==> ResultAt(results, i).Some?)
    && count == (if |executed| < U64_MAX then |executed| else U64_MAX)
    && lastExit == (if executed == [] then 0 else ResultAt(results, |executed| - 1).value)
  }

  lemma TallyNext(results: seq<Option<int>>, executed: seq<string>, left: seq<Option<int>>, count: nat, lastExit: int,
                  line: string)
    requires Tally(results, executed, left, count, lastExit)
    ensures ResultAt(left, 0) == ResultAt(results, |executed|)
    ensures ResultAt(left, 0).Some? ==>
              Tally(results, executed + [line], Later(left, 1),
                    if count < U64_MAX then count + 1 else count, ResultAt(left, 0).value)
    ensures None !in results ==> ResultAt(left, 0).Some?
  {
  }

  /** The session hands an in-order prefix of the commands to the executor, each once: all of them, and up to
      the natural end, if nothing interrupts and no command fails. The report counts the commands that
      succeeded and gives the exit code of the last one. */
  method RunShellSession(input: Input, around: Surroundings, decode: Decoder)
    returns (outcome: Outcome, count: nat, lastExit: int)
    requires input.Valid() && around.executed == []
    modifies input, around
    ensures around.executed <= Commands(old(input.Bytes()), input.ending, decode)
    ensures true !in old(around.pending) && None !in old(around.results) ==>
              && around.executed == Commands(old(input.Bytes()), input.ending, decode)
              && outcome == NaturalEnd(old(input.Bytes()), input.ending, decode)
    ensures outcome != CommandFailed ==> Tally(old(around.results), around.executed, around.results, count, lastExit)
    ensures outcome == CommandFailed ==>
              && around.executed != [] && ResultAt(old(around.results), |around.executed| - 1) == None
              && Tally(old(around.results), around.executed[..|around.executed| - 1],
                 Later(old(around.results), |around.executed| - 1), count, lastExit)
  {
    hide ShellLine, KindOf, LineEnd, Commands, NaturalEnd, Tally, ResultAt, Later;
    ghost var s, results := input.Bytes(), around.results;
    ghost var calm := true !in around.pending;
    count, lastExit := 0, 0;
    assert Tally(results, [], results, 0, 0) by { TallyStart(results); }
    while true
      invariant input.Valid()
      invariant around.executed + Commands(input.Bytes(), input.ending, decode) == Commands(s, input.ending, decode)
      invariant NaturalEnd(input.Bytes(), input.ending, decode) == NaturalEnd(s, input.ending, decode)
      invariant calm ==> true !in around.pending
      invariant Tally(results, around.executed, around.results, count, lastExit)
      decreases |input.Bytes()|
    {
      var early := around.LookForInterruption();
      if early {
        return Finished(Interrupted), count, lastExit;
      }
      NextLine(input.Bytes(), input.ending, decode);
      var line := ReadShellLine(input, decode);
      if line.Err? {
        return ReadOutcome(line.error), count, lastExit;
      }
      if line.value.None? {
        return Finished(AtEof), count, lastExit;
      }
      var text := line.value.value;
      var kind := KindOf(text);
      if kind == Blank {
        continue;
      }
      if kind == Exit {
        return Finished(ExitRequested), count, lastExit;
      }
      if kind == Help {
        continue;
      }
      var late := around.LookForInterruption();
      if late {
        return Finished(Interrupted), count, lastExit;
      }
      TallyNext(results, around.executed, around.results, count, lastExit, text);
      TallyLeft(results, around.executed, around.results, count, lastExit);
      ghost var before := around.executed;
      var result := around.Execute(text);
      if result.None? {
        assert around.executed[..|around.executed| - 1] == before;
        return CommandFailed, count, lastExit;
      }
      count := if count < U64_MAX then count + 1 else count;
      lastExit := result.value;
      var after := around.LookForInterruption();
      if after {
        return Finished(Interrupted), count, lastExit;
      }
    }
  }

  lemma TallyStart(results: seq<Option<int>>)
    ensures Tally(results, [], results, 0, 0)
  {
  }

  lemma TallyLeft(results: seq<Option<int>>, executed: seq<string>, left: seq<Option<int>>, count: nat, lastExit: int)
    requires Tally(results, executed, left, count, lastExit)
    ensures left == Later(results, |executed|)
  {
  }
}
