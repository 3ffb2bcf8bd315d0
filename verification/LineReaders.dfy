/** The line readers over buffered input (`read_shell_line`, `read_password_line`). */
module LineReaders {
  import opened Prelude

  const NEWLINE: byte := 10
  const RETURN: byte := 13
  const MAX_SHELL_LINE := 8 * 1024
  const MAX_PASSWORD := 4096

  /** How the input goes on after its last byte. */
  datatype Ending = Eof | Fault(interrupted: bool)

  datatype LineError = Unbounded | HasNul | NotUtf8 | ReadFault(interrupted: bool)

  /** `String::from_utf8`, whatever it accepts. */
  type Decoder = seq<byte> -> Option<string>

  // ----- Whole-stream specifications -------------------------------------

  /** Where the first line ends, its newline included. */
  function LineEnd(s: seq<byte>): (n: nat)
    ensures n <= |s|
    ensures s != [] ==> n > 0
  {
    var p := Find(s, NEWLINE, 0);
    if p < |s| then p + 1 else |s|
  }

  function Dropped(s: seq<byte>, b: byte): seq<byte> {
    if s != [] && s[|s| - 1] == b then s[..|s| - 1] else s
  }

  function Text(s: seq<byte>, decode: Decoder): Result<string, LineError> {
    var text := decode(s);
    if text.None? then Err(NotUtf8) else Ok(text.value)
  }

  /** The shell line that bytes stand for: one newline and then one carriage return are dropped. */
  function ShellText(line: seq<byte>, decode: Decoder): Result<Option<string>, LineError> {
    var bytes := Dropped(Dropped(line, NEWLINE), RETURN);
    if 0 in bytes then Err(HasNul)
    else
      var text := Text(bytes, decode);
      if text.Err? then Err(text.error) else Ok(Some(text.value))
  }

  /** The next shell line of the whole stream; `Ok(None)` at the end. */
  function ShellLine(s: seq<byte>, ending: Ending, decode: Decoder): Result<Option<string>, LineError> {
    var n := LineEnd(s);
    if n > MAX_SHELL_LINE then Err(Unbounded)
    else if Find(s, NEWLINE, 0) == |s| && ending.Fault? then Err(ReadFault(ending.interrupted))
    else if s == [] then Ok(None)
    else ShellText(s[..n], decode)
  }

  /** The password bytes of a line: a newline, and a carriage return only before a newline, is dropped. */
  function PasswordBytes(line: seq<byte>): seq<byte> {
    if line != [] && line[|line| - 1] == NEWLINE then Dropped(line[..|line| - 1], RETURN) else line
  }

  function PasswordText(line: seq<byte>, decode: Decoder): Result<string, LineError> {
    var bytes := PasswordBytes(line);
    if |bytes| > MAX_PASSWORD || RETURN in bytes || NEWLINE in bytes then Err(Unbounded) else Text(bytes, decode)
  }

  /** The password of the whole stream. */
  function Password(s: seq<byte>, ending: Ending, decode: Decoder): Result<string, LineError> {
    if Find(s, NEWLINE, 0) == |s| then
      if |s| > MAX_PASSWORD then Err(Unbounded)
      else if ending.Fault? then Err(ReadFault(ending.interrupted))
      else PasswordText(s, decode)
    else PasswordText(s[..LineEnd(s)], decode)
  }

  // ----- Splitting into buffers ------------------------------------------

  lemma FlattenCons(chunks: seq<seq<byte>>)
    requires chunks != []
    ensures Flatten(chunks) == chunks[0] + Flatten(chunks[1..])
  {
  }

  /** The first newline of a stream whose read part has none. */
  lemma FindAcross(bytes: seq<byte>, chunk: seq<byte>, rest: seq<byte>)
    requires NEWLINE !in bytes
    ensures var p, s := Find(chunk, NEWLINE, 0), bytes + chunk + rest;
            if p < |chunk| then Find(s, NEWLINE, 0) == |bytes| + p
            else Find(s, NEWLINE, 0) >= |bytes| + |chunk|
  {
    var p, s := Find(chunk, NEWLINE, 0), bytes + chunk + rest;
    assert forall j :: 0 <= j < |bytes| ==> s[j] == bytes[j];
    assert forall j :: |bytes| <= j < |bytes| + |chunk| ==> s[j] == chunk[j - |bytes|];
    if p < |chunk| {
      FindIs(s, NEWLINE, 0, |bytes| + p);
    }
  }

  lemma Regroup(bytes: seq<byte>, chunk: seq<byte>, rest: seq<byte>, n: nat)
    requires n <= |chunk|
    ensures var s := bytes + (chunk + rest);
            && s == bytes + chunk + rest && s[..|bytes| + n] == bytes + chunk[..n]
               && s[|bytes| + n..] == (chunk + rest)[n..]
            && s == (bytes + chunk[..n]) + (chunk + rest)[n..]
  {
  }

  /** The buffer completes the line. */
  lemma LineCompleted(s: seq<byte>, bytes: seq<byte>, chunk: seq<byte>, rest: seq<byte>)
    requires s == bytes + (chunk + rest) && NEWLINE !in bytes && Find(chunk, NEWLINE, 0) < |chunk|
    ensures chunk[LineEnd(chunk) - 1] == NEWLINE && LineEnd(s) == |bytes| + LineEnd(chunk) && Find(s, NEWLINE, 0) < |s|
    ensures s[..LineEnd(s)] == bytes + chunk[..LineEnd(chunk)] && s[LineEnd(s)..] == (chunk + rest)[LineEnd(chunk)..]
  {
    Regroup(bytes, chunk, rest, LineEnd(chunk));
    FindAcross(bytes, chunk, rest);
    hide Find;
  }

  /** The line goes on behind the buffer. */
  lemma LineGoesOn(s: seq<byte>, bytes: seq<byte>, chunk: seq<byte>, rest: seq<byte>)
    requires s == bytes + (chunk + rest) && NEWLINE !in bytes && Find(chunk, NEWLINE, 0) == |chunk|
    ensures LineEnd(chunk) == |chunk| && NEWLINE !in chunk
    ensures LineEnd(s) >= |bytes| + |chunk| && Find(s, NEWLINE, 0) >= |bytes| + |chunk|
  {
    Regroup(bytes, chunk, rest, |chunk|);
    FindAcross(bytes, chunk, rest);
  }

  /** At the end of the input the line is all there is. */
  lemma LineAtEnd(s: seq<byte>)
    requires NEWLINE !in s
    ensures Find(s, NEWLINE, 0) == |s| && LineEnd(s) == |s|
  {
    FindIs(s, NEWLINE, 0, |s|);
  }

  /** Buffered input: what each `fill_buf` will deliver; none of it is empty before the end. */
  class Input {
    var chunks: seq<seq<byte>>
    const ending: Ending

    ghost predicate Valid()
      reads this
    {
      forall i :: 0 <= i < |chunks| ==> chunks[i] != []
    }

    /** All bytes still to come. */
    ghost function Bytes(): seq<byte>
      reads this
    {
      Flatten(chunks)
    }

    constructor (chunks: seq<seq<byte>>, ending: Ending)
      requires forall i :: 0 <= i < |chunks| ==> chunks[i] != []
      ensures Valid() && this.chunks == chunks && this.ending == ending
    {
      this.chunks, this.ending := chunks, ending;
    }

    /** `consume`: the rest of the buffer, if any, is what the next `fill_buf` delivers. */
    method Consume(n: nat)
      requires Valid() && chunks != [] && 0 < n <= |chunks[0]|
      modifies this
      ensures Valid() && Bytes() == old(Bytes())[n..]
      ensures old(Bytes())[..n] == old(chunks[0])[..n]
      ensures chunks == (if n == |old(chunks[0])| then old(chunks)[1..] else [old(chunks[0])[n..]] + old(chunks)[1..])
    {
      FlattenCons(chunks);
      var head, tail := chunks[0], chunks[1..];
      if n == |head| {
        chunks := tail;
      } else {
        chunks := [head[n..]] + tail;
        assert chunks[1..] == tail;
        FlattenCons(chunks);
      }
    }
  }

  /** `read_shell_line`: however the input is buffered, the answer is that of the whole stream,
      and after a line exactly that line has been consumed. */
  method ReadShellLine(input: Input, decode: Decoder) returns (r: Result<Option<string>, LineError>)
    requires input.Valid()
    modifies input
    ensures input.Valid()
    ensures r == ShellLine(old(input.Bytes()), input.ending, decode)
    ensures r.Ok? ==> input.Bytes() == old(input.Bytes())[LineEnd(old(input.Bytes()))..]
  {
    ghost var s := input.Bytes();
    hide Find, LineEnd, ShellText;
    var bytes: seq<byte> := [];
    while true
      invariant input.Valid() && s == bytes + input.Bytes() && NEWLINE !in bytes && |bytes| <= MAX_SHELL_LINE
      decreases |input.Bytes()|
    {
      if input.chunks == [] {
        assert s == bytes;
        LineAtEnd(s);
        if input.ending.Fault? {
          return Err(ReadFault(input.ending.interrupted));
        }
        if bytes == [] {
          return Ok(None);
        }
        break;
      }
      var available := input.chunks[0];
      ghost var rest := Flatten(input.chunks[1..]);
      var consumed := LineEnd(available);
      Regroup(bytes, available, rest, consumed);
      if Find(available, NEWLINE, 0) < |available| {
        LineCompleted(s, bytes, available, rest);
      } else {
        LineGoesOn(s, bytes, available, rest);
      }
      if |bytes| + consumed > MAX_SHELL_LINE {
        return Err(Unbounded);
      }
      var complete := available[consumed - 1] == NEWLINE;
      bytes := bytes + available[..consumed];
      input.Consume(consumed);
      if complete {
        break;
      }
    }
    assert bytes == s[..LineEnd(s)];
    return ShellText(bytes, decode);
  }

  // ----- Passwords -------------------------------------------------------

  /** Some buffer ends after exactly `n` bytes. */
  ghost predicate EndsAt(chunks: seq<seq<byte>>, n: nat) {
    exists k :: 0 <= k <= |chunks| && |Flatten(chunks[..k])| == n
  }

  /** The newline comes after one byte more than the limit, and a buffer ends right before it. */
  ghost predicate CutBeforeNewline(chunks: seq<seq<byte>>) {
    var s := Flatten(chunks);
    Find(s, NEWLINE, 0) == MAX_PASSWORD + 1 < |s| && EndsAt(chunks, MAX_PASSWORD + 1)
  }

  lemma {:induction false} FlattenGrows(chunks: seq<seq<byte>>, j: nat, k: nat)
    requires j <= k <= |chunks|
    ensures |Flatten(chunks[..j])| <= |Flatten(chunks[..k])|
    decreases k
  {
    if j < k {
      FlattenGrows(chunks, j, k - 1);
      FlattenNext(chunks, k - 1);
    }
  }

  lemma NoCutInside(chunks: seq<seq<byte>>, k: nat, n: nat)
    requires k < |chunks| && |Flatten(chunks[..k])| < n < |Flatten(chunks[..k + 1])|
    ensures !EndsAt(chunks, n)
  {
    hide Flatten;
    forall j | 0 <= j <= |chunks|
      ensures |Flatten(chunks[..j])| != n
    {
      if j <= k {
        FlattenGrows(chunks, j, k);
      } else {
        FlattenGrows(chunks, k + 1, j);
      }
    }
  }

  /** A line whose newline comes later than the limit allows is refused, except the one with a carriage return
      after exactly the limit. */
  lemma LongLineRefused(s: seq<byte>, ending: Ending, decode: Decoder)
    requires Find(s, NEWLINE, 0) > MAX_PASSWORD
    ensures Find(s, NEWLINE, 0) > MAX_PASSWORD + 1 || Find(s, NEWLINE, 0) == |s| ==>
            Password(s, ending, decode) == Err(Unbounded)
  {
    hide Find, Text;
    if Find(s, NEWLINE, 0) < |s| {
      var line := s[..LineEnd(s)];
      assert line[|line| - 1] == NEWLINE;
    }
  }

  /** When a cut right before the newline changes the answer: exactly for the limit's worth of bytes without
      a carriage return, followed by carriage return and newline. */
  lemma CutMatters(chunks: seq<seq<byte>>, ending: Ending, decode: Decoder)
    requires CutBeforeNewline(chunks)
    ensures var s := Flatten(chunks);
            Password(s, ending, decode) != Err(Unbounded) <==>
              s[MAX_PASSWORD] == RETURN && RETURN !in s[..MAX_PASSWORD]
  {
    var s := Flatten(chunks);
    var line := s[..LineEnd(s)];
    var kept := line[..|line| - 1];
    assert kept == s[..MAX_PASSWORD + 1];
    assert kept[MAX_PASSWORD] == s[MAX_PASSWORD];
    assert kept[..MAX_PASSWORD] == s[..MAX_PASSWORD];
    assert forall j :: 0 <= j < MAX_PASSWORD ==> s[..MAX_PASSWORD][j] == s[j];
    assert NEWLINE !in s[..MAX_PASSWORD];
  }

  /** The answer for this buffering: that of the whole stream, however it is buffered, unless a buffer ends
      right before a newline that comes after one byte more than the limit. */
  ghost function PasswordAnswer(chunks: seq<seq<byte>>, ending: Ending, decode: Decoder): Result<string, LineError> {
    if CutBeforeNewline(chunks) then Err(Unbounded) else Password(Flatten(chunks), ending, decode)
  }

  lemma SplitAt(chunks: seq<seq<byte>>, k: nat)
    requires k < |chunks|
    ensures Flatten(chunks) == Flatten(chunks[..k]) + (chunks[k] + Flatten(chunks[k + 1..]))
    ensures |Flatten(chunks[..k + 1])| == |Flatten(chunks[..k])| + |chunks[k]|
  {
    FlattenNext(chunks, k);
    assert chunks == chunks[..k] + chunks[k..];
    FlattenAppend(chunks[..k], chunks[k..]);
    FlattenCons(chunks[k..]);
    assert chunks[k..][1..] == chunks[k + 1..];
  }

  lemma AnswerAtEnd(chunks: seq<seq<byte>>, ending: Ending, decode: Decoder)
    requires NEWLINE !in Flatten(chunks) && |Flatten(chunks)| <= MAX_PASSWORD
    ensures PasswordAnswer(chunks, ending, decode) ==
            if ending.Fault? then Err(ReadFault(ending.interrupted)) else PasswordText(Flatten(chunks), decode)
  {
    hide Find, Flatten, EndsAt, PasswordText;
    LineAtEnd(Flatten(chunks));
  }

  lemma AnswerAtNewline(chunks: seq<seq<byte>>, ending: Ending, decode: Decoder, k: nat, bytes: seq<byte>)
    requires k < |chunks| && bytes == Flatten(chunks[..k]) && NEWLINE !in bytes && |bytes| <= MAX_PASSWORD
    requires Find(chunks[k], NEWLINE, 0) < |chunks[k]|
    ensures PasswordAnswer(chunks, ending, decode) == PasswordText(bytes + chunks[k][..LineEnd(chunks[k])], decode)
  {
    hide Flatten, EndsAt, PasswordText;
    var s := Flatten(chunks);
    SplitAt(chunks, k);
    LineCompleted(s, bytes, chunks[k], Flatten(chunks[k + 1..]));
    hide Find;
    if Find(s, NEWLINE, 0) == MAX_PASSWORD + 1 {
      NoCutInside(chunks, k, MAX_PASSWORD + 1);
    }
  }

  lemma AnswerTooLong(chunks: seq<seq<byte>>, ending: Ending, decode: Decoder, k: nat, bytes: seq<byte>)
    requires k < |chunks| && bytes == Flatten(chunks[..k]) && NEWLINE !in bytes
    requires Find(chunks[k], NEWLINE, 0) == |chunks[k]| && |bytes| + |chunks[k]| > MAX_PASSWORD
    ensures PasswordAnswer(chunks, ending, decode) == Err(Unbounded)
  {
    hide Flatten, Password;
    var s := Flatten(chunks);
    SplitAt(chunks, k);
    LineGoesOn(s, bytes, chunks[k], Flatten(chunks[k + 1..]));
    hide Find;
    LongLineRefused(s, ending, decode);
    assert |Flatten(chunks[..k + 1])| == MAX_PASSWORD + 1 ==> EndsAt(chunks, MAX_PASSWORD + 1);
  }

  lemma Positioned(content: seq<byte>, s: seq<byte>)
    requires |content| == MAX_PASSWORD && NEWLINE !in content && s == content + [RETURN, NEWLINE]
    ensures Find(s, NEWLINE, 0) == MAX_PASSWORD + 1 && |s| == MAX_PASSWORD + 2 && s[MAX_PASSWORD] == RETURN
    ensures s[..MAX_PASSWORD] == content && s[..MAX_PASSWORD + 1] == content + [RETURN]
  {
    assert forall j :: 0 <= j < MAX_PASSWORD ==> s[j] == content[j];
    FindIs(s, NEWLINE, 0, MAX_PASSWORD + 1);
  }

  /** The same bytes, two answers: a password of exactly the limit with CR LF, with and without a cut before the LF. */
  lemma SameBytesTwoAnswers(content: seq<byte>, ending: Ending, decode: Decoder)
    requires |content| == MAX_PASSWORD && RETURN !in content && NEWLINE !in content
    ensures var whole, cut := [content + [RETURN, NEWLINE]], [content + [RETURN], [NEWLINE]];
            && Flatten(whole) == Flatten(cut)
            && PasswordAnswer(whole, ending, decode) == Text(content, decode)
            && PasswordAnswer(cut, ending, decode) == Err(Unbounded)
  {
    var s := content + [RETURN, NEWLINE];
    var whole, cut := [s], [content + [RETURN], [NEWLINE]];
    Positioned(content, s);
    hide Find, Text;
    FlattenOne(s);
    FlattenOne(content + [RETURN]);
    FlattenOne([NEWLINE]);
    FlattenCons(cut);
    assert cut[1..] == [[NEWLINE]] && cut[..1] == [content + [RETURN]];
    assert Flatten(cut) == s && Flatten(whole) == s;
    assert EndsAt(cut, MAX_PASSWORD + 1);
    NotCut(whole, s);
    assert LineEnd(s) == |s| && s[..|s|] == s && s[..|s| - 1] == content + [RETURN];
  }

  lemma FlattenOne(chunk: seq<byte>)
    ensures Flatten([chunk]) == chunk
  {
    assert Flatten([chunk]) == chunk + Flatten([chunk][1..]);
  }

  lemma NotCut(whole: seq<seq<byte>>, s: seq<byte>)
    requires whole == [s] && |s| == MAX_PASSWORD + 2
    ensures !EndsAt(whole, MAX_PASSWORD + 1)
  {
    assert whole[..0] == [] && Flatten(whole[..0]) == [];
    assert whole[..1] == whole;
    FlattenOne(s);
  }

  /** `read_password_line`. */
  method ReadPasswordLine(input: Input, decode: Decoder) returns (r: Result<string, LineError>)
    requires input.Valid()
    modifies input
    ensures input.Valid()
    ensures r == PasswordAnswer(old(input.chunks), input.ending, decode)
    ensures r.Ok? ==> input.Bytes() == old(input.Bytes())[LineEnd(old(input.Bytes()))..]
  {
    hide Find, LineEnd, PasswordText, PasswordAnswer;
    ghost var s, chunks, k := input.Bytes(), input.chunks, 0;
    var bytes: seq<byte> := [];
    while true
      invariant input.Valid() && s == bytes + input.Bytes() && NEWLINE !in bytes && |bytes| <= MAX_PASSWORD
      invariant k <= |chunks| && input.chunks == chunks[k..] && bytes == Flatten(chunks[..k])
      decreases |input.Bytes()|
    {
      if input.chunks == [] {
        assert s == bytes;
        LineAtEnd(s);
        AnswerAtEnd(chunks, input.ending, decode);
        if input.ending.Fault? {
          return Err(ReadFault(input.ending.interrupted));
        }
        break;
      }
      var available := input.chunks[0];
      ghost var rest := Flatten(input.chunks[1..]);
      FlattenNext(chunks, k);
      var newline := Find(available, NEWLINE, 0);
      if newline < |available| {
        LineCompleted(s, bytes, available, rest);
        AnswerAtNewline(chunks, input.ending, decode, k, bytes);
        var end := LineEnd(available);
        bytes := bytes + available[..end];
        input.Consume(end);
        break;
      }
      LineGoesOn(s, bytes, available, rest);
      if |bytes| + |available| > MAX_PASSWORD {
        AnswerTooLong(chunks, input.ending, decode, k, bytes);
        return Err(Unbounded);
      }
      Regroup(bytes, available, rest, |available|);
      bytes := bytes + available;
      input.Consume(|available|);
      k := k + 1;
    }
    return PasswordText(bytes, decode);
  }
}
