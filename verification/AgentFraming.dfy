/** Reply framing of the guest agent client (`QgaClient::receive`). */
module AgentFraming {
  import opened Prelude
  import opened Base64

  const FRAME_LIMIT := 24 * 1024 * 1024
  const OPEN: byte := 123
  const NEWLINE: byte := 10

  /** How the stream goes on after its last byte: closed, past the deadline or broken. */
  datatype Ending = Closed | PastDeadline | Broken

  function EndingError(e: Ending): GuestError {
    match e
    case Closed => InvalidResponse
    case PastDeadline => Timeout
    case Broken => Transport
  }

  /** What one call answers on a stream that will deliver `s`, and how much of it the call consumes. */
  function Receive(s: seq<byte>, ending: Ending): (r: (Result<seq<byte>, GuestError>, nat))
    ensures r.1 <= |s|
  {
    var start := Find(s, OPEN, 0);
    if start >= FRAME_LIMIT then (Err(OutputLimit), FRAME_LIMIT)
    else
      var end := Find(s, NEWLINE, start);
      if end - start > FRAME_LIMIT then (Err(OutputLimit), start + FRAME_LIMIT + 1)
      else if end == |s| then (Err(EndingError(ending)), |s|)
      else (Ok(s[start..end]), end + 1)
  }

  /** The reply that a received frame stands for. */
  function Parsed<V>(frame: Result<seq<byte>, GuestError>, parse: seq<byte> -> Option<V>): Result<V, GuestError> {
    if frame.Err? then Err(frame.error)
    else
      var value := parse(frame.value);
      if value.None? then Err(InvalidResponse) else Ok(value.value)
  }

  lemma ReceiveCases(s: seq<byte>, ending: Ending) returns (start: nat, end: nat)
    ensures start <= end <= |s|
    ensures (forall j :: 0 <= j < start ==> s[j] != OPEN) && (start < |s| ==> s[start] == OPEN)
    ensures (forall j :: start <= j < end ==> s[j] != NEWLINE) && (end < |s| ==> s[end] == NEWLINE)
    ensures start >= FRAME_LIMIT ==> Receive(s, ending) == (Err(OutputLimit), FRAME_LIMIT)
    ensures start < FRAME_LIMIT && end - start > FRAME_LIMIT ==>
            Receive(s, ending) == (Err(OutputLimit), start + FRAME_LIMIT + 1)
    ensures start < FRAME_LIMIT && end - start <= FRAME_LIMIT && end == |s| ==>
            Receive(s, ending) == (Err(EndingError(ending)), |s|)
    ensures start < FRAME_LIMIT && end - start <= FRAME_LIMIT && end < |s| ==>
            Receive(s, ending) == (Ok(s[start..end]), end + 1)
  {
    start := Find(s, OPEN, 0);
    end := Find(s, NEWLINE, start);
  }

  /** The client's end of the stream. */
  class Stream {
    var rest: seq<byte>
    const ending: Ending

    constructor (bytes: seq<byte>, ending: Ending)
      ensures rest == bytes && this.ending == ending
    {
      rest, this.ending := bytes, ending;
    }

    /** `receive`: the next frame, parsed; `parse` is the JSON parser. */
    method ReceiveReply<V>(parse: seq<byte> -> Option<V>) returns (r: Result<V, GuestError>)
      modifies this
      ensures r == Parsed(Receive(old(rest), ending).0, parse)
      ensures rest == old(rest)[Receive(old(rest), ending).1..]
    {
      hide Receive;
      var frame := ReceiveFrame();
      if frame.Err? {
        return Err(frame.error);
      }
      var value := parse(frame.value);
      return if value.None? then Err(InvalidResponse) else Ok(value.value);
    }

    /** Its loop, one byte at a time. */
    method ReceiveFrame() returns (r: Result<seq<byte>, GuestError>)
      modifies this
      ensures r == Receive(old(rest), ending).0
      ensures rest == old(rest)[Receive(old(rest), ending).1..]
    {
      ghost var s := rest;
      hide Receive, Find;
      ghost var start, end := ReceiveCases(s, ending);
      var bytes, started, skipped := [], false, 0;
      ghost var n := 0;
      while true
        invariant n <= |s| && rest == s[n..]
        invariant !started ==> n == skipped <= start && skipped < FRAME_LIMIT && bytes == []
        invariant started ==> start < n <= end && start < FRAME_LIMIT && |bytes| <= FRAME_LIMIT && bytes == s[start..n]
        decreases |s| - n
      {
        if rest == [] {
          return Err(EndingError(ending));
        }
        var b := rest[0];
        rest := rest[1..];
        n := n + 1;
        assert b == s[n - 1] && rest == s[n..];
        if !started {
          if b != OPEN {
            skipped := skipped + 1;
            if skipped >= FRAME_LIMIT {
              return Err(OutputLimit);
            }
            continue;
          }
          started := true;
        }
        if b == NEWLINE {
          return Ok(bytes);
        }
        if |bytes| >= FRAME_LIMIT {
          return Err(OutputLimit);
        }
        assert bytes + [b] == s[start..n];
        bytes := bytes + [b];
      }
    }
  }

  // ----- Exactly the frames ----------------------------------------------

  predicate IsJunk(s: seq<byte>) { forall i :: 0 <= i < |s| ==> s[i] != OPEN }

  predicate IsFrame(s: seq<byte>) { s != [] && s[0] == OPEN && forall i :: 0 <= i < |s| ==> s[i] != NEWLINE }

  function Line(junk: seq<byte>, frame: seq<byte>): seq<byte> { junk + frame + [NEWLINE] }

  lemma LineParts(junk: seq<byte>, frame: seq<byte>, rest: seq<byte>)
    ensures var s := Line(junk, frame) + rest;
            && |s| > |junk| + |frame|
            && s[0..|junk|] == junk && s[|junk|..|junk| + |frame|] == frame && s[|junk| + |frame|] == NEWLINE
            && (frame != [] ==> s[|junk|] == frame[0])
  {
  }

  lemma FoundAfter(s: seq<byte>, b: byte, i: nat, part: seq<byte>)
    requires i + |part| < |s| && s[i..i + |part|] == part && s[i + |part|] == b
    requires forall j :: 0 <= j < |part| ==> part[j] != b
    ensures Find(s, b, i) == i + |part|
  {
    forall j | i <= j < i + |part|
      ensures s[j] != b
    {
      assert s[j] == part[j - i];
    }
    FindIs(s, b, i, i + |part|);
  }

  lemma Positions(s: seq<byte>, junk: seq<byte>, frame: seq<byte>)
    requires IsJunk(junk) && IsFrame(frame)
    requires |s| > |junk| + |frame| && s[0..|junk|] == junk && s[|junk|] == frame[0]
    requires s[|junk|..|junk| + |frame|] == frame && s[|junk| + |frame|] == NEWLINE
    ensures Find(s, OPEN, 0) == |junk| && Find(s, NEWLINE, |junk|) == |junk| + |frame|
  {
    hide Find;
    FoundAfter(s, OPEN, 0, junk);
    FoundAfter(s, NEWLINE, |junk|, frame);
  }

  /** A frame is received, and exactly its line consumed, if and only if junk and frame are within the limits. */
  lemma FrameReceived(junk: seq<byte>, frame: seq<byte>, rest: seq<byte>, ending: Ending)
    requires IsJunk(junk) && IsFrame(frame)
    ensures Receive(Line(junk, frame) + rest, ending) == (Ok(frame), |junk| + |frame| + 1) <==>
            |junk| < FRAME_LIMIT && |frame| <= FRAME_LIMIT
  {
    hide Line;
    LineParts(junk, frame, rest);
    Positions(Line(junk, frame) + rest, junk, frame);
  }

  /** Every received frame is one: it starts with a brace, holds no newline and was preceded by junk only. */
  lemma ReceivedIsFrame(s: seq<byte>, ending: Ending)
    requires Receive(s, ending).0.Ok?
    ensures var frame, n := Receive(s, ending).0.value, Receive(s, ending).1;
            && IsFrame(frame) && |frame| < n
            && IsJunk(s[..n - |frame| - 1]) && s[..n] == Line(s[..n - |frame| - 1], frame)
            && n - |frame| - 1 < FRAME_LIMIT && |frame| <= FRAME_LIMIT
  {
    var start := Find(s, OPEN, 0);
    var end := Find(s, NEWLINE, start);
    var frame := s[start..end];
    assert forall i :: 0 <= i < |frame| ==> frame[i] == s[start + i];
    assert s[..end + 1] == s[..start] + frame + [NEWLINE];
  }

  /** The next `n` answers and what is left of the stream. */
  function ReceiveMany(s: seq<byte>, ending: Ending, n: nat): (seq<Result<seq<byte>, GuestError>>, seq<byte>) {
    if n == 0 then ([], s)
    else
      var first := Receive(s, ending);
      var others := ReceiveMany(s[first.1..], ending, n - 1);
      ([first.0] + others.0, others.1)
  }

  function Answers(frames: seq<seq<byte>>): (r: seq<Result<seq<byte>, GuestError>>)
    ensures |r| == |frames| && forall i :: 0 <= i < |r| ==> r[i] == Ok(frames[i])
  {
    if frames == [] then [] else [Ok(frames[0])] + Answers(frames[1..])
  }

  function Lines(junk: seq<seq<byte>>, frames: seq<seq<byte>>): seq<byte>
    requires |junk| == |frames|
  {
    if frames == [] then [] else Line(junk[0], frames[0]) + Lines(junk[1..], frames[1..])
  }

  /** Repeated receiving gives exactly the frames, in order, and leaves exactly what follows them. */
  lemma {:induction false} FramesReceived(junk: seq<seq<byte>>, frames: seq<seq<byte>>, rest: seq<byte>, ending: Ending)
    requires |junk| == |frames|
    requires forall i :: 0 <= i < |frames| ==> IsJunk(junk[i]) && |junk[i]| < FRAME_LIMIT
    requires forall i :: 0 <= i < |frames| ==> IsFrame(frames[i]) && |frames[i]| <= FRAME_LIMIT
    ensures ReceiveMany(Lines(junk, frames) + rest, ending, |frames|) == (Answers(frames), rest)
    decreases |frames|
  {
    hide Receive, Line;
    if frames == [] {
      assert Lines(junk, frames) + rest == rest;
    } else {
      var after := Lines(junk[1..], frames[1..]) + rest;
      var s := Line(junk[0], frames[0]) + after;
      assert Lines(junk, frames) + rest == s;
      FrameReceived(junk[0], frames[0], after, ending);
      LineLength(junk[0], frames[0]);
      assert s[|Line(junk[0], frames[0])|..] == after;
      FramesReceived(junk[1..], frames[1..], rest, ending);
    }
  }

  lemma LineLength(junk: seq<byte>, frame: seq<byte>)
    ensures |Line(junk, frame)| == |junk| + |frame| + 1
  {
  }
}
