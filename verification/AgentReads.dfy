/** Chunked file reading by the guest agent client (`QgaClient::file_read_all`). */
module AgentReads {
  import opened Prelude
  import opened Base64

  const FILE_CHUNK := 48 * 1024

  /** What comes back for one `guest-file-read`: an error, or a reply whose fields may be missing or of the wrong
      type. */
  datatype Answer = Failed(error: GuestError) | Reply(text: Option<string>, count: Option<nat>, eof: Option<bool>)

  /** The chunk a reply carries; absent text is an empty chunk. */
  function Chunk(a: Answer): Result<seq<byte>, GuestError> {
    match a
    case Failed(e) => Err(e)
    case Reply(text, count, eof) =>
      var chunk := if text.None? then Some([]) else Decode(text.value);
      if chunk.None? || count.None? || eof.None? then Err(InvalidResponse)
      else if count.value != |chunk.value| || count.value > FILE_CHUNK then Err(PartialCopy)
      else Ok(chunk.value)
  }

  predicate AtEnd(a: Answer) { a.Reply? && a.eof == Some(true) }

  /** All chunks of the first `n` answers; an answer without a chunk adds nothing. */
  function Joined(answers: seq<Answer>, n: nat): seq<byte>
    requires n <= |answers|
  {
    if n == 0 then []
    else
      var chunk := Chunk(answers[n - 1]);
      Joined(answers, n - 1) + if chunk.Ok? then chunk.value else []
  }

  /** After `n` answers the client still wants more: each held bytes, none was the last, the limit is kept. */
  ghost predicate Continuing(answers: seq<Answer>, n: nat, maxBytes: nat) {
    && n <= |answers|
    && (forall k :: 0 <= k < n ==> Chunk(answers[k]).Ok? && Chunk(answers[k]).value != [] && !AtEnd(answers[k]))
    && |Joined(answers, n)| <= maxBytes
  }

  /** Why the answer after a continuing run of `n` ends the reading, and with what. */
  function Verdict(answers: seq<Answer>, n: nat, maxBytes: nat): Option<Result<seq<byte>, GuestError>>
    requires n < |answers|
  {
    var chunk := Chunk(answers[n]);
    if chunk.Err? then Some(Err(chunk.error))
    else if |Joined(answers, n + 1)| > maxBytes then Some(Err(OutputLimit))
    else if AtEnd(answers[n]) then Some(Ok(Joined(answers, n + 1)))
    else if chunk.value == [] then Some(Err(InvalidResponse))
    else None
  }

  /** `answers` are the guest's answers to the first `maxBytes + 1` reads, whatever they are; no more are ever
      needed. */
  method FileReadAll(answers: seq<Answer>, maxBytes: nat) returns (r: Result<seq<byte>, GuestError>, asked: nat)
    requires |answers| > maxBytes
    ensures 1 <= asked <= maxBytes + 1
    ensures Continuing(answers, asked - 1, maxBytes)
    ensures Verdict(answers, asked - 1, maxBytes) == Some(r)
    ensures r.Ok? ==> |r.value| <= maxBytes && r.value == Joined(answers, asked)
  {
    hide Chunk;
    var output := [];
    asked := 0;
    while true
      invariant Continuing(answers, asked, maxBytes) && output == Joined(answers, asked)
      invariant asked <= |output|
      decreases maxBytes - |output|
    {
      var answer := answers[asked];
      asked := asked + 1;
      var chunk := Chunk(answer);
      if chunk.Err? {
        return Err(chunk.error), asked;
      }
      output := output + chunk.value;
      if |output| > maxBytes {
        return Err(OutputLimit), asked;
      }
      if AtEnd(answer) {
        return Ok(output), asked;
      }
      if chunk.value == [] {
        return Err(InvalidResponse), asked;
      }
    }
  }

  /** The reading ends where it ends: the run and its verdict are determined by the answers. */
  lemma VerdictUnique(answers: seq<Answer>, m: nat, n: nat, maxBytes: nat)
    requires m < |answers| && n < |answers| && Continuing(answers, m, maxBytes) && Continuing(answers, n, maxBytes)
    requires Verdict(answers, m, maxBytes).Some? && Verdict(answers, n, maxBytes).Some?
    ensures m == n
  {
    hide Chunk;
    if m < n {
      JoinedGrows(answers, m + 1, n);
    } else if n < m {
      JoinedGrows(answers, n + 1, m);
    }
  }

  lemma {:induction false} JoinedGrows(answers: seq<Answer>, m: nat, n: nat)
    requires m <= n <= |answers|
    ensures |Joined(answers, m)| <= |Joined(answers, n)|
    decreases n
  {
    if m < n {
      JoinedGrows(answers, m, n - 1);
    }
  }

  // ----- Honest guests ---------------------------------------------------

  /** The reply that carries `part`; an honest guest may leave out the text of an empty part. */
  predicate Carries(a: Answer, part: seq<byte>, eof: bool) {
    && a.Reply? && a.count == Some(|part|) && a.eof == Some(eof)
    && (a.text == Some(Encode(part)) || (part == [] && a.text == None))
  }

  /** The guest serves a file in these parts, as small as it likes, and reports the end with the last one. */
  ghost predicate Serves(answers: seq<Answer>, parts: seq<seq<byte>>)
    requires 1 <= |parts| <= |answers|
  {
    && (forall k :: 0 <= k < |parts| ==> |parts[k]| <= FILE_CHUNK && Carries(answers[k], parts[k], k == |parts| - 1))
    && (forall k :: 0 <= k < |parts| - 1 ==> parts[k] != [])
  }

  lemma CarriedChunk(a: Answer, part: seq<byte>, eof: bool)
    requires Carries(a, part, eof) && |part| <= FILE_CHUNK
    ensures Chunk(a) == Ok(part) && AtEnd(a) == eof
  {
    hide Encode, Decode;
    DecodeEncode(part);
  }

  lemma ServedChunk(answers: seq<Answer>, parts: seq<seq<byte>>, k: nat)
    requires 1 <= |parts| <= |answers| && Serves(answers, parts) && k < |parts|
    ensures Chunk(answers[k]) == Ok(parts[k]) && AtEnd(answers[k]) == (k == |parts| - 1)
    ensures k < |parts| - 1 ==> parts[k] != []
  {
    hide Chunk, Carries;
    CarriedChunk(answers[k], parts[k], k == |parts| - 1);
  }

  lemma {:induction false} ServedSoFar(answers: seq<Answer>, parts: seq<seq<byte>>, n: nat)
    requires 1 <= |parts| <= |answers| && Serves(answers, parts) && n <= |parts|
    ensures Joined(answers, n) == Flatten(parts[..n])
  {
    hide Chunk, Serves;
    if n > 0 {
      ServedSoFar(answers, parts, n - 1);
      ServedChunk(answers, parts, n - 1);
      FlattenNext(parts, n - 1);
    }
  }

  lemma WholeServed(answers: seq<Answer>, parts: seq<seq<byte>>)
    requires 1 <= |parts| <= |answers| && Serves(answers, parts)
    ensures Joined(answers, |parts|) == Flatten(parts)
  {
    hide Serves, Joined;
    ServedSoFar(answers, parts, |parts|);
    assert parts[..|parts|] == parts;
  }

  lemma ServedContinues(answers: seq<Answer>, parts: seq<seq<byte>>, n: nat, maxBytes: nat)
    requires 1 <= |parts| <= |answers| && Serves(answers, parts) && n < |parts| && |Joined(answers, n)| <= maxBytes
    ensures Continuing(answers, n, maxBytes)
  {
    hide Chunk, Serves, AtEnd;
    forall k | 0 <= k < n
      ensures Chunk(answers[k]).Ok? && Chunk(answers[k]).value != [] && !AtEnd(answers[k])
    {
      ServedChunk(answers, parts, k);
    }
  }

  /** The answer with which the reading of an honest guest ends. */
  lemma LastNeeded(answers: seq<Answer>, parts: seq<seq<byte>>, maxBytes: nat) returns (m: nat)
    requires 1 <= |parts| <= |answers|
    ensures m < |parts| && |Joined(answers, m)| <= maxBytes
    ensures |Joined(answers, m + 1)| > maxBytes || m == |parts| - 1
  {
    hide Chunk;
    m := 0;
    assert Joined(answers, m) == [];
    hide Joined;
    while m < |parts| - 1 && |Joined(answers, m + 1)| <= maxBytes
      invariant m < |parts| && |Joined(answers, m)| <= maxBytes
    {
      m := m + 1;
    }
  }

  /** However an honest guest splits its file, the client gets the whole file if and only if it is within the limit,
      and the limit error otherwise. `n` and `r` are what `FileReadAll` promises. */
  lemma HonestRead(answers: seq<Answer>, parts: seq<seq<byte>>, maxBytes: nat, n: nat, r: Result<seq<byte>, GuestError>)
    requires 1 <= |parts| <= |answers| && Serves(answers, parts) && n < |answers|
    requires Continuing(answers, n, maxBytes) && Verdict(answers, n, maxBytes) == Some(r)
    ensures r == if |Flatten(parts)| <= maxBytes then Ok(Flatten(parts)) else Err(OutputLimit)
  {
    hide Chunk, Continuing, AtEnd, Serves;
    var m := LastNeeded(answers, parts, maxBytes);
    ServedContinues(answers, parts, m, maxBytes);
    ServedChunk(answers, parts, m);
    WholeServed(answers, parts);
    JoinedGrows(answers, m + 1, |parts|);
    hide Joined;
    VerdictUnique(answers, m, n, maxBytes);
  }

  // ----- A guest that reads full chunks ----------------------------------

  function FullChunks(content: seq<byte>): (parts: seq<seq<byte>>)
    ensures |parts| >= 1
    decreases |content|
  {
    if |content| <= FILE_CHUNK then [content] else [content[..FILE_CHUNK]] + FullChunks(content[FILE_CHUNK..])
  }

  lemma {:induction false} FullChunksAre(content: seq<byte>)
    ensures var parts := FullChunks(content);
            && Flatten(parts) == content
            && (forall k :: 0 <= k < |parts| ==> |parts[k]| <= FILE_CHUNK)
            && (forall k :: 0 <= k < |parts| - 1 ==> parts[k] != [])
    decreases |content|
  {
    if |content| <= FILE_CHUNK {
      assert Flatten([content]) == content + Flatten([content][1..]);
    } else {
      var rest := FullChunks(content[FILE_CHUNK..]);
      FullChunksAre(content[FILE_CHUNK..]);
      var parts := [content[..FILE_CHUNK]] + rest;
      assert parts[1..] == rest && content == content[..FILE_CHUNK] + content[FILE_CHUNK..];
    }
  }

  /** One reply for each part, the end reported with the last. */
  function Replies(parts: seq<seq<byte>>): (answers: seq<Answer>)
    ensures |answers| == |parts|
    ensures forall k :: 0 <= k < |parts| ==> Carries(answers[k], parts[k], k == |parts| - 1)
  {
    if parts == [] then []
    else [Reply(Some(Encode(parts[0])), Some(|parts[0]|), Some(|parts| == 1))] + Replies(parts[1..])
  }

  lemma RepliesServe(parts: seq<seq<byte>>, answers: seq<Answer>)
    requires 1 <= |parts| <= |answers| && Replies(parts) == answers[..|parts|]
    requires forall k :: 0 <= k < |parts| ==> |parts[k]| <= FILE_CHUNK
    requires forall k :: 0 <= k < |parts| - 1 ==> parts[k] != []
    ensures Serves(answers, parts)
  {
    hide Replies, Carries;
    forall k | 0 <= k < |parts|
      ensures Carries(answers[k], parts[k], k == |parts| - 1)
    {
      assert answers[k] == Replies(parts)[k];
    }
  }
}
