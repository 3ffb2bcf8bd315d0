/** The standard base64 alphabet with padding (section 4 of RFC 4648), decoded strictly. */
module Base64 {
  import opened Prelude

  type digit = n: nat | n < 64

  function Symbol(v: digit): char {
    if v < 26 then ('A' as int + v) as char
    else if v < 52 then ('a' as int + v - 26) as char
    else if v < 62 then ('0' as int + v - 52) as char
    else if v == 62 then '+'
    else '/'
  }

  function Value(c: char): Option<digit>
  {
    if 'A' <= c <= 'Z' then Some(c as int - 'A' as int)
    else if 'a' <= c <= 'z' then Some(c as int - 'a' as int + 26)
    else if '0' <= c <= '9' then Some(c as int - '0' as int + 52)
    else if c == '+' then Some(62)
    else if c == '/' then Some(63)
    else None
  }

  lemma SymbolValue(v: digit)
    ensures Value(Symbol(v)) == Some(v) && Symbol(v) != '='
  {
  }

  lemma ValueSymbol(c: char)
    requires Value(c).Some?
    ensures Symbol(Value(c).value) == c
  {
  }

  function Encode(b: seq<byte>): (s: string)
    ensures |s| == 4 * ((|b| + 2) / 3)
  {
    if |b| == 0 then ""
    else if |b| == 1 then [Symbol(b[0] / 4), Symbol(b[0] % 4 * 16), '=', '=']
    else if |b| == 2 then [Symbol(b[0] / 4), Symbol(b[0] % 4 * 16 + b[1] / 16), Symbol(b[1] % 16 * 4), '=']
    else [Symbol(b[0] / 4), Symbol(b[0] % 4 * 16 + b[1] / 16), Symbol(b[1] % 16 * 4 + b[2] / 64),
      Symbol(b[2] % 64)] + Encode(b[3..])
  }

  // The three bytes of four digits.
  function First(v0: digit, v1: digit): byte { v0 * 4 + v1 / 16 }
  function Second(v1: digit, v2: digit): byte { v1 % 16 * 16 + v2 / 4 }
  function Third(v2: digit, v3: digit): byte { v2 % 4 * 64 + v3 }

  /** One group of four symbols; padding only in the last group, and its unused bits must be zero. */
  function DecodeGroup(s: string, last: bool): (r: Option<seq<byte>>)
    requires |s| == 4
  {
    var v0, v1, v2, v3 := Value(s[0]), Value(s[1]), Value(s[2]), Value(s[3]);
    if v0.None? || v1.None? then None
    else if last && s[2] == '=' && s[3] == '=' then
      if v1.value % 16 == 0 then Some([First(v0.value, v1.value)]) else None
    else if v2.None? then None
    else if last && s[3] == '=' then
      if v2.value % 4 == 0 then Some([First(v0.value, v1.value), Second(v1.value, v2.value)]) else None
    else if v3.None? then None
    else Some([First(v0.value, v1.value), Second(v1.value, v2.value), Third(v2.value, v3.value)])
  }

  function Decode(s: string): Option<seq<byte>> {
    if s == "" then Some([])
    else if |s| < 4 then None
    else
      var group := DecodeGroup(s[..4], |s| == 4);
      var rest := Decode(s[4..]);
      if group.None? || rest.None? then None else Some(group.value + rest.value)
  }

  lemma GroupOfThree(a: byte, b: byte, c: byte, last: bool)
    ensures DecodeGroup([Symbol(a / 4), Symbol(a % 4 * 16 + b / 16), Symbol(b % 16 * 4 + c / 64), Symbol(c % 64)],
            last) == Some([a, b, c])
  {
    hide Symbol, Value;
    var v0, v1, v2, v3 := a / 4, a % 4 * 16 + b / 16, b % 16 * 4 + c / 64, c % 64;
    SymbolValue(v0);
    SymbolValue(v1);
    SymbolValue(v2);
    SymbolValue(v3);
    assert First(v0, v1) == a && Second(v1, v2) == b && Third(v2, v3) == c;
    hide First, Second, Third;
  }

  lemma GroupOfTwo(a: byte, b: byte)
    ensures DecodeGroup([Symbol(a / 4), Symbol(a % 4 * 16 + b / 16), Symbol(b % 16 * 4), '='], true) == Some([a, b])
  {
    hide Symbol, Value;
    var v0, v1, v2 := a / 4, a % 4 * 16 + b / 16, b % 16 * 4;
    SymbolValue(v0);
    SymbolValue(v1);
    SymbolValue(v2);
    assert First(v0, v1) == a && Second(v1, v2) == b && v2 % 4 == 0;
    hide First, Second, Third;
  }

  lemma GroupOfOne(a: byte)
    ensures DecodeGroup([Symbol(a / 4), Symbol(a % 4 * 16), '=', '='], true) == Some([a])
  {
    SymbolValue(a / 4);
    SymbolValue(a % 4 * 16);
    hide Symbol, Value;
  }

  /** Decoding undoes encoding. */
  lemma {:induction false} DecodeEncode(b: seq<byte>)
    ensures Decode(Encode(b)) == Some(b)
    decreases |b|
  {
    hide Symbol, DecodeGroup;
    var s := Encode(b);
    if |b| == 1 {
      GroupOfOne(b[0]);
      assert s[..4] == s && s[4..] == "";
      assert [b[0]] + [] == b;
    } else if |b| == 2 {
      GroupOfTwo(b[0], b[1]);
      assert s[..4] == s && s[4..] == "";
      assert [b[0], b[1]] + [] == b;
    } else if |b| > 2 {
      var head := [Symbol(b[0] / 4), Symbol(b[0] % 4 * 16 + b[1] / 16), Symbol(b[1] % 16 * 4 + b[2] / 64),
          Symbol(b[2] % 64)];
      GroupOfThree(b[0], b[1], b[2], |s| == 4);
      assert s == head + Encode(b[3..]);
      assert s[..4] == head && s[4..] == Encode(b[3..]);
      DecodeEncode(b[3..]);
      assert [b[0], b[1], b[2]] + b[3..] == b;
    }
  }

  lemma DigitsOfThree(v0: digit, v1: digit, v2: digit, v3: digit)
    ensures var a, b, c := v0 * 4 + v1 / 16, v1 % 16 * 16 + v2 / 4, v2 % 4 * 64 + v3;
            a / 4 == v0 && a % 4 * 16 + b / 16 == v1 && b % 16 * 4 + c / 64 == v2 && c % 64 == v3
  {
  }

  lemma EncodeOne(v0: digit, v1: digit)
    requires v1 % 16 == 0
    ensures Encode([First(v0, v1)]) == [Symbol(v0), Symbol(v1), '=', '=']
  {
    DigitsOfThree(v0, v1, 0, 0);
    hide Symbol;
  }

  lemma EncodeTwo(v0: digit, v1: digit, v2: digit)
    requires v2 % 4 == 0
    ensures Encode([First(v0, v1), Second(v1, v2)]) == [Symbol(v0), Symbol(v1), Symbol(v2), '=']
  {
    DigitsOfThree(v0, v1, v2, 0);
    hide Symbol;
  }

  lemma EncodeThree(v0: digit, v1: digit, v2: digit, v3: digit)
    ensures Encode([First(v0, v1), Second(v1, v2), Third(v2, v3)]) == [Symbol(v0), Symbol(v1), Symbol(v2), Symbol(v3)]
  {
    DigitsOfThree(v0, v1, v2, v3);
    hide Symbol;
    var b: seq<byte> := [First(v0, v1), Second(v1, v2), Third(v2, v3)];
    assert b[3..] == [] && Encode(b[3..]) == "";
  }

  /** A decoded group encodes to itself. */
  lemma GroupCanonical(s: string, last: bool)
    requires |s| == 4 && DecodeGroup(s, last).Some?
    ensures var b := DecodeGroup(s, last).value;
            1 <= |b| <= 3 && Encode(b) == s && (!last ==> |b| == 3)
  {
    assert Value('=').None?;
    hide Symbol, Value, Encode, First, Second, Third;
    ValueSymbol(s[0]);
    ValueSymbol(s[1]);
    var v0, v1 := Value(s[0]).value, Value(s[1]).value;
    assert s == [s[0], s[1], s[2], s[3]];
    if last && s[2] == '=' && s[3] == '=' {
      EncodeOne(v0, v1);
    } else {
      ValueSymbol(s[2]);
      var v2 := Value(s[2]).value;
      if last && s[3] == '=' {
        EncodeTwo(v0, v1, v2);
      } else {
        ValueSymbol(s[3]);
        EncodeThree(v0, v1, v2, Value(s[3]).value);
      }
    }
  }

  lemma EncodePrepend(group: seq<byte>, rest: seq<byte>)
    requires |group| == 3
    ensures Encode(group + rest) == Encode(group) + Encode(rest)
  {
    var b := group + rest;
    hide Symbol;
    assert b[3..] == rest && b[0] == group[0] && b[1] == group[1] && b[2] == group[2];
    assert group[3..] == [] && Encode([]) == "";
  }

  /** Only canonical text decodes: encoding undoes decoding. */
  lemma {:induction false} EncodeDecode(s: string)
    requires Decode(s).Some?
    ensures Encode(Decode(s).value) == s
    decreases |s|
  {
    hide Encode, DecodeGroup;
    if s == "" {
      assert Encode([]) == "";
    } else {
      var last := |s| == 4;
      var group := DecodeGroup(s[..4], last).value;
      GroupCanonical(s[..4], last);
      EncodeDecode(s[4..]);
      var rest := Decode(s[4..]).value;
      assert s == s[..4] + s[4..];
      if last {
        assert s[4..] == "" && rest == [] && group + rest == group;
      } else {
        EncodePrepend(group, rest);
      }
    }
  }

  // ----- Size bounds -----------------------------------------------------

  const U64 := 0x1_0000_0000_0000_0000

  /** The guest I/O errors this model distinguishes. */
  datatype GuestError = InvalidResponse | OutputLimit | Timeout | Transport | PartialCopy | PathViolation

  /** `decode_output` of a guest command: absent data is empty output. */
  function DecodeOutput(value: Option<string>, limit: nat): Result<seq<byte>, GuestError> {
    if value.None? then Ok([])
    else if |value.value| > (if 2 * limit < U64 then 2 * limit else U64 - 1) then Err(OutputLimit)
    else
      var bytes := Decode(value.value);
      if bytes.None? then Err(InvalidResponse)
      else if |bytes.value| > limit then Err(OutputLimit)
      else Ok(bytes.value)
  }

  /** Output within the limit is accepted with one exception: a limit of one byte refuses one byte. */
  lemma DecodeOutputExactly(b: seq<byte>, limit: nat)
    requires |Encode(b)| < U64
    ensures DecodeOutput(Some(Encode(b)), limit) == Ok(b) <==> |b| <= limit && !(limit == 1 && |b| == 1)
    ensures DecodeOutput(Some(Encode(b)), limit) != Ok(b) ==> DecodeOutput(Some(Encode(b)), limit) == Err(OutputLimit)
  {
    DecodeEncode(b);
    hide Encode, Decode;
  }

  const SMALL_RESPONSE_LIMIT := 65536
  const MAX_COPY_BYTES := 67108864

  function CheckedAdd(a: nat, b: nat): Option<nat> { if a + b < U64 then Some(a + b) else None }
  function CheckedMul(a: nat, b: nat): Option<nat> { if a * b < U64 then Some(a * b) else None }

  /** `stdout_limit` of a copy-out: `None` is the overflow error. */
  function CopyOutLimit(maxBytes: nat): Option<nat> {
    var padded := CheckedAdd(maxBytes, 2);
    if padded.None? then None
    else
      var scaled := CheckedMul(padded.value / 3, 4);
      if scaled.None? then None else CheckedAdd(scaled.value, SMALL_RESPONSE_LIMIT)
  }

  /** The response limit never overflows for an admitted size and always leaves 64 KiB beside the encoded file. */
  lemma CopyOutLimitCovers(maxBytes: nat, b: seq<byte>)
    requires maxBytes <= MAX_COPY_BYTES && |b| <= maxBytes
    ensures CopyOutLimit(maxBytes).Some? && |Encode(b)| + SMALL_RESPONSE_LIMIT <= CopyOutLimit(maxBytes).value
  {
    hide Encode;
  }
}
