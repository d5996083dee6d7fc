/** Frames on the byte stream: magic, type, 32-bit length, payload. */
module Framing {
  import opened Bytes

  const MAGIC: seq<byte> := [0x47, 0x53]
  const HEADER_LEN: nat := 7

  predicate KnownType(b: int) {
    || 0x01 <= b <= 0x02 || 0x05 <= b <= 0x08 || 0x0a <= b <= 0x14
    || 0x80 <= b <= 0x84 || 0x87 <= b <= 0x8e || 0x90 <= b <= 0x93
  }

  /** The types there are: seventeen from clients, seventeen from the server. */
  lemma KnownTypes(b: int)
    ensures KnownType(b) <==>
            b in {0x01, 0x02, 0x05, 0x06, 0x07, 0x08, 0x0a, 0x0b, 0x0c, 0x0d, 0x0e, 0x0f, 0x10, 0x11, 0x12, 0x13, 0x14}
            || b in {0x80, 0x81, 0x82, 0x83, 0x84, 0x87, 0x88, 0x89, 0x8a, 0x8b, 0x8c, 0x8d, 0x8e, 0x90, 0x91, 0x92,
                     0x93}
  {
  }

  type MessageType = b: byte | KnownType(b) witness 0x01

  const AUTH_OK: MessageType := 0x80
  const AUTH_FAIL: MessageType := 0x81
  const TAB_LIST: MessageType := 0x82
  const FULL_STATE: MessageType := 0x83
  const DELTA: MessageType := 0x84
  const ERROR_MSG: MessageType := 0x87
  const TAB_CREATED: MessageType := 0x88
  const UI_RUNTIME_STATE: MessageType := 0x8d
  const UI_APPEARANCE: MessageType := 0x8e
  const UI_PANE_FULL_STATE: MessageType := 0x90
  const UI_PANE_DELTA: MessageType := 0x91
  const HEARTBEAT_ACK: MessageType := 0x92

  datatype Message = Message(ty: MessageType, payload: seq<byte>)

  datatype ReadError = UnexpectedEof | InvalidMagic | UnknownMessage

  datatype ReadResult = Read(message: Message, rest: seq<byte>) | ReadFailed(error: ReadError)

  /** The length is cast to 32 bits. */
  function EncodeMessage(m: Message): (s: seq<byte>)
    ensures |s| == HEADER_LEN + |m.payload|
  {
    MAGIC + [m.ty] + LE(|m.payload| % U32_LIMIT, 4) + m.payload
  }

  function ReadMessage(s: seq<byte>): ReadResult {
    if |s| < HEADER_LEN then ReadFailed(UnexpectedEof)
    else
      var header := ParseHeader(s);
      if header.HeaderFailed? then ReadFailed(header.error)
      else if |s| < HEADER_LEN + header.length then ReadFailed(UnexpectedEof)
      else Read(Message(header.ty, s[HEADER_LEN..HEADER_LEN + header.length]), s[HEADER_LEN + header.length..])
  }

  datatype HeaderResult = Header(ty: MessageType, length: u32) | HeaderFailed(error: ReadError)

  function ParseHeader(s: seq<byte>): HeaderResult
    requires |s| >= HEADER_LEN
  {
    if s[..2] != MAGIC then HeaderFailed(InvalidMagic)
    else if !KnownType(s[2]) then HeaderFailed(UnknownMessage)
    else Header(s[2], U32At(s, 3))
  }

  lemma HeaderRoundTrip(m: Message, tail: seq<byte>)
    ensures ParseHeader(EncodeMessage(m) + tail) == Header(m.ty, |m.payload| % U32_LIMIT)
  {
    hide LE, U32At;
    var s := EncodeMessage(m) + tail;
    assert s[..2] == MAGIC && s[2] == m.ty;
    assert s[3..7] == LE(|m.payload| % U32_LIMIT, 4);
    U32RoundTrip(s, 3, |m.payload| % U32_LIMIT);
  }

  /** A frame reads back as itself, whatever follows it, exactly when its length fits 32 bits. */
  lemma FrameRoundTrip(m: Message, tail: seq<byte>)
    ensures ReadMessage(EncodeMessage(m) + tail) == Read(m, tail) <==> |m.payload| < U32_LIMIT
  {
    hide EncodeMessage, ParseHeader;
    var s := EncodeMessage(m) + tail;
    HeaderRoundTrip(m, tail);
    if |m.payload| < U32_LIMIT {
      assert s[HEADER_LEN..HEADER_LEN + |m.payload|] == m.payload by { PayloadSlice(m, tail); }
      assert s[HEADER_LEN + |m.payload|..] == tail;
    }
  }

  lemma PayloadSlice(m: Message, tail: seq<byte>)
    ensures (EncodeMessage(m) + tail)[HEADER_LEN..HEADER_LEN + |m.payload|] == m.payload
  {
    hide LE;
  }

  lemma HeaderBytes(s: seq<byte>)
    requires |s| >= HEADER_LEN && ParseHeader(s).Header?
    ensures s[..HEADER_LEN] == MAGIC + [ParseHeader(s).ty] + LE(ParseHeader(s).length, 4)
  {
    LEOfBytes(s[3..7]);
    assert s[..HEADER_LEN] == s[..2] + [s[2]] + s[3..7];
  }

  /** Nothing but a frame is read as a message: what is read is what was encoded, and the rest of the
      stream is what follows it. */
  lemma ReadExactly(s: seq<byte>, m: Message, rest: seq<byte>)
    ensures ReadMessage(s) == Read(m, rest) <==> s == EncodeMessage(m) + rest && |m.payload| < U32_LIMIT
  {
    hide LE, U32At, ParseHeader;
    if ReadMessage(s) == Read(m, rest) {
      HeaderBytes(s);
      var n := ParseHeader(s).length;
      assert s == s[..HEADER_LEN] + s[HEADER_LEN..HEADER_LEN + n] + s[HEADER_LEN + n..];
    }
    if s == EncodeMessage(m) + rest && |m.payload| < U32_LIMIT {
      FrameRoundTrip(m, rest);
    }
  }

  /** Each refusal, and nothing else, has its cause: the magic bytes, the type, or the end of the
      stream before the header, or before the payload it announces. */
  lemma RefusedExactly(s: seq<byte>)
    ensures ReadMessage(s) == ReadFailed(InvalidMagic) <==> |s| >= 7 && !(s[0] == 0x47 && s[1] == 0x53)
    ensures ReadMessage(s) == ReadFailed(UnknownMessage)
            <==> |s| >= 7 && s[0] == 0x47 && s[1] == 0x53 && !KnownType(s[2])
    ensures ReadMessage(s) == ReadFailed(UnexpectedEof)
            <==> |s| < 7 || (s[0] == 0x47 && s[1] == 0x53 && KnownType(s[2]) && |s| < 7 + U32At(s, 3))
  {
    hide U32At;
    if |s| >= 7 {
      assert s[..2] == [s[0], s[1]];
    }
  }

  /** A reader that stops at the first error: the messages it got, and the error. */
  function ReadAll(s: seq<byte>): (seq<Message>, ReadError)
    decreases |s|
  {
    match ReadMessage(s)
    case ReadFailed(e) => ([], e)
    case Read(m, rest) =>
      var (more, e) := ReadAll(rest);
      ([m] + more, e)
  }

  function EncodeAll(ms: seq<Message>): seq<byte> {
    if ms == [] then [] else EncodeMessage(ms[0]) + EncodeAll(ms[1..])
  }

  predicate FitsLength(ms: seq<Message>) {
    forall i :: 0 <= i < |ms| ==> |ms[i].payload| < U32_LIMIT
  }

  /** Unique decodability of whole streams, also when cut anywhere inside the next frame. */
  lemma {:induction false} StreamRoundTrip(ms: seq<Message>, tail: seq<byte>)
    requires FitsLength(ms)
    ensures ReadAll(EncodeAll(ms) + tail) == (ms + ReadAll(tail).0, ReadAll(tail).1)
  {
    hide EncodeMessage, ReadMessage;
    if ms == [] {
      assert EncodeAll(ms) + tail == tail && ms + ReadAll(tail).0 == ReadAll(tail).0;
    } else {
      var rest := EncodeAll(ms[1..]) + tail;
      assert EncodeAll(ms) + tail == EncodeMessage(ms[0]) + rest;
      FrameRoundTrip(ms[0], rest);
      StreamRoundTrip(ms[1..], tail);
      assert [ms[0]] + (ms[1..] + ReadAll(tail).0) == ms + ReadAll(tail).0;
    }
  }
}
