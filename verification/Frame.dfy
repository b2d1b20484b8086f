/** The wire format: a 10-byte header (magic, 16-bit event id, 32-bit length, both in the
    little-endian order of the host) followed by the payload, and what a byte stream means. */
module Frame {

  type byte = x: int | 0 <= x < 256

  const HEADER_LEN: nat := 10
  const MAX_MSG_LEN: nat := 367280
  const MAGIC: seq<byte> := [70, 66, 69, 66]  // "FBEB"

  datatype Request = Request(eid: nat, payload: seq<byte>)

  /** The low `width` bytes of n, least significant first. */
  function LittleEndian(n: nat, width: nat): (bs: seq<byte>)
    ensures |bs| == width
  {
    if width == 0 then [] else [n % 256] + LittleEndian(n / 256, width - 1)
  }

  function Value(bs: seq<byte>): nat {
    if bs == [] then 0 else bs[0] + 256 * Value(bs[1..])
  }

  function Limit(width: nat): nat {
    if width == 0 then 1 else 256 * Limit(width - 1)
  }

  lemma {:induction false} ValueOfLittleEndian(n: nat, width: nat)
    requires n < Limit(width)
    ensures Value(LittleEndian(n, width)) == n
  {
    if width == 0 {
    } else {
      ValueOfLittleEndian(n / 256, width - 1);
      assert LittleEndian(n, width)[1..] == LittleEndian(n / 256, width - 1);
    }
  }

  lemma {:induction false} LittleEndianOfValue(bs: seq<byte>)
    ensures LittleEndian(Value(bs), |bs|) == bs
    ensures Value(bs) < Limit(|bs|)
  {
    if bs == [] {
    } else {
      LittleEndianOfValue(bs[1..]);
    }
  }

  /** A request the format can carry and the server accepts the length of. */
  predicate Sendable(r: Request) {
    r.eid < 0x1_0000 && 1 <= |r.payload| <= MAX_MSG_LEN
  }

  function Header(eid: nat, length: nat): (h: seq<byte>)
    requires eid < 0x1_0000 && length < 0x1_0000_0000
    ensures |h| == HEADER_LEN
  {
    MAGIC + LittleEndian(eid, 2) + LittleEndian(length, 4)
  }

  function Encode(r: Request): seq<byte>
    requires r.eid < 0x1_0000 && |r.payload| < 0x1_0000_0000
  {
    Header(r.eid, |r.payload|) + r.payload
  }

  // ---------------------------------------------------------------------------------------
  // The meaning of a byte stream, one byte at a time
  // ---------------------------------------------------------------------------------------

  datatype Decoder =
    | ReadHeader(got: seq<byte>)
    | ReadBody(eid: nat, length: nat, got: seq<byte>)
    | Done(request: Request)   // handed to the service, awaiting the response
    | Dead                     // connection closed

  const START: Decoder := ReadHeader([])

  function EidOf(h: seq<byte>): (eid: nat)
    requires |h| == HEADER_LEN
    ensures eid < 0x1_0000
  {
    LittleEndianOfValue(h[4..6]);
    Value(h[4..6])
  }

  function LengthOf(h: seq<byte>): nat
    requires |h| == HEADER_LEN
  {
    Value(h[6..10])
  }

  predicate GoodHeader(h: seq<byte>)
    requires |h| == HEADER_LEN
  {
    h[..4] == MAGIC && 1 <= LengthOf(h) <= MAX_MSG_LEN
  }

  predicate WellFormed(d: Decoder) {
    match d
    case ReadHeader(got) => |got| < HEADER_LEN
    case ReadBody(eid, length, got) => eid < 0x1_0000 && 1 <= length <= MAX_MSG_LEN && |got| < length
    case Done(r) => Sendable(r)
    case Dead => true
  }

  function AfterHeader(h: seq<byte>): (d: Decoder)
    requires |h| == HEADER_LEN
    ensures WellFormed(d)
  {
    if GoodHeader(h) then ReadBody(EidOf(h), LengthOf(h), []) else Dead
  }

  function Eat(d: Decoder, b: byte, parses: Request -> bool): (d': Decoder)
    requires WellFormed(d)
    ensures WellFormed(d')
  {
    match d
    case ReadHeader(got) =>
      if |got| + 1 < HEADER_LEN then ReadHeader(got + [b]) else AfterHeader(got + [b])
    case ReadBody(eid, length, got) =>
      if |got| + 1 < length then ReadBody(eid, length, got + [b]) else AfterBody(Request(eid, got + [b]), parses)
    case _ => d
  }

  /** A complete frame either yields an event for the pool or ends the connection. */
  function AfterBody(r: Request, parses: Request -> bool): Decoder {
    if parses(r) then Done(r) else Dead
  }

  /** Decode until the input runs out or the session stops reading; what is left stays unread. */
  function Feed(d: Decoder, input: seq<byte>, parses: Request -> bool): (r: (Decoder, seq<byte>))
    requires WellFormed(d)
    ensures WellFormed(r.0) && |r.1| <= |input|
    decreases |input|
  {
    if input == [] || d.Done? || d.Dead? then (d, input)
    else Feed(Eat(d, input[0], parses), input[1..], parses)
  }

  /** Feeding a stream in two parts, the second behind what the first left, is feeding it whole. */
  lemma {:induction false} FeedSplit(d: Decoder, a: seq<byte>, b: seq<byte>, parses: Request -> bool)
    requires WellFormed(d)
    ensures var (mid, left) := Feed(d, a, parses);
      Feed(d, a + b, parses) == Feed(mid, left + b, parses)
    decreases |a|
  {
    if a == [] || d.Done? || d.Dead? {
    } else {
      assert (a + b)[1..] == a[1..] + b;
      FeedSplit(Eat(d, a[0], parses), a[1..], b, parses);
    }
  }

  /** A run of read callbacks: each appends a chunk to the unread input, then decodes. */
  function FeedChunks(d: Decoder, input: seq<byte>, chunks: seq<seq<byte>>,
                      parses: Request -> bool): (Decoder, seq<byte>)
    requires WellFormed(d)
    decreases |chunks|
  {
    if chunks == [] then (d, input)
    else
      var (d', left) := Feed(d, input + chunks[0], parses);
      FeedChunks(d', left, chunks[1..], parses)
  }

  function Flatten(chunks: seq<seq<byte>>): seq<byte> {
    if chunks == [] then [] else chunks[0] + Flatten(chunks[1..])
  }

  /** Decoding does not depend on how the stream is cut into callbacks. */
  lemma {:induction false} ChunkingIrrelevant(d: Decoder, input: seq<byte>, chunks: seq<seq<byte>>,
                                              parses: Request -> bool)
    requires WellFormed(d) && chunks != []
    ensures FeedChunks(d, input, chunks, parses) == Feed(d, input + Flatten(chunks), parses)
    decreases |chunks|
  {
    var (d', left) := Feed(d, input + chunks[0], parses);
    assert input + Flatten(chunks) == (input + chunks[0]) + Flatten(chunks[1..]);
    FeedSplit(d, input + chunks[0], Flatten(chunks[1..]), parses);
    if |chunks| == 1 {
      assert left + Flatten(chunks[1..]) == left;
      FeedIdle(d, input + chunks[0], parses);
    } else {
      ChunkingIrrelevant(d', left, chunks[1..], parses);
    }
  }

  /** After a callback there is nothing more to do until bytes arrive or a response is sent. */
  lemma {:induction false} FeedIdle(d: Decoder, input: seq<byte>, parses: Request -> bool)
    requires WellFormed(d)
    ensures var (d', left) := Feed(d, input, parses);
      (left == [] || d'.Done? || d'.Dead?) && Feed(d', left, parses) == (d', left)
    decreases |input|
  {
    if input == [] || d.Done? || d.Dead? {
    } else {
      FeedIdle(Eat(d, input[0], parses), input[1..], parses);
    }
  }

  // ---------------------------------------------------------------------------------------
  // Bulk reads
  // ---------------------------------------------------------------------------------------

  lemma {:induction false} FeedHeader(got: seq<byte>, input: seq<byte>, parses: Request -> bool)
    requires |got| < HEADER_LEN
    ensures var need := HEADER_LEN - |got|;
      Feed(ReadHeader(got), input, parses) ==
        if |input| < need then (ReadHeader(got + input), [])
        else Feed(AfterHeader(got + input[..need]), input[need..], parses)
    decreases |input|
  {
    if input == [] {
      assert got + input == got;
    } else {
      var rest := input[1..];
      assert got + [input[0]] + rest == got + input;
      if |got| + 1 < HEADER_LEN {
        FeedHeader(got + [input[0]], rest, parses);
        var need := HEADER_LEN - |got|;
        if |input| >= need {
          assert got + [input[0]] + rest[..need - 1] == got + input[..need];
          assert rest[need - 1..] == input[need..];
        }
      } else {
        assert got + [input[0]] == got + input[..1];
        assert Eat(ReadHeader(got), input[0], parses) == AfterHeader(got + input[..1]);
      }
    }
  }

  lemma {:induction false} FeedBody(eid: nat, length: nat, got: seq<byte>, input: seq<byte>, parses: Request -> bool)
    requires WellFormed(ReadBody(eid, length, got))
    ensures var need := length - |got|;
      Feed(ReadBody(eid, length, got), input, parses) ==
        if |input| < need then (ReadBody(eid, length, got + input), [])
        else (AfterBody(Request(eid, got + input[..need]), parses), input[need..])
    decreases |input|
  {
    if input == [] {
      assert got + input == got;
    } else {
      var rest := input[1..];
      assert got + [input[0]] + rest == got + input;
      if |got| + 1 < length {
        FeedBody(eid, length, got + [input[0]], rest, parses);
        var need := length - |got|;
        if |input| >= need {
          assert got + [input[0]] + rest[..need - 1] == got + input[..need];
          assert rest[need - 1..] == input[need..];
        }
      } else {
        assert input[..1] == [input[0]];
      }
    }
  }

  // ---------------------------------------------------------------------------------------
  // Round trips
  // ---------------------------------------------------------------------------------------

  lemma HeaderRoundTrip(eid: nat, length: nat)
    requires eid < 0x1_0000 && 1 <= length <= MAX_MSG_LEN
    ensures AfterHeader(Header(eid, length)) == ReadBody(eid, length, [])
  {
    ValueOfLittleEndian(eid, 2);
    ValueOfLittleEndian(length, 4);
    var h := Header(eid, length);
    assert h[..4] == MAGIC && h[4..6] == LittleEndian(eid, 2) && h[6..10] == LittleEndian(length, 4);
  }

  lemma HeaderUnique(h: seq<byte>)
    requires |h| == HEADER_LEN && GoodHeader(h)
    ensures h == Header(EidOf(h), LengthOf(h))
  {
    LittleEndianOfValue(h[4..6]);
    LittleEndianOfValue(h[6..10]);
    assert h == h[..4] + h[4..6] + h[6..10];
  }

  // ---------------------------------------------------------------------------------------
  // Byte by byte
  // ---------------------------------------------------------------------------------------

  /** What ten bytes say, in numbers: "FBEB", then the event id and the length, each with its least
      significant byte first. */
  lemma HeaderBytes(h: seq<byte>)
    requires |h| == 10
    ensures EidOf(h) == h[4] as int + 256 * h[5] as int
    ensures LengthOf(h) == h[6] as int + 256 * (h[7] as int + 256 * (h[8] as int + 256 * h[9] as int))
    ensures GoodHeader(h) <==>
      && h[0] == 70 && h[1] == 66 && h[2] == 69 && h[3] == 66
      && 1 <= h[6] as int + 256 * (h[7] as int + 256 * (h[8] as int + 256 * h[9] as int)) <= 367280
  {
    TwoBytes(h[4..6]);
    FourBytes(h[6..10]);
    assert h[..4] == [h[0], h[1], h[2], h[3]];
  }

  lemma TwoBytes(bs: seq<byte>)
    requires |bs| == 2
    ensures Value(bs) == bs[0] as int + 256 * bs[1] as int
  {
    assert bs[1..] == [bs[1]] && [bs[1]][1..] == [];
    assert Value([bs[1]]) == bs[1] as int + 256 * Value([]);
  }

  lemma FourBytes(bs: seq<byte>)
    requires |bs| == 4
    ensures Value(bs) == bs[0] as int + 256 * (bs[1] as int + 256 * (bs[2] as int + 256 * bs[3] as int))
  {
    assert bs == [bs[0]] + ([bs[1]] + bs[2..]);
    TwoBytes(bs[2..]);
    assert bs[1..] == [bs[1]] + bs[2..] && bs[1..][1..] == bs[2..];
  }

  /** The bytes of a frame. */
  lemma FrameBytes(r: Request)
    requires r.eid < 0x1_0000 && |r.payload| < 0x1_0000_0000
    ensures var n := |r.payload|;
      Encode(r) == [70, 66, 69, 66, r.eid % 256, r.eid / 256,
                    n % 256, n / 256 % 256, n / 256 / 256 % 256, n / 256 / 256 / 256] + r.payload
  {
    var n := |r.payload|;
    assert LittleEndian(r.eid, 2) == [r.eid % 256] + ([r.eid / 256 % 256] + LittleEndian(r.eid / 256 / 256, 0));
    assert LittleEndian(n / 256 / 256, 2)
        == [n / 256 / 256 % 256] + ([n / 256 / 256 / 256 % 256] + LittleEndian(n / 256 / 256 / 256 / 256, 0));
    assert LittleEndian(n, 4) == [n % 256] + ([n / 256 % 256] + LittleEndian(n / 256 / 256, 2));
  }

  /** What a stream that starts with a whole header decodes to. */
  lemma FeedFramed(h: seq<byte>, body: seq<byte>, parses: Request -> bool)
    requires |h| == HEADER_LEN
    ensures !GoodHeader(h) ==> Feed(START, h + body, parses) == (Dead, body)
    ensures GoodHeader(h) ==>
      var length := LengthOf(h);
      Feed(START, h + body, parses) ==
        if |body| < length then (ReadBody(EidOf(h), length, body), [])
        else (AfterBody(Request(EidOf(h), body[..length]), parses), body[length..])
  {
    var input := h + body;
    FeedHeader([], input, parses);
    assert [] + input[..HEADER_LEN] == h;
    assert input[HEADER_LEN..] == body;
    if GoodHeader(h) {
      FeedBody(EidOf(h), LengthOf(h), [], body, parses);
      assert [] + body == body;
      assert |body| >= LengthOf(h) ==> [] + body[..LengthOf(h)] == body[..LengthOf(h)];
    }
  }

  /** The decoder inverts the encoder, whatever follows the frame. */
  lemma DecodeEncoded(r: Request, rest: seq<byte>, parses: Request -> bool)
    requires Sendable(r)
    ensures Feed(START, Encode(r) + rest, parses) == (AfterBody(r, parses), rest)
  {
    var h, body := Header(r.eid, |r.payload|), r.payload + rest;
    HeaderRoundTrip(r.eid, |r.payload|);
    assert Encode(r) + rest == h + body;
    FeedFramed(h, body, parses);
    assert body[..|r.payload|] == r.payload && body[|r.payload|..] == rest;
  }

  lemma AcceptedIsFrame(input: seq<byte>, r: Request, rest: seq<byte>, parses: Request -> bool)
    requires Feed(START, input, parses) == (Done(r), rest)
    ensures Sendable(r) && parses(r) && input == Encode(r) + rest
  {
    hide Feed, Header, LengthOf, EidOf;
    FeedHeader([], input, parses);
    var h, body := input[..HEADER_LEN], input[HEADER_LEN..];
    assert input == h + body;
    FeedFramed(h, body, parses);
    HeaderUnique(h);
    assert body == r.payload + rest;
    assert h + (r.payload + rest) == h + r.payload + rest;
  }

  /** A request is accepted from a stream exactly if the stream begins with that request's frame,
      here in bytes. */
  lemma AcceptsExactlyFrames(input: seq<byte>, r: Request, rest: seq<byte>, parses: Request -> bool)
    ensures Feed(START, input, parses) == (Done(r), rest)
      <==> Sendable(r) && parses(r) && input == Encode(r) + rest
    ensures var n := |r.payload|;
      Feed(START, input, parses) == (Done(r), rest)
      <==> r.eid < 65536 && 1 <= n <= 367280 && parses(r)
           && input == [70, 66, 69, 66, r.eid % 256, r.eid / 256,
                        n % 256, n / 256 % 256, n / 256 / 256 % 256, n / 256 / 256 / 256] + r.payload + rest
  {
    if Sendable(r) {
      FrameBytes(r);
    }
    if Sendable(r) && parses(r) && input == Encode(r) + rest {
      DecodeEncoded(r, rest, parses);
    }
    if Feed(START, input, parses) == (Done(r), rest) {
      AcceptedIsFrame(input, r, rest, parses);
    }
  }

  /** A connection is closed exactly on a header with wrong magic or length, or on a complete
      frame that no event can be parsed from. */
  lemma RejectsExactly(input: seq<byte>, parses: Request -> bool)
    ensures Feed(START, input, parses).0 == Dead
      <==> |input| >= 10
           && var h, body := input[..10], input[10..];
              var eid := h[4] as int + 256 * h[5] as int;
              var length := h[6] as int + 256 * (h[7] as int + 256 * (h[8] as int + 256 * h[9] as int));
              || !(h[0] == 70 && h[1] == 66 && h[2] == 69 && h[3] == 66)
              || !(1 <= length <= 367280)
              || (|body| >= length && !parses(Request(eid, body[..length])))
  {
    if |input| >= 10 {
      HeaderBytes(input[..10]);
    }
    FeedHeader([], input, parses);
    if |input| >= HEADER_LEN {
      FeedFramed(input[..HEADER_LEN], input[HEADER_LEN..], parses);
      assert input == input[..HEADER_LEN] + input[HEADER_LEN..];
    }
  }

  /** The bytes of an unfinished frame that a session has read. */
  function Partial(d: Decoder): seq<byte>
    requires WellFormed(d)
  {
    match d
    case ReadHeader(got) => got
    case ReadBody(eid, length, got) => Header(eid, length) + got
    case _ => []
  }

  lemma EatConsumes(d: Decoder, b: byte, parses: Request -> bool)
    requires WellFormed(d) && !d.Done? && !d.Dead?
    ensures match Eat(d, b, parses)
      case Dead => true
      case Done(r) => parses(r) && Sendable(r) && Encode(r) == Partial(d) + [b]
      case d' => Partial(d') == Partial(d) + [b]
  {
    match d {
      case ReadHeader(got) =>
        if |got| + 1 == HEADER_LEN && GoodHeader(got + [b]) {
          HeaderUnique(got + [b]);
        }
      case ReadBody(eid, length, got) =>
        assert Header(eid, length) + got + [b] == Header(eid, length) + (got + [b]);
    }
  }

  lemma {:induction false} FeedConsumes(d: Decoder, input: seq<byte>, parses: Request -> bool)
    requires WellFormed(d) && !d.Done? && !d.Dead?
    ensures var (d', rest) := Feed(d, input, parses);
      match d'
      case Dead => true
      case Done(r) => parses(r) && Sendable(r) && Encode(r) + rest == Partial(d) + input
      case _ => Partial(d') + rest == Partial(d) + input
    decreases |input|
  {
    if input == [] {
    } else {
      var b, tail := input[0], input[1..];
      var next := Eat(d, b, parses);
      EatConsumes(d, b, parses);
      assert Partial(d) + input == Partial(d) + [b] + tail;
      if !next.Done? && !next.Dead? {
        FeedConsumes(next, tail, parses);
      }
    }
  }
}
