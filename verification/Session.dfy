/** A connection's session: the buffers the event loop fills in place while it reads a request
    and empties when it writes the response. */
module Session {
  import opened Frame

  datatype SessionStatus = SsRequest | SsResponse
  datatype MessageStatus = MsReadHeader | MsReadMessage

  /** What one read callback did. */
  datatype Outcome =
    | Ignored                        // the session awaits a response
    | Waiting                        // the frame is still incomplete
    | Dispatched(request: Request)   // an event went to the pool
    | Closed                         // buffer event and session freed

  /** The buffered connection: bytes received and not yet read, bytes written. */
  class BufferEvent {
    var input: seq<byte>
    var output: seq<byte>

    constructor ()
      ensures input == [] && output == []
    {
      input, output := [], [];
    }

    /** Move as many of the requested bytes as are there. */
    method Read(dst: array<byte>, at: nat, requested: nat) returns (count: nat)
      requires at + requested <= dst.Length
      modifies this`input, dst
      ensures count == if |old(input)| < requested then |old(input)| else requested
      ensures input == old(input)[count..]
      ensures dst[..at + count] == old(dst[..at]) + old(input)[..count]
      ensures dst[at + count..] == old(dst[at + count..])
    {
      count := if |input| < requested then |input| else requested;
      forall i | 0 <= i < count {
        dst[at + i] := input[i];
      }
      input := input[count..];
    }

    method Write(src: array<byte>, count: nat)
      requires count <= src.Length
      modifies this`output
      ensures output == old(output) + src[..count]
    {
      output := output + src[..count];
    }
  }

  class ConnectSession {
    const bev: BufferEvent
    const header: array<byte>
    var sessionStat: SessionStatus
    var reqStat: MessageStatus
    var eid: nat
    var msgLen: nat
    var readMsgLen: nat
    var readHeaderLen: nat
    var readBuf: array?<byte>
    var writeBuf: array?<byte>
    /** A response was assembled for this session; it is not forgotten by a reset. */
    var hasResponse: bool
    /** False once the session and its buffer event are freed. */
    var live: bool
    /** The request whose response is awaited. */
    ghost var pending: Request

    ghost predicate Valid()
      reads this, header, readBuf
    {
      && header.Length == HEADER_LEN + 1
      && (readBuf != null ==> readBuf != header)
      && readHeaderLen <= HEADER_LEN && readMsgLen <= msgLen
      && (live ==>
        match sessionStat
        case SsResponse => Sendable(pending) && readMsgLen == 0
        case SsRequest =>
          match reqStat
          case MsReadHeader => readHeaderLen < HEADER_LEN && readMsgLen == 0
          case MsReadMessage =>
            && eid < 0x1_0000 && 1 <= msgLen <= MAX_MSG_LEN && readMsgLen < msgLen
            && readBuf != null && readBuf.Length == msgLen)
    }

    /** Where the session is in the byte stream. */
    ghost function Position(): (d: Decoder)
      requires Valid()
      reads this, header, readBuf
      ensures WellFormed(d)
    {
      if !live then Dead
      else match sessionStat
        case SsResponse => Done(pending)
        case SsRequest =>
          match reqStat
          case MsReadHeader => ReadHeader(header[..readHeaderLen])
          case MsReadMessage => ReadBody(eid, msgLen, readBuf[..readMsgLen])
    }

    constructor (bev: BufferEvent)
      ensures Valid() && Position() == START
      ensures this.bev == bev && fresh(header) && readBuf == null
    {
      this.bev := bev;
      header := new byte[HEADER_LEN + 1](_ => 0);
      sessionStat, reqStat := SsRequest, MsReadHeader;
      eid, msgLen, readMsgLen, readHeaderLen := 0, 0, 0, 0;
      readBuf, writeBuf, hasResponse := null, null, false;
      live := true;
      pending := Request(0, []);
      new;
      assert header[..0] == [];
    }

    /** The read callback. It reads in bulk, into the header and then into a buffer of the
        announced length, and agrees with decoding the unread input byte by byte. */
    method HandleRequest(parses: Request -> bool) returns (outcome: Outcome)
      requires Valid() && live
      modifies this, header, readBuf, bev`input
      ensures Valid()
      ensures (Position(), bev.input) == Feed(old(Position()), old(bev.input), parses)
      ensures outcome == match Position()
        case Done(r) => if old(Position()).Done? then Ignored else Dispatched(r)
        case Dead => Closed
        case _ => Waiting
      ensures bev.output == old(bev.output)
      ensures readBuf == old(readBuf) || readBuf == null || fresh(readBuf)
    {
      if sessionStat != SsRequest {
        return Ignored;
      }
      if reqStat == MsReadHeader {
        outcome := ReadHeaderBytes(parses);
        if outcome == Closed || readHeaderLen < HEADER_LEN {
          return;
        }
      }
      outcome := Waiting;
      if |bev.input| > 0 {
        outcome := ReadMessageBytes(parses);
      }
    }

    /** The header part of the callback. Decoding continues from its result. */
    method ReadHeaderBytes(parses: Request -> bool) returns (outcome: Outcome)
      requires Valid() && live && sessionStat == SsRequest && reqStat == MsReadHeader
      modifies this, header, bev`input
      ensures Valid() && sessionStat == SsRequest
      ensures Feed(Position(), bev.input, parses) == Feed(old(Position()), old(bev.input), parses)
      ensures outcome == if live then Waiting else Closed
      ensures live && reqStat == MsReadHeader ==> bev.input == [] && readHeaderLen < HEADER_LEN
      ensures live && reqStat == MsReadMessage ==> readHeaderLen == HEADER_LEN && fresh(readBuf)
      ensures !live ==> readHeaderLen == HEADER_LEN
      ensures readBuf == old(readBuf) || fresh(readBuf)
    {
      ghost var got, input := header[..readHeaderLen], bev.input;
      FeedHeader(got, input, parses);
      hide Feed;
      var count := bev.Read(header, readHeaderLen, HEADER_LEN - readHeaderLen);
      readHeaderLen := readHeaderLen + count;
      header[readHeaderLen] := 0;
      assert header[..readHeaderLen] == got + input[..count];
      outcome := Waiting;
      if readHeaderLen == HEADER_LEN {
        outcome := DecodeHeader();
      } else {
        assert input[..count] == input;
      }
    }

    /** Check a complete header and get ready for its payload. */
    method DecodeHeader() returns (outcome: Outcome)
      requires header.Length == HEADER_LEN + 1 && readHeaderLen == HEADER_LEN
      requires live && sessionStat == SsRequest && readMsgLen == 0 && (readBuf != null ==> readBuf != header)
      modifies this
      ensures Valid() && Position() == AfterHeader(header[..HEADER_LEN])
      ensures sessionStat == SsRequest && readHeaderLen == HEADER_LEN
      ensures outcome == if live then Waiting else Closed
      ensures live ==> reqStat == MsReadMessage && fresh(readBuf)
      ensures !live ==> readBuf == old(readBuf)
    {
      ghost var h := header[..HEADER_LEN];
      assert h[..4] == header[..4];
      if header[..4] == MAGIC {
        eid := EidOf(header[..HEADER_LEN]);
        msgLen := LengthOf(header[..HEADER_LEN]);
        if msgLen < 1 || msgLen > MAX_MSG_LEN {
          live := false;
          return Closed;
        }
        readBuf := new byte[msgLen];
        reqStat := MsReadMessage;
        readMsgLen := 0;
        assert readBuf[..0] == [];
        outcome := Waiting;
      } else {
        live := false;
        outcome := Closed;
      }
    }

    /** The payload part of the callback. */
    method ReadMessageBytes(parses: Request -> bool) returns (outcome: Outcome)
      requires Valid() && live && sessionStat == SsRequest && reqStat == MsReadMessage
      modifies this, readBuf, bev`input
      ensures Valid() && readHeaderLen == old(readHeaderLen) && (readBuf == old(readBuf) || readBuf == null)
      ensures (Position(), bev.input) == Feed(old(Position()), old(bev.input), parses)
      ensures outcome == match Position()
        case Done(r) => Dispatched(r)
        case Dead => Closed
        case _ => Waiting
    {
      ghost var got, input := readBuf[..readMsgLen], bev.input;
      FeedBody(eid, msgLen, got, input, parses);
      hide Feed;
      var count := bev.Read(readBuf, readMsgLen, msgLen - readMsgLen);
      readMsgLen := readMsgLen + count;
      assert readBuf[..readMsgLen] == got + input[..count];
      outcome := Waiting;
      if msgLen == readMsgLen {
        assert readBuf[..] == readBuf[..readMsgLen];
        sessionStat := SsResponse;
        var request := Request(eid, readBuf[..]);
        readBuf := null;
        readMsgLen := 0;
        if parses(request) {
          pending := request;
          outcome := Dispatched(request);
        } else {
          live := false;
          outcome := Closed;
        }
      } else {
        assert input[..count] == input;
      }
    }

    /** What is true of a session at any moment, also between assembling and sending a response. */
    ghost predicate Sound()
      reads this
    {
      header.Length == HEADER_LEN + 1 && (readBuf != null ==> readBuf != header)
    }

    /** session_reset: ready for the next request, nothing of the old one left. */
    method Reset()
      requires Sound() && live
      modifies this
      ensures Valid() && live && Position() == START && readBuf == null && writeBuf == null
      ensures hasResponse == old(hasResponse)
    {
      readBuf, writeBuf := null, null;
      sessionStat, reqStat := SsRequest, MsReadHeader;
      msgLen, readMsgLen, readHeaderLen := 0, 0, 0;
      assert header[..0] == [];
    }

    /** A response leaves the session: one frame goes out, and the session starts over. Nobody looks
        at its state before: a session in the middle of a header or a payload drops what it has read
        of them, and goes on with the unread input as if it were the beginning of a frame. */
    method Respond(eid: nat, payload: seq<byte>)
      requires Valid() && live
      requires eid < 0x1_0000 && |payload| < 0x8000_0000
      modifies this, bev`output
      ensures Valid() && live && Position() == START && hasResponse && readBuf == null
      ensures bev.output == old(bev.output) + Encode(Request(eid, payload)) && bev.input == old(bev.input)
    {
      AssembleResponse(eid, payload);
      SendResponse();
    }

    /** The frame encoder, field by field into a buffer of the exact size. The session's message
        length becomes the response's, also while it is the length of a payload being read: the
        write that follows relies on it. */
    method AssembleResponse(eid: nat, payload: seq<byte>)
      requires Valid() && live
      requires eid < 0x1_0000 && |payload| < 0x8000_0000
      modifies this`hasResponse, this`msgLen, this`writeBuf
      ensures Sound() && hasResponse && msgLen == |payload|
      ensures writeBuf != null && fresh(writeBuf) && writeBuf.Length == HEADER_LEN + msgLen
      ensures writeBuf[..] == Encode(Request(eid, payload))
      ensures writeBuf[0] == 70 && writeBuf[1] == 66 && writeBuf[2] == 69 && writeBuf[3] == 66
      ensures writeBuf[4] == eid % 256 && writeBuf[5] == eid / 256
      ensures var n := |payload|;
        && writeBuf[6] == n % 256 && writeBuf[7] == n / 256 % 256
        && writeBuf[8] == n / 256 / 256 % 256 && writeBuf[9] == n / 256 / 256 / 256
      ensures writeBuf[10..] == payload
    {
      FrameBytes(Request(eid, payload));
      hasResponse := true;
      msgLen := |payload|;
      var buf := new byte[HEADER_LEN + msgLen];
      var idBytes, lengthBytes := LittleEndian(eid, 2), LittleEndian(msgLen, 4);
      forall i | 0 <= i < 4 {
        buf[i] := MAGIC[i];
      }
      forall i | 0 <= i < 2 {
        buf[4 + i] := idBytes[i];
      }
      forall i | 0 <= i < 4 {
        buf[6 + i] := lengthBytes[i];
      }
      forall i | 0 <= i < msgLen {
        buf[HEADER_LEN + i] := payload[i];
      }
      assert buf[..4] == MAGIC && buf[4..6] == idBytes && buf[6..10] == lengthBytes && buf[10..] == payload;
      assert buf[..] == buf[..4] + buf[4..6] + buf[6..10] + buf[10..];
      writeBuf := buf;
    }

    /** Write the assembled frame and get ready for the next request. A session that never had a
        response is freed instead. */
    method SendResponse()
      requires live && (if hasResponse then Sound() else Valid())
      requires hasResponse ==> writeBuf != null && writeBuf.Length == HEADER_LEN + msgLen
      modifies this, bev`output
      ensures Valid() && live == old(hasResponse) && bev.input == old(bev.input)
      ensures hasResponse == old(hasResponse) && (hasResponse ==> readBuf == null)
      ensures Position() == if old(hasResponse) then START else Dead
      ensures bev.output == if old(hasResponse) then old(bev.output) + old(writeBuf[..]) else old(bev.output)
    {
      if !hasResponse {
        live := false;
        return;
      }
      bev.Write(writeBuf, msgLen + HEADER_LEN);
      assert writeBuf[..msgLen + HEADER_LEN] == writeBuf[..];
      Reset();
    }
  }
}
