/** The request/response cycle across the event loop, the pool and the response queue. Sessions
    decode as in Frame.dfy, and the pool is the FIFO service that PoolProperties refines. Clients
    may disconnect at any time, the pool may reject a post, and a new session may get the address
    of a freed one: an event in flight knows its session by the address alone. */
module Service {
  import opened Frame
  import opened PoolProperties

  const GET_MOBILE_CODE_REQ: nat := 1
  const GET_MOBILE_CODE_RSP: nat := 2
  const LOGIN_REQ: nat := 3
  const LOGIN_RSP: nat := 4

  /** What this model leaves open: which payloads the protocol buffers accept, and which response
      payloads the subscribed handler may give to a request. */
  datatype Handlers = Handlers(accepts: Request -> bool, answers: (Request, seq<byte>) -> bool)

  function Parses(h: Handlers): Request -> bool {
    (r: Request) => (r.eid == GET_MOBILE_CODE_REQ || r.eid == LOGIN_REQ) && h.accepts(r)
  }

  function ResponseId(r: Request): nat {
    if r.eid == GET_MOBILE_CODE_REQ then GET_MOBILE_CODE_RSP else LOGIN_RSP
  }

  /** A reply that a handler may give to this request, as the frame that carries it. */
  predicate Answers(h: Handlers, request: Request, reply: Request) {
    reply.eid == ResponseId(request) && |reply.payload| < 0x8000_0000 && h.answers(request, reply.payload)
  }

  /** An event with the address of the session it came from. The number of the connection is not
      known to the code: it tells apart the sessions that had the address one after the other. */
  datatype Token = Token(sid: nat, serial: nat, request: Request)

  datatype Response = Response(token: Token, reply: Request)

  /** One connection; `received`, `requests` and `replies` record its history. `over` says that when
      it connected, an event of an earlier session at its address was still in flight. */
  datatype Conn = Conn(
    serial: nat,
    over: bool,
    live: bool,
    position: Decoder,
    input: seq<byte>,
    output: seq<byte>,
    received: seq<byte>,
    requests: seq<Request>,
    replies: seq<Request>
  )

  function Connected(serial: nat, over: bool): Conn {
    Conn(serial, over, true, START, [], [], [], [], [])
  }

  /** Bytes arrive. */
  function Received(c: Conn, bytes: seq<byte>): Conn {
    c.(input := c.input + bytes, received := c.received + bytes)
  }

  /** What decoding the unread input of a session comes to. */
  function Decoded(h: Handlers, c: Conn): Conn
    requires WellFormed(c.position)
  {
    var (position, rest) := Feed(c.position, c.input, Parses(h));
    c.(position := position, input := rest, live := !position.Dead?,
       requests := if position.Done? then c.requests + [position.request] else c.requests)
  }

  /** A response is written, and the session starts over, whatever it was doing. */
  function Replied(c: Conn, reply: Request): Conn
    requires Writable(reply)
  {
    c.(position := START, output := c.output + Encode(reply), replies := c.replies + [reply])
  }

  /** A response the code can write. */
  predicate Writable(reply: Request) {
    reply.eid < 0x1_0000 && |reply.payload| < 0x8000_0000
  }

  datatype State = State(
    conns: map<nat, Conn>,     // by address
    made: nat,                 // connections so far
    pool: Fifo<Token>,
    answered: set<nat>,        // busy workers whose handler has queued its response
    responses: seq<Response>,
    lost: set<nat>,            // sessions whose request the pool rejected, unnoticed
    astray: set<nat>           // addresses where a response met another session than the one that asked, or none
  )

  datatype Event =
    | Connect(sid: nat)
    | Receive(sid: nat, bytes: seq<byte>)
    | ReadCallback(sid: nat)       // a complete request is accepted by the pool
    | ReadRejected(sid: nat)       // a complete request is rejected, and the result ignored
    | ErrorCallback(sid: nat)
    | Begin(w: nat)
    | Answer(w: nat, reply: Request)
    | Complete(w: nat)
    | Drain

  const INITIAL: State := State(map[], 0, Fifo([], map[]), {}, [], {}, {})

  ghost predicate Live(s: State, sid: nat) {
    sid in s.conns && s.conns[sid].live
  }

  /** The read callback would complete a request. */
  ghost predicate Completes(h: Handlers, s: State, sid: nat) {
    && Live(s, sid) && WellFormed(s.conns[sid].position) && !s.conns[sid].position.Done?
    && Decoded(h, s.conns[sid]).position.Done?
  }

  ghost predicate Enabled(h: Handlers, s: State, e: Event) {
    match e
    case Connect(sid) => !Live(s, sid)
    case Receive(sid, _) => Live(s, sid)
    case ReadCallback(sid) => Live(s, sid) && WellFormed(s.conns[sid].position)
    case ReadRejected(sid) => Completes(h, s, sid)
    case ErrorCallback(sid) => Live(s, sid)
    case Begin(w) => s.pool.queue != [] && w !in s.pool.busy
    case Answer(w, reply) => w in s.pool.busy && w !in s.answered && Answers(h, s.pool.busy[w].request, reply)
    case Complete(w) => w in s.pool.busy && w in s.answered
    case Drain => s.responses != [] && Writable(s.responses[0].reply)
  }

  /** Where an accepted request can be: in the pool's queue, with a worker that has not answered
      yet, or in the response queue. */
  datatype Place = Queued(i: nat) | With(w: nat) | Ready(i: nat)

  ghost predicate Holds(s: State, p: Place, t: Token) {
    match p
    case Queued(i) => i < |s.pool.queue| && s.pool.queue[i] == t
    case With(w) => w in s.pool.busy && w !in s.answered && s.pool.busy[w] == t
    case Ready(i) => i < |s.responses| && s.responses[i].token == t
  }

  /** An event of a session at this address is in flight. */
  ghost predicate InFlight(s: State, sid: nat) {
    exists p, t :: Holds(s, p, t) && t.sid == sid
  }

  /** The session that the event came from is still there. */
  ghost predicate Own(s: State, t: Token) {
    Live(s, t.sid) && s.conns[t.sid].serial == t.serial
  }

  /** The token that the read callback of a session posts when it completes a request. */
  ghost function NextToken(h: Handlers, s: State, sid: nat): Token
    requires Completes(h, s, sid)
  {
    Token(sid, s.conns[sid].serial, Decoded(h, s.conns[sid]).position.request)
  }

  /** The read callback: decode; a complete request goes to the pool, which may reject it. */
  ghost function Read(h: Handlers, s: State, sid: nat, accepted: bool): State
    requires Live(s, sid) && WellFormed(s.conns[sid].position)
  {
    if s.conns[sid].position.Done? then s
    else
      var t := s.(conns := s.conns[sid := Decoded(h, s.conns[sid])]);
      if !Completes(h, s, sid) then t
      else if accepted then t.(pool := s.pool.(queue := s.pool.queue + [NextToken(h, s, sid)]))
      else t.(lost := s.lost + {sid})
  }

  /** Write the response at the head of the queue to whatever session is at its address. */
  ghost function Reply(s: State): State
    requires s.responses != [] && Writable(s.responses[0].reply)
  {
    var Response(token, reply) := s.responses[0];
    var t := s.(responses := s.responses[1..], astray := if Own(s, token) then s.astray else s.astray + {token.sid});
    if !Live(s, token.sid) then t
    else t.(conns := s.conns[token.sid := Replied(s.conns[token.sid], reply)], lost := s.lost - {token.sid})
  }

  ghost function Apply(h: Handlers, s: State, e: Event): State
    requires Enabled(h, s, e)
  {
    match e
    case Connect(sid) =>
      s.(conns := s.conns[sid := Connected(s.made, InFlight(s, sid))], made := s.made + 1, lost := s.lost - {sid})
    case Receive(sid, bytes) => s.(conns := s.conns[sid := Received(s.conns[sid], bytes)])
    case ReadCallback(sid) => Read(h, s, sid, true)
    case ReadRejected(sid) => Read(h, s, sid, false)
    case ErrorCallback(sid) => s.(conns := s.conns[sid := s.conns[sid].(live := false)])
    case Begin(w) => s.(pool := Fifo(s.pool.queue[1..], s.pool.busy[w := s.pool.queue[0]]))
    case Answer(w, reply) =>
      s.(answered := s.answered + {w}, responses := s.responses + [Response(s.pool.busy[w], reply)])
    case Complete(w) => s.(pool := s.pool.(busy := s.pool.busy - {w}), answered := s.answered - {w})
    case Drain => Reply(s)
  }

  /** What an event does to the pool. */
  ghost function Observed(h: Handlers, s: State, e: Event): FifoEvent<Token> {
    match e
    case ReadCallback(sid) =>
      if Completes(h, s, sid) then Accept(NextToken(h, s, sid)) else Stutter
    case Begin(w) => FifoEvent.Begin(w)
    case Complete(w) => FifoEvent.Complete(w)
    case _ => Stutter
  }

  /** Every event is one step of the FIFO service or does not touch the pool. */
  lemma UsesPoolAsFifo(h: Handlers, s: State, e: Event)
    requires Enabled(h, s, e)
    ensures FifoStep(s.pool, Observed(h, s, e), Apply(h, s, e).pool)
  {
  }

  /** What becomes of a whole frame that a session reads from its start, in bytes: with event id 1
      or 3 and a payload that the protocol buffer accepts it is posted under the session's address,
      and what follows it stays unread; with any other it closes the connection. */
  lemma FrameIsDispatched(h: Handlers, s: State, sid: nat, eid: nat, payload: seq<byte>, rest: seq<byte>)
    requires eid < 65536 && 1 <= |payload| <= 367280
    requires Live(s, sid) && s.conns[sid].position == START
    requires var n := |payload|;
      s.conns[sid].input == [70, 66, 69, 66, eid % 256, eid / 256,
                             n % 256, n / 256 % 256, n / 256 / 256 % 256, n / 256 / 256 / 256] + payload + rest
    ensures Enabled(h, s, ReadCallback(sid))
    ensures var r, t := Request(eid, payload), Apply(h, s, ReadCallback(sid));
      if (eid == 1 || eid == 3) && h.accepts(r)
      then Live(t, sid) && t.conns[sid].position == Done(r) && t.conns[sid].input == rest
           && t.conns[sid].requests == s.conns[sid].requests + [r]
           && t.pool.queue == s.pool.queue + [Token(sid, s.conns[sid].serial, r)]
      else !Live(t, sid) && t.pool == s.pool
  {
    var r := Request(eid, payload);
    FrameBytes(r);
    DecodeEncoded(r, rest, Parses(h));
  }

  /** What a handler gives to a request is queued behind the other responses, under id 2 for a
      request with id 1 and under id 4 for one with id 3. */
  lemma AnswerIsQueued(h: Handlers, s: State, w: nat, payload: seq<byte>)
    requires w in s.pool.busy && w !in s.answered
    requires s.pool.busy[w].request.eid == 1 || s.pool.busy[w].request.eid == 3
    requires h.answers(s.pool.busy[w].request, payload) && |payload| < 0x8000_0000
    ensures var reply := Request(if s.pool.busy[w].request.eid == 1 then 2 else 4, payload);
      && Enabled(h, s, Answer(w, reply))
      && Apply(h, s, Answer(w, reply)).responses == s.responses + [Response(s.pool.busy[w], reply)]
  {
  }

  /** The response at the head of the queue goes out, in bytes, to the session at its address, which
      then reads the next frame; the others move up. */
  lemma ResponseIsWritten(h: Handlers, s: State, eid: nat, payload: seq<byte>)
    requires s.responses != [] && s.responses[0].reply == Request(eid, payload)
    requires eid < 65536 && |payload| < 0x8000_0000
    ensures Enabled(h, s, Drain) && Apply(h, s, Drain).responses == s.responses[1..]
    ensures Live(s, s.responses[0].token.sid) ==>
      var sid, n, t := s.responses[0].token.sid, |payload|, Apply(h, s, Drain);
      && Live(t, sid) && t.conns[sid].position == START && t.conns[sid].input == s.conns[sid].input
      && t.conns[sid].output == s.conns[sid].output
           + ([70, 66, 69, 66, eid % 256, eid / 256,
               n % 256, n / 256 % 256, n / 256 / 256 % 256, n / 256 / 256 / 256] + payload)
  {
    FrameBytes(s.responses[0].reply);
  }

  ghost predicate Executes(h: Handlers, s: State, es: seq<Event>, t: State)
    decreases |es|
  {
    if es == [] then s == t
    else Enabled(h, s, es[0]) && Executes(h, Apply(h, s, es[0]), es[1..], t)
  }
}
