/** Every byte accounted for: what a connection was sent and sends is the history of its requests and
    replies, in any run of the service. */
module ServiceStream {
  import opened Frame
  import opened PoolProperties
  import opened Service
  import opened ServiceTokens

  predicate Encodable(rs: seq<Request>) {
    forall r :: r in rs ==> r.eid < 0x1_0000 && |r.payload| < 0x1_0000_0000
  }

  function Frames(rs: seq<Request>): seq<byte>
    requires Encodable(rs)
  {
    if rs == [] then [] else Frames(rs[..|rs| - 1]) + Encode(rs[|rs| - 1])
  }

  /** A live connection's history fits its bytes: what came in is the accepted frames, the unfinished
      frame and the unread rest; what went out is one reply per answered request, in order. */
  ghost predicate ConnInv(h: Handlers, c: Conn) {
    && WellFormed(c.position) && !c.position.Dead? && Encodable(c.requests) && Encodable(c.replies)
    && (forall r :: r in c.requests ==> Sendable(r) && Parses(h)(r))
    && c.received == Frames(c.requests) + Partial(c.position) + c.input
    && c.output == Frames(c.replies)
    && |c.requests| == |c.replies| + (if c.position.Done? then 1 else 0)
    && (forall i :: 0 <= i < |c.replies| ==> Answers(h, c.requests[i], c.replies[i]))
    && (c.position.Done? ==> c.requests[|c.replies|] == c.position.request)
  }

  ghost predicate StreamInv(h: Handlers, s: State) {
    forall sid :: Clean(s, sid) ==> ConnInv(h, s.conns[sid])
  }

  lemma FramesExtended(rs: seq<Request>, r: Request)
    requires Encodable(rs) && Sendable(r)
    ensures Encodable(rs + [r]) && Frames(rs + [r]) == Frames(rs) + Encode(r)
  {
    assert (rs + [r])[..|rs|] == rs;
  }

  /** Bytes move from unread to read without loss. */
  lemma BytesKept(before: seq<byte>, a: seq<byte>, b: seq<byte>, c: seq<byte>, d: seq<byte>)
    requires a + b == c + d
    ensures before + a + b == before + c + d
  {
    assert before + a + b == before + (a + b);
    assert before + c + d == before + (c + d);
  }

  lemma ConnDispatch(h: Handlers, c: Conn, r: Request, rest: seq<byte>)
    requires ConnInv(h, c) && !c.position.Done?
    requires Feed(c.position, c.input, Parses(h)) == (Done(r), rest)
    ensures ConnInv(h, c.(position := Done(r), input := rest, requests := c.requests + [r]))
  {
    hide Feed, Frames, Encode, Parses, Answers, Encodable, Sendable;
    FeedConsumes(c.position, c.input, Parses(h));
    FramesExtended(c.requests, r);
    BytesKept(Frames(c.requests), Partial(c.position), c.input, Encode(r), rest);
    assert Frames(c.requests + [r]) + [] + rest == Frames(c.requests) + Encode(r) + rest;
  }

  lemma ConnRead(h: Handlers, c: Conn)
    requires ConnInv(h, c) && c.live && !c.position.Done?
    ensures Decoded(h, c).live ==> ConnInv(h, Decoded(h, c))
  {
    var (position, rest) := Feed(c.position, c.input, Parses(h));
    if position.Done? {
      ConnDispatch(h, c, position.request, rest);
      assert Decoded(h, c) == c.(position := position, input := rest, requests := c.requests + [position.request]);
    } else if !position.Dead? {
      FeedConsumes(c.position, c.input, Parses(h));
      BytesKept(Frames(c.requests), Partial(c.position), c.input, Partial(position), rest);
    }
  }

  lemma ConnReceive(h: Handlers, c: Conn, bytes: seq<byte>)
    requires ConnInv(h, c)
    ensures ConnInv(h, Received(c, bytes))
  {
    hide Frames, Partial, Encodable, Answers, Parses;
    assert Frames(c.requests) + Partial(c.position) + c.input + bytes
        == Frames(c.requests) + Partial(c.position) + (c.input + bytes);
  }

  lemma ConnReply(h: Handlers, c: Conn, reply: Request)
    requires ConnInv(h, c) && c.position.Done? && Answers(h, c.position.request, reply)
    ensures ConnInv(h, Replied(c, reply))
  {
    var n := Replied(c, reply);
    assert n.replies[..|n.replies| - 1] == c.replies;
    assert Partial(c.position) == Partial(n.position) == [];
  }

  lemma ConnNew(h: Handlers, serial: nat)
    ensures ConnInv(h, Connected(serial, false))
  {
  }

  /** Which connection an event may change. */
  ghost predicate Concerns(s: State, e: Event, sid: nat) {
    match e
    case Connect(n) => n == sid
    case Receive(n, _) => n == sid
    case ReadCallback(n) => n == sid
    case ReadRejected(n) => n == sid
    case ErrorCallback(n) => n == sid
    case Drain => s.responses != [] && s.responses[0].token.sid == sid
    case _ => false
  }

  lemma OthersKept(h: Handlers, s: State, e: Event, sid: nat)
    requires Enabled(h, s, e) && !Concerns(s, e, sid)
    ensures sid in Apply(h, s, e).conns <==> sid in s.conns
    ensures sid in s.conns ==> Apply(h, s, e).conns[sid] == s.conns[sid]
  {
    hide Decoded;
  }

  lemma ConnStep(h: Handlers, s: State, e: Event, sid: nat)
    requires TokenInv(h, s) && StreamInv(h, s) && Enabled(h, s, e) && Concerns(s, e, sid)
    ensures Clean(Apply(h, s, e), sid) ==> ConnInv(h, Apply(h, s, e).conns[sid])
  {
    hide ConnInv, Decoded, Numbered, ResponsesFit;
    assert Clean(s, sid) ==> ConnInv(h, s.conns[sid]);
    match e {
      case Connect(_) => ConnNew(h, s.made);
      case Receive(_, bytes) =>
        if Clean(s, sid) {
          ConnReceive(h, s.conns[sid], bytes);
        }
      case ReadCallback(_) => ConnReadStep(h, s, sid, true);
      case ReadRejected(_) => ConnReadStep(h, s, sid, false);
      case ErrorCallback(_) =>
      case Drain => ConnReplyStep(h, s, sid);
    }
  }

  lemma ConnReadStep(h: Handlers, s: State, sid: nat, accepted: bool)
    requires Live(s, sid) && WellFormed(s.conns[sid].position) && (Clean(s, sid) ==> ConnInv(h, s.conns[sid]))
    ensures Clean(Read(h, s, sid, accepted), sid) ==> ConnInv(h, Read(h, s, sid, accepted).conns[sid])
  {
    assert Decoded(h, s.conns[sid]).over == s.conns[sid].over;
    hide Decoded, ConnInv;
    if Clean(s, sid) && !s.conns[sid].position.Done? {
      ConnRead(h, s.conns[sid]);
    }
  }

  lemma ConnReplyStep(h: Handlers, s: State, sid: nat)
    requires TokenInv(h, s) && StreamInv(h, s) && Enabled(h, s, Drain) && s.responses[0].token.sid == sid
    ensures Clean(Reply(s), sid) ==> ConnInv(h, Reply(s).conns[sid])
  {
    assert s.responses[0] in s.responses;
    if Clean(s, sid) {
      OneTokenReply(h, s);
      ConnReply(h, s.conns[sid], s.responses[0].reply);
    }
  }

  lemma StreamStep(h: Handlers, s: State, e: Event)
    requires TokenInv(h, s) && StreamInv(h, s) && Enabled(h, s, e)
    ensures StreamInv(h, Apply(h, s, e))
  {
    hide TokenInv, ConnInv, Enabled, Apply;
    forall sid | Clean(Apply(h, s, e), sid) ensures ConnInv(h, Apply(h, s, e).conns[sid]) {
      if Concerns(s, e, sid) {
        ConnStep(h, s, e, sid);
      } else {
        OthersKept(h, s, e, sid);
        assert Clean(s, sid);
      }
    }
  }

  // ---------------------------------------------------------------------------------------
  // Whole runs
  // ---------------------------------------------------------------------------------------

  lemma {:induction false} InvRun(h: Handlers, s: State, es: seq<Event>, t: State)
    requires TokenInv(h, s) && StreamInv(h, s) && Executes(h, s, es, t)
    ensures TokenInv(h, t) && StreamInv(h, t)
    decreases |es|
  {
    if es == [] {
    } else {
      TokenStep(h, s, es[0]);
      StreamStep(h, s, es[0]);
      InvRun(h, Apply(h, s, es[0]), es[1..], t);
    }
  }

  lemma ReachableInv(h: Handlers, es: seq<Event>, t: State)
    requires Executes(h, INITIAL, es, t)
    ensures TokenInv(h, t) && StreamInv(h, t)
  {
    InvRun(h, INITIAL, es, t);
  }

  /** After any run, whatever happened to other clients: a clean live session that awaits a response
      to an accepted request has exactly one token, which is its own, and any other clean live session
      has none. Clean means that nothing was in flight at its address when it connected. */
  lemma ExactlyOneToken(h: Handlers, es: seq<Event>, t: State, sid: nat)
    requires Executes(h, INITIAL, es, t) && Clean(t, sid)
    ensures t.conns[sid].position.Done? && sid !in t.lost <==> InFlight(t, sid)
    ensures forall p, u :: Holds(t, p, u) && u.sid == sid ==> Awaits(t, u)
    ensures forall p, q, u, v :: Holds(t, p, u) && Holds(t, q, v) && u.sid == v.sid == sid ==> p == q && u == v
  {
    ReachableInv(h, es, t);
    if t.conns[sid].position.Done? && sid !in t.lost {
      assert Awaits(t, Token(sid, t.conns[sid].serial, t.conns[sid].position.request));
    }
  }

  /** End to end, for every run and every clean live connection, whatever happened to others: it has
      received exactly the frames of its complete requests plus an unfinished rest, and has been sent
      exactly one frame, answering request i, for each request i but the one it may still be waiting
      on, in the order of the requests. Requests have event id 1 or 3 and a payload that was accepted;
      they are answered by what the handler gave them, under id 2 and 4 respectively. */
  lemma EndToEnd(h: Handlers, es: seq<Event>, t: State, sid: nat)
    requires Executes(h, INITIAL, es, t) && Clean(t, sid)
    ensures var c := t.conns[sid];
      && WellFormed(c.position) && Encodable(c.requests) && Encodable(c.replies)
      && c.received == Frames(c.requests) + Partial(c.position) + c.input
      && c.output == Frames(c.replies)
      && |c.requests| == |c.replies| + (if c.position.Done? then 1 else 0)
      && (forall r :: r in c.requests ==> Sendable(r) && (r.eid == 1 || r.eid == 3) && h.accepts(r))
      && forall i :: 0 <= i < |c.replies| ==>
           && (c.requests[i].eid == 1 ==> c.replies[i].eid == 2)
           && (c.requests[i].eid == 3 ==> c.replies[i].eid == 4)
           && h.answers(c.requests[i], c.replies[i].payload)
  {
    ReachableInv(h, es, t);
    hide TokenInv, Executes;
    assert ConnInv(h, t.conns[sid]);
    hide Feed, Frames, Encode;
  }

  // ---------------------------------------------------------------------------------------
  // The response queue
  // ---------------------------------------------------------------------------------------

  /** The requests that handlers answer in a run, in that order. */
  ghost function AnsweredIn(h: Handlers, s: State, es: seq<Event>): seq<Token>
    decreases |es|
  {
    if es == [] || !Enabled(h, s, es[0]) then []
    else (if es[0].Answer? then [s.pool.busy[es[0].w]] else []) + AnsweredIn(h, Apply(h, s, es[0]), es[1..])
  }

  /** The requests whose responses the event loop takes from the queue in a run. */
  ghost function DrainedIn(h: Handlers, s: State, es: seq<Event>): seq<Token>
    decreases |es|
  {
    if es == [] || !Enabled(h, s, es[0]) then []
    else (if es[0].Drain? then [s.responses[0].token] else []) + DrainedIn(h, Apply(h, s, es[0]), es[1..])
  }

  ghost function Tokens(rs: seq<Response>): seq<Token> {
    seq(|rs|, i requires 0 <= i < |rs| => rs[i].token)
  }

  lemma TokensStep(h: Handlers, s: State, e: Event)
    requires Enabled(h, s, e)
    ensures Tokens(s.responses) + (if e.Answer? then [s.pool.busy[e.w]] else [])
         == (if e.Drain? then [s.responses[0].token] else []) + Tokens(Apply(h, s, e).responses)
  {
    hide Decoded;
  }

  lemma Requeued(first: seq<Token>, given: seq<Token>, sent: seq<Token>, mid: seq<Token>,
                 more: seq<Token>, gone: seq<Token>, last: seq<Token>)
    requires first + given == sent + mid && mid + more == gone + last
    ensures first + (given + more) == (sent + gone) + last
  {
    assert first + (given + more) == (first + given) + more;
    assert (sent + mid) + more == sent + (mid + more);
    assert sent + (gone + last) == (sent + gone) + last;
  }

  /** Responses are sent in the order in which the handlers gave them, and none is dropped: over any
      run, those waiting at first and those given are those sent and those still waiting. */
  lemma {:induction false} ResponsesInOrder(h: Handlers, s: State, es: seq<Event>, t: State)
    requires Executes(h, s, es, t)
    ensures Tokens(s.responses) + AnsweredIn(h, s, es) == DrainedIn(h, s, es) + Tokens(t.responses)
    decreases |es|
  {
    if es == [] {
    } else {
      var n := Apply(h, s, es[0]);
      hide Enabled, Apply, Tokens;
      TokensStep(h, s, es[0]);
      ResponsesInOrder(h, n, es[1..], t);
      var given := if es[0].Answer? then [s.pool.busy[es[0].w]] else [];
      var sent := if es[0].Drain? then [s.responses[0].token] else [];
      Requeued(Tokens(s.responses), given, sent, Tokens(n.responses), AnsweredIn(h, n, es[1..]),
               DrainedIn(h, n, es[1..]), Tokens(t.responses));
    }
  }
}
