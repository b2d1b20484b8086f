/** One connection, seen from the heap and from the service: what a session object goes through is
    what the service's runs do to the connection. */
module SessionRuns {
  import opened Frame
  import opened Service
  import opened ServiceStream
  import opened ServiceTokens
  import opened ServiceRuns
  import opened Session

  /** What can happen to a connection while it lives. */
  datatype Turn = Arrive(bytes: seq<byte>) | Callback | Respond(reply: Request)

  function Turned(h: Handlers, c: Conn, turn: Turn): (d: Conn)
    requires WellFormed(c.position)
    ensures WellFormed(d.position)
  {
    if !c.live then c
    else match turn
      case Arrive(bytes) => Received(c, bytes)
      case Callback => if c.position.Done? then c else Decoded(h, c)
      case Respond(reply) => if Writable(reply) then Replied(c, reply) else c
  }

  function Turns(h: Handlers, c: Conn, turns: seq<Turn>): (d: Conn)
    requires WellFormed(c.position)
    ensures WellFormed(d.position)
  {
    if turns == [] then c else Turned(h, Turns(h, c, turns[..|turns| - 1]), turns[|turns| - 1])
  }

  /** The object stands where the connection stands, and its buffers hold the same bytes. */
  ghost predicate Mirrors(cs: ConnectSession, c: Conn)
    reads cs, cs.header, cs.readBuf, cs.bev
  {
    && cs.Valid() && cs.live == c.live && cs.bev.input == c.input && cs.bev.output == c.output
    && (c.live ==> cs.Position() == c.position)
  }

  /** One turn on the object is that turn of the connection. */
  method Take(cs: ConnectSession, h: Handlers, turn: Turn, ghost c: Conn)
    requires WellFormed(c.position) && Mirrors(cs, c)
    modifies cs, cs.header, cs.readBuf, cs.bev
    ensures Mirrors(cs, Turned(h, c, turn))
    ensures cs.readBuf == old(cs.readBuf) || cs.readBuf == null || fresh(cs.readBuf)
  {
    if !cs.live {
      return;
    }
    match turn {
      case Arrive(bytes) =>
        cs.bev.input := cs.bev.input + bytes;
      case Callback =>
        var outcome := cs.HandleRequest(Parses(h));
      case Respond(reply) =>
        if Writable(reply) {
          cs.Respond(reply.eid, reply.payload);
          assert reply == Request(reply.eid, reply.payload);
        }
    }
  }

  /** And so is any sequence of turns. */
  method Converse(cs: ConnectSession, h: Handlers, turns: seq<Turn>, ghost c: Conn)
    requires WellFormed(c.position) && Mirrors(cs, c)
    modifies cs, cs.header, cs.readBuf, cs.bev
    ensures Mirrors(cs, Turns(h, c, turns))
  {
    for i := 0 to |turns|
      invariant Mirrors(cs, Turns(h, c, turns[..i]))
      invariant cs.readBuf == old(cs.readBuf) || cs.readBuf == null || fresh(cs.readBuf)
    {
      assert turns[..i + 1][..i] == turns[..i];
      Take(cs, h, turns[i], Turns(h, c, turns[..i]));
    }
    assert turns[..|turns|] == turns;
  }

  // ---------------------------------------------------------------------------------------
  // The service's runs
  // ---------------------------------------------------------------------------------------

  /** The turn that an event of the service is for a connection, if any. */
  ghost function TurnOf(s: State, e: Event, sid: nat): seq<Turn> {
    match e
    case Receive(n, bytes) => if n == sid then [Arrive(bytes)] else []
    case ReadCallback(n) => if n == sid then [Callback] else []
    case ReadRejected(n) => if n == sid then [Callback] else []
    case Drain => if s.responses != [] && s.responses[0].token.sid == sid then [Respond(s.responses[0].reply)] else []
    case _ => []
  }

  ghost function TurnsOf(h: Handlers, s: State, es: seq<Event>, t: State, sid: nat): seq<Turn>
    requires Executes(h, s, es, t)
    decreases |es|
  {
    if es == [] then [] else TurnOf(s, es[0], sid) + TurnsOf(h, Apply(h, s, es[0]), es[1..], t, sid)
  }

  lemma TurnStep(h: Handlers, s: State, e: Event, sid: nat)
    requires Enabled(h, s, e) && Live(s, sid) && WellFormed(s.conns[sid].position) && e != ErrorCallback(sid)
    ensures sid in Apply(h, s, e).conns
    ensures Apply(h, s, e).conns[sid] == Turns(h, s.conns[sid], TurnOf(s, e, sid))
  {
    hide Decoded;
    assert forall turn: Turn :: [turn][..0] == [];
    if !Concerns(s, e, sid) {
      OthersKept(h, s, e, sid);
    }
  }

  lemma {:induction false} TurnsConcatenate(h: Handlers, c: Conn, a: seq<Turn>, b: seq<Turn>)
    requires WellFormed(c.position)
    ensures Turns(h, c, a + b) == Turns(h, Turns(h, c, a), b)
    decreases |b|
  {
    if b == [] {
      assert a + b == a;
    } else {
      assert (a + b)[..|a + b| - 1] == a + b[..|b| - 1];
      TurnsConcatenate(h, c, a, b[..|b| - 1]);
    }
  }

  lemma {:induction false} OwnAll(h: Handlers, s: State, es: seq<Event>, t: State, x: Token)
    requires TokenInv(h, s) && Executes(h, s, es, t) && x.serial < s.made && Own(t, x)
    ensures Own(s, x)
    decreases |es|
  {
    if es == [] {
    } else {
      TokenStep(h, s, es[0]);
      hide TokenInv, Enabled, Apply, Own;
      OwnAll(h, Apply(h, s, es[0]), es[1..], t, x);
    }
  }

  /** In any run of the service, what a connection that lives through it goes through is a sequence
      of turns; so a session object that takes the same turns ends where the service has it. */
  lemma {:induction false} ServiceTurns(h: Handlers, s: State, es: seq<Event>, t: State, sid: nat)
    requires TokenInv(h, s) && Executes(h, s, es, t) && Live(s, sid) && WellFormed(s.conns[sid].position)
    requires Live(t, sid) && t.conns[sid].serial == s.conns[sid].serial
    ensures t.conns[sid] == Turns(h, s.conns[sid], TurnsOf(h, s, es, t, sid))
    decreases |es|
  {
    if es == [] {
    } else {
      var n, x := Apply(h, s, es[0]), Token(sid, s.conns[sid].serial, Request(0, []));
      TokenStep(h, s, es[0]);
      OwnAll(h, n, es[1..], t, x);
      TurnStep(h, s, es[0], sid);
      hide TokenInv, Enabled, Apply, TurnOf;
      ServiceTurns(h, n, es[1..], t, sid);
      TurnsConcatenate(h, s.conns[sid], TurnOf(s, es[0], sid), TurnsOf(h, n, es[1..], t, sid));
    }
  }
}
