/** Where runs of the service lead: every accepted request is answered, a response goes astray
    exactly if a client was cut off while it waited, and a rejected post is never made good. */
module ServiceRuns {
  import opened Frame
  import opened PoolProperties
  import opened Service
  import opened ServiceStream
  import opened ServiceTokens

  // ---------------------------------------------------------------------------------------
  // Progress
  // ---------------------------------------------------------------------------------------

  /** Steps of the workers and the drain loop, which need nothing from a client. */
  predicate Internal(e: Event) {
    e.Begin? || e.Answer? || e.Complete? || e.Drain?
  }

  predicate AllInternal(es: seq<Event>) {
    forall i :: 0 <= i < |es| ==> Internal(es[i])
  }

  /** The handlers have an answer to every request that parses. */
  ghost predicate CanAnswer(h: Handlers) {
    forall r :: Parses(h)(r) ==> exists reply :: Answers(h, r, reply)
  }

  /** The internal steps ahead: four per queued request, and what is left of the others. */
  ghost function Work(s: State): nat {
    4 * |s.pool.queue| + Handling(s.pool.busy.Keys, s.answered) + |s.responses|
  }

  /** The terms of the measure that sets make. */
  ghost function Handling(busy: set<nat>, answered: set<nat>): nat {
    2 * |busy - answered| + |busy|
  }

  lemma HandlingBegins(busy: set<nat>, answered: set<nat>, w: nat)
    requires w !in busy && answered <= busy
    ensures Handling(busy + {w}, answered) == Handling(busy, answered) + 3
  {
    assert busy + {w} - answered == (busy - answered) + {w};
  }

  lemma HandlingAnswers(busy: set<nat>, answered: set<nat>, w: nat)
    requires w in busy && w !in answered
    ensures Handling(busy, answered + {w}) == Handling(busy, answered) - 2
  {
    assert busy - (answered + {w}) == (busy - answered) - {w};
  }

  lemma HandlingCompletes(busy: set<nat>, answered: set<nat>, w: nat)
    requires w in busy && w in answered
    ensures Handling(busy - {w}, answered - {w}) == Handling(busy, answered) - 1
  {
    assert (busy - {w}) - (answered - {w}) == busy - answered;
  }

  lemma PoolBegins(f: Fifo<Token>, answered: set<nat>, w: nat)
    requires f.queue != [] && w !in f.busy && answered <= f.busy.Keys
    ensures Handling(f.busy[w := f.queue[0]].Keys, answered) == Handling(f.busy.Keys, answered) + 3
  {
    HandlingBegins(f.busy.Keys, answered, w);
    hide Handling;
    assert f.busy[w := f.queue[0]].Keys == f.busy.Keys + {w};
  }

  lemma WorkBegins(h: Handlers, s: State, w: nat)
    requires s.answered <= s.pool.busy.Keys && Enabled(h, s, Event.Begin(w))
    ensures Work(Apply(h, s, Event.Begin(w))) == Work(s) - 1
  {
    hide Handling;
    PoolBegins(s.pool, s.answered, w);
  }

  lemma WorkAnswers(h: Handlers, s: State, w: nat, reply: Request)
    requires Enabled(h, s, Answer(w, reply))
    ensures Work(Apply(h, s, Answer(w, reply))) == Work(s) - 1
  {
    HandlingAnswers(s.pool.busy.Keys, s.answered, w);
    hide Handling;
  }

  lemma WorkCompletes(h: Handlers, s: State, w: nat)
    requires Enabled(h, s, Event.Complete(w))
    ensures Work(Apply(h, s, Event.Complete(w))) == Work(s) - 1
  {
    HandlingCompletes(s.pool.busy.Keys, s.answered, w);
    hide Handling;
    assert (s.pool.busy - {w}).Keys == s.pool.busy.Keys - {w};
  }

  lemma WorkDrains(h: Handlers, s: State)
    requires Enabled(h, s, Drain)
    ensures Work(Apply(h, s, Drain)) == Work(s) - 1
  {
    hide Handling;
  }

  /** Each internal step is one off the work ahead. */
  lemma WorkStep(h: Handlers, s: State, e: Event)
    requires TokenInv(h, s) && Enabled(h, s, e) && Internal(e)
    ensures Work(Apply(h, s, e)) == Work(s) - 1
  {
    hide OneToken, ResponsesFit, LostWait, Numbered, Enabled, Apply, Work;
    match e {
      case Begin(w) => WorkBegins(h, s, w);
      case Answer(w, reply) => WorkAnswers(h, s, w, reply);
      case Complete(w) => WorkCompletes(h, s, w);
      case Drain => WorkDrains(h, s);
    }
  }

  /** As long as there is work, a worker or the drain loop can go on. */
  lemma NextInternal(h: Handlers, s: State) returns (e: Event)
    requires TokenInv(h, s) && CanAnswer(h) && Work(s) > 0
    ensures Internal(e) && Enabled(h, s, e)
  {
    if s.responses != [] {
      assert s.responses[0] in s.responses;
      e := Drain;
    } else if w: nat :| w in s.pool.busy {
      if w in s.answered {
        e := Event.Complete(w);
      } else {
        assert Holds(s, With(w), s.pool.busy[w]);
        var reply :| Answers(h, s.pool.busy[w].request, reply);
        e := Answer(w, reply);
      }
    } else {
      assert s.pool.busy.Keys == {};
      e := Event.Begin(0);
    }
  }

  /** No token is left, so no session waits but those whose request was rejected. */
  ghost predicate Settled(s: State) {
    && (forall p, t :: !Holds(s, p, t))
    && (forall sid :: Live(s, sid) && s.conns[sid].position.Done? ==> sid in s.lost)
  }

  lemma NoWorkSettled(h: Handlers, s: State)
    requires TokenInv(h, s) && Work(s) == 0
    ensures Settled(s)
  {
    var busy := s.pool.busy.Keys;
    assert |busy| == 0 ==> busy == {};
    forall p, t ensures !Holds(s, p, t) {
    }
    forall t ensures !Awaits(s, t) {
    }
    forall sid | Live(s, sid) && s.conns[sid].position.Done? ensures sid in s.lost {
      var t := Token(sid, s.conns[sid].serial, s.conns[sid].position.request);
      assert !Awaits(s, t);
    }
  }

  lemma FirstStep(h: Handlers, s: State, e: Event, rest: seq<Event>, t: State)
    requires Enabled(h, s, e) && Executes(h, Apply(h, s, e), rest, t)
    ensures Executes(h, s, [e] + rest, t)
  {
    hide Enabled, Apply;
    assert ([e] + rest)[1..] == rest;
  }

  /** The internal steps can be taken until nothing is left. */
  lemma RunDry(h: Handlers, s: State) returns (es: seq<Event>, t: State)
    requires TokenInv(h, s) && CanAnswer(h)
    ensures Executes(h, s, es, t) && AllInternal(es) && |es| == Work(s) && Work(t) == 0
    decreases Work(s)
  {
    if Work(s) == 0 {
      es, t := [], s;
    } else {
      hide Enabled, Apply, Work;
      var e := NextInternal(h, s);
      WorkStep(h, s, e);
      TokenStep(h, s, e);
      var rest;
      rest, t := RunDry(h, Apply(h, s, e));
      FirstStep(h, s, e, rest, t);
      es := [e] + rest;
    }
  }

  lemma {:induction false} WorkRun(h: Handlers, s: State, es: seq<Event>, t: State)
    requires TokenInv(h, s) && Executes(h, s, es, t) && AllInternal(es)
    ensures |es| + Work(t) == Work(s)
    decreases |es|
  {
    if es == [] {
    } else {
      hide TokenInv, Work, Enabled, Apply;
      WorkStep(h, s, es[0]);
      TokenStep(h, s, es[0]);
      WorkRun(h, Apply(h, s, es[0]), es[1..], t);
    }
  }

  lemma TokenInvRun(h: Handlers, s: State, es: seq<Event>, t: State)
    requires TokenInv(h, s) && Executes(h, s, es, t)
    ensures TokenInv(h, t)
    decreases |es|
  {
    if es == [] {
    } else {
      hide TokenInv, Enabled, Apply;
      TokenStep(h, s, es[0]);
      TokenInvRun(h, Apply(h, s, es[0]), es[1..], t);
    }
  }

  /** Every accepted request is answered. From every reachable state the workers and the drain loop
      by themselves reach a state in which no session waits but those whose request was rejected;
      they need exactly `Work` steps, they can go on as long as they have taken fewer, and it does
      not matter in which order they take them. */
  lemma AllAnswered(h: Handlers, es: seq<Event>, s: State)
    requires Executes(h, INITIAL, es, s) && CanAnswer(h)
    ensures exists more, t :: Executes(h, s, more, t) && AllInternal(more) && |more| == Work(s) && Settled(t)
    ensures forall more, t :: Executes(h, s, more, t) && AllInternal(more) ==>
      && |more| <= Work(s)
      && (|more| == Work(s) ==> Settled(t))
      && (|more| < Work(s) ==> exists e :: Internal(e) && Enabled(h, t, e))
  {
    TokenInvRun(h, INITIAL, es, s);
    var rest, u := RunDry(h, s);
    TokenInvRun(h, s, rest, u);
    NoWorkSettled(h, u);
    forall more, t | Executes(h, s, more, t) && AllInternal(more)
      ensures |more| <= Work(s) && (|more| == Work(s) ==> Settled(t))
      ensures |more| < Work(s) ==> exists e :: Internal(e) && Enabled(h, t, e)
    {
      WorkRun(h, s, more, t);
      TokenInvRun(h, s, more, t);
      if Work(t) == 0 {
        NoWorkSettled(h, t);
      } else {
        var e := NextInternal(h, t);
      }
    }
  }

  // ---------------------------------------------------------------------------------------
  // Clients cut off while they wait
  // ---------------------------------------------------------------------------------------

  /** An event in flight whose session is gone: the response will go astray. */
  ghost predicate Orphan(s: State, p: Place, t: Token) {
    Holds(s, p, t) && !Own(s, t)
  }

  /** A response to a session that had this address has gone astray, or will. */
  ghost predicate Doomed(s: State, sid: nat) {
    sid in s.astray || exists p, t :: Orphan(s, p, t) && t.sid == sid
  }

  /** The error callback frees a session while its request is being answered. */
  ghost predicate CutsOff(s: State, e: Event, sid: nat) {
    e == ErrorCallback(sid) && Live(s, sid) && s.conns[sid].position.Done? && sid !in s.lost
  }

  ghost predicate CutOffAt(h: Handlers, s: State, es: seq<Event>, t: State, sid: nat)
    requires Executes(h, s, es, t)
    decreases |es|
  {
    es != [] && (CutsOff(s, es[0], sid) || CutOffAt(h, Apply(h, s, es[0]), es[1..], t, sid))
  }

  /** A session that took over an address with an event in flight is at a doomed address. */
  ghost predicate OverDoomed(s: State) {
    forall sid :: Live(s, sid) && s.conns[sid].over ==> Doomed(s, sid)
  }

  /** A live session at an address that is not doomed is clean. */
  lemma NotDoomedClean(h: Handlers, s: State, p: Place, t: Token)
    requires TokenInv(h, s) && OverDoomed(s) && !Doomed(s, t.sid) && Holds(s, p, t)
    ensures Awaits(s, t)
  {
    assert !Orphan(s, p, t);
    assert Clean(s, t.sid);
  }

  lemma OrphanStays(h: Handlers, s: State, e: Event, p: Place, t: Token)
    requires TokenInv(h, s) && Enabled(h, s, e) && Orphan(s, p, t)
    ensures Doomed(Apply(h, s, e), t.sid)
  {
    var n := Apply(h, s, e);
    if e.Drain? && p == Ready(0) {
      assert t == s.responses[0].token && t.sid in n.astray;
    } else {
      HoldsStays(h, s, e, p, t);
      assert Orphan(n, Target(s, e, p), t);
    }
  }

  /** An event in flight stays so until its response is drained. */
  lemma HoldsStays(h: Handlers, s: State, e: Event, p: Place, t: Token)
    requires TokenInv(h, s) && Enabled(h, s, e) && Holds(s, p, t) && !(e.Drain? && p == Ready(0))
    ensures Holds(Apply(h, s, e), Target(s, e, p), t)
  {
    hide Decoded;
    if MovesOnly(e) {
      TokenMoves(h, s, e, p, t);
    }
  }

  /** A doomed address stays doomed. */
  lemma DoomedStays(h: Handlers, s: State, e: Event, sid: nat)
    requires TokenInv(h, s) && Enabled(h, s, e) && Doomed(s, sid)
    ensures Doomed(Apply(h, s, e), sid)
  {
    if sid !in s.astray {
      var p, t :| Orphan(s, p, t) && t.sid == sid;
      OrphanStays(h, s, e, p, t);
    }
  }

  lemma CutsOffDooms(h: Handlers, s: State, e: Event, sid: nat)
    requires TokenInv(h, s) && Enabled(h, s, e) && CutsOff(s, e, sid)
    ensures Doomed(Apply(h, s, e), sid)
  {
    var t := Token(sid, s.conns[sid].serial, s.conns[sid].position.request);
    assert Awaits(s, t);
    var p :| Holds(s, p, t);
    assert Orphan(Apply(h, s, e), p, t);
  }

  lemma OverStep(h: Handlers, s: State, e: Event)
    requires TokenInv(h, s) && OverDoomed(s) && Enabled(h, s, e)
    ensures OverDoomed(Apply(h, s, e))
  {
    var n := Apply(h, s, e);
    forall sid | Live(n, sid) && n.conns[sid].over ensures Doomed(n, sid) {
      if e == Connect(sid) {
        var p, t :| Holds(s, p, t) && t.sid == sid;
        assert Orphan(s, p, t);
      }
      DoomedStays(h, s, e, sid);
    }
  }

  /** An event in flight was so before, unless it has just been posted by its session. */
  lemma HoldsBefore(h: Handlers, s: State, e: Event, p: Place, t: Token)
    requires TokenInv(h, s) && Enabled(h, s, e) && Holds(Apply(h, s, e), p, t)
    ensures Holds(s, Source(s, e, p), t) || (e == ReadCallback(t.sid) && Own(Apply(h, s, e), t))
  {
    if MovesOnly(e) {
      TokenMoves(h, s, e, p, t);
    } else if e.ReadCallback? {
      assert Completes(h, s, e.sid) ==>
        Decoded(h, s.conns[e.sid]).live && Decoded(h, s.conns[e.sid]).serial == s.conns[e.sid].serial;
      hide Decoded;
    } else {
      hide Decoded;
    }
  }

  /** Only cutting off a waiting client dooms an address. */
  lemma OnlyCutsOff(h: Handlers, s: State, e: Event, sid: nat)
    requires TokenInv(h, s) && OverDoomed(s) && Enabled(h, s, e) && !Doomed(s, sid) && !CutsOff(s, e, sid)
    ensures !Doomed(Apply(h, s, e), sid)
  {
    var n := Apply(h, s, e);
    forall p, t | Holds(n, p, t) && t.sid == sid ensures Own(n, t) {
      HoldsBefore(h, s, e, p, t);
      if Holds(s, Source(s, e, p), t) {
        NotDoomedClean(h, s, Source(s, e, p), t);
      }
    }
    if sid in n.astray {
      NewlyAstray(h, s, e, sid);
    }
  }

  lemma NewlyAstray(h: Handlers, s: State, e: Event, sid: nat)
    requires Enabled(h, s, e) && sid in Apply(h, s, e).astray
    ensures Doomed(s, sid)
  {
    hide Decoded;
    if sid !in s.astray {
      assert Orphan(s, Ready(0), s.responses[0].token);
    }
  }

  /** An address is doomed exactly by cutting off a waiting client there. */
  lemma DoomedStep(h: Handlers, s: State, e: Event, sid: nat)
    requires TokenInv(h, s) && OverDoomed(s) && Enabled(h, s, e)
    ensures Doomed(Apply(h, s, e), sid) <==> Doomed(s, sid) || CutsOff(s, e, sid)
  {
    hide *;
    if Doomed(s, sid) {
      DoomedStays(h, s, e, sid);
    } else if CutsOff(s, e, sid) {
      CutsOffDooms(h, s, e, sid);
    } else {
      OnlyCutsOff(h, s, e, sid);
    }
  }

  lemma {:induction false} DoomedRun(h: Handlers, s: State, es: seq<Event>, t: State, sid: nat)
    requires TokenInv(h, s) && OverDoomed(s) && Executes(h, s, es, t)
    ensures Doomed(t, sid) <==> Doomed(s, sid) || CutOffAt(h, s, es, t, sid)
    ensures TokenInv(h, t) && OverDoomed(t)
    decreases |es|
  {
    if es == [] {
    } else {
      hide TokenInv, OverDoomed, Doomed, CutsOff, Enabled, Apply;
      DoomedStep(h, s, es[0], sid);
      TokenStep(h, s, es[0]);
      OverStep(h, s, es[0]);
      DoomedRun(h, Apply(h, s, es[0]), es[1..], t, sid);
    }
  }

  lemma {:induction false} InternalCutsNobody(h: Handlers, s: State, es: seq<Event>, t: State, sid: nat)
    requires Executes(h, s, es, t) && AllInternal(es)
    ensures !CutOffAt(h, s, es, t, sid)
    decreases |es|
  {
    if es == [] {
    } else {
      hide Enabled, Apply;
      assert Internal(es[0]);
      InternalCutsNobody(h, Apply(h, s, es[0]), es[1..], t, sid);
    }
  }

  lemma CutOffAstray(h: Handlers, s: State, more: seq<Event>, t: State, sid: nat, cutOff: bool)
    requires TokenInv(h, s) && OverDoomed(s) && (Doomed(s, sid) <==> cutOff)
    requires Executes(h, s, more, t) && AllInternal(more)
    ensures sid in t.astray ==> cutOff
    ensures |more| == Work(s) ==> (sid in t.astray <==> cutOff)
  {
    DoomedRun(h, s, more, t, sid);
    InternalCutsNobody(h, s, more, t, sid);
    hide TokenInv, OverDoomed, Enabled, Apply;
    WorkRun(h, s, more, t);
    if |more| == Work(s) {
      NoWorkSettled(h, t);
    }
  }

  /** A response to a session at an address goes astray, into freed memory or to another client that
      got the address, exactly if an error callback freed a session there whose accepted request was
      still being answered. Without such a callback none ever has, nor can the workers and the drain
      loop do it; with one, some response has gone astray at the latest when they have done their
      work, in whatever order. */
  lemma AstrayExactly(h: Handlers, es: seq<Event>, s: State, sid: nat)
    requires Executes(h, INITIAL, es, s)
    ensures sid in s.astray ==> CutOffAt(h, INITIAL, es, s, sid)
    ensures forall more, t :: Executes(h, s, more, t) && AllInternal(more) ==>
      && (sid in t.astray ==> CutOffAt(h, INITIAL, es, s, sid))
      && (|more| == Work(s) ==> (sid in t.astray <==> CutOffAt(h, INITIAL, es, s, sid)))
    ensures CanAnswer(h) ==> (CutOffAt(h, INITIAL, es, s, sid)
              <==> exists more, t :: Executes(h, s, more, t) && AllInternal(more) && sid in t.astray)
  {
    DoomedRun(h, INITIAL, es, s, sid);
    hide CutOffAt, Enabled, Apply, TokenInv, OverDoomed;
    forall more, t | Executes(h, s, more, t) && AllInternal(more)
      ensures sid in t.astray ==> CutOffAt(h, INITIAL, es, s, sid)
      ensures |more| == Work(s) ==> (sid in t.astray <==> CutOffAt(h, INITIAL, es, s, sid))
    {
      CutOffAstray(h, s, more, t, sid, CutOffAt(h, INITIAL, es, s, sid));
    }
    if CanAnswer(h) {
      var rest, u := RunDry(h, s);
    }
  }

  /** Where no session was cut off while it waited, every live one is clean: it has the token and the
      bytes that are due to it. */
  lemma CleanUnlessCutOff(h: Handlers, es: seq<Event>, s: State, sid: nat)
    requires Executes(h, INITIAL, es, s) && Live(s, sid) && !CutOffAt(h, INITIAL, es, s, sid)
    ensures Clean(s, sid)
  {
    DoomedRun(h, INITIAL, es, s, sid);
  }

  // ---------------------------------------------------------------------------------------
  // Runs in which a response goes astray
  // ---------------------------------------------------------------------------------------

  /** What a stray response does to the session it meets: the session is sent a frame it did not ask
      for and starts over; what it had read of a frame is dropped, and if it awaited a response of
      its own, that one is now in flight beside a session that reads. */
  lemma StrayReply(h: Handlers, s: State)
    requires TokenInv(h, s) && Enabled(h, s, Drain) && !Own(s, s.responses[0].token)
    requires Live(s, s.responses[0].token.sid)
    ensures var Response(token, reply) := s.responses[0];
      var c, n := s.conns[token.sid], Apply(h, s, Drain);
      && token.sid in n.astray && Live(n, token.sid) && c.over
      && n.conns[token.sid].output == c.output + Encode(reply) && Answers(h, token.request, reply)
      && n.conns[token.sid].position == START && n.conns[token.sid].input == c.input
    ensures forall t: Token :: t.sid == s.responses[0].token.sid && Awaits(s, t) ==>
      InFlight(Apply(h, s, Drain), t.sid)
  {
    var done, n := s.responses[0].token, Apply(h, s, Drain);
    assert s.responses[0] in s.responses && Holds(s, Ready(0), done);
    forall t: Token | t.sid == done.sid && Awaits(s, t) ensures InFlight(n, t.sid) {
      var p :| Holds(s, p, t);
      assert t != done;
      HoldsStays(h, s, Drain, p, t);
    }
  }

  lemma TakenOverStep(h: Handlers, s: State, e: Event, sid: nat)
    requires TokenInv(h, s) && Enabled(h, s, e) && Internal(e) && Live(s, sid)
    ensures var n := Apply(h, s, e);
      && Live(n, sid)
      && (InFlight(n, sid) || n.conns[sid].output != [] <==> InFlight(s, sid) || s.conns[sid].output != [])
  {
    var n := Apply(h, s, e);
    if e.Drain? && s.responses[0].token.sid == sid {
      assert Holds(s, Ready(0), s.responses[0].token);
      assert |Encode(s.responses[0].reply)| >= HEADER_LEN;
    } else {
      OthersKept(h, s, e, sid);
      if p, t :| Holds(s, p, t) && t.sid == sid {
        HoldsStays(h, s, e, p, t);
      }
      if p, t :| Holds(n, p, t) && t.sid == sid {
        HoldsBefore(h, s, e, p, t);
      }
    }
  }

  lemma {:induction false} TakenOverRun(h: Handlers, s: State, es: seq<Event>, t: State, sid: nat)
    requires TokenInv(h, s) && Executes(h, s, es, t) && AllInternal(es) && Live(s, sid)
    ensures Live(t, sid)
    ensures InFlight(t, sid) || t.conns[sid].output != [] <==> InFlight(s, sid) || s.conns[sid].output != []
    decreases |es|
  {
    if es == [] {
    } else {
      hide TokenInv, Enabled, Apply, InFlight;
      TakenOverStep(h, s, es[0], sid);
      TokenStep(h, s, es[0]);
      TakenOverRun(h, Apply(h, s, es[0]), es[1..], t, sid);
    }
  }

  /** What being clean excludes, exactly: a client that connects, sends nothing and stays is sent
      something by the time all work is done, in whatever order, if and only if an event of an
      earlier session was in flight at its address when it connected. */
  lemma TakenOverExactly(h: Handlers, s: State, sid: nat, more: seq<Event>, t: State)
    requires TokenInv(h, s) && !Live(s, sid)
    requires Executes(h, Apply(h, s, Connect(sid)), more, t) && AllInternal(more) && |more| == Work(s)
    ensures Live(t, sid) && (t.conns[sid].output != [] <==> InFlight(s, sid))
  {
    var n := Apply(h, s, Connect(sid));
    TokenStep(h, s, Connect(sid));
    forall p, u ensures Holds(n, p, u) <==> Holds(s, p, u) {
    }
    assert InFlight(n, sid) <==> InFlight(s, sid);
    assert Work(n) == Work(s);
    hide TokenInv, Enabled, Apply, InFlight;
    TakenOverRun(h, n, more, t, sid);
    WorkRun(h, n, more, t);
    TokenInvRun(h, n, more, t);
    NoWorkSettled(h, t);
  }

  /** A client connects and sends a request, which goes to the pool. */
  lemma RequestSent(h: Handlers, r: Request) returns (s: State)
    requires Sendable(r) && Parses(h)(r)
    ensures Executes(h, INITIAL, [Connect(0), Receive(0, Encode(r)), ReadCallback(0)], s)
    ensures s.pool == Fifo([Token(0, 0, r)], map[]) && s.answered == {} && s.responses == [] && s.made == 1
    ensures Live(s, 0) && s.conns[0].position == Done(r) && s.conns[0].serial == 0
  {
    var s1 := Apply(h, INITIAL, Connect(0));
    var s2 := Apply(h, s1, Receive(0, Encode(r)));
    assert [] + Encode(r) == Encode(r);
    RequestDecoded(h, s2.conns[0], r);
    s := Apply(h, s2, ReadCallback(0));
    hide Decoded, Encode;
    assert Executes(h, s, [], s);
    FirstStep(h, s2, ReadCallback(0), [], s);
    FirstStep(h, s1, Receive(0, Encode(r)), [ReadCallback(0)], s);
    FirstStep(h, INITIAL, Connect(0), [Receive(0, Encode(r)), ReadCallback(0)], s);
    assert [Connect(0)] + [Receive(0, Encode(r)), ReadCallback(0)]
        == [Connect(0), Receive(0, Encode(r)), ReadCallback(0)];
  }

  lemma RequestDecoded(h: Handlers, c: Conn, r: Request)
    requires Sendable(r) && Parses(h)(r) && c.position == START && c.input == Encode(r)
    ensures Decoded(h, c).position == Done(r) && Decoded(h, c).live && Decoded(h, c).serial == c.serial
  {
    DecodeEncoded(r, [], Parses(h));
    hide Feed, Encode;
    assert Encode(r) + [] == Encode(r);
  }

  lemma {:induction false} Concatenate(h: Handlers, s: State, es: seq<Event>, t: State, more: seq<Event>, u: State)
    requires Executes(h, s, es, t) && Executes(h, t, more, u)
    ensures Executes(h, s, es + more, u)
    decreases |es|
  {
    if es == [] {
      assert es + more == more;
    } else {
      hide Enabled, Apply;
      Concatenate(h, Apply(h, s, es[0]), es[1..], t, more, u);
      assert (es + more)[1..] == es[1..] + more;
    }
  }

  /** One client sends one request and disconnects, or times out, before the answer is there: the
      answer is written to the freed session. */
  lemma DisconnectStrays(h: Handlers, r: Request, reply: Request) returns (t: State)
    requires Sendable(r) && Parses(h)(r) && Answers(h, r, reply)
    ensures Executes(h, INITIAL, [Connect(0), Receive(0, Encode(r)), ReadCallback(0)]
      + [ErrorCallback(0), Event.Begin(0), Answer(0, reply), Drain], t)
    ensures 0 in t.astray && !Live(t, 0)
  {
    hide Decoded, Encode;
    var s := RequestSent(h, r);
    var s1 := Apply(h, s, ErrorCallback(0));
    var s2 := Apply(h, s1, Event.Begin(0));
    var s3 := Apply(h, s2, Answer(0, reply));
    t := Apply(h, s3, Drain);
    FirstStep(h, s3, Drain, [], t);
    FirstStep(h, s2, Answer(0, reply), [Drain], t);
    FirstStep(h, s1, Event.Begin(0), [Answer(0, reply), Drain], t);
    FirstStep(h, s, ErrorCallback(0), [Event.Begin(0), Answer(0, reply), Drain], t);
    hide Enabled, Apply;
    assert [ErrorCallback(0)] + [Event.Begin(0), Answer(0, reply), Drain]
        == [ErrorCallback(0), Event.Begin(0), Answer(0, reply), Drain];
    Concatenate(h, INITIAL, [Connect(0), Receive(0, Encode(r)), ReadCallback(0)], s,
                [ErrorCallback(0), Event.Begin(0), Answer(0, reply), Drain], t);
  }

  /** The same, but another client connects and gets the address before the answer is there: it has
      sent nothing, and is sent the answer to the first client's request. */
  lemma AnotherIsAnswered(h: Handlers, r: Request, reply: Request) returns (t: State)
    requires Sendable(r) && Parses(h)(r) && Answers(h, r, reply)
    ensures Executes(h, INITIAL, [Connect(0), Receive(0, Encode(r)), ReadCallback(0)]
      + [ErrorCallback(0), Connect(0), Event.Begin(0), Answer(0, reply), Drain], t)
    ensures 0 in t.astray && Live(t, 0) && t.conns[0].serial == 1
    ensures t.conns[0].received == [] && t.conns[0].requests == [] && t.conns[0].output == Encode(reply)
  {
    hide Decoded, Encode;
    var s := RequestSent(h, r);
    var s1 := Apply(h, s, ErrorCallback(0));
    var s2 := Apply(h, s1, Connect(0));
    var s3 := Apply(h, s2, Event.Begin(0));
    var s4 := Apply(h, s3, Answer(0, reply));
    t := Apply(h, s4, Drain);
    assert t.conns[0].output == [] + Encode(reply);
    FirstStep(h, s4, Drain, [], t);
    FirstStep(h, s3, Answer(0, reply), [Drain], t);
    FirstStep(h, s2, Event.Begin(0), [Answer(0, reply), Drain], t);
    FirstStep(h, s1, Connect(0), [Event.Begin(0), Answer(0, reply), Drain], t);
    assert [Connect(0)] + [Event.Begin(0), Answer(0, reply), Drain]
        == [Connect(0), Event.Begin(0), Answer(0, reply), Drain];
    FirstStep(h, s, ErrorCallback(0), [Connect(0), Event.Begin(0), Answer(0, reply), Drain], t);
    hide Enabled, Apply;
    assert [ErrorCallback(0)] + [Connect(0), Event.Begin(0), Answer(0, reply), Drain]
        == [ErrorCallback(0), Connect(0), Event.Begin(0), Answer(0, reply), Drain];
    Concatenate(h, INITIAL, [Connect(0), Receive(0, Encode(r)), ReadCallback(0)], s,
                [ErrorCallback(0), Connect(0), Event.Begin(0), Answer(0, reply), Drain], t);
  }

  // ---------------------------------------------------------------------------------------
  // Rejected posts
  // ---------------------------------------------------------------------------------------

  /** A connection whose request was rejected: as long as it has its address, it waits for a response
      nobody prepares. */
  ghost predicate Stuck(s: State, sid: nat, serial: nat, r: Request, replies: seq<Request>) {
    Live(s, sid) && s.conns[sid].serial == serial ==>
      sid in s.lost && s.conns[sid].position == Done(r) && s.conns[sid].replies == replies && !InFlight(s, sid)
  }

  /** A rejected post leaves a clean session in SS_RESPONSE without a token. */
  lemma RejectedSticks(h: Handlers, s: State, sid: nat)
    requires TokenInv(h, s) && Enabled(h, s, ReadRejected(sid)) && Clean(s, sid)
    ensures var n := Apply(h, s, ReadRejected(sid));
      && Live(n, sid) && n.conns[sid].serial == s.conns[sid].serial && n.conns[sid].position.Done?
      && Stuck(n, sid, s.conns[sid].serial, n.conns[sid].position.request, s.conns[sid].replies)
      && sid in n.lost && !InFlight(n, sid)
  {
    var n := Apply(h, s, ReadRejected(sid));
    forall p, u | Holds(n, p, u) ensures u.sid != sid {
      assert Holds(s, p, u);
      assert u.sid == sid ==> Awaits(s, u);
    }
  }

  /** And it stays so: whatever the client and the server do, it reads no more and is sent nothing,
      until it is cut off. */
  lemma {:induction false} StuckForever(h: Handlers, s: State, es: seq<Event>, t: State,
                                        sid: nat, serial: nat, r: Request, replies: seq<Request>)
    requires TokenInv(h, s) && Stuck(s, sid, serial, r, replies) && serial < s.made && Executes(h, s, es, t)
    ensures Stuck(t, sid, serial, r, replies)
    decreases |es|
  {
    if es == [] {
    } else {
      hide TokenInv, Stuck, Enabled, Apply;
      TokenStep(h, s, es[0]);
      StuckStep(h, s, es[0], sid, serial, r, replies);
      StuckForever(h, Apply(h, s, es[0]), es[1..], t, sid, serial, r, replies);
    }
  }

  lemma StuckStep(h: Handlers, s: State, e: Event, sid: nat, serial: nat, r: Request, replies: seq<Request>)
    requires TokenInv(h, s) && Stuck(s, sid, serial, r, replies) && serial < s.made && Enabled(h, s, e)
    ensures Stuck(Apply(h, s, e), sid, serial, r, replies) && serial < Apply(h, s, e).made
  {
    var n := Apply(h, s, e);
    if Live(n, sid) && n.conns[sid].serial == serial {
      forall p, t | Holds(n, p, t) ensures t.sid != sid {
        HoldsBefore(h, s, e, p, t);
        assert t.sid == sid && Holds(s, Source(s, e, p), t) ==> InFlight(s, sid);
      }
      StuckConn(h, s, e, sid);
    }
  }

  lemma StuckConn(h: Handlers, s: State, e: Event, sid: nat)
    requires Enabled(h, s, e) && Live(s, sid) && sid in s.lost && s.conns[sid].position.Done? && !InFlight(s, sid)
    requires Live(Apply(h, s, e), sid)
    ensures var c, n := s.conns[sid], Apply(h, s, e);
      sid in n.lost && n.conns[sid].position == c.position && n.conns[sid].replies == c.replies
  {
    if e.Drain? {
      assert Holds(s, Ready(0), s.responses[0].token);
    }
    if Concerns(s, e, sid) {
      hide Decoded;
    } else {
      OthersKept(h, s, e, sid);
      hide Decoded;
    }
  }
}
