/** One token per busy session: a request that the pool accepted is one event, in the pool's queue,
    with a worker or in the response queue, until its session is sent the response. */
module ServiceTokens {
  import opened Frame
  import opened PoolProperties
  import opened Service

  /** The session is there and awaits the response to this request, which the pool accepted. */
  ghost predicate Awaits(s: State, t: Token) {
    Own(s, t) && s.conns[t.sid].position == Done(t.request) && t.sid !in s.lost
  }

  /** The session is there, and nothing was in flight at its address when it connected. */
  ghost predicate Clean(s: State, sid: nat) {
    Live(s, sid) && !s.conns[sid].over
  }

  /** Every session that awaits a response has a token. A clean session has only that one. */
  ghost predicate OneToken(s: State) {
    && (forall p, t :: Holds(s, p, t) && Clean(s, t.sid) ==> Awaits(s, t))
    && (forall p, q, t, u :: Holds(s, p, t) && Holds(s, q, u) && t.sid == u.sid && Clean(s, t.sid) ==> p == q)
    && (forall t :: Awaits(s, t) ==> exists p :: Holds(s, p, t))
  }

  ghost predicate ResponsesFit(h: Handlers, s: State) {
    forall r :: r in s.responses ==> Answers(h, r.token.request, r.reply)
  }

  /** A token keeps its place or moves along with an event. */
  ghost function Source(s: State, e: Event, p: Place): Place {
    match e
    case Begin(w) => if p == With(w) then Queued(0) else if p.Queued? then Queued(p.i + 1) else p
    case Answer(w, _) => if p == Ready(|s.responses|) then With(w) else p
    case Drain => if p.Ready? then Ready(p.i + 1) else p
    case _ => p
  }

  ghost function Target(s: State, e: Event, p: Place): Place {
    match e
    case Begin(w) => if p == Queued(0) then With(w) else if p.Queued? then Queued(p.i - 1) else p
    case Answer(w, _) => if p == With(w) then Ready(|s.responses|) else p
    case Drain => if p.Ready? && p.i > 0 then Ready(p.i - 1) else p
    case _ => p
  }

  ghost predicate MovesOnly(e: Event) {
    e.Begin? || e.Answer? || e.Complete?
  }

  lemma TokenMoves(h: Handlers, s: State, e: Event, p: Place, t: Token)
    requires Enabled(h, s, e) && MovesOnly(e) && s.answered <= s.pool.busy.Keys
    ensures Holds(Apply(h, s, e), p, t) ==> Holds(s, Source(s, e, p), t) && Target(s, e, Source(s, e, p)) == p
    ensures Holds(s, p, t) ==> Holds(Apply(h, s, e), Target(s, e, p), t)
  {
  }

  lemma OneTokenMoves(h: Handlers, s: State, e: Event)
    requires OneToken(s) && Enabled(h, s, e) && MovesOnly(e) && s.answered <= s.pool.busy.Keys
    ensures OneToken(Apply(h, s, e))
  {
    var n := Apply(h, s, e);
    forall p, t | Holds(n, p, t) && Clean(n, t.sid) ensures Awaits(n, t) {
      TokenMoves(h, s, e, p, t);
      assert Awaits(s, t);
    }
    forall p, q, t, u | Holds(n, p, t) && Holds(n, q, u) && t.sid == u.sid && Clean(n, t.sid) ensures p == q {
      TokenMoves(h, s, e, p, t);
      TokenMoves(h, s, e, q, u);
      assert Clean(s, t.sid);
    }
    forall t | Awaits(n, t) ensures exists p :: Holds(n, p, t) {
      assert Awaits(s, t);
      var p :| Holds(s, p, t);
      TokenMoves(h, s, e, p, t);
    }
  }

  lemma OneTokenAccepted(h: Handlers, s: State, sid: nat)
    requires OneToken(s) && Completes(h, s, sid) && sid !in s.lost
    ensures OneToken(Read(h, s, sid, true))
  {
    var n, added, last := Read(h, s, sid, true), NextToken(h, s, sid), Queued(|s.pool.queue|);
    assert n.conns[sid].serial == added.serial && n.conns[sid].live && n.conns[sid].over == s.conns[sid].over;
    assert n.conns[sid].position == Done(added.request);
    hide Decoded;
    assert Holds(n, last, added);
    forall p, t ensures Holds(n, p, t) <==> Holds(s, p, t) || (p == last && t == added) {
    }
    forall p, t | Holds(n, p, t) && Clean(n, t.sid) ensures Awaits(n, t) {
      if Holds(s, p, t) {
        assert Clean(s, t.sid) && Awaits(s, t);
      }
    }
    forall p, q, t, u | Holds(n, p, t) && Holds(n, q, u) && t.sid == u.sid && Clean(n, t.sid) ensures p == q {
      assert Clean(s, t.sid);
      assert Holds(s, p, t) ==> Awaits(s, t);
      assert Holds(s, q, u) ==> Awaits(s, u);
    }
    forall t | Awaits(n, t) ensures exists p :: Holds(n, p, t) {
      if t != added {
        assert Awaits(s, t);
        var p :| Holds(s, p, t);
        assert Holds(n, p, t);
      }
    }
  }

  lemma OneTokenRead(h: Handlers, s: State, sid: nat, accepted: bool)
    requires OneToken(s) && Live(s, sid) && WellFormed(s.conns[sid].position)
    requires sid in s.lost ==> s.conns[sid].position.Done?
    ensures OneToken(Read(h, s, sid, accepted))
  {
    if accepted && Completes(h, s, sid) {
      OneTokenAccepted(h, s, sid);
    } else if s.conns[sid].position.Done? {
      assert Read(h, s, sid, accepted) == s;
    } else {
      var n := Read(h, s, sid, accepted);
      assert n.conns[sid].over == s.conns[sid].over && n.conns[sid].serial == s.conns[sid].serial;
      hide Decoded;
      forall p, t | Holds(s, p, t) && Clean(n, t.sid) ensures Clean(s, t.sid) && Awaits(n, t) {
        assert Clean(s, t.sid) && Awaits(s, t);
      }
      SamePlaces(s, n);
    }
  }

  /** Nothing that holds tokens changed, no clean session that has one did, and none began to wait. */
  lemma SamePlaces(s: State, n: State)
    requires OneToken(s) && n.pool == s.pool && n.answered == s.answered && n.responses == s.responses
    requires forall p, t :: Holds(s, p, t) && Clean(n, t.sid) ==> Clean(s, t.sid) && Awaits(n, t)
    requires forall t :: Awaits(n, t) ==> Awaits(s, t)
    ensures OneToken(n)
  {
    forall p, t ensures Holds(n, p, t) <==> Holds(s, p, t) {
    }
    forall t | Awaits(n, t) ensures exists p :: Holds(n, p, t) {
      assert Awaits(s, t);
      var p :| Holds(s, p, t);
      assert Holds(n, p, t);
    }
  }

  /** A new session at an address where nothing is in flight has no token; one at an address where
      something is, is not clean. */
  lemma OneTokenConnect(h: Handlers, s: State, sid: nat)
    requires OneToken(s) && !Live(s, sid)
    ensures OneToken(Apply(h, s, Connect(sid)))
  {
    var n := Apply(h, s, Connect(sid));
    forall p, t | Holds(s, p, t) && Clean(n, t.sid) ensures Clean(s, t.sid) && Awaits(n, t) {
      assert t.sid == sid ==> InFlight(s, sid);
      assert Clean(s, t.sid) && Awaits(s, t);
    }
    forall t | Awaits(n, t) ensures Awaits(s, t) {
    }
    SamePlaces(s, n);
  }

  lemma OneTokenFreed(h: Handlers, s: State, sid: nat)
    requires OneToken(s) && Live(s, sid)
    ensures OneToken(Apply(h, s, ErrorCallback(sid)))
  {
    var n := Apply(h, s, ErrorCallback(sid));
    forall p, t | Holds(s, p, t) && Clean(n, t.sid) ensures Clean(s, t.sid) && Awaits(n, t) {
      assert Clean(s, t.sid) && Awaits(s, t);
    }
    forall t | Awaits(n, t) ensures Awaits(s, t) {
    }
    SamePlaces(s, n);
  }

  lemma OneTokenReceive(h: Handlers, s: State, sid: nat, bytes: seq<byte>)
    requires OneToken(s) && Live(s, sid)
    ensures OneToken(Apply(h, s, Receive(sid, bytes)))
  {
    var n := Apply(h, s, Receive(sid, bytes));
    forall p, t | Holds(s, p, t) && Clean(n, t.sid) ensures Clean(s, t.sid) && Awaits(n, t) {
      assert Clean(s, t.sid) && Awaits(s, t);
    }
    forall t | Awaits(n, t) ensures Awaits(s, t) {
    }
    SamePlaces(s, n);
  }

  lemma OneTokenReply(h: Handlers, s: State)
    requires OneToken(s) && Enabled(h, s, Drain)
    ensures Clean(s, s.responses[0].token.sid) ==> Awaits(s, s.responses[0].token)
    ensures OneToken(Reply(s))
  {
    var n, done := Reply(s), s.responses[0].token;
    assert Holds(s, Ready(0), done);
    forall p, t | Holds(n, p, t) ensures Holds(s, Source(s, Drain, p), t) && Source(s, Drain, p) != Ready(0) {
    }
    forall p, t | Holds(n, p, t) && Clean(n, t.sid) ensures Awaits(n, t) {
      assert Clean(s, t.sid) && Holds(s, Source(s, Drain, p), t);
      assert t.sid != done.sid;
      assert Awaits(s, t);
    }
    forall p, q, t, u | Holds(n, p, t) && Holds(n, q, u) && t.sid == u.sid && Clean(n, t.sid) ensures p == q {
      assert Clean(s, t.sid) && Holds(s, Source(s, Drain, p), t) && Holds(s, Source(s, Drain, q), u);
    }
    forall t | Awaits(n, t) ensures exists p :: Holds(n, p, t) {
      assert t.sid != done.sid && Awaits(s, t);
      var p :| Holds(s, p, t);
      assert Holds(n, Target(s, Drain, p), t);
    }
  }

  /** A session whose request was rejected is left waiting. */
  ghost predicate LostWait(s: State) {
    forall sid :: sid in s.lost ==> sid in s.conns && s.conns[sid].position.Done?
  }

  /** Connections are numbered, and tokens carry requests that parsed. */
  ghost predicate Numbered(h: Handlers, s: State) {
    && (forall sid :: sid in s.conns ==> s.conns[sid].serial < s.made)
    && (forall p, t :: Holds(s, p, t) ==> t.serial < s.made && Parses(h)(t.request))
  }

  ghost predicate TokenInv(h: Handlers, s: State) {
    && OneToken(s) && ResponsesFit(h, s) && s.answered <= s.pool.busy.Keys && LostWait(s) && Numbered(h, s)
  }

  lemma OneTokenStep(h: Handlers, s: State, e: Event)
    requires TokenInv(h, s) && Enabled(h, s, e)
    ensures OneToken(Apply(h, s, e))
  {
    hide OneToken, Read, Reply, Numbered, ResponsesFit;
    match e {
      case Connect(sid) => OneTokenConnect(h, s, sid);
      case Receive(sid, bytes) => OneTokenReceive(h, s, sid, bytes);
      case ReadCallback(sid) => OneTokenRead(h, s, sid, true);
      case ReadRejected(sid) => OneTokenRead(h, s, sid, false);
      case ErrorCallback(sid) => OneTokenFreed(h, s, sid);
      case Drain => OneTokenReply(h, s);
      case _ => OneTokenMoves(h, s, e);
    }
  }

  lemma NumberedRead(h: Handlers, s: State, sid: nat, accepted: bool)
    requires Numbered(h, s) && Live(s, sid) && WellFormed(s.conns[sid].position)
    ensures Numbered(h, Read(h, s, sid, accepted))
  {
    var n := Read(h, s, sid, accepted);
    if s.conns[sid].position.Done? {
      assert n == s;
    } else {
      if !s.conns[sid].position.Dead? {
        FeedConsumes(s.conns[sid].position, s.conns[sid].input, Parses(h));
      }
      forall p, t | Holds(n, p, t) ensures t.serial < n.made && Parses(h)(t.request) {
        if !Holds(s, p, t) {
          assert p == Queued(|s.pool.queue|) && t == NextToken(h, s, sid);
        }
      }
    }
  }

  lemma NumberedStep(h: Handlers, s: State, e: Event)
    requires TokenInv(h, s) && Enabled(h, s, e)
    ensures Numbered(h, Apply(h, s, e))
  {
    var n := Apply(h, s, e);
    match e {
      case ReadCallback(sid) => NumberedRead(h, s, sid, true);
      case ReadRejected(sid) => NumberedRead(h, s, sid, false);
      case Begin(_) => NumberedMoves(h, s, e);
      case Answer(_, _) => NumberedMoves(h, s, e);
      case Complete(_) => NumberedMoves(h, s, e);
      case _ =>
        forall p, t | Holds(n, p, t) ensures t.serial < n.made && Parses(h)(t.request) {
          assert Holds(s, Source(s, e, p), t);
        }
    }
  }

  lemma NumberedMoves(h: Handlers, s: State, e: Event)
    requires TokenInv(h, s) && Enabled(h, s, e) && MovesOnly(e)
    ensures Numbered(h, Apply(h, s, e))
  {
    var n := Apply(h, s, e);
    forall p, t | Holds(n, p, t) ensures t.serial < n.made && Parses(h)(t.request) {
      TokenMoves(h, s, e, p, t);
    }
  }

  lemma TokenStep(h: Handlers, s: State, e: Event)
    requires TokenInv(h, s) && Enabled(h, s, e)
    ensures TokenInv(h, Apply(h, s, e))
  {
    OneTokenStep(h, s, e);
    NumberedStep(h, s, e);
  }
}
