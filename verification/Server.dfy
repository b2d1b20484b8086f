/** The service on top of the pool, statement by statement: the two step systems run jointly, so
    what is proved of each holds of the whole, and the pool's admission test can be read in terms
    of the sessions. The service is not shutting down: nobody destroys the pool. */
module Server {
  import opened Options
  import Frame
  import opened Service
  import opened ServiceStream
  import opened ServiceTokens
  import opened ServiceRuns
  import Pool = ThreadPool
  import PoolCore
  import PoolProperties

  type PoolState = Pool.State<Token>

  datatype Joint = Joint(service: State, pool: PoolState)

  datatype Move =
    | Loop(e: Event)                           // the event loop, away from the pool
    | InHandler(w: nat, reply: Frame.Request)  // a worker's handler queues its response
    | Silent(statement: Pool.Event<Token>)     // a statement of the pool that its clients cannot see
    | Dispatch(token: Token)                   // the post links the session's token
    | Reject(token: Token)                     // the post fails, and nobody looks at its result
    | Take(w: nat)
    | Finish(w: nat)

  /** The part each system plays in a move, if any. */
  function ServicePart(m: Move): Option<Event> {
    match m
    case Loop(e) => Some(e)
    case InHandler(w, reply) => Some(Answer(w, reply))
    case Silent(_) => None
    case Dispatch(token) => Some(ReadCallback(token.sid))
    case Reject(token) => Some(ReadRejected(token.sid))
    case Take(w) => Some(Begin(w))
    case Finish(w) => Some(Complete(w))
  }

  function PoolPart(m: Move): Option<Pool.Event<Token>> {
    match m
    case Loop(_) => None
    case InHandler(_, _) => None
    case Silent(e) => Some(e)
    case Dispatch(_) => Some(Pool.LinkTask)
    case Reject(token) => Some(Pool.PostReject(Pool.Client, Pool.Work(token)))
    case Take(w) => Some(Pool.Take(w))
    case Finish(w) => Some(Pool.Finish(w))
  }

  /** The token is the one that a session's read callback is about to post. */
  ghost predicate IsNext(h: Handlers, s: State, token: Token) {
    Completes(h, s, token.sid) && NextToken(h, s, token.sid) == token
  }

  ghost predicate InPost(section: Pool.Section<Token>) {
    section.Admitted? || section.Signalled? || section.Linked? || section.Booked?
  }

  /** What the event loop does by itself. A callback that completes a request does not end there. */
  ghost predicate OwnLoop(h: Handlers, s: State, e: Event) {
    match e
    case Connect(_) => true
    case Receive(_, _) => true
    case ReadCallback(sid) => !Completes(h, s, sid)
    case ErrorCallback(_) => true
    case Drain => true
    case _ => false
  }

  /** Statements that the pool's clients cannot see. Only the event loop posts. */
  ghost predicate IsSilent(h: Handlers, s: State, e: Pool.Event<Token>) {
    match e
    case Lock(_) => true
    case Decrement(_) => true
    case Sleep(_) => true
    case SpuriousWake(_) => true
    case Relock(_) => true
    case Unlock(_) => true
    case PostEnter(poster, job) => poster == Pool.Client && job.Work? && IsNext(h, s, job.item)
    case Signal(_) => true
    case SignalNobody => true
    case BookTask => true
    case PostLeave => true
    case _ => false
  }

  /** The event loop is one thread, which does nothing else while it is inside a post; a handler
      runs between unlocking the pool and the end of its work. */
  ghost predicate May(h: Handlers, j: Joint, m: Move) {
    match m
    case Loop(e) => !InPost(j.pool.section) && OwnLoop(h, j.service, e)
    case InHandler(w, _) => w < |j.pool.workers| && j.pool.workers[w].Running?
    case Silent(e) => IsSilent(h, j.service, e)
    case Dispatch(token) =>
      IsNext(h, j.service, token) && j.pool.section == Pool.Signalled(Pool.Client, Pool.Work(token))
    case Reject(token) => IsNext(h, j.service, token)
    case Take(_) => true
    case Finish(_) => true
  }

  ghost predicate Enabled(h: Handlers, j: Joint, m: Move) {
    && May(h, j, m)
    && (PoolPart(m).Some? ==> Pool.Enabled(j.pool, PoolPart(m).value))
    && (ServicePart(m).Some? ==> Service.Enabled(h, j.service, ServicePart(m).value))
  }

  ghost function Apply(h: Handlers, j: Joint, m: Move): Joint
    requires Enabled(h, j, m)
  {
    Joint(if ServicePart(m).Some? then Service.Apply(h, j.service, ServicePart(m).value) else j.service,
          if PoolPart(m).Some? then Pool.Apply(j.pool, PoolPart(m).value) else j.pool)
  }

  ghost predicate Executes(h: Handlers, j: Joint, ms: seq<Move>, k: Joint)
    decreases |ms|
  {
    if ms == [] then j == k
    else Enabled(h, j, ms[0]) && Executes(h, Apply(h, j, ms[0]), ms[1..], k)
  }

  ghost function Start(threads: nat, maxQueue: nat): Joint {
    Joint(INITIAL, Pool.Initial(threads, maxQueue))
  }

  // ---------------------------------------------------------------------------------------
  // The two systems fit
  // ---------------------------------------------------------------------------------------

  /** The service's pool, with its tokens as the pool's work. */
  ghost function Wrap(f: PoolProperties.Fifo<Token>): PoolProperties.Fifo<Pool.Job<Token>> {
    PoolProperties.Fifo(seq(|f.queue|, i requires 0 <= i < |f.queue| => Pool.Work(f.queue[i])),
                        map w | w in f.busy :: Pool.Work(f.busy[w]))
  }

  ghost function WrapEvent(e: PoolProperties.FifoEvent<Token>): PoolProperties.FifoEvent<Pool.Job<Token>> {
    match e
    case Stutter => PoolProperties.Stutter
    case Accept(token) => PoolProperties.Accept(Pool.Work(token))
    case Begin(w) => PoolProperties.Begin(w)
    case Complete(w) => PoolProperties.Complete(w)
  }

  ghost predicate Fits(j: Joint) {
    PoolProperties.View(j.pool) == Wrap(j.service.pool)
  }

  /** While the event loop is inside a post, the session it posts for stays as it was. */
  ghost predicate PostPending(h: Handlers, j: Joint) {
    j.pool.section.Admitted? || j.pool.section.Signalled? ==>
      && j.pool.section.poster == Pool.Client && j.pool.section.job.Work?
      && IsNext(h, j.service, j.pool.section.job.item)
  }

  ghost predicate JointInv(h: Handlers, j: Joint) {
    && Pool.PoolInv(j.pool) && TokenInv(h, j.service) && StreamInv(h, j.service)
    && Fits(j) && PostPending(h, j)
  }

  lemma WrapStep(f: PoolProperties.Fifo<Token>, e: PoolProperties.FifoEvent<Token>, g: PoolProperties.Fifo<Token>)
    requires PoolProperties.FifoStep(f, e, g)
    ensures PoolProperties.FifoStep(Wrap(f), WrapEvent(e), Wrap(g))
  {
    match e {
      case Stutter =>
      case Accept(token) => assert Wrap(g).queue == Wrap(f).queue + [Pool.Work(token)];
      case Begin(w) =>
        assert Wrap(g).queue == Wrap(f).queue[1..];
        assert Wrap(g).busy == Wrap(f).busy[w := Wrap(f).queue[0]];
      case Complete(w) => assert Wrap(g).busy == Wrap(f).busy - {w};
    }
  }

  /** What a move does to the pool, as the pool and as the service see it. */
  ghost function PoolSees(j: Joint, m: Move): PoolProperties.FifoEvent<Pool.Job<Token>> {
    if PoolPart(m).Some? then PoolProperties.Observed(j.pool, PoolPart(m).value) else PoolProperties.Stutter
  }

  ghost function ServiceSees(h: Handlers, s: State, m: Move): PoolProperties.FifoEvent<Token> {
    if ServicePart(m).Some? then Service.Observed(h, s, ServicePart(m).value) else PoolProperties.Stutter
  }

  lemma SameObservation(h: Handlers, j: Joint, m: Move)
    requires Enabled(h, j, m)
    ensures PoolSees(j, m) == WrapEvent(ServiceSees(h, j.service, m))
  {
    hide Decoded;
  }

  lemma PoolSide(h: Handlers, j: Joint, m: Move)
    requires Pool.PoolInv(j.pool) && Enabled(h, j, m)
    ensures PoolProperties.FifoStep(PoolProperties.View(j.pool), PoolSees(j, m),
                                    PoolProperties.View(Apply(h, j, m).pool))
  {
    assert Pool.Exclusive(j.pool);
    hide Pool.PoolInv, Pool.Exclusive, Pool.Enabled, Pool.Apply, Service.Enabled, Service.Apply, May;
    if PoolPart(m).Some? {
      PoolProperties.PoolRefinesFifo(j.pool, PoolPart(m).value);
    }
  }

  lemma ServiceSide(h: Handlers, j: Joint, m: Move)
    requires Enabled(h, j, m)
    ensures PoolProperties.FifoStep(j.service.pool, ServiceSees(h, j.service, m), Apply(h, j, m).service.pool)
  {
    hide Pool.Enabled, Pool.Apply, Service.Enabled, Service.Apply, May;
    if ServicePart(m).Some? {
      UsesPoolAsFifo(h, j.service, ServicePart(m).value);
    }
  }

  lemma OneOutcome<T>(f: PoolProperties.Fifo<T>, e: PoolProperties.FifoEvent<T>,
                      g: PoolProperties.Fifo<T>, k: PoolProperties.Fifo<T>)
    requires PoolProperties.FifoStep(f, e, g) && PoolProperties.FifoStep(f, e, k)
    ensures g == k
  {
  }

  lemma FitsStep(h: Handlers, j: Joint, m: Move)
    requires Pool.PoolInv(j.pool) && Fits(j) && Enabled(h, j, m)
    ensures Fits(Apply(h, j, m))
  {
    var k := Apply(h, j, m);
    hide Pool.PoolInv, Enabled, Apply, Wrap, PoolProperties.FifoStep, PoolSees, ServiceSees, PoolProperties.View;
    SameObservation(h, j, m);
    PoolSide(h, j, m);
    ServiceSide(h, j, m);
    WrapStep(j.service.pool, ServiceSees(h, j.service, m), k.service.pool);
    OneOutcome(PoolProperties.View(j.pool), PoolSees(j, m), PoolProperties.View(k.pool), Wrap(k.service.pool));
  }

  lemma PendingStep(h: Handlers, j: Joint, m: Move)
    requires PostPending(h, j) && Enabled(h, j, m)
    ensures PostPending(h, Apply(h, j, m))
  {
    hide Decoded;
  }

  lemma JointStep(h: Handlers, j: Joint, m: Move)
    requires JointInv(h, j) && Enabled(h, j, m)
    ensures JointInv(h, Apply(h, j, m))
  {
    FitsStep(h, j, m);
    PendingStep(h, j, m);
    hide Pool.PoolInv, TokenInv, StreamInv, Fits, PostPending, May;
    hide Pool.Enabled, Pool.Apply, Service.Enabled, Service.Apply;
    if PoolPart(m).Some? {
      Pool.PoolInvStep(j.pool, PoolPart(m).value);
    }
    if ServicePart(m).Some? {
      TokenStep(h, j.service, ServicePart(m).value);
      StreamStep(h, j.service, ServicePart(m).value);
    }
  }

  lemma StartInv(h: Handlers, threads: nat, maxQueue: nat)
    ensures JointInv(h, Start(threads, maxQueue))
  {
    Pool.InitialInv<Token>(threads, maxQueue);
    var f := PoolProperties.View(Start(threads, maxQueue).pool);
    assert f.queue == Wrap(INITIAL.pool).queue && f.busy == Wrap(INITIAL.pool).busy;
  }

  lemma {:induction false} JointInvRun(h: Handlers, j: Joint, ms: seq<Move>, k: Joint)
    requires JointInv(h, j) && Executes(h, j, ms, k)
    ensures JointInv(h, k)
    decreases |ms|
  {
    if ms == [] {
    } else {
      hide JointInv, Enabled, Apply;
      JointStep(h, j, ms[0]);
      JointInvRun(h, Apply(h, j, ms[0]), ms[1..], k);
    }
  }

  // ---------------------------------------------------------------------------------------
  // A joint run is a run of each
  // ---------------------------------------------------------------------------------------

  function Listed<T>(o: Option<T>): seq<T> {
    match o case None => [] case Some(x) => [x]
  }

  function ServiceRun(ms: seq<Move>): seq<Event> {
    if ms == [] then [] else Listed(ServicePart(ms[0])) + ServiceRun(ms[1..])
  }

  function PoolRun(ms: seq<Move>): seq<Pool.Event<Token>> {
    if ms == [] then [] else Listed(PoolPart(ms[0])) + PoolRun(ms[1..])
  }

  /** A joint run is a run of the service and a run of the pool. */
  lemma {:induction false} RunsOfBoth(h: Handlers, j: Joint, ms: seq<Move>, k: Joint)
    requires Executes(h, j, ms, k)
    ensures Service.Executes(h, j.service, ServiceRun(ms), k.service)
    ensures Pool.Executes(j.pool, PoolRun(ms), k.pool)
    decreases |ms|
  {
    if ms == [] {
    } else {
      var m := ms[0];
      RunsOfBoth(h, Apply(h, j, m), ms[1..], k);
      hide May, Service.Enabled, Service.Apply, Pool.Enabled, Pool.Apply;
      var es, ps := ServiceRun(ms[1..]), PoolRun(ms[1..]);
      assert Listed(ServicePart(m)) == [] ==> Listed(ServicePart(m)) + es == es;
      assert ServicePart(m).Some? ==> ([ServicePart(m).value] + es)[1..] == es;
      assert Listed(PoolPart(m)) == [] ==> Listed(PoolPart(m)) + ps == ps;
      assert PoolPart(m).Some? ==> ([PoolPart(m).value] + ps)[1..] == ps;
    }
  }

  /** What one system does is never refused by the other. A worker that takes a task finds the
      service ready for it. */
  lemma TakeNotBlocked(h: Handlers, j: Joint, w: nat)
    requires JointInv(h, j) && Pool.Enabled(j.pool, Pool.Take(w))
    ensures Enabled(h, j, Take(w))
  {
    assert Pool.Exclusive(j.pool) && Fits(j);
    hide JointInv, Pool.Exclusive, Pool.Apply;
    PoolProperties.PoolRefinesFifo(j.pool, Pool.Take(w));
    hide Pool.Enabled, PoolProperties.View;
    assert |Wrap(j.service.pool).queue| == |j.service.pool.queue|;
  }

  /** So does a worker that ends one, after its handler. */
  lemma FinishNotBlocked(h: Handlers, j: Joint, w: nat)
    requires JointInv(h, j) && Pool.Enabled(j.pool, Pool.Finish(w)) && w in j.service.answered
    ensures Enabled(h, j, Finish(w))
  {
    assert Fits(j) && j.service.answered <= j.service.pool.busy.Keys;
    hide JointInv;
  }

  /** A post that has sent its signal can link its task: its session has not changed meanwhile. */
  lemma DispatchNotBlocked(h: Handlers, j: Joint)
    requires JointInv(h, j) && j.pool.section.Signalled?
    ensures j.pool.section.job.Work? && Enabled(h, j, Dispatch(j.pool.section.job.item))
  {
    assert PostPending(h, j);
    hide JointInv, Decoded;
  }

  lemma DestroyNotStarted(h: Handlers, j: Joint, m: Move)
    requires Enabled(h, j, m) && j.pool.destroy == Pool.NotStarted
    ensures Apply(h, j, m).pool.destroy == Pool.NotStarted
  {
    hide Service.Enabled, Service.Apply;
  }

  lemma {:induction false} NeverDestroyed(h: Handlers, j: Joint, ms: seq<Move>, k: Joint)
    requires Executes(h, j, ms, k) && j.pool.destroy == Pool.NotStarted
    ensures k.pool.destroy == Pool.NotStarted
    decreases |ms|
  {
    if ms == [] {
    } else {
      hide Enabled, Apply;
      DestroyNotStarted(h, j, ms[0]);
      NeverDestroyed(h, Apply(h, j, ms[0]), ms[1..], k);
    }
  }

  /** A session with a complete request can always post it when the mutex is free: the post goes
      through exactly if the queue is shorter than the limit and the idle workers together, and is
      rejected otherwise. */
  lemma PostNotBlocked(h: Handlers, threads: nat, maxQueue: nat, ms: seq<Move>, j: Joint, token: Token)
    requires Executes(h, Start(threads, maxQueue), ms, j)
    requires j.pool.section == Pool.Free && IsNext(h, j.service, token)
    ensures var room := |j.service.pool.queue| < maxQueue + Pool.Sleepers(j.pool) + Pool.Wakers(j.pool);
      && (Enabled(h, j, Silent(Pool.PostEnter(Pool.Client, Pool.Work(token)))) <==> room)
      && (Enabled(h, j, Reject(token)) <==> !room)
  {
    var s := Start(threads, maxQueue);
    StartInv(h, threads, maxQueue);
    JointInvRun(h, s, ms, j);
    NeverDestroyed(h, s, ms, j);
    RunsOfBoth(h, s, ms, j);
    assert |j.service.pool.queue| == |j.pool.core.queue|;
    hide JointInv, Executes, Decoded, Pool.Executes;
    PoolProperties.PostOutcome(threads, maxQueue, PoolRun(ms), j.pool, Pool.Client, Pool.Work(token));
    PostOfSession(h, j, token);
  }

  lemma PostOfSession(h: Handlers, j: Joint, token: Token)
    requires j.pool.section == Pool.Free && IsNext(h, j.service, token)
    ensures var job := Pool.Work(token);
      && (Enabled(h, j, Silent(Pool.PostEnter(Pool.Client, job)))
          <==> Pool.Enabled(j.pool, Pool.PostEnter(Pool.Client, job)))
      && (Enabled(h, j, Reject(token)) <==> Pool.Enabled(j.pool, Pool.PostReject(Pool.Client, job)))
  {
    hide Decoded;
  }

  // ---------------------------------------------------------------------------------------
  // When the pool rejects a request
  // ---------------------------------------------------------------------------------------

  /** The requests in flight: accepted by the pool, and not yet answered to anyone. */
  ghost function Load(s: State): nat {
    |s.pool.queue| + |s.pool.busy.Keys - s.answered| + |s.responses|
  }

  /** While fewer requests are in flight than the pool's limit, the pool accepts a post. */
  lemma AdmissionHolds(h: Handlers, j: Joint)
    requires JointInv(h, j) && Load(j.service) < j.pool.maxQueue
    ensures PoolCore.Admits(j.pool.core, j.pool.maxQueue)
  {
    assert |j.pool.core.queue| == |j.service.pool.queue|;
    assert Pool.CounterLaw(j.pool);
  }

  /** Before every move fewer requests are in flight than the pool's limit. */
  ghost predicate Uncrowded(h: Handlers, j: Joint, ms: seq<Move>, k: Joint)
    requires Executes(h, j, ms, k)
    decreases |ms|
  {
    ms == [] || (Load(j.service) < j.pool.maxQueue && Uncrowded(h, Apply(h, j, ms[0]), ms[1..], k))
  }

  /** A rejected post is the only way to lose a request. */
  lemma NothingLostStep(h: Handlers, s: State, e: Event)
    requires Service.Enabled(h, s, e) && !e.ReadRejected?
    ensures Service.Apply(h, s, e).lost <= s.lost
  {
    hide Decoded;
  }

  lemma LimitKept(p: PoolState, e: Pool.Event<Token>)
    requires Pool.Enabled(p, e)
    ensures Pool.Apply(p, e).maxQueue == p.maxQueue
  {
  }

  lemma RejectedWhenFull(h: Handlers, j: Joint, token: Token)
    requires Enabled(h, j, Reject(token))
    ensures !PoolCore.Admits(j.pool.core, j.pool.maxQueue)
  {
    hide May, Service.Enabled;
  }

  lemma NotRejected(h: Handlers, j: Joint, m: Move)
    requires JointInv(h, j) && Enabled(h, j, m) && Load(j.service) < j.pool.maxQueue
    ensures !m.Reject? && Apply(h, j, m).service.lost <= j.service.lost
    ensures Apply(h, j, m).pool.maxQueue == j.pool.maxQueue
  {
    AdmissionHolds(h, j);
    if m.Reject? {
      RejectedWhenFull(h, j, m.token);
      assert false;
    }
    hide JointInv, Load, Decoded, Service.Enabled, Service.Apply, Pool.Enabled, Pool.Apply;
    if ServicePart(m).Some? {
      assert May(h, j, m) ==> !ServicePart(m).value.ReadRejected?;
      NothingLostStep(h, j.service, ServicePart(m).value);
    }
    if PoolPart(m).Some? {
      LimitKept(j.pool, PoolPart(m).value);
    }
  }

  lemma {:induction false} NothingLost(h: Handlers, j: Joint, ms: seq<Move>, k: Joint)
    requires JointInv(h, j) && Executes(h, j, ms, k) && Uncrowded(h, j, ms, k)
    ensures k.service.lost <= j.service.lost && forall i :: 0 <= i < |ms| ==> !ms[i].Reject?
    decreases |ms|
  {
    if ms == [] {
    } else {
      hide JointInv, Enabled, Apply;
      NotRejected(h, j, ms[0]);
      JointStep(h, j, ms[0]);
      NothingLost(h, Apply(h, j, ms[0]), ms[1..], k);
    }
  }

  /** The whole server: as long as fewer requests are in flight than the pool's limit (65535), no
      post is rejected, and a clean session has a token on its way, exactly one, exactly if it awaits
      a response. */
  lemma EveryRequestOnItsWay(h: Handlers, threads: nat, maxQueue: nat, ms: seq<Move>, k: Joint, sid: nat)
    requires Executes(h, Start(threads, maxQueue), ms, k) && Uncrowded(h, Start(threads, maxQueue), ms, k)
    requires Clean(k.service, sid)
    ensures forall i :: 0 <= i < |ms| ==> !ms[i].Reject?
    ensures k.service.conns[sid].position.Done? <==> InFlight(k.service, sid)
    ensures forall p, q, u, v :: Holds(k.service, p, u) && Holds(k.service, q, v) && u.sid == v.sid == sid ==>
      p == q && u == v && Awaits(k.service, u)
  {
    StartInv(h, threads, maxQueue);
    NothingLost(h, Start(threads, maxQueue), ms, k);
    RunsOfBoth(h, Start(threads, maxQueue), ms, k);
    hide Executes;
    ExactlyOneToken(h, ServiceRun(ms), k.service, sid);
  }

  // ---------------------------------------------------------------------------------------
  // Requests in flight, counted by sessions
  // ---------------------------------------------------------------------------------------

  /** The live sessions that await a response to an accepted request. */
  ghost function Waiting(s: State): set<nat> {
    set sid | sid in s.conns && Live(s, sid) && s.conns[sid].position.Done? && sid !in s.lost
  }

  ghost function QueueSids(tokens: seq<Token>): set<nat> {
    set i | 0 <= i < |tokens| :: tokens[i].sid
  }

  ghost function BusySids(busy: map<nat, Token>, ws: set<nat>): set<nat>
    requires ws <= busy.Keys
  {
    set w | w in ws :: busy[w].sid
  }

  ghost function ReadySids(rs: seq<Response>): set<nat> {
    set i | 0 <= i < |rs| :: rs[i].token.sid
  }

  lemma {:induction false} QueueCount(tokens: seq<Token>)
    requires forall i, k :: 0 <= i < k < |tokens| ==> tokens[i].sid != tokens[k].sid
    ensures |QueueSids(tokens)| == |tokens|
    decreases |tokens|
  {
    if tokens == [] {
    } else {
      var rest, last := tokens[..|tokens| - 1], tokens[|tokens| - 1].sid;
      QueueCount(rest);
      assert QueueSids(tokens) == QueueSids(rest) + {last};
      assert last !in QueueSids(rest);
    }
  }

  lemma {:induction false} ReadyCount(rs: seq<Response>)
    requires forall i, k :: 0 <= i < k < |rs| ==> rs[i].token.sid != rs[k].token.sid
    ensures |ReadySids(rs)| == |rs|
    decreases |rs|
  {
    if rs == [] {
    } else {
      var rest, last := rs[..|rs| - 1], rs[|rs| - 1].token.sid;
      ReadyCount(rest);
      assert ReadySids(rs) == ReadySids(rest) + {last};
      assert last !in ReadySids(rest);
    }
  }

  lemma {:induction false} BusyCount(busy: map<nat, Token>, ws: set<nat>)
    requires ws <= busy.Keys
    requires forall v, w :: v in ws && w in ws && v != w ==> busy[v].sid != busy[w].sid
    ensures |BusySids(busy, ws)| == |ws|
    decreases |ws|
  {
    if ws == {} {
      assert BusySids(busy, ws) == {};
    } else {
      var w :| w in ws;
      BusyCount(busy, ws - {w});
      assert BusySids(busy, ws) == BusySids(busy, ws - {w}) + {busy[w].sid};
      assert busy[w].sid !in BusySids(busy, ws - {w});
    }
  }

  lemma {:induction false} Smaller(a: set<nat>, b: set<nat>)
    requires a <= b
    ensures |a| <= |b|
    decreases |a|
  {
    if a == {} {
    } else {
      var x :| x in a;
      Smaller(a - {x}, b - {x});
    }
  }

  /** No address is doomed: no client was cut off while it waited. */
  ghost predicate Peaceful(s: State) {
    OverDoomed(s) && forall sid :: !Doomed(s, sid)
  }

  lemma PeacefulToken(h: Handlers, s: State, p: Place, t: Token)
    requires TokenInv(h, s) && Peaceful(s) && Holds(s, p, t)
    ensures Awaits(s, t) && Clean(s, t.sid)
  {
    NotDoomedClean(h, s, p, t);
    assert !Doomed(s, t.sid);
  }

  lemma PeacefulPlaces(h: Handlers, s: State, p: Place, t: Token, q: Place, u: Token)
    requires TokenInv(h, s) && Peaceful(s) && Holds(s, p, t) && Holds(s, q, u) && t.sid == u.sid
    ensures p == q
  {
    PeacefulToken(h, s, p, t);
  }

  /** If no client was cut off while it waited, no more requests are in flight than live sessions
      await a response. */
  lemma LoadIsWaiting(h: Handlers, s: State)
    requires TokenInv(h, s) && Peaceful(s)
    ensures Load(s) <= |Waiting(s)|
  {
    assert s.answered <= s.pool.busy.Keys;
    hide TokenInv, Peaceful;
    var ws := s.pool.busy.Keys - s.answered;
    var a, b, c := QueueSids(s.pool.queue), BusySids(s.pool.busy, ws), ReadySids(s.responses);
    QueuePart(h, s);
    BusyPart(h, s);
    ReadyPart(h, s);
    Apart(h, s);
    Smaller(a + b + c, Waiting(s));
  }

  lemma QueuePart(h: Handlers, s: State)
    requires TokenInv(h, s) && Peaceful(s)
    ensures |QueueSids(s.pool.queue)| == |s.pool.queue| && QueueSids(s.pool.queue) <= Waiting(s)
  {
    hide TokenInv, Peaceful;
    var q := s.pool.queue;
    forall i | 0 <= i < |q| ensures q[i].sid in Waiting(s) {
      PeacefulToken(h, s, Queued(i), q[i]);
    }
    forall i, k | 0 <= i < k < |q| ensures q[i].sid != q[k].sid {
      if q[i].sid == q[k].sid {
        PeacefulPlaces(h, s, Queued(i), q[i], Queued(k), q[k]);
      }
    }
    QueueCount(q);
  }

  lemma BusyPart(h: Handlers, s: State)
    requires TokenInv(h, s) && Peaceful(s)
    ensures var ws := s.pool.busy.Keys - s.answered;
      |BusySids(s.pool.busy, ws)| == |ws| && BusySids(s.pool.busy, ws) <= Waiting(s)
  {
    hide TokenInv, Peaceful;
    var busy, ws := s.pool.busy, s.pool.busy.Keys - s.answered;
    forall w | w in ws ensures busy[w].sid in Waiting(s) {
      PeacefulToken(h, s, With(w), busy[w]);
    }
    forall v, w | v in ws && w in ws && v != w ensures busy[v].sid != busy[w].sid {
      if busy[v].sid == busy[w].sid {
        PeacefulPlaces(h, s, With(v), busy[v], With(w), busy[w]);
      }
    }
    BusyCount(busy, ws);
  }

  lemma ReadyPart(h: Handlers, s: State)
    requires TokenInv(h, s) && Peaceful(s)
    ensures |ReadySids(s.responses)| == |s.responses| && ReadySids(s.responses) <= Waiting(s)
  {
    hide TokenInv, Peaceful;
    var rs := s.responses;
    forall i | 0 <= i < |rs| ensures rs[i].token.sid in Waiting(s) {
      PeacefulToken(h, s, Ready(i), rs[i].token);
    }
    forall i, k | 0 <= i < k < |rs| ensures rs[i].token.sid != rs[k].token.sid {
      if rs[i].token.sid == rs[k].token.sid {
        PeacefulPlaces(h, s, Ready(i), rs[i].token, Ready(k), rs[k].token);
      }
    }
    ReadyCount(rs);
  }

  lemma Apart(h: Handlers, s: State)
    requires TokenInv(h, s) && Peaceful(s)
    ensures var ws := s.pool.busy.Keys - s.answered;
      var a, b, c := QueueSids(s.pool.queue), BusySids(s.pool.busy, ws), ReadySids(s.responses);
      a !! b && a !! c && b !! c
  {
    hide TokenInv, Peaceful;
    var q, busy, rs := s.pool.queue, s.pool.busy, s.responses;
    forall i, w | 0 <= i < |q| && w in busy.Keys - s.answered ensures q[i].sid != busy[w].sid {
      if q[i].sid == busy[w].sid {
        PeacefulPlaces(h, s, Queued(i), q[i], With(w), busy[w]);
      }
    }
    forall i, k | 0 <= i < |q| && 0 <= k < |rs| ensures q[i].sid != rs[k].token.sid {
      if q[i].sid == rs[k].token.sid {
        PeacefulPlaces(h, s, Queued(i), q[i], Ready(k), rs[k].token);
      }
    }
    forall w, k | w in busy.Keys - s.answered && 0 <= k < |rs| ensures busy[w].sid != rs[k].token.sid {
      if busy[w].sid == rs[k].token.sid {
        PeacefulPlaces(h, s, With(w), busy[w], Ready(k), rs[k].token);
      }
    }
  }

  /** Before every move fewer sessions await a response than the pool's limit, and no move cuts one
      off. */
  ghost predicate Calm(h: Handlers, j: Joint, ms: seq<Move>, k: Joint)
    requires Executes(h, j, ms, k)
    decreases |ms|
  {
    ms == [] ||
    (&& |Waiting(j.service)| < j.pool.maxQueue
     && (ServicePart(ms[0]).Some? ==> forall sid :: !CutsOff(j.service, ServicePart(ms[0]).value, sid))
     && Calm(h, Apply(h, j, ms[0]), ms[1..], k))
  }

  lemma PeacefulStep(h: Handlers, s: State, e: Event)
    requires TokenInv(h, s) && Peaceful(s) && Service.Enabled(h, s, e) && forall sid :: !CutsOff(s, e, sid)
    ensures Peaceful(Service.Apply(h, s, e))
  {
    OverStep(h, s, e);
    hide TokenInv, Service.Enabled, Service.Apply, OverDoomed, Doomed, CutsOff;
    forall sid ensures !Doomed(Service.Apply(h, s, e), sid) {
      DoomedStep(h, s, e, sid);
    }
  }

  /** As long as no client is cut off while it waits, the limit can be read as one on sessions. */
  lemma {:induction false} CalmIsUncrowded(h: Handlers, j: Joint, ms: seq<Move>, k: Joint)
    requires JointInv(h, j) && Peaceful(j.service) && Executes(h, j, ms, k) && Calm(h, j, ms, k)
    ensures Uncrowded(h, j, ms, k) && Peaceful(k.service)
    decreases |ms|
  {
    if ms == [] {
    } else {
      JointStep(h, j, ms[0]);
      LoadIsWaiting(h, j.service);
      if ServicePart(ms[0]).Some? {
        PeacefulStep(h, j.service, ServicePart(ms[0]).value);
      }
      hide JointInv, Peaceful, Pool.Enabled, Pool.Apply, Service.Enabled, Service.Apply, May, Load;
      CalmIsUncrowded(h, Apply(h, j, ms[0]), ms[1..], k);
    }
  }

  /** So, while fewer sessions await a response than the limit and none of them is cut off, every
      live session has its one token exactly if it awaits a response. */
  lemma EverySessionServed(h: Handlers, threads: nat, maxQueue: nat, ms: seq<Move>, k: Joint, sid: nat)
    requires Executes(h, Start(threads, maxQueue), ms, k) && Calm(h, Start(threads, maxQueue), ms, k)
    requires Live(k.service, sid)
    ensures Clean(k.service, sid) && forall i :: 0 <= i < |ms| ==> !ms[i].Reject?
    ensures k.service.conns[sid].position.Done? <==> InFlight(k.service, sid)
    ensures forall p, q, u, v :: Holds(k.service, p, u) && Holds(k.service, q, v) && u.sid == v.sid == sid ==>
      p == q && u == v && Awaits(k.service, u)
  {
    StartInv(h, threads, maxQueue);
    assert OverDoomed(INITIAL) && forall n :: !Doomed(INITIAL, n);
    CalmIsUncrowded(h, Start(threads, maxQueue), ms, k);
    assert !Doomed(k.service, sid);
    EveryRequestOnItsWay(h, threads, maxQueue, ms, k, sid);
  }
}
