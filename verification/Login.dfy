/** The verification codes that the user event handler keeps per mobile number: first the handler
    as an object, then any number of workers inside its two request handlers at once. */
module Login {
  import opened Options

  const ERRC_SUCCESS: int := 200
  const ERRC_INVALID_DATA: int := 404
  const ERRC_PROCESS_FAILED: int := 406

  /** One store into the code table. */
  datatype Stored = Stored(mobile: string, code: int)

  /** The code stored last for a mobile number, if any. */
  function Latest(log: seq<Stored>, mobile: string): Option<int> {
    if log == [] then None
    else if log[|log| - 1].mobile == mobile then Some(log[|log| - 1].code)
    else Latest(log[..|log| - 1], mobile)
  }

  /** A code is the latest for a number exactly if it was stored for it and nothing was stored for
      it after that. */
  lemma {:induction false} LatestLaw(log: seq<Stored>, mobile: string, code: int)
    ensures Latest(log, mobile) == Some(code) <==> exists i :: IsLatest(log, i, mobile, code)
    ensures Latest(log, mobile).None? <==> forall i :: 0 <= i < |log| ==> log[i].mobile != mobile
  {
    if log == [] {
    } else {
      var n, earlier := |log| - 1, log[..|log| - 1];
      LatestLaw(earlier, mobile, code);
      if log[n].mobile == mobile {
        assert log[n].code == code ==> IsLatest(log, n, mobile, code);
      } else {
        forall i | IsLatest(earlier, i, mobile, code) ensures IsLatest(log, i, mobile, code) {
        }
        forall i | IsLatest(log, i, mobile, code) ensures IsLatest(earlier, i, mobile, code) {
        }
      }
    }
  }

  ghost predicate IsLatest(log: seq<Stored>, i: int, mobile: string, code: int) {
    0 <= i < |log| && log[i] == Stored(mobile, code) && forall j :: i < j < |log| ==> log[j].mobile != mobile
  }

  /** The answers of the user database, which is not part of this model. */
  datatype Database = Database(connects: bool, knowsUser: bool, insertsUser: bool)

  /** What a login whose code was right ends with. */
  function AfterCheck(db: Database): int {
    if db.connects && (db.knowsUser || db.insertsUser) then ERRC_SUCCESS else ERRC_PROCESS_FAILED
  }

  class UserEventHandler {
    var m2c: map<string, int>
    /** Every store so far, in order. */
    ghost var log: seq<Stored>

    ghost predicate Valid()
      reads this
    {
      forall m :: Lookup(m2c, m) == Latest(log, m)
    }

    constructor ()
      ensures Valid() && log == []
    {
      m2c, log := map[], [];
    }

    /** A fresh code of six digits, drawn at random from 100000 to 999998, replaces any other. */
    method HandleMobileCodeReq(mobile: string, generated: int) returns (code: int, icode: int)
      requires Valid() && 100000 <= generated <= 999998
      modifies this
      ensures Valid() && log == old(log) + [Stored(mobile, generated)]
      ensures code == 200 && icode == generated
      ensures Latest(log, mobile) == Some(generated)
      ensures forall m :: m != mobile ==> Latest(log, m) == old(Latest(log, m))
    {
      m2c := m2c[mobile := generated];
      log := log + [Stored(mobile, generated)];
      return ERRC_SUCCESS, generated;
    }

    method HandleLoginReq(mobile: string, icode: int, db: Database) returns (code: int)
      requires Valid()
      ensures code ==
        if Latest(log, mobile) != Some(icode) then 404
        else if db.connects && (db.knowsUser || db.insertsUser) then 200
        else 406
    {
      assert Lookup(m2c, mobile) == Latest(log, mobile);
      if (mobile in m2c && icode != m2c[mobile]) || mobile !in m2c {
        return ERRC_INVALID_DATA;
      }
      if !db.connects {
        return ERRC_PROCESS_FAILED;
      }
      if !db.knowsUser {
        if !db.insertsUser {
          return ERRC_PROCESS_FAILED;
        }
      }
      return ERRC_SUCCESS;
    }
  }

  function Lookup(table: map<string, int>, mobile: string): Option<int> {
    if mobile in table then Some(table[mobile]) else None
  }

  // ---------------------------------------------------------------------------------------
  // Workers interleaved
  // ---------------------------------------------------------------------------------------

  /** Where a worker is in one of the two handlers. */
  datatype Worker =
    | Idle
    | WantStore(mobile: string, code: int)
    | Storing(mobile: string, code: int)                              // lock held
    | HasStored(mobile: string, code: int)                            // lock held
    | WantCheck(mobile: string, code: int)
    | Checking(mobile: string, code: int)                             // lock held
    | Checked(mobile: string, code: int, matches: bool, at: nat)      // lock held
    | Passed(mobile: string, code: int, at: nat)                      // on its way to the database

  /** Replies; `at` is how many stores had been made when the lock-protected check ran, and `db` what
      the database answered, if it was asked. */
  datatype Reply =
    | CodeReply(mobile: string, code: int)
    | LoginReply(mobile: string, code: int, status: int, at: nat, db: Option<Database>)

  datatype State = State(
    workers: seq<Worker>,
    holder: Option<nat>,
    table: map<string, int>,
    log: seq<Stored>,
    replies: seq<Reply>
  )

  datatype Event =
    | BeginCode(w: nat, mobile: string, code: int)
    | BeginLogin(w: nat, mobile: string, code: int)
    | Acquire(w: nat)
    | Store(w: nat)
    | Check(w: nat)
    | Release(w: nat)
    | AskDatabase(w: nat, db: Database)

  predicate Locking(x: Worker) {
    x.Storing? || x.HasStored? || x.Checking? || x.Checked?
  }

  predicate Enabled(s: State, e: Event) {
    e.w < |s.workers| &&
    var x := s.workers[e.w];
    match e
    case BeginCode(_, _, _) => x.Idle?
    case BeginLogin(_, _, _) => x.Idle?
    case Acquire(_) => (x.WantStore? || x.WantCheck?) && s.holder == None
    case Store(_) => x.Storing?
    case Check(_) => x.Checking?
    case Release(_) => x.HasStored? || x.Checked?
    case AskDatabase(_, _) => x.Passed?
  }

  function Apply(s: State, e: Event): State
    requires Enabled(s, e)
  {
    var x := s.workers[e.w];
    match e
    case BeginCode(w, mobile, code) => s.(workers := s.workers[w := WantStore(mobile, code)])
    case BeginLogin(w, mobile, code) => s.(workers := s.workers[w := WantCheck(mobile, code)])
    case Acquire(w) =>
      s.(holder := Some(w),
         workers := s.workers[w := if x.WantStore? then Storing(x.mobile, x.code) else Checking(x.mobile, x.code)])
    case Store(w) =>
      s.(table := s.table[x.mobile := x.code], log := s.log + [Stored(x.mobile, x.code)],
         workers := s.workers[w := HasStored(x.mobile, x.code)])
    case Check(w) =>
      var matches := !((x.mobile in s.table && x.code != s.table[x.mobile]) || x.mobile !in s.table);
      s.(workers := s.workers[w := Checked(x.mobile, x.code, matches, |s.log|)])
    case Release(w) =>
      if x.HasStored? then
        s.(holder := None, workers := s.workers[w := Idle], replies := s.replies + [CodeReply(x.mobile, x.code)])
      else if x.matches then
        s.(holder := None, workers := s.workers[w := Passed(x.mobile, x.code, x.at)])
      else
        s.(holder := None, workers := s.workers[w := Idle],
           replies := s.replies + [LoginReply(x.mobile, x.code, ERRC_INVALID_DATA, x.at, None)])
    case AskDatabase(w, db) =>
      s.(workers := s.workers[w := Idle],
         replies := s.replies + [LoginReply(x.mobile, x.code, AfterCheck(db), x.at, Some(db))])
  }

  function Initial(threads: nat): State {
    State(seq(threads, _ => Idle), None, map[], [], [])
  }

  predicate Executes(s: State, es: seq<Event>, t: State)
    decreases |es|
  {
    if es == [] then s == t
    else Enabled(s, es[0]) && Executes(Apply(s, es[0]), es[1..], t)
  }

  /** The code was the latest one stored for the mobile number when `at` stores had been made. */
  predicate RightCode(log: seq<Stored>, mobile: string, code: int, at: nat) {
    at <= |log| && Latest(log[..at], mobile) == Some(code)
  }

  predicate WorkerFits(log: seq<Stored>, x: Worker) {
    match x
    case HasStored(m, c) => Stored(m, c) in log
    case Checked(m, c, matches, at) => at <= |log| && (matches <==> RightCode(log, m, c, at))
    case Passed(m, c, at) => RightCode(log, m, c, at)
    case _ => true
  }

  predicate ReplyFits(log: seq<Stored>, r: Reply) {
    match r
    case CodeReply(m, c) => Stored(m, c) in log
    case LoginReply(m, c, status, at, db) =>
      && at <= |log| && (db.Some? <==> RightCode(log, m, c, at))
      && status == if db.Some? then AfterCheck(db.value) else ERRC_INVALID_DATA
  }

  ghost predicate Inv(s: State) {
    && (forall w :: 0 <= w < |s.workers| ==> (Locking(s.workers[w]) <==> s.holder == Some(w)))
    && (s.holder.Some? ==> s.holder.value < |s.workers|)
    && (forall m :: Lookup(s.table, m) == Latest(s.log, m))
    && (forall x :: x in s.workers ==> WorkerFits(s.log, x))
    && (forall r :: r in s.replies ==> ReplyFits(s.log, r))
  }

  lemma FitsKept(log: seq<Stored>, more: Stored, x: Worker, r: Reply)
    ensures WorkerFits(log, x) ==> WorkerFits(log + [more], x)
    ensures ReplyFits(log, r) ==> ReplyFits(log + [more], r)
  {
    assert forall at :: 0 <= at <= |log| ==> (log + [more])[..at] == log[..at];
  }

  lemma InvStore(s: State, w: nat)
    requires Inv(s) && Enabled(s, Store(w))
    ensures Inv(Apply(s, Store(w)))
  {
    var x, t := s.workers[w], Apply(s, Store(w));
    var added := Stored(x.mobile, x.code);
    assert added in t.log;
    forall y | y in t.workers ensures WorkerFits(t.log, y) {
      assert y in s.workers || y == HasStored(x.mobile, x.code);
      FitsKept(s.log, added, y, CodeReply(x.mobile, x.code));
    }
    forall r | r in t.replies ensures ReplyFits(t.log, r) {
      FitsKept(s.log, added, x, r);
    }
  }

  lemma InvStep(s: State, e: Event)
    requires Inv(s) && Enabled(s, e)
    ensures Inv(Apply(s, e))
  {
    var x := s.workers[e.w];
    assert WorkerFits(s.log, x);
    match e {
      case Store(w) => InvStore(s, w);
      case Check(w) =>
        assert Lookup(s.table, x.mobile) == Latest(s.log, x.mobile);
        assert s.log[..|s.log|] == s.log;
      case _ =>
    }
  }

  lemma {:induction false} InvRun(s: State, es: seq<Event>, t: State)
    requires Inv(s) && Executes(s, es, t)
    ensures Inv(t)
    decreases |es|
  {
    if es == [] {
    } else {
      InvStep(s, es[0]);
      InvRun(Apply(s, es[0]), es[1..], t);
    }
  }

  /** Login safety over all interleavings: a login is refused as invalid (404), without asking the
      database, exactly if its code was not the latest one stored for the mobile number at the moment
      of the locked check, whatever other workers stored before or after. Otherwise it succeeds (200)
      exactly if the database is there and knows the user or can enter him, and fails (406) if not. */
  lemma LoginSafety(threads: nat, es: seq<Event>, t: State, i: nat)
    requires Executes(Initial(threads), es, t) && i < |t.replies|
    ensures t.replies[i].LoginReply? ==>
      var LoginReply(mobile, code, status, at, db) := t.replies[i];
      && at <= |t.log|
      && (status == 404 <==> Latest(t.log[..at], mobile) != Some(code))
      && (db.Some? <==> Latest(t.log[..at], mobile) == Some(code))
      && (db.Some? ==>
            status == if db.value.connects && (db.value.knowsUser || db.value.insertsUser) then 200 else 406)
    ensures t.replies[i].CodeReply? ==> Stored(t.replies[i].mobile, t.replies[i].code) in t.log
  {
    InvRun(Initial(threads), es, t);
    assert t.replies[i] in t.replies;
  }

  /** The lock is never left held: at most one worker is between lock and unlock, and it always
      leaves within two steps of its own. */
  lemma LockReleased(threads: nat, es: seq<Event>, t: State) returns (more: seq<Event>, u: State)
    requires Executes(Initial(threads), es, t) && t.holder.Some?
    ensures |more| <= 2 && Executes(t, more, u) && u.holder == None
    ensures forall i :: 0 <= i < |more| ==> more[i].w == t.holder.value
    ensures forall v, w | 0 <= v < |t.workers| && 0 <= w < |t.workers| ::
      Locking(t.workers[v]) && Locking(t.workers[w]) ==> v == w
  {
    InvRun(Initial(threads), es, t);
    var w := t.holder.value;
    match t.workers[w] {
      case Storing(_, _) =>
        more := [Store(w), Release(w)];
      case Checking(_, _) =>
        more := [Check(w), Release(w)];
      case _ =>
        more := [Release(w)];
    }
    if |more| == 2 {
      var mid := Apply(t, more[0]);
      u := Apply(mid, Release(w));
      assert more[1..] == [Release(w)];
      assert Executes(mid, [Release(w)], u);
    } else {
      u := Apply(t, Release(w));
    }
  }
}
