/** The worker pool as a labelled transition system: N workers, posting threads and the thread
    that destroys the pool interleave at every statement that touches shared state. */
module ThreadPool {
  import opened PoolCore

  /** A queued task: client work, or the destroyer's single stack-allocated exit task. */
  datatype Job<T> = Work(item: T) | Exit

  datatype WorkerState<T> =
    | AtLock             // about to lock the mutex
    | InLock             // inside the critical section; `section` says where
    | Asleep             // blocked in the condition wait
    | Woken              // signalled or woken spuriously, not yet holding the mutex
    | Running(job: Job<T>)
    | Exiting            // the exit handler has cleared the flag
    | Exited

  datatype Poster = Client | Destroyer

  /** Who holds the mutex, and how far the holder has come. */
  datatype Section<T> =
    | Free
    | Entered(w: nat)                          // worker, before `waiting--`
    | Counted(w: nat)                          // worker, at the test of the wait loop
    | Loaded(w: nat, job: Job<T>)              // worker, task unlinked
    | Admitted(poster: Poster, job: Job<T>)    // post, admission test passed
    | Signalled(poster: Poster, job: Job<T>)   // post, signal sent, task not yet linked
    | Linked(poster: Poster, job: Job<T>)      // post, task linked, not yet counted
    | Booked(poster: Poster, job: Job<T>)      // post, about to unlock

  /** The thread running thread_pool_destroy; n counts finished loop iterations. */
  datatype Destroy =
    | NotStarted
    | Ready(n: nat)
    | Armed(n: nat)      // flag set, exit task not yet posted
    | Posting(n: nat)    // inside the post
    | Spinning(n: nat)   // waiting for the flag to clear
    | Failed
    | Returned

  datatype State<T(==)> = State(
    workers: seq<WorkerState<T>>,
    section: Section<T>,
    core: Core<Job<T>>,
    maxQueue: int,
    destroy: Destroy,
    flag: bool,
    accepted: seq<Job<T>>,   // every task linked so far
    taken: seq<Job<T>>,      // every task unlinked so far
    freed: multiset<Job<T>>  // every task whose handler returned and which was freed
  )

  datatype Event<T> =
    // workers
    | Lock(w: nat)
    | Decrement(w: nat)
    | Sleep(w: nat)
    | SpuriousWake(w: nat)
    | Relock(w: nat)
    | Take(w: nat)
    | Unlock(w: nat)
    | Finish(w: nat)
    | ClearFlag(w: nat)
    | Leave(w: nat)
    // posts
    | PostEnter(poster: Poster, job: Job<T>)
    | PostReject(poster: Poster, job: Job<T>)
    | Signal(sleeper: nat)   // one blocked worker is unblocked
    | SignalNobody
    | LinkTask
    | BookTask
    | PostLeave
    // the destroyer
    | StartDestroy
    | Arm
    | SpinDone
    | DestroyReturn

  function Initial<T(==)>(threads: nat, maxQueue: int): State<T> {
    State(seq(threads, _ => AtLock), Free, Core([], 0), maxQueue, NotStarted, false, [], [], multiset{})
  }

  predicate At<T(==)>(s: State<T>, w: nat, state: WorkerState<T>) {
    w < |s.workers| && s.workers[w] == state
  }

  /** May this thread begin a post of this task now? A client must stop before the destroyer starts. */
  predicate MayPost<T(==)>(s: State<T>, poster: Poster, job: Job<T>) {
    && s.section == Free
    && match poster
       case Client => job.Work? && s.destroy == NotStarted
       case Destroyer => job == Exit && s.destroy.Armed?
  }

  ghost predicate Enabled<T>(s: State<T>, e: Event<T>) {
    match e
    case Lock(w) => At(s, w, AtLock) && s.section == Free
    case Decrement(w) => s.section == Entered(w)
    case Sleep(w) => s.section == Counted(w) && s.core.queue == []
    case SpuriousWake(w) => At(s, w, Asleep)
    case Relock(w) => At(s, w, Woken) && s.section == Free
    case Take(w) => s.section == Counted(w) && s.core.queue != []
    case Unlock(w) => s.section.Loaded? && s.section.w == w
    case Finish(w) => w < |s.workers| && s.workers[w].Running? && s.workers[w].job.Work?
    case ClearFlag(w) => At(s, w, Running(Exit))
    case Leave(w) => At(s, w, Exiting)
    case PostEnter(p, job) => MayPost(s, p, job) && Admits(s.core, s.maxQueue)
    case PostReject(p, job) => MayPost(s, p, job) && !Admits(s.core, s.maxQueue)
    case Signal(w) => s.section.Admitted? && At(s, w, Asleep)
    case SignalNobody => s.section.Admitted? && forall w :: 0 <= w < |s.workers| ==> s.workers[w] != Asleep
    case LinkTask => s.section.Signalled?
    case BookTask => s.section.Linked?
    case PostLeave => s.section.Booked?
    case StartDestroy => s.destroy == NotStarted
    case Arm => s.destroy.Ready? && s.destroy.n < |s.workers|
    case SpinDone => s.destroy.Spinning? && !s.flag
    case DestroyReturn => s.destroy.Ready? && s.destroy.n >= |s.workers|
  }

  ghost function Move<T>(s: State<T>, w: nat, state: WorkerState<T>): State<T> {
    if w < |s.workers| then s.(workers := s.workers[w := state]) else s
  }

  ghost function Apply<T>(s: State<T>, e: Event<T>): State<T>
    requires Enabled(s, e)
  {
    match e
    case Lock(w) => Move(s, w, InLock).(section := Entered(w))
    case Decrement(w) => s.(section := Counted(w), core := PoolCore.Announce(s.core))
    case Sleep(w) => Move(s, w, Asleep).(section := Free)
    case SpuriousWake(w) => Move(s, w, Woken)
    case Relock(w) => Move(s, w, InLock).(section := Counted(w))
    case Take(w) =>
      s.(section := Loaded(w, s.core.queue[0]), core := Unlink(s.core), taken := s.taken + [s.core.queue[0]])
    case Unlock(w) => Move(s, w, Running(s.section.job)).(section := Free)
    case Finish(w) => Move(s, w, AtLock).(freed := s.freed + multiset{s.workers[w].job})
    case ClearFlag(w) => Move(s, w, Exiting).(flag := false)
    case Leave(w) => Move(s, w, Exited)
    case PostEnter(p, job) =>
      s.(section := Admitted(p, job), destroy := if p == Destroyer then Posting(s.destroy.n) else s.destroy)
    case PostReject(p, job) => if p == Destroyer then s.(destroy := Failed) else s
    case Signal(w) => Move(s, w, Woken).(section := Signalled(s.section.poster, s.section.job))
    case SignalNobody => s.(section := Signalled(s.section.poster, s.section.job))
    case LinkTask =>
      s.(section := Linked(s.section.poster, s.section.job),
         core := Link(s.core, s.section.job), accepted := s.accepted + [s.section.job])
    case BookTask => s.(section := Booked(s.section.poster, s.section.job), core := Book(s.core))
    case PostLeave =>
      s.(section := Free,
         destroy := if s.section.poster == Destroyer && s.destroy.Posting? then Spinning(s.destroy.n) else s.destroy)
    case StartDestroy => s.(destroy := Ready(0))
    case Arm => s.(flag := true, destroy := Armed(s.destroy.n))
    case SpinDone => s.(destroy := Ready(s.destroy.n + 1))
    case DestroyReturn => s.(destroy := Returned)
  }

  /** Some schedule of events leads from s to t. */
  ghost predicate Executes<T(!new)>(s: State<T>, es: seq<Event<T>>, t: State<T>)
    decreases |es|
  {
    if es == [] then s == t
    else Enabled(s, es[0]) && Executes(Apply(s, es[0]), es[1..], t)
  }

  // ---------------------------------------------------------------------------------------
  // Counting workers
  // ---------------------------------------------------------------------------------------

  ghost function Sum<T>(ws: seq<WorkerState<T>>, weight: WorkerState<T> -> nat): nat {
    if ws == [] then 0 else weight(ws[0]) + Sum(ws[1..], weight)
  }

  lemma {:induction false} SumUpdate<T>(ws: seq<WorkerState<T>>, w: nat, x: WorkerState<T>,
                                        weight: WorkerState<T> -> nat)
    requires w < |ws|
    ensures Sum(ws[w := x], weight) == Sum(ws, weight) - weight(ws[w]) + weight(x)
  {
    if w == 0 {
      assert ws[w := x][1..] == ws[1..];
    } else {
      assert ws[w := x][1..] == ws[1..][w - 1 := x];
      SumUpdate(ws[1..], w - 1, x, weight);
    }
  }

  lemma {:induction false} SumMember<T>(ws: seq<WorkerState<T>>, w: nat, weight: WorkerState<T> -> nat)
    requires w < |ws|
    ensures weight(ws[w]) <= Sum(ws, weight)
  {
    if w == 0 {
    } else {
      SumMember(ws[1..], w - 1, weight);
    }
  }

  lemma {:induction false} SumPositive<T>(ws: seq<WorkerState<T>>, weight: WorkerState<T> -> nat) returns (w: nat)
    requires Sum(ws, weight) > 0
    ensures w < |ws| && weight(ws[w]) > 0
  {
    if weight(ws[0]) > 0 {
      w := 0;
    } else {
      w := SumPositive(ws[1..], weight);
      w := w + 1;
    }
  }

  function AsleepWeight<T>(x: WorkerState<T>): nat { if x.Asleep? then 1 else 0 }
  function WokenWeight<T>(x: WorkerState<T>): nat { if x.Woken? then 1 else 0 }
  /** The worker has run the exit handler. */
  function GoneWeight<T>(x: WorkerState<T>): nat { if x.Exiting? || x.Exited? then 1 else 0 }

  ghost function Sleepers<T>(s: State<T>): nat { Sum(s.workers, AsleepWeight) }
  ghost function Wakers<T>(s: State<T>): nat { Sum(s.workers, WokenWeight) }
  ghost function Gone<T>(s: State<T>): nat { Sum(s.workers, GoneWeight) }

  /** Counts the workers that are running a given task. */
  ghost function Runs<T>(job: Job<T>): WorkerState<T> -> nat {
    x => if x == Running(job) then 1 else 0
  }

  /** How often a task has been freed, is being run, is in the hand of the worker inside the
      critical section, or (the exit task) has ended a worker. */
  ghost function Accounted<T>(s: State<T>, job: Job<T>): nat {
    s.freed[job] + Sum(s.workers, Runs(job)) + (if s.section.Loaded? && s.section.job == job then 1 else 0)
    + if job == Exit then Gone(s) else 0
  }

  // ---------------------------------------------------------------------------------------
  // Invariants
  // ---------------------------------------------------------------------------------------

  ghost predicate HoldsSection<T>(s: State<T>, w: nat) {
    (s.section.Entered? || s.section.Counted? || s.section.Loaded?) && s.section.w == w
  }

  /** Mutual exclusion: exactly the worker named by the section is inside it. */
  ghost predicate Exclusive<T>(s: State<T>) {
    && (forall w :: 0 <= w < |s.workers| ==> (s.workers[w] == InLock <==> HoldsSection(s, w)))
    && (s.section.Entered? || s.section.Counted? || s.section.Loaded? ==> s.section.w < |s.workers|)
  }

  ghost function CountDebt<T>(section: Section<T>): int {
    if section.Counted? || section.Linked? then 1 else 0
  }

  /** The counter is the queue length less the workers that have counted themselves and hold no task. */
  ghost predicate CounterLaw<T>(s: State<T>) {
    && s.core.waiting == |s.core.queue| - Sleepers(s) - Wakers(s) - CountDebt(s.section)
    && s.core.waiting <= s.maxQueue
    && (s.section.Admitted? || s.section.Signalled? || s.section.Linked? ==> s.core.waiting < s.maxQueue)
    && (s.section.Linked? ==> s.core.queue != [])
  }

  /** If a worker sleeps unsignalled, every queued task has a woken worker on its way to the queue. */
  ghost predicate WakeLaw<T>(s: State<T>) {
    Sleepers(s) > 0 ==>
      |s.core.queue| + (if s.section.Signalled? then 1 else 0)
      <= Wakers(s) + (if s.section.Counted? then 1 else 0)
  }

  /** Tasks leave in the order they came, and none is lost, duplicated or freed early. */
  ghost predicate Conservation<T(!new)>(s: State<T>) {
    && s.accepted == s.taken + s.core.queue
    && (forall job :: multiset(s.taken)[job] == Accounted(s, job))
    && Exit !in s.freed
  }

  ghost predicate PoolInv<T(!new)>(s: State<T>) {
    Exclusive(s) && CounterLaw(s) && WakeLaw(s) && Conservation(s)
  }

  lemma {:induction false} SumAtLock<T>(threads: nat, weight: WorkerState<T> -> nat)
    requires weight(AtLock) == 0
    ensures Sum(seq(threads, _ => AtLock), weight) == 0
  {
    if threads == 0 {
    } else {
      assert seq<WorkerState<T>>(threads, _ => AtLock)[1..] == seq(threads - 1, _ => AtLock);
      SumAtLock(threads - 1, weight);
    }
  }

  lemma InitialInv<T(!new)>(threads: nat, maxQueue: nat)
    ensures PoolInv(Initial<T>(threads, maxQueue))
  {
    SumAtLock<T>(threads, AsleepWeight);
    SumAtLock<T>(threads, WokenWeight);
    SumAtLock<T>(threads, GoneWeight);
    forall job: Job<T> ensures Accounted(Initial<T>(threads, maxQueue), job) == 0 {
      SumAtLock<T>(threads, Runs(job));
    }
  }

  /** The worker whose state this event changes, if any. */
  ghost function Mover<T>(s: State<T>, e: Event<T>): nat {
    match e
    case Lock(w) => w
    case Decrement(w) => w
    case Sleep(w) => w
    case SpuriousWake(w) => w
    case Relock(w) => w
    case Take(w) => w
    case Unlock(w) => w
    case Finish(w) => w
    case ClearFlag(w) => w
    case Leave(w) => w
    case Signal(w) => w
    case _ => |s.workers|
  }

  /** How one event changes any weighted count of workers. */
  lemma SumStep<T>(s: State<T>, e: Event<T>, weight: WorkerState<T> -> nat)
    requires Enabled(s, e)
    ensures |Apply(s, e).workers| == |s.workers|
    ensures var w := Mover(s, e);
      Sum(Apply(s, e).workers, weight) ==
        if w < |s.workers| then Sum(s.workers, weight) - weight(s.workers[w]) + weight(Apply(s, e).workers[w])
        else Sum(s.workers, weight)
  {
    var w, t := Mover(s, e), Apply(s, e);
    if w < |s.workers| {
      assert t.workers == s.workers[w := t.workers[w]];
      SumUpdate(s.workers, w, t.workers[w], weight);
    } else {
      assert t.workers == s.workers;
    }
  }

  /** Steps of a worker; the others are steps of a post or of the destroyer. */
  predicate ByWorker<T>(e: Event<T>) {
    match e
    case Lock(_) => true
    case Decrement(_) => true
    case Sleep(_) => true
    case SpuriousWake(_) => true
    case Relock(_) => true
    case Take(_) => true
    case Unlock(_) => true
    case Finish(_) => true
    case ClearFlag(_) => true
    case Leave(_) => true
    case _ => false
  }

  lemma ExclusiveByWorker<T>(s: State<T>, e: Event<T>)
    requires Exclusive(s) && Enabled(s, e) && ByWorker(e)
    ensures Exclusive(Apply(s, e))
  {
  }

  lemma ExclusiveByOther<T>(s: State<T>, e: Event<T>)
    requires Exclusive(s) && Enabled(s, e) && !ByWorker(e)
    ensures Exclusive(Apply(s, e))
  {
  }

  lemma ExclusiveStep<T>(s: State<T>, e: Event<T>)
    requires Exclusive(s) && Enabled(s, e)
    ensures Exclusive(Apply(s, e))
  {
    hide *;
    if ByWorker(e) {
      ExclusiveByWorker(s, e);
    } else {
      ExclusiveByOther(s, e);
    }
  }

  lemma CounterByWorker<T>(s: State<T>, e: Event<T>)
    requires Exclusive(s) && CounterLaw(s) && Enabled(s, e) && ByWorker(e)
    ensures CounterLaw(Apply(s, e))
  {
    hide Sum;
    SumStep(s, e, AsleepWeight);
    SumStep(s, e, WokenWeight);
  }

  lemma CounterByOther<T>(s: State<T>, e: Event<T>)
    requires CounterLaw(s) && Enabled(s, e) && !ByWorker(e)
    ensures CounterLaw(Apply(s, e))
  {
    hide Sum;
    SumStep(s, e, AsleepWeight);
    SumStep(s, e, WokenWeight);
  }

  lemma CounterStep<T>(s: State<T>, e: Event<T>)
    requires Exclusive(s) && CounterLaw(s) && Enabled(s, e)
    ensures CounterLaw(Apply(s, e))
  {
    hide *;
    if ByWorker(e) {
      CounterByWorker(s, e);
    } else {
      CounterByOther(s, e);
    }
  }

  lemma WakeStep<T>(s: State<T>, e: Event<T>)
    requires Exclusive(s) && WakeLaw(s) && Enabled(s, e)
    ensures WakeLaw(Apply(s, e))
  {
    hide Sum;
    SumStep(s, e, AsleepWeight);
    SumStep(s, e, WokenWeight);
    if e.SignalNobody? && Sleepers(s) > 0 {
      var w := SumPositive(s.workers, AsleepWeight);
    }
  }

  lemma AccountedByWorker<T>(s: State<T>, e: Event<T>, job: Job<T>)
    requires Exclusive(s) && Enabled(s, e) && ByWorker(e)
    ensures Accounted(Apply(s, e), job)
         == Accounted(s, job) + if e.Take? && s.core.queue[0] == job then 1 else 0
  {
    hide Sum;
    SumStep(s, e, GoneWeight);
    SumStep(s, e, Runs(job));
  }

  lemma AccountedByOther<T>(s: State<T>, e: Event<T>, job: Job<T>)
    requires Enabled(s, e) && !ByWorker(e)
    ensures Accounted(Apply(s, e), job) == Accounted(s, job)
  {
    hide Sum;
    SumStep(s, e, GoneWeight);
    SumStep(s, e, Runs(job));
  }

  /** A task is accounted for once more exactly when it is taken from the queue. */
  lemma AccountedStep<T>(s: State<T>, e: Event<T>, job: Job<T>)
    requires Exclusive(s) && Enabled(s, e)
    ensures Accounted(Apply(s, e), job)
         == Accounted(s, job) + if e.Take? && s.core.queue[0] == job then 1 else 0
  {
    hide Accounted, Apply, Exclusive;
    if ByWorker(e) {
      AccountedByWorker(s, e, job);
    } else {
      AccountedByOther(s, e, job);
    }
  }

  lemma QueueStep<T>(s: State<T>, e: Event<T>)
    requires Enabled(s, e) && s.accepted == s.taken + s.core.queue
    ensures var t := Apply(s, e); t.accepted == t.taken + t.core.queue
    ensures var t := Apply(s, e); t.taken == if e.Take? then s.taken + [s.core.queue[0]] else s.taken
    ensures e.Finish? ==> Apply(s, e).freed == s.freed + multiset{s.workers[e.w].job} && s.workers[e.w].job != Exit
    ensures !e.Finish? ==> Apply(s, e).freed == s.freed
  {
    if e.Take? {
      assert s.core.queue == [s.core.queue[0]] + s.core.queue[1..];
    }
  }

  lemma ConservationStep<T(!new)>(s: State<T>, e: Event<T>)
    requires Exclusive(s) && Conservation(s) && Enabled(s, e)
    ensures Conservation(Apply(s, e))
  {
    QueueStep(s, e);
    hide Accounted, Exclusive, Apply;
    var t := Apply(s, e);
    forall job ensures multiset(t.taken)[job] == Accounted(t, job) {
      AccountedStep(s, e, job);
    }
  }

  lemma PoolInvStep<T(!new)>(s: State<T>, e: Event<T>)
    requires PoolInv(s) && Enabled(s, e)
    ensures PoolInv(Apply(s, e))
  {
    ExclusiveStep(s, e);
    CounterStep(s, e);
    WakeStep(s, e);
    ConservationStep(s, e);
  }

  lemma {:induction false} PoolInvRun<T(!new)>(s: State<T>, es: seq<Event<T>>, t: State<T>)
    requires PoolInv(s) && Executes(s, es, t)
    ensures PoolInv(t) && |t.workers| == |s.workers| && t.maxQueue == s.maxQueue
    decreases |es|
  {
    if es == [] {
    } else {
      PoolInvStep(s, es[0]);
      SumStep(s, es[0], AsleepWeight);
      PoolInvRun(Apply(s, es[0]), es[1..], t);
    }
  }
}
