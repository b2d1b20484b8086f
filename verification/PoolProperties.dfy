/** What every reachable state of the worker pool satisfies, read off the invariants of the
    step system, and a refinement of the step system by a plain FIFO service. */
module PoolProperties {
  import opened PoolCore
  import opened ThreadPool

  ghost predicate Reachable<T(!new)>(threads: nat, maxQueue: nat, es: seq<Event<T>>, t: State<T>) {
    Executes(Initial(threads, maxQueue), es, t)
  }

  lemma ReachableInv<T(!new)>(threads: nat, maxQueue: nat, es: seq<Event<T>>, t: State<T>)
    requires Reachable(threads, maxQueue, es, t)
    ensures PoolInv(t) && |t.workers| == threads && t.maxQueue == maxQueue
  {
    InitialInv<T>(threads, maxQueue);
    PoolInvRun(Initial(threads, maxQueue), es, t);
  }

  function InLockWeight<T>(x: WorkerState<T>): nat { if x.InLock? then 1 else 0 }

  lemma {:induction false} DisjointSums<T>(ws: seq<WorkerState<T>>)
    ensures Sum(ws, AsleepWeight) + Sum(ws, WokenWeight) + Sum(ws, InLockWeight) <= |ws|
  {
    if ws == [] {
    } else {
      DisjointSums(ws[1..]);
    }
  }

  /** The counter law: with the mutex free, `waiting` is the queue length less the workers that
      counted themselves and still have no task. So it may go negative, never past the number of
      threads, and the queue may exceed the limit, never by more than the number of threads. */
  lemma CounterLawHolds<T(!new)>(threads: nat, maxQueue: nat, es: seq<Event<T>>, t: State<T>)
    requires Reachable(threads, maxQueue, es, t)
    ensures t.section == Free ==> t.core.waiting == |t.core.queue| - Sleepers(t) - Wakers(t)
    ensures 0 - threads <= t.core.waiting <= maxQueue
    ensures |t.core.queue| <= maxQueue + threads
  {
    ReachableInv(threads, maxQueue, es, t);
    DisjointSums(t.workers);
    if t.section.Counted? {
      SumMember(t.workers, t.section.w, InLockWeight);
    }
  }

  /** What becomes of a post, by a client or by the destroyer: with the mutex free it goes through
      exactly if the queue is shorter than the limit plus the workers that have counted themselves
      and still have no task, and is rejected otherwise. */
  lemma PostOutcome<T(!new)>(threads: nat, maxQueue: nat, es: seq<Event<T>>, t: State<T>, p: Poster, job: Job<T>)
    requires Reachable(threads, maxQueue, es, t) && t.section == Free
    requires match p
      case Client => job.Work? && t.destroy == NotStarted
      case Destroyer => job == Exit && t.destroy.Armed?
    ensures Enabled(t, PostEnter(p, job)) <==> |t.core.queue| < maxQueue + Sleepers(t) + Wakers(t)
    ensures Enabled(t, PostReject(p, job)) <==> |t.core.queue| >= maxQueue + Sleepers(t) + Wakers(t)
  {
    ReachableInv(threads, maxQueue, es, t);
  }

  /** No lost wake-up: in every reachable state a worker is asleep beside a non-empty queue only
      while each queued task has a worker on its way to it, woken or just about to look at the
      queue, although the signal precedes the link. So there is never a task with everybody asleep. */
  lemma NoLostWakeup<T(!new)>(threads: nat, maxQueue: nat, es: seq<Event<T>>, t: State<T>, sleeper: nat)
    requires Reachable(threads, maxQueue, es, t) && At(t, sleeper, Asleep)
    ensures |t.core.queue| <= Wakers(t) + if t.section.Counted? then 1 else 0
    ensures t.core.queue != [] ==> exists w :: At(t, w, Woken) || At(t, w, InLock)
  {
    ReachableInv(threads, maxQueue, es, t);
    SumMember(t.workers, sleeper, AsleepWeight);
    if t.section.Counted? {
      assert At(t, t.section.w, InLock);
    } else if t.core.queue != [] {
      var w := SumPositive(t.workers, WokenWeight);
      assert At(t, w, Woken);
    }
  }

  /** First in, first out, and every accepted task is in exactly one place. */
  lemma FifoExactlyOnce<T(!new)>(threads: nat, maxQueue: nat, es: seq<Event<T>>, t: State<T>, job: Job<T>)
    requires Reachable(threads, maxQueue, es, t) && job.Work?
    ensures t.accepted == t.taken + t.core.queue
    ensures multiset(t.accepted)[job]
         == multiset(t.core.queue)[job] + Sum(t.workers, Runs(job)) + t.freed[job]
            + if t.section.Loaded? && t.section.job == job then 1 else 0
  {
    ReachableInv(threads, maxQueue, es, t);
    assert multiset(t.accepted) == multiset(t.taken) + multiset(t.core.queue);
    assert multiset(t.taken)[job] == Accounted(t, job);
  }

  // ---------------------------------------------------------------------------------------
  // The pool as its clients see it
  // ---------------------------------------------------------------------------------------

  /** Tasks in order of acceptance, and what each busy worker is on. */
  datatype Fifo<T> = Fifo(queue: seq<T>, busy: map<nat, T>)

  datatype FifoEvent<T> = Stutter | Accept(task: T) | Begin(w: nat) | Complete(w: nat)

  ghost predicate FifoStep<T>(f: Fifo<T>, e: FifoEvent<T>, g: Fifo<T>) {
    match e
    case Stutter => g == f
    case Accept(task) => g == f.(queue := f.queue + [task])
    case Begin(w) => f.queue != [] && w !in f.busy && g == Fifo(f.queue[1..], f.busy[w := f.queue[0]])
    case Complete(w) => w in f.busy && g == f.(busy := f.busy - {w})
  }

  ghost predicate IsBusy<T>(s: State<T>, w: nat) {
    w < |s.workers| && (s.workers[w].Running? || (s.section.Loaded? && s.section.w == w))
  }

  ghost function TaskOf<T>(s: State<T>, w: nat): Job<T>
    requires IsBusy(s, w)
  {
    if s.workers[w].Running? then s.workers[w].job else s.section.job
  }

  ghost function View<T>(s: State<T>): Fifo<Job<T>> {
    Fifo(s.core.queue, map w | 0 <= w < |s.workers| && IsBusy(s, w) :: TaskOf(s, w))
  }

  ghost function Observed<T>(s: State<T>, e: Event<T>): FifoEvent<Job<T>> {
    match e
    case LinkTask => if s.section.Signalled? then Accept(s.section.job) else Stutter
    case Take(w) => Begin(w)
    case Finish(w) => Complete(w)
    case ClearFlag(w) => Complete(w)
    case _ => Stutter
  }

  /** A worker's task is the same before and after. */
  ghost predicate SameTask<T>(s: State<T>, t: State<T>, w: nat) {
    IsBusy(t, w) == IsBusy(s, w) && (IsBusy(s, w) ==> TaskOf(t, w) == TaskOf(s, w))
  }

  /** Which worker is busy with what after an event. */
  ghost predicate BusyLaw<T>(s: State<T>, e: FifoEvent<Job<T>>, t: State<T>, w: nat) {
    match e
    case Begin(v) =>
      if w == v then s.core.queue != [] && IsBusy(t, w) && TaskOf(t, w) == s.core.queue[0] && !IsBusy(s, w)
      else SameTask(s, t, w)
    case Complete(v) => if w == v then IsBusy(s, w) && !IsBusy(t, w) else SameTask(s, t, w)
    case _ => SameTask(s, t, w)
  }

  lemma BusyByWorker<T>(s: State<T>, e: Event<T>, w: nat)
    requires Exclusive(s) && Enabled(s, e) && ByWorker(e)
    ensures BusyLaw(s, Observed(s, e), Apply(s, e), w)
  {
  }

  lemma BusyByOther<T>(s: State<T>, e: Event<T>, w: nat)
    requires Exclusive(s) && Enabled(s, e) && !ByWorker(e)
    ensures BusyLaw(s, Observed(s, e), Apply(s, e), w)
  {
  }

  lemma BusyAfter<T>(s: State<T>, e: Event<T>, w: nat)
    requires Exclusive(s) && Enabled(s, e)
    ensures BusyLaw(s, Observed(s, e), Apply(s, e), w)
  {
    hide *;
    if ByWorker(e) {
      BusyByWorker(s, e, w);
    } else {
      BusyByOther(s, e, w);
    }
  }

  /** How an event changes the queue, as the clients see it. */
  lemma QueueAfter<T>(s: State<T>, e: Event<T>)
    requires Enabled(s, e)
    ensures var q, t := s.core.queue, Apply(s, e);
      match Observed(s, e)
      case Accept(task) => t.core.queue == q + [task]
      case Begin(_) => q != [] && t.core.queue == q[1..]
      case _ => t.core.queue == q
    ensures |Apply(s, e).workers| == |s.workers|
  {
  }

  /** Every statement of the pool is one step of the FIFO service or invisible. */
  lemma PoolRefinesFifo<T>(s: State<T>, e: Event<T>)
    requires Exclusive(s) && Enabled(s, e)
    ensures FifoStep(View(s), Observed(s, e), View(Apply(s, e)))
  {
    hide Exclusive, Enabled, Apply, Observed, TaskOf;
    var f, g, o := View(s), View(Apply(s, e)), Observed(s, e);
    QueueAfter(s, e);
    ghost var expected := match o
      case Begin(w) => f.busy[w := f.queue[0]]
      case Complete(w) => f.busy - {w}
      case _ => f.busy;
    forall w: nat ensures (w in g.busy <==> w in expected) && (w in g.busy ==> g.busy[w] == expected[w]) {
      BusyAfter(s, e, w);
    }
    assert g.busy == expected;
    match o {
      case Begin(w) => BusyAfter(s, e, w);
      case Complete(w) => BusyAfter(s, e, w);
      case _ =>
    }
  }

  // ---------------------------------------------------------------------------------------
  // Progress
  // ---------------------------------------------------------------------------------------

  /** Events the program itself must take; the rest are choices of its environment. */
  predicate System<T>(e: Event<T>) {
    match e
    case SpuriousWake(_) => false
    case PostEnter(p, _) => p == Destroyer
    case PostReject(p, _) => p == Destroyer
    case StartDestroy => false
    case _ => true
  }

  function Effort<T>(x: WorkerState<T>): nat {
    match x
    case AtLock => 3
    case InLock => 0
    case Asleep => 0
    case Woken => 2
    case Running(_) => 4
    case Exiting => 1
    case Exited => 0
  }

  function SectionEffort<T>(section: Section<T>): nat {
    match section
    case Free => 0
    case Entered(_) => 2
    case Counted(_) => 1
    case Loaded(_, _) => 5
    case Admitted(_, _) => 11
    case Signalled(_, _) => 8
    case Linked(_, _) => 2
    case Booked(_, _) => 1
  }

  function DestroyEffort(d: Destroy, threads: nat): int {
    match d
    case NotStarted => 0
    case Ready(n) => 20 * (threads - n) + 2
    case Armed(n) => 20 * (threads - n) + 1
    case Posting(n) => 20 * (threads - n) - 11
    case Spinning(n) => 20 * (threads - n) - 12
    case Failed => 0
    case Returned => 0
  }

  /** An upper bound on the work the program still has to do. */
  ghost function Remaining<T>(s: State<T>): int {
    5 * |s.core.queue| + Sum(s.workers, Effort) + SectionEffort(s.section) + DestroyEffort(s.destroy, |s.workers|)
  }
}
