/** The shutdown handshake: the destroyer posts one stack-allocated exit task per worker and
    spins on a flag between the posts. */
module PoolShutdown {
  import opened PoolCore
  import opened ThreadPool
  import opened PoolProperties

  ghost predicate DestroyerInside<T>(section: Section<T>) {
    (section.Admitted? || section.Signalled? || section.Linked? || section.Booked?) && section.poster == Destroyer
  }

  ghost predicate ClientInside<T>(section: Section<T>) {
    (section.Admitted? || section.Signalled? || section.Linked? || section.Booked?) && section.poster == Client
  }

  ghost predicate HasLast<T>(s: seq<T>, x: T) {
    s != [] && s[|s| - 1] == x
  }

  /** How often the exit task has been linked, per phase of the destroyer, and how many workers
      it has ended. */
  ghost predicate Handshake<T>(s: State<T>) {
    var posted, gone, threads := multiset(s.accepted)[Exit], Gone(s), |s.workers|;
    match s.destroy
    case NotStarted => posted == gone == 0
    case Ready(n) => n <= threads && posted == gone == n
    case Armed(n) => n < threads && posted == gone == n && s.flag
    case Posting(n) =>
      && n < threads && gone == n && s.flag
      && (if s.section.Linked? || s.section.Booked?
          then posted == n + 1 && HasLast(s.core.queue, Exit)
          else posted == n)
    case Spinning(n) => n < threads && posted == n + 1 && gone == if s.flag then n else n + 1
    case Failed => posted == gone < threads
    case Returned => posted == gone == threads
  }

  ghost predicate DestroyInv<T(!new)>(s: State<T>) {
    && Handshake(s)
    && (DestroyerInside(s.section) <==> s.destroy.Posting?)
    && (DestroyerInside(s.section) ==> s.section.job == Exit)
    && (ClientInside(s.section) ==> s.section.job.Work?)
    && (multiset(s.accepted)[Exit] > 0 ==> HasLast(s.accepted, Exit) && !ClientInside(s.section))
  }

  /** Worker events other than running the exit handler leave the handshake alone. */
  lemma DestroyStepQuiet<T(!new)>(s: State<T>, e: Event<T>)
    requires Exclusive(s) && DestroyInv(s) && Enabled(s, e)
    requires e.Lock? || e.Decrement? || e.Sleep? || e.SpuriousWake? || e.Relock? || e.Take? || e.Unlock?
             || e.Finish? || e.Leave?
    ensures DestroyInv(Apply(s, e))
  {
    hide Sum;
    SumStep(s, e, GoneWeight);
  }

  lemma DestroyStepExit<T(!new)>(s: State<T>, w: nat)
    requires PoolInv(s) && DestroyInv(s) && Enabled(s, ClearFlag(w))
    ensures DestroyInv(Apply(s, ClearFlag(w)))
  {
    SumStep(s, ClearFlag(w), GoneWeight);
    SumMember(s.workers, w, Runs(Exit));
  }

  lemma DestroyStepEnter<T(!new)>(s: State<T>, e: Event<T>)
    requires DestroyInv(s) && Enabled(s, e)
    requires e.PostEnter? || e.PostReject?
    ensures DestroyInv(Apply(s, e))
  {
  }

  lemma DestroyStepSignal<T(!new)>(s: State<T>, e: Event<T>)
    requires DestroyInv(s) && Enabled(s, e)
    requires e.Signal? || e.SignalNobody?
    ensures DestroyInv(Apply(s, e))
  {
    SumStep(s, e, GoneWeight);
  }

  lemma DestroyStepLink<T(!new)>(s: State<T>)
    requires DestroyInv(s) && Enabled(s, LinkTask)
    ensures DestroyInv(Apply(s, LinkTask))
  {
    assert multiset(Apply(s, LinkTask).accepted) == multiset(s.accepted) + multiset{s.section.job};
  }

  lemma DestroyStepLeave<T(!new)>(s: State<T>, e: Event<T>)
    requires DestroyInv(s) && Enabled(s, e)
    requires e.BookTask? || e.PostLeave?
    ensures DestroyInv(Apply(s, e))
  {
  }

  lemma DestroyStepLoop<T(!new)>(s: State<T>, e: Event<T>)
    requires DestroyInv(s) && Enabled(s, e)
    requires e.StartDestroy? || e.Arm? || e.SpinDone? || e.DestroyReturn?
    ensures DestroyInv(Apply(s, e))
  {
  }

  lemma DestroyStep<T(!new)>(s: State<T>, e: Event<T>)
    requires PoolInv(s) && DestroyInv(s) && Enabled(s, e)
    ensures DestroyInv(Apply(s, e))
  {
    match e {
      case ClearFlag(w) => DestroyStepExit(s, w);
      case StartDestroy => DestroyStepLoop(s, e);
      case Arm => DestroyStepLoop(s, e);
      case SpinDone => DestroyStepLoop(s, e);
      case DestroyReturn => DestroyStepLoop(s, e);
      case PostEnter(_, _) => DestroyStepEnter(s, e);
      case PostReject(_, _) => DestroyStepEnter(s, e);
      case Signal(_) => DestroyStepSignal(s, e);
      case SignalNobody => DestroyStepSignal(s, e);
      case LinkTask => DestroyStepLink(s);
      case BookTask => DestroyStepLeave(s, e);
      case PostLeave => DestroyStepLeave(s, e);
      case _ => DestroyStepQuiet(s, e);
    }
  }

  lemma {:induction false} DestroyRun<T(!new)>(s: State<T>, es: seq<Event<T>>, t: State<T>)
    requires PoolInv(s) && DestroyInv(s) && Executes(s, es, t)
    ensures DestroyInv(t)
    decreases |es|
  {
    if es == [] {
    } else {
      PoolInvStep(s, es[0]);
      DestroyStep(s, es[0]);
      DestroyRun(Apply(s, es[0]), es[1..], t);
    }
  }

  lemma ReachableDestroyInv<T(!new)>(threads: nat, maxQueue: nat, es: seq<Event<T>>, t: State<T>)
    requires Reachable(threads, maxQueue, es, t)
    ensures PoolInv(t) && DestroyInv(t) && |t.workers| == threads
  {
    InitialInv<T>(threads, maxQueue);
    SumAtLock<T>(threads, GoneWeight);
    DestroyRun(Initial(threads, maxQueue), es, t);
    ReachableInv(threads, maxQueue, es, t);
  }

  lemma {:induction false} AllGone<T>(ws: seq<WorkerState<T>>, w: nat)
    requires Sum(ws, GoneWeight) >= |ws| && w < |ws|
    ensures GoneWeight(ws[w]) == 1
  {
    GoneAtMost(ws[1..]);
    if w == 0 {
    } else {
      AllGone(ws[1..], w - 1);
    }
  }

  lemma {:induction false} GoneAtMost<T>(ws: seq<WorkerState<T>>)
    ensures Sum(ws, GoneWeight) <= |ws|
  {
    if ws == [] {
    } else {
      GoneAtMost(ws[1..]);
    }
  }

  lemma ReturnedWorkers<T(!new)>(s: State<T>)
    requires PoolInv(s) && DestroyInv(s) && s.destroy == Returned
    ensures forall w :: 0 <= w < |s.workers| ==> s.workers[w] == Exiting || s.workers[w] == Exited
    ensures !HoldsAny(s.section)
  {
    forall w: nat | w < |s.workers| ensures s.workers[w] == Exiting || s.workers[w] == Exited {
      AllGone(s.workers, w);
    }
    assert HoldsAny(s.section) ==> HoldsSection(s, s.section.w);
  }

  lemma {:induction false} NobodyRuns<T>(ws: seq<WorkerState<T>>, job: Job<T>)
    requires forall w :: 0 <= w < |ws| ==> !ws[w].Running?
    ensures Sum(ws, Runs(job)) == 0
  {
    if ws == [] {
    } else {
      NobodyRuns(ws[1..], job);
    }
  }

  /** Shutdown drains the pool. Whenever thread_pool_destroy has returned past its last loop
      iteration, the mutex is free, every client task accepted before has run to completion and been
      freed as often as it was accepted, each worker has ended on exactly one exit task, nothing is
      queued, and the exit task, which lives on the destroyer's stack, was never freed. */
  lemma DestroyDrains<T(!new)>(threads: nat, maxQueue: nat, es: seq<Event<T>>, t: State<T>)
    requires threads > 0
    requires Reachable(threads, maxQueue, es, t) && t.destroy == Returned
    ensures t.core.queue == [] && t.accepted == t.taken && t.section == Free
    ensures |t.workers| == threads
    ensures forall w :: 0 <= w < |t.workers| ==> t.workers[w] == Exiting || t.workers[w] == Exited
    ensures multiset(t.taken)[Exit] == threads && Exit !in t.freed
    ensures forall job :: job in t.accepted && job.Work? ==> t.freed[job] == multiset(t.accepted)[job]
  {
    ReachableDestroyInv(threads, maxQueue, es, t);
    ReturnedWorkers(t);
    forall job | job in t.accepted && job.Work? ensures t.freed[job] == multiset(t.accepted)[job] {
      assert multiset(t.taken)[job] == Accounted(t, job);
      NobodyRuns(t.workers, job);
    }
  }

  /** Some worker is inside the critical section. */
  ghost predicate HoldsAny<T>(section: Section<T>) {
    section.Entered? || section.Counted? || section.Loaded?
  }

  /** The reused exit task is never linked while the pool still refers to it: at the link no copy
      is queued, none is in a worker's hands, and as many workers have ended as posts were made. */
  lemma ExitTaskFreeToReuse<T(!new)>(threads: nat, maxQueue: nat, es: seq<Event<T>>, t: State<T>)
    requires Reachable(threads, maxQueue, es, t)
    requires Enabled(t, LinkTask) && t.section.job == Exit
    ensures Exit !in t.core.queue
    ensures forall w :: 0 <= w < |t.workers| ==> t.workers[w] != Running(Exit)
    ensures t.destroy.Posting? && Gone(t) == t.destroy.n
  {
    ReachableDestroyInv(threads, maxQueue, es, t);
    forall w: nat | w < threads ensures t.workers[w] != Running(Exit) {
      SumMember(t.workers, w, Runs(Exit));
    }
    assert Exit in t.core.queue ==> multiset(t.core.queue)[Exit] > 0;
  }

  // ---------------------------------------------------------------------------------------
  // Progress
  // ---------------------------------------------------------------------------------------

  lemma RemainingNonNegative<T(!new)>(s: State<T>)
    requires DestroyInv(s)
    ensures Remaining(s) >= 0
  {
  }

  lemma RemainingByWorker<T>(s: State<T>, e: Event<T>)
    requires Exclusive(s) && Enabled(s, e) && ByWorker(e) && System(e)
    ensures Remaining(Apply(s, e)) < Remaining(s)
  {
    hide Sum;
    SumStep(s, e, Effort);
  }

  lemma RemainingByOther<T(!new)>(s: State<T>, e: Event<T>)
    requires DestroyInv(s) && Enabled(s, e) && !ByWorker(e) && System(e)
    ensures Remaining(Apply(s, e)) < Remaining(s)
  {
    hide Sum;
    SumStep(s, e, Effort);
  }

  lemma RemainingDecreases<T(!new)>(s: State<T>, e: Event<T>)
    requires Exclusive(s) && DestroyInv(s) && Enabled(s, e) && System(e)
    ensures Remaining(Apply(s, e)) < Remaining(s)
  {
    hide *;
    if ByWorker(e) {
      RemainingByWorker(s, e);
    } else {
      RemainingByOther(s, e);
    }
  }

  /** Left to itself, the program stops: a schedule in which no client posts, no wake-up is spurious
      and no shutdown starts has at most `Remaining` events. */
  lemma {:induction false} SystemRunsEnd<T(!new)>(s: State<T>, es: seq<Event<T>>, t: State<T>)
    requires PoolInv(s) && DestroyInv(s) && Executes(s, es, t)
    requires forall i :: 0 <= i < |es| ==> System(es[i])
    ensures |es| + Remaining(t) <= Remaining(s)
    decreases |es|
  {
    if es == [] {
    } else {
      RemainingDecreases(s, es[0]);
      PoolInvStep(s, es[0]);
      DestroyStep(s, es[0]);
      SystemRunsEnd(Apply(s, es[0]), es[1..], t);
    }
  }

  /** Nothing is left to do: the destroyer has not started or is done, the mutex is free, every
      worker sleeps or has exited, and a sleeping worker has no task to run. */
  ghost predicate Quiet<T>(s: State<T>) {
    && (s.destroy == NotStarted || s.destroy == Failed || s.destroy == Returned)
    && s.section == Free
    && (forall w :: 0 <= w < |s.workers| ==> s.workers[w] == Asleep || s.workers[w] == Exited)
    && (Sleepers(s) > 0 ==> s.core.queue == [])
  }

  /** A program step is possible in the critical section whenever the mutex is held. */
  lemma SectionProgress<T(!new)>(s: State<T>) returns (e: Event<T>)
    requires PoolInv(s) && s.section != Free
    ensures System(e) && Enabled(s, e)
  {
    match s.section {
      case Entered(w) => e := Decrement(w);
      case Counted(w) => e := if s.core.queue == [] then Sleep(w) else Take(w);
      case Loaded(w, _) => e := Unlock(w);
      case Admitted(_, _) =>
        if Sleepers(s) > 0 {
          var w := SumPositive(s.workers, AsleepWeight);
          e := Signal(w);
        } else {
          forall w: nat | w < |s.workers| ensures s.workers[w] != Asleep {
            SumMember(s.workers, w, AsleepWeight);
          }
          e := SignalNobody;
        }
      case Signalled(_, _) => e := LinkTask;
      case Linked(_, _) => e := BookTask;
      case Booked(_, _) => e := PostLeave;
    }
  }

  /** A spinning destroyer is never stranded: while its flag is set some worker can still move. */
  lemma SpinProgress<T(!new)>(s: State<T>) returns (e: Event<T>)
    requires PoolInv(s) && DestroyInv(s) && s.section == Free && s.destroy.Spinning?
    ensures System(e) && Enabled(s, e)
  {
    if !s.flag {
      return SpinDone;
    }
    var w := AwakeWorker(s);
    e := WorkerProgress(s, w);
  }

  /** While the exit task is pending, some worker is neither asleep nor gone. */
  lemma AwakeWorker<T(!new)>(s: State<T>) returns (w: nat)
    requires PoolInv(s) && DestroyInv(s) && s.section == Free && s.destroy.Spinning? && s.flag
    ensures w < |s.workers| && s.workers[w] != Asleep && s.workers[w] != Exited
  {
    if Sum(s.workers, Runs(Exit)) > 0 {
      w := SumPositive(s.workers, Runs(Exit));
    } else {
      assert s.core.queue != [];
      if Sleepers(s) > 0 {
        w := SumPositive(s.workers, WokenWeight);
      } else {
        w := NotGone(s.workers);
        SumMember(s.workers, w, AsleepWeight);
      }
    }
  }

  lemma {:induction false} NotGone<T>(ws: seq<WorkerState<T>>) returns (w: nat)
    requires Sum(ws, GoneWeight) < |ws|
    ensures w < |ws| && GoneWeight(ws[w]) == 0
  {
    if GoneWeight(ws[0]) == 0 {
      w := 0;
    } else {
      w := NotGone(ws[1..]);
      w := w + 1;
    }
  }

  lemma WorkerProgress<T(!new)>(s: State<T>, w: nat) returns (e: Event<T>)
    requires PoolInv(s) && s.section == Free
    requires w < |s.workers| && s.workers[w] != Asleep && s.workers[w] != Exited
    ensures System(e) && Enabled(s, e)
  {
    match s.workers[w] {
      case AtLock => e := Lock(w);
      case Woken => e := Relock(w);
      case Running(Work(_)) => e := Finish(w);
      case Running(Exit) => e := ClearFlag(w);
      case Exiting => e := Leave(w);
      case InLock =>
        assert false;
    }
  }

  /** Deadlock freedom: in every state with the invariants that is not quiet, the program itself
      can move. */
  lemma Progress<T(!new)>(s: State<T>) returns (e: Event<T>)
    requires PoolInv(s) && DestroyInv(s) && !Quiet(s)
    ensures System(e) && Enabled(s, e)
  {
    if s.section != Free {
      e := SectionProgress(s);
    } else if w: nat :| w < |s.workers| && s.workers[w] != Asleep && s.workers[w] != Exited {
      e := WorkerProgress(s, w);
    } else {
      match s.destroy {
        case Spinning(_) => e := SpinProgress(s);
        case Ready(n) => e := if n < |s.workers| then Arm else DestroyReturn;
        case Armed(_) =>
          e := if Admits(s.core, s.maxQueue) then PostEnter(Destroyer, Exit) else PostReject(Destroyer, Exit);
        case Posting(_) => assert false;
        case _ => e := AsleepBesideTasks(s);
      }
    }
  }

  lemma StaysStarted<T>(s: State<T>, e: Event<T>)
    requires Enabled(s, e) && s.destroy != NotStarted
    ensures Apply(s, e).destroy != NotStarted
  {
  }

  lemma RunToQuiet<T(!new)>(s: State<T>) returns (es: seq<Event<T>>, t: State<T>)
    requires PoolInv(s) && DestroyInv(s)
    ensures Executes(s, es, t) && Quiet(t) && (s.destroy != NotStarted ==> t.destroy != NotStarted)
    ensures forall i :: 0 <= i < |es| ==> System(es[i])
    decreases Remaining(s)
  {
    if Quiet(s) {
      assert Executes(s, [], s);
      return [], s;
    }
    assert Exclusive(s);
    hide PoolInv, Exclusive, DestroyInv, Enabled, Apply, Remaining, Quiet, System, Executes;
    var e := Progress(s);
    RemainingDecreases(s, e);
    PoolInvStep(s, e);
    DestroyStep(s, e);
    RemainingNonNegative(Apply(s, e));
    if s.destroy != NotStarted {
      StaysStarted(s, e);
    }
    var rest;
    rest, t := RunToQuiet(Apply(s, e));
    es := [e] + rest;
  }

  /** In a quiet state everything accepted has been served. */
  lemma QuietServed<T(!new)>(s: State<T>)
    requires PoolInv(s) && DestroyInv(s) && Quiet(s) && |s.workers| > 0
    ensures Served(s)
  {
    if s.destroy == Returned {
      ReturnedWorkers(s);
    } else {
      var w := NotGone(s.workers);
      SumMember(s.workers, w, AsleepWeight);
    }
    forall job | job in s.accepted && job.Work? ensures s.freed[job] == multiset(s.accepted)[job] {
      assert multiset(s.taken)[job] == Accounted(s, job);
      NobodyRuns(s.workers, job);
    }
  }

  /** Nothing is queued, and every client task was run and freed as often as it was accepted. */
  ghost predicate Served<T(!new)>(s: State<T>) {
    && s.core.queue == [] && s.accepted == s.taken
    && forall job :: job in s.accepted && job.Work? ==> s.freed[job] == multiset(s.accepted)[job]
  }

  /** The schedule consists of the program's own events. */
  ghost predicate AllSystem<T(!new)>(es: seq<Event<T>>) {
    forall i :: 0 <= i < |es| ==> System(es[i])
  }

  /** A pool always settles. From every reachable state the program can by itself reach a quiet
      state, and no schedule of its own events is longer than `Remaining`. Every quiet state ends a
      started shutdown, with a return unless its first post found no room, and has served
      everything that was accepted. */
  lemma PoolSettles<T(!new)>(threads: nat, maxQueue: nat, es: seq<Event<T>>, s: State<T>)
    requires Reachable(threads, maxQueue, es, s)
    ensures exists more, t :: Executes(s, more, t) && AllSystem(more) && Quiet(t)
    ensures forall more, t :: Executes(s, more, t) && AllSystem(more) ==> |more| <= Remaining(s)
    ensures forall more, t :: Executes(s, more, t) && Quiet(t) ==>
      && (threads > 0 ==> Served(t))
      && (s.destroy != NotStarted ==> t.destroy == Failed || t.destroy == Returned)
      && (HasRoom(s) && s.destroy != NotStarted ==> t.destroy == Returned)
  {
    ReachableDestroyInv(threads, maxQueue, es, s);
    var rest, u := RunToQuiet(s);
    assert AllSystem(rest);
    forall more, t | Executes(s, more, t)
      ensures AllSystem(more) ==> |more| <= Remaining(s)
      ensures Quiet(t) && threads > 0 ==> Served(t)
      ensures s.destroy != NotStarted ==> t.destroy != NotStarted
      ensures HasRoom(s) && s.destroy != NotStarted ==> t.destroy != Failed
    {
      DestroyRun(s, more, t);
      PoolInvRun(s, more, t);
      if AllSystem(more) {
        SystemRunsEnd(s, more, t);
        RemainingNonNegative(t);
      }
      if Quiet(t) && threads > 0 {
        QuietServed(t);
      }
      if s.destroy != NotStarted {
        RoomRun(s, more, t);
      }
    }
  }

  // ---------------------------------------------------------------------------------------
  // When a shutdown fails
  // ---------------------------------------------------------------------------------------

  /** A client's task that has passed the admission test and is not linked yet. */
  ghost function Incoming<T>(s: State<T>): nat {
    if (s.section.Admitted? || s.section.Signalled?) && s.section.poster == Client then 1 else 0
  }

  /** The shutdown has not failed, and cannot: its first exit task was accepted, or will be, for
      clients have left it room. */
  ghost predicate HasRoom<T>(s: State<T>) {
    && s.maxQueue > 0 && s.destroy != Failed
    && (multiset(s.accepted)[Exit] > 0 || |s.core.queue| + Incoming(s) < s.maxQueue)
  }

  /** Behind an accepted exit task nothing is queued when the destroyer is about to post again. */
  lemma EmptyBetweenPosts<T(!new)>(s: State<T>)
    requires PoolInv(s) && DestroyInv(s) && s.destroy.Armed? && s.destroy.n > 0
    ensures s.core.queue == []
  {
    assert multiset(s.accepted) == multiset(s.taken) + multiset(s.core.queue);
    assert multiset(s.taken)[Exit] == Accounted(s, Exit);
    assert s.core.queue != [] ==> HasLast(s.core.queue, Exit);
    assert HasLast(s.core.queue, Exit) ==> Exit in multiset(s.core.queue);
  }

  lemma NotRejected<T(!new)>(s: State<T>, e: Event<T>)
    requires PoolInv(s) && DestroyInv(s) && HasRoom(s) && s.destroy != NotStarted && e.PostReject?
    ensures !Enabled(s, e)
  {
    if s.destroy.Armed? && s.destroy.n > 0 {
      EmptyBetweenPosts(s);
    }
  }

  lemma RoomForLink<T(!new)>(s: State<T>)
    requires DestroyInv(s) && HasRoom(s) && Enabled(s, LinkTask)
    ensures HasRoom(Apply(s, LinkTask))
  {
    assert multiset(Apply(s, LinkTask).accepted) == multiset(s.accepted) + multiset{s.section.job};
  }

  lemma RoomOtherwise<T(!new)>(s: State<T>, e: Event<T>)
    requires HasRoom(s) && Enabled(s, e) && s.destroy != NotStarted && !e.LinkTask? && !e.PostReject?
    ensures HasRoom(Apply(s, e))
  {
  }

  lemma RoomStep<T(!new)>(s: State<T>, e: Event<T>)
    requires PoolInv(s) && DestroyInv(s) && HasRoom(s) && Enabled(s, e) && s.destroy != NotStarted
    ensures HasRoom(Apply(s, e))
  {
    hide *;
    match e {
      case LinkTask => RoomForLink(s);
      case PostReject(_, _) => NotRejected(s, e);
      case _ => RoomOtherwise(s, e);
    }
  }

  lemma {:induction false} RoomRun<T(!new)>(s: State<T>, es: seq<Event<T>>, t: State<T>)
    requires PoolInv(s) && DestroyInv(s) && Executes(s, es, t) && s.destroy != NotStarted
    ensures t.destroy != NotStarted && (HasRoom(s) ==> t.destroy != Failed)
    decreases |es|
  {
    if es == [] {
    } else {
      hide PoolInv, DestroyInv, HasRoom, Enabled, Apply;
      StaysStarted(s, es[0]);
      if HasRoom(s) {
        RoomStep(s, es[0]);
      }
      PoolInvStep(s, es[0]);
      DestroyStep(s, es[0]);
      RoomRun(Apply(s, es[0]), es[1..], t);
    }
  }

  /** The destroyer's post is rejected exactly if it is the first one and the counter is at the
      limit; all later ones find an empty queue. */
  lemma ExitPostOutcome<T(!new)>(threads: nat, maxQueue: nat, es: seq<Event<T>>, t: State<T>)
    requires Reachable(threads, maxQueue, es, t) && maxQueue > 0 && t.section == Free && t.destroy.Armed?
    ensures Enabled(t, PostReject(Destroyer, Exit)) <==> FindsNoRoom(t)
    ensures Enabled(t, PostEnter(Destroyer, Exit)) <==> !FindsNoRoom(t)
  {
    ReachableDestroyInv(threads, maxQueue, es, t);
    PostOutcome(threads, maxQueue, es, t, Destroyer, Exit);
    ReachableInv(threads, maxQueue, es, t);
    if t.destroy.n > 0 {
      EmptyBetweenPosts(t);
    }
  }

  /** The destroyer is at its first post, and the queue is as long as the limit and the workers
      waiting for a task together. */
  ghost predicate FindsNoRoom<T>(s: State<T>) {
    s.section == Free && s.destroy == Armed(0) && |s.core.queue| >= s.maxQueue + Sleepers(s) + Wakers(s)
  }

  /** A shutdown that starts while fewer tasks are queued or being linked than the limit never fails:
      whatever the schedule, when the pool is quiet the destroyer has returned, and the program can
      always get there. */
  lemma ShutdownReturns<T(!new)>(threads: nat, maxQueue: nat, es: seq<Event<T>>, s: State<T>)
    requires Reachable(threads, maxQueue, es, s) && s.destroy == NotStarted
    requires |s.core.queue| + Incoming(s) < maxQueue
    ensures Enabled(s, StartDestroy)
    ensures forall more, t :: Executes(Apply(s, StartDestroy), more, t) ==>
      t.destroy != Failed && (Quiet(t) ==> t.destroy == Returned)
    ensures exists more, t :: Executes(Apply(s, StartDestroy), more, t) && AllSystem(more) && t.destroy == Returned
  {
    ReachableDestroyInv(threads, maxQueue, es, s);
    ReachableInv(threads, maxQueue, es, s);
    var u := Apply(s, StartDestroy);
    RoomStart(s);
    PoolInvStep(s, StartDestroy);
    DestroyStep(s, StartDestroy);
    forall more, t | Executes(u, more, t) ensures t.destroy != Failed && t.destroy != NotStarted {
      RoomRun(u, more, t);
    }
    var rest, v := RunToQuiet(u);
    assert AllSystem(rest);
  }

  lemma RoomStart<T(!new)>(s: State<T>)
    requires DestroyInv(s) && s.destroy == NotStarted && |s.core.queue| + Incoming(s) < s.maxQueue
    ensures HasRoom(Apply(s, StartDestroy))
  {
  }

  /** A shutdown has failed exactly if at some moment of the run its first post found no room. */
  lemma ShutdownFailsExactly<T(!new)>(threads: nat, maxQueue: nat, es: seq<Event<T>>, t: State<T>)
    requires Reachable(threads, maxQueue, es, t) && maxQueue > 0
    ensures t.destroy == Failed <==> exists i, u :: Turned(Initial(threads, maxQueue), es, i, u)
  {
    var s := Initial<T>(threads, maxQueue);
    InitialInv<T>(threads, maxQueue);
    SumAtLock<T>(threads, GoneWeight);
    hide PoolInv, FindsNoRoom, Sum, Executes;
    assert DestroyInv(s);
    hide DestroyInv;
    if t.destroy == Failed {
      var i, u := FailedFrom(s, es, t);
      assert Turned(s, es, i, u);
    }
    forall i, u | Turned(s, es, i, u) ensures t.destroy == Failed {
      FailsFor(s, es, i, u, t);
    }
  }

  /** The i-th event of the run is the rejection of the destroyer's first post. */
  ghost predicate Turned<T(!new)>(s: State<T>, es: seq<Event<T>>, i: nat, u: State<T>) {
    i < |es| && Executes(s, es[..i], u) && es[i] == PostReject(Destroyer, Exit) && FindsNoRoom(u)
  }

  lemma OnlyRejectionFails<T>(s: State<T>, e: Event<T>)
    requires Enabled(s, e) && s.destroy != Failed && Apply(s, e).destroy == Failed
    ensures e == PostReject(Destroyer, Exit)
  {
  }

  lemma RejectedForRoom<T(!new)>(s: State<T>)
    requires PoolInv(s) && DestroyInv(s) && s.maxQueue > 0 && Enabled(s, PostReject(Destroyer, Exit))
    ensures FindsNoRoom(s)
  {
    if s.destroy.n > 0 {
      EmptyBetweenPosts(s);
    }
  }

  lemma MaxKept<T>(s: State<T>, e: Event<T>)
    requires Enabled(s, e)
    ensures Apply(s, e).maxQueue == s.maxQueue
  {
  }

  lemma {:induction false} FailedFrom<T(!new)>(s: State<T>, es: seq<Event<T>>, t: State<T>)
      returns (i: nat, u: State<T>)
    requires PoolInv(s) && DestroyInv(s) && s.maxQueue > 0 && Executes(s, es, t)
    requires s.destroy != Failed && t.destroy == Failed
    ensures Turned(s, es, i, u)
    decreases |es|
  {
    hide PoolInv, DestroyInv, Enabled, Apply, FindsNoRoom;
    var n := Apply(s, es[0]);
    if n.destroy == Failed {
      OnlyRejectionFails(s, es[0]);
      RejectedForRoom(s);
      i, u := 0, s;
      assert Executes(s, es[..0], s);
    } else {
      PoolInvStep(s, es[0]);
      DestroyStep(s, es[0]);
      MaxKept(s, es[0]);
      i, u := FailedFrom(n, es[1..], t);
      assert es[..i + 1][1..] == es[1..][..i];
      assert Executes(s, es[..i + 1], u);
      i := i + 1;
    }
  }

  lemma {:induction false} FailsFor<T(!new)>(s: State<T>, es: seq<Event<T>>, i: nat, u: State<T>, t: State<T>)
    requires Executes(s, es, t) && Turned(s, es, i, u)
    ensures t.destroy == Failed
    decreases |es|
  {
    var n := Apply(s, es[0]);
    if i == 0 {
      StaysFailed(n, es[1..], t);
    } else {
      assert es[..i][1..] == es[1..][..i - 1];
      FailsFor(n, es[1..], i - 1, u, t);
    }
  }

  lemma {:induction false} StaysFailed<T(!new)>(s: State<T>, es: seq<Event<T>>, t: State<T>)
    requires Executes(s, es, t) && s.destroy == Failed
    ensures t.destroy == Failed
    decreases |es|
  {
    if es == [] {
    } else {
      StaysFailed(Apply(s, es[0]), es[1..], t);
    }
  }

  lemma AsleepBesideTasks<T(!new)>(s: State<T>) returns (e: Event<T>)
    requires PoolInv(s) && s.section == Free && Sleepers(s) > 0 && s.core.queue != []
    ensures System(e) && Enabled(s, e)
  {
    var w := SumPositive(s.workers, WokenWeight);
    e := Relock(w);
  }
}
