/** The pool's intrusive queue on the heap: tasks carry their own `next` link, and `last` is
    the address of the slot the next post writes. */
module TaskQueue {
  import opened PoolCore

  const TASK_ID_MODULUS: nat := 0x1_0000_0000_0000_0000

  class Task {
    var next: Task?
    var id: nat

    constructor ()
      ensures next == null && id == 0
    {
      next, id := null, 0;
    }
  }

  /** The address held in `last`: the pool's own `first` field, or some task's `next` field. */
  datatype Slot = FirstField | NextField(owner: Task)

  ghost predicate IsLast(nodes: seq<Task>, task: Task) {
    nodes != [] && nodes[|nodes| - 1] == task
  }

  /** The nodes up to and including a task. */
  ghost function CutBehind(nodes: seq<Task>, task: Task): (cut: seq<Task>)
    ensures cut <= nodes
    ensures task in nodes ==> IsLast(cut, task)
    ensures task !in nodes ==> cut == nodes
  {
    if nodes == [] then [] else if nodes[0] == task then [task] else [nodes[0]] + CutBehind(nodes[1..], task)
  }

  class TaskPool {
    var first: Task?
    var last: Slot
    var waiting: int
    var nextId: nat
    const threads: nat
    const maxQueue: int
    /** The tasks reachable from `first`, in order. */
    ghost var nodes: seq<Task>

    ghost predicate Valid()
      reads this, nodes
    {
      && (forall i, j :: 0 <= i < j < |nodes| ==> nodes[i] != nodes[j])
      && (forall i :: 0 <= i < |nodes| - 1 ==> nodes[i].next == nodes[i + 1])
      && nextId < TASK_ID_MODULUS
      && if nodes == [] then first == null && last == FirstField
         else first == nodes[0] && last == NextField(nodes[|nodes| - 1]) && nodes[|nodes| - 1].next == null
    }

    ghost function View(): Core<Task>
      reads this
    {
      Core(nodes, waiting)
    }

    /** The node whose `next` field a post overwrites, if it is not the pool's own field. */
    ghost function TailOwner(): (owners: set<Task>)
      reads this
    {
      if last.NextField? then {last.owner} else {}
    }

    constructor (threads: nat, maxQueue: int)
      ensures Valid() && View() == Core([], 0)
      ensures this.threads == threads && this.maxQueue == maxQueue
    {
      this.threads, this.maxQueue := threads, maxQueue;
      first, last, waiting, nextId := null, FirstField, 0, 0;
      nodes := [];
    }

    /** The critical section of a post. An accepted task is appended, exactly if it is not queued
        already. Posting one that is queued cuts the list behind it: the tasks there are lost, and if
        it is the last one, the list becomes a cycle. */
    method Post(task: Task) returns (ok: bool)
      requires Valid()
      modifies this, task, TailOwner()
      ensures Valid() <==> !(ok && IsLast(old(nodes), task))
      ensures ok == (old(waiting) < maxQueue)
      ensures ok && task !in old(nodes) ==> View() == Book(Link(old(View()), task))
      ensures ok && task in old(nodes) ==> View() == Book(old(View()).(queue := CutBehind(old(nodes), task)))
      ensures ok && IsLast(old(nodes), task) ==> task.next == task
      ensures ok ==> task.id == old(nextId) && nextId == (old(nextId) + 1) % TASK_ID_MODULUS
      ensures !ok ==> unchanged(this) && unchanged(task)
      ensures forall t :: t in old(nodes) && t != task ==> t.id == old(t.id)
    {
      hide CutBehind;
      if waiting >= maxQueue {
        return false;
      }
      task.id := nextId;
      nextId := (nextId + 1) % TASK_ID_MODULUS;
      task.next := null;
      match last {
        case FirstField => first := task;
        case NextField(owner) => owner.next := task;
      }
      last := NextField(task);
      waiting := waiting + 1;
      nodes := if task in nodes then CutBehind(nodes, task) else nodes + [task];
      return true;
    }

    /** A worker entering its critical section counts itself before it looks at the queue. */
    method CountSelf()
      requires Valid()
      modifies this`waiting
      ensures Valid() && View() == Announce(old(View()))
    {
      waiting := waiting - 1;
    }

    /** The end of a worker's critical section, once the wait loop has seen a task. */
    method Dequeue() returns (task: Task)
      requires Valid() && first != null
      modifies this`first, this`last, this`nodes
      ensures Valid()
      ensures task == old(nodes)[0] && View() == Unlink(old(View()))
    {
      task := first;
      first := task.next;
      nodes := nodes[1..];
      if first == null {
        last := FirstField;
      }
    }
  }
}
