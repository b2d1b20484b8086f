/** What the pool's mutex protects, and the elementary updates a critical section makes to it.
    Both models of the pool use these: the heap class in TaskQueue.dfy refines them, and the
    step system in ThreadPool.dfy interleaves them. */
module PoolCore {

  datatype Core<T> = Core(queue: seq<T>, waiting: int)

  /** Link a task behind the last one. */
  function Link<T>(c: Core<T>, t: T): Core<T> {
    c.(queue := c.queue + [t])
  }

  /** A poster has added one task to the signed counter. */
  function Book<T>(c: Core<T>): Core<T> {
    c.(waiting := c.waiting + 1)
  }

  /** A worker has announced itself by taking one off the signed counter. */
  function Announce<T>(c: Core<T>): Core<T> {
    c.(waiting := c.waiting - 1)
  }

  /** Drop the head, which the worker runs next. */
  function Unlink<T>(c: Core<T>): Core<T>
    requires c.queue != []
  {
    c.(queue := c.queue[1..])
  }

  /** The only admission test of a post: it looks at the counter, never at the queue. */
  predicate Admits<T>(c: Core<T>, maxQueue: int) {
    c.waiting < maxQueue
  }
}
