/** The gate every appender has: a threshold and a chain of filters. */
module Appender {
  import opened Filter
  import opened Priority

  class Appender {
    var threshold: int
    var filter: Filter?
    /** The filters from `filter` on. */
    ghost var chain: seq<Filter>
    /** The events handed to the appender's own _append. */
    var emitted: seq<LoggingEvent>

    ghost predicate Valid()
      reads this, chain
    {
      Linked(chain) && filter == if chain == [] then null else chain[0]
    }

    constructor ()
      ensures Valid() && threshold == NOTSET && filter == null && chain == [] && emitted == []
    {
      threshold, filter, chain, emitted := NOTSET, null, [], [];
    }

    /** Does the appender let an event through? */
    ghost predicate Admits(ev: LoggingEvent)
      reads this
    {
      (threshold == NOTSET || ev.priority <= threshold) && FirstDecision(chain, ev) != Deny
    }

    method DoAppend(ev: LoggingEvent)
      requires Valid()
      modifies this`emitted
      ensures emitted == if old(Admits(ev)) then old(emitted) + [ev] else old(emitted)
    {
      if threshold == NOTSET || ev.priority <= threshold {
        if filter == null {
          emitted := emitted + [ev];
        } else {
          var decision := filter.Decide(ev, chain);
          if decision != Deny {
            emitted := emitted + [ev];
          }
        }
      }
    }
  }

  /** An appender lets an event through exactly if its threshold is not set or not below the event's
      priority, and no filter of its chain denies the event before another accepts it. */
  lemma AdmitsExactly(a: Appender, ev: LoggingEvent)
    ensures a.Admits(ev) <==>
      && (a.threshold == 800 || ev.priority <= a.threshold)
      && !exists i :: 0 <= i < |a.chain| && a.chain[i].own(ev) == Deny
                      && forall j :: 0 <= j < i ==> a.chain[j].own(ev) == Neutral
  {
    FirstDecisionLaw(a.chain, ev, Deny);
  }
}
