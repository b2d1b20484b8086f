/** Chained event filters: the first filter that is not neutral decides. */
module Filter {
  import PatternLayout

  type LoggingEvent = PatternLayout.LoggingEvent

  datatype Decision = Deny | Neutral | Accept

  /** What a chain of filters decides, read off the chain as a list. */
  ghost function FirstDecision(chain: seq<Filter>, ev: LoggingEvent): Decision {
    if chain == [] then Neutral
    else if chain[0].own(ev) != Neutral then chain[0].own(ev)
    else FirstDecision(chain[1..], ev)
  }

  /** The filters hang together in this order, and the last one has no successor. */
  ghost predicate Linked(chain: seq<Filter>)
    reads chain
  {
    forall i :: 0 <= i < |chain| ==> chain[i].chained == Next(chain, i)
  }

  /** What a filter in the list is followed by. */
  ghost function Next(chain: seq<Filter>, i: nat): Filter? {
    if i + 1 < |chain| then chain[i + 1] else null
  }

  ghost function End(chain: seq<Filter>): Filter
    requires chain != []
  {
    chain[|chain| - 1]
  }

  class Filter {
    /** The filter's own verdict, which each kind of filter defines for itself. */
    const own: LoggingEvent -> Decision
    var chained: Filter?

    constructor (own: LoggingEvent -> Decision)
      ensures this.own == own && Linked([this])
    {
      this.own := own;
      chained := null;
    }

    method Decide(ev: LoggingEvent, ghost chain: seq<Filter>) returns (decision: Decision)
      requires chain != [] && chain[0] == this && Linked(chain)
      ensures decision == FirstDecision(chain, ev)
      decreases |chain|
    {
      decision := own(ev);
      if decision == Neutral && chained != null {
        decision := chained.Decide(ev, chain[1..]);
      }
    }

    method GetEndOfChain(ghost chain: seq<Filter>) returns (end: Filter)
      requires chain != [] && chain[0] == this && Linked(chain)
      ensures end == End(chain)
    {
      end := this;
      ghost var i := 0;
      while end.chained != null
        invariant 0 <= i < |chain| && end == chain[i]
        decreases |chain| - i
      {
        assert chain[i].chained == Next(chain, i);
        end := end.chained;
        i := i + 1;
      }
      assert chain[i].chained == Next(chain, i);
    }

    /** Replace what follows this filter. */
    method SetChainedFilter(filter: Filter?)
      modifies this`chained
      ensures chained == filter
    {
      if filter != chained {
        chained := filter;
      }
    }

    /** Add a chain (possibly none) behind the end of this one. If the two have a filter in common,
        the result has no end: deciding on an event that every filter is neutral about never ends. */
    method AppendChainedFilter(filter: Filter?, ghost chain: seq<Filter>, ghost more: seq<Filter>)
      requires chain != [] && chain[0] == this && Linked(chain)
      requires Linked(more) && filter == (if more == [] then null else more[0])
      modifies End(chain)`chained
      ensures Linked(chain + more) <==> Disjoint(chain, more)
      ensures !Disjoint(chain, more) ==> forall c :: c != [] && c[0] == this ==> !Linked(c)
    {
      LinkedDistinct(chain);
      var end := GetEndOfChain(chain);
      end.SetChainedFilter(filter);
      ghost var all := chain + more;
      forall i | 0 <= i < |all| - 1 ensures all[i].chained == all[i + 1] {
        if i < |chain| - 1 {
          assert chain[i] != end && chain[i].chained == Next(chain, i);
        } else if i >= |chain| {
          assert more[i - |chain|] != end && more[i - |chain|].chained == Next(more, i - |chain|);
        }
      }
      if Disjoint(chain, more) {
        assert all[|all| - 1].chained == null by {
          if more != [] {
            assert more[|more| - 1] in more && more[|more| - 1].chained == Next(more, |more| - 1);
          }
        }
      } else {
        NoEnd(all, chain, more);
      }
    }
  }

  lemma NoEnd(walk: seq<Filter>, chain: seq<Filter>, more: seq<Filter>)
    requires walk == chain + more && chain != [] && !Disjoint(chain, more)
    requires forall k :: 0 <= k < |walk| - 1 ==> walk[k].chained == walk[k + 1]
    ensures forall c :: c != [] && c[0] == chain[0] ==> !Linked(c)
    ensures !Linked(walk)
  {
    var f :| f in chain && f in more;
    forall c | c != [] && c[0] == chain[0] ensures !Linked(c) {
      Endless(walk, c, f, chain, more);
    }
    assert walk[0] == chain[0];
  }

  ghost predicate Disjoint(a: seq<Filter>, b: seq<Filter>) {
    forall f :: f in a ==> f !in b
  }

  /** A chain that follows a walk as far as it goes. */
  lemma {:induction false} Follows(walk: seq<Filter>, c: seq<Filter>, i: nat)
    requires c != [] && Linked(c) && i < |walk| && c[0] == walk[0]
    requires forall k :: 0 <= k < |walk| - 1 ==> walk[k].chained == walk[k + 1]
    ensures i < |c| && c[i] == walk[i]
  {
    if i == 0 {
    } else {
      Follows(walk, c, i - 1);
      assert walk[i - 1].chained == walk[i - 1 + 1];
      assert c[i - 1].chained == Next(c, i - 1);
    }
  }

  /** A walk that meets a filter twice is no chain. */
  lemma Endless(walk: seq<Filter>, c: seq<Filter>, f: Filter, chain: seq<Filter>, more: seq<Filter>)
    requires walk == chain + more && f in chain && f in more
    requires c != [] && c[0] == walk[0]
    requires forall k :: 0 <= k < |walk| - 1 ==> walk[k].chained == walk[k + 1]
    ensures !Linked(c)
  {
    if Linked(c) {
      var i :| 0 <= i < |chain| && chain[i] == f;
      var k :| 0 <= k < |more| && more[k] == f;
      Follows(walk, c, i);
      Follows(walk, c, |chain| + k);
      NotTwice(c, i, |chain| + k);
    }
  }

  /** A chain that ends cannot contain a filter twice. */
  lemma LinkedDistinct(chain: seq<Filter>)
    requires Linked(chain)
    ensures forall i, j :: 0 <= i < j < |chain| ==> chain[i] != chain[j]
  {
    forall i, j | 0 <= i < j < |chain| ensures chain[i] != chain[j] {
      NotTwice(chain, i, j);
    }
  }

  lemma {:induction false} NotTwice(chain: seq<Filter>, i: nat, j: nat)
    requires Linked(chain) && i < j < |chain|
    ensures chain[i] != chain[j]
    decreases |chain| - j
  {
    assert chain[i].chained == Next(chain, i);
    assert chain[j].chained == Next(chain, j);
    if j + 1 >= |chain| {
    } else {
      NotTwice(chain, i + 1, j + 1);
    }
  }

  /** What a chain decides: the verdict of the first filter that is not neutral, or Neutral if
      there is none. */
  lemma {:induction false} FirstDecisionLaw(chain: seq<Filter>, ev: LoggingEvent, d: Decision)
    ensures FirstDecision(chain, ev) == d <==>
      || (d == Neutral && forall i :: 0 <= i < |chain| ==> chain[i].own(ev) == Neutral)
      || (d != Neutral && exists i :: 0 <= i < |chain| && chain[i].own(ev) == d
                                      && forall j :: 0 <= j < i ==> chain[j].own(ev) == Neutral)
  {
    if chain == [] {
    } else {
      var rest := chain[1..];
      FirstDecisionLaw(rest, ev, d);
      if chain[0].own(ev) == Neutral && d != Neutral {
        assert forall i :: 0 <= i < |rest| ==> rest[i] == chain[i + 1];
        forall i | 0 <= i < |rest| && rest[i].own(ev) == d && forall j :: 0 <= j < i ==> rest[j].own(ev) == Neutral
          ensures chain[i + 1].own(ev) == d && forall j :: 0 <= j < i + 1 ==> chain[j].own(ev) == Neutral
        {
          forall j | 0 <= j < i + 1 ensures chain[j].own(ev) == Neutral {
            assert j > 0 ==> chain[j] == rest[j - 1];
          }
        }
        forall i | 0 <= i < |chain| && chain[i].own(ev) == d && forall j :: 0 <= j < i ==> chain[j].own(ev) == Neutral
          ensures i > 0 && rest[i - 1].own(ev) == d && forall j :: 0 <= j < i - 1 ==> rest[j].own(ev) == Neutral
        {
          assert rest[i - 1] == chain[i];
        }
      }
    }
  }

  /** A filter behind the end decides only what the chain before it leaves open. */
  lemma {:induction false} AppendedDecides(chain: seq<Filter>, more: seq<Filter>, ev: LoggingEvent)
    ensures FirstDecision(chain + more, ev)
         == if FirstDecision(chain, ev) == Neutral then FirstDecision(more, ev) else FirstDecision(chain, ev)
  {
    if chain == [] {
      assert chain + more == more;
    } else {
      assert (chain + more)[1..] == chain[1..] + more;
      AppendedDecides(chain[1..], more, ev);
    }
  }
}
