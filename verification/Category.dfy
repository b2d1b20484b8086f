/** Logging categories and the maintainer that grows their tree on demand. */
module Category {
  import opened Appender
  import opened CategoryTree
  import opened Priority
  import Filter
  import Ownership

  type LoggingEvent = Filter.LoggingEvent

  class Category {
    const name: string
    const parent: Category?
    var priority: int
    var isAdditive: bool
    var appenders: set<Appender>
    var ownsAppender: map<Appender, bool>

    constructor (name: string, parent: Category?, priority: int)
      ensures this.name == name && this.parent == parent && this.priority == priority
      ensures isAdditive && appenders == {} && ownsAppender == map[]
    {
      this.name, this.parent, this.priority := name, parent, priority;
      isAdditive, appenders, ownsAppender := true, {}, map[];
    }

    /** False stands for the exception by which the root refuses to lose its priority. */
    method SetPriority(priority: int) returns (ok: bool)
      requires WellParented(this)
      modifies this`priority
      ensures ok == (priority < 800 || name != "")
      ensures this.priority == if ok then priority else old(this.priority)
    {
      if priority < NOTSET || parent != null {
        this.priority := priority;
        return true;
      }
      return false;
    }

    /** Climb until a priority is set. */
    method GetChainedPriority() returns (p: int)
      requires WellParented(this) && RootSet(this)
      ensures p == old(ChainedPriority(this))
    {
      var c: Category := this;
      while c.priority >= NOTSET
        invariant WellParented(c) && RootSet(c) && ChainedPriority(c) == ChainedPriority(this)
        decreases |c.name|
      {
        c := c.parent;
      }
      p := c.priority;
    }

    method IsPriorityEnabled(priority: int) returns (enabled: bool)
      requires WellParented(this) && RootSet(this)
      ensures enabled == (priority <= old(ChainedPriority(this)))
    {
      var chained := GetChainedPriority();
      enabled := chained >= priority;
    }

    // -------------------------------------------------------------------------------------
    // Ownership
    // -------------------------------------------------------------------------------------

    ghost function Attachments(): Ownership.Attachments<Appender>
      reads this`appenders, this`ownsAppender
    {
      Ownership.Attachments(appenders, ownsAppender)
    }

    /** False stands for the exception on a null pointer. */
    method AddAppender(appender: Appender?) returns (ok: bool)
      modifies this`appenders, this`ownsAppender
      ensures ok == (appender != null)
      ensures Attachments() ==
        if appender == null then old(Attachments())
        else Ownership.After(old(Attachments()), Ownership.AddPointer(appender))
    {
      if appender == null {
        return false;
      }
      if appender !in appenders {
        appenders := appenders + {appender};
        ownsAppender := ownsAppender[appender := true];
      }
      return true;
    }

    method AddAppenderReference(appender: Appender)
      modifies this`appenders, this`ownsAppender
      ensures Attachments() == Ownership.After(old(Attachments()), Ownership.AddReference(appender))
    {
      if appender !in appenders {
        appenders := appenders + {appender};
        ownsAppender := ownsAppender[appender := false];
      }
    }

    method OwnsAppender(appender: Appender?) returns (owned: bool)
      ensures owned == (appender != null && Ownership.Owned(Attachments(), appender))
    {
      owned := false;
      if appender != null {
        if appender in ownsAppender {
          owned := ownsAppender[appender];
        }
      }
    }

    method RemoveAppender(appender: Appender) returns (deleted: set<Appender>)
      modifies this`appenders, this`ownsAppender
      ensures Attachments() == Ownership.After(old(Attachments()), Ownership.Remove(appender))
      ensures deleted == Ownership.Deleted(old(Attachments()), Ownership.Remove(appender))
    {
      deleted := {};
      if appender in appenders {
        var owned := OwnsAppender(appender);
        if owned {
          ownsAppender := ownsAppender - {appender};
          deleted := {appender};
        }
        appenders := appenders - {appender};
      }
    }

    method RemoveAllAppenders() returns (deleted: set<Appender>)
      modifies this`appenders, this`ownsAppender
      ensures Attachments() == Ownership.After(old(Attachments()), Ownership.RemoveAll)
      ensures deleted == Ownership.Deleted(old(Attachments()), Ownership.RemoveAll)
    {
      ghost var was := Attachments();
      deleted := {};
      var rest := appenders;
      while rest != {}
        invariant rest <= appenders && Attachments() == was
        invariant forall a :: a in appenders && a !in rest ==> (a in deleted <==> Ownership.Owned(was, a))
        invariant deleted <= appenders - rest
      {
        var a :| a in rest;
        var owned := OwnsAppender(a);
        if owned {
          deleted := deleted + {a};
        }
        rest := rest - {a};
      }
      assert deleted == set a | a in appenders && Ownership.Owned(was, a);
      ownsAppender := map[];
      appenders := {};
    }

    // -------------------------------------------------------------------------------------
    // Delivery
    // -------------------------------------------------------------------------------------

    /** Hand an event to the appenders of this category and, while categories are additive, of its
        ancestors. */
    method CallAppenders(ev: LoggingEvent, ghost reach: set<Appender>)
      requires WellParented(this) && Reach(this) == reach
      requires forall a :: a in reach ==> a.Valid()
      modifies reach`emitted
      ensures forall a :: a in reach ==>
        a.emitted == old(a.emitted) + Copies(ev, if old(a.Admits(ev)) then old(Visits(this, a)) else 0)
      decreases |name|
    {
      hide Filter.FirstDecision, Filter.Linked, Count, Visited;
      assert allocated(Line(this));
      ghost var above := if parent == null then {} else Reach(parent);
      CallOwnAppenders(ev);
      label Own:
      if isAdditive && parent != null {
        assert Reach(parent) == above;
        parent.CallAppenders(ev, above);
      }
      forall a | a in reach
        ensures a.emitted == old(a.emitted) + Copies(ev, if old(a.Admits(ev)) then old(Visits(this, a)) else 0)
      {
        VisitsStep(this, a);
        if parent != null && a !in above {
          NotReached(parent, a);
        }
        assert Visits(this, a) == old(Visits(this, a));
        assert old(a.Admits(ev)) == old@Own(a.Admits(ev));
        assert a in appenders ==> old@Own(a.emitted) == old(a.emitted) + Copies(ev, if old(a.Admits(ev)) then 1 else 0);
        assert a !in appenders ==> old@Own(a.emitted) == old(a.emitted);
      }
    }

    /** Every appender of this category sees the event once. */
    method CallOwnAppenders(ev: LoggingEvent)
      requires forall a :: a in appenders ==> a.Valid()
      modifies appenders`emitted
      ensures forall a :: a in appenders ==>
        a.emitted == old(a.emitted) + Copies(ev, if old(a.Admits(ev)) then 1 else 0)
    {
      hide Filter.FirstDecision;
      var rest := appenders;
      while rest != {}
        invariant rest <= appenders
        invariant forall a :: a in appenders ==> a.Valid() && a.Admits(ev) == old(a.Admits(ev))
        invariant forall a :: a in appenders ==>
          a.emitted == if a in rest then old(a.emitted)
            else old(a.emitted) + Copies(ev, if old(a.Admits(ev)) then 1 else 0)
      {
        var a :| a in rest;
        a.DoAppend(ev);
        rest := rest - {a};
      }
    }

    /** Log an event of this category, if its priority is enabled. */
    method Log(ev: LoggingEvent, ghost reach: set<Appender>)
      requires WellParented(this) && RootSet(this) && Reach(this) == reach
      requires forall a :: a in reach ==> a.Valid()
      modifies reach`emitted
      ensures forall a :: a in reach ==>
        a.emitted == old(a.emitted) + Copies(ev,
          if ev.priority <= old(ChainedPriority(this)) && old(a.Admits(ev)) then old(Visits(this, a)) else 0)
    {
      assert allocated(Line(this));
      var enabled := IsPriorityEnabled(ev.priority);
      if enabled {
        CallAppenders(ev, reach);
      }
    }
  }

  // ---------------------------------------------------------------------------------------
  // The line of ancestors
  // ---------------------------------------------------------------------------------------

  /** From here to the root, each category's parent is the one its name says. */
  ghost predicate WellParented(c: Category)
    decreases |c.name|
  {
    if c.name == "" then c.parent == null
    else c.parent != null && c.parent.name == ParentName(c.name) && WellParented(c.parent)
  }

  ghost function Lineage(c: Category): (cs: seq<Category>)
    requires WellParented(c)
    ensures cs != [] && cs[0] == c
    decreases |c.name|
  {
    if c.name == "" then [c] else [c] + Lineage(c.parent)
  }

  /** The categories of the lineage. */
  ghost function Line(c: Category): set<Category>
    requires WellParented(c)
    decreases |c.name|
  {
    if c.name == "" then {c} else {c} + Line(c.parent)
  }

  /** The lineage of a category is the ancestry of its name. */
  lemma {:induction false} LineageNames(c: Category)
    requires WellParented(c)
    ensures |Lineage(c)| == |Ancestry(c.name)|
    ensures forall i :: 0 <= i < |Lineage(c)| ==> Lineage(c)[i].name == Ancestry(c.name)[i]
    decreases |c.name|
  {
    if c.name == "" {
    } else {
      LineageNames(c.parent);
    }
  }

  ghost predicate RootSet(c: Category)
    requires WellParented(c)
    reads Line(c)
    decreases |c.name|
  {
    if c.name == "" then c.priority < NOTSET else RootSet(c.parent)
  }

  /** The priority of the nearest category on the way to the root that has one. */
  ghost function ChainedPriority(c: Category): int
    requires WellParented(c) && RootSet(c)
    reads Line(c)
    decreases |c.name|
  {
    if c.priority < NOTSET then c.priority else ChainedPriority(c.parent)
  }

  /** The categories an event visits. */
  ghost function Visited(c: Category): seq<Category>
    requires WellParented(c)
    reads Line(c)
    decreases |c.name|
  {
    if c.isAdditive && c.name != "" then [c] + Visited(c.parent) else [c]
  }

  /** An event visits the lineage up to and including the first category that is not additive, or
      the root. */
  lemma {:induction false} VisitedLaw(c: Category)
    requires WellParented(c)
    ensures var n, cs := |Visited(c)|, Lineage(c);
      && 1 <= n <= |cs| && Visited(c) == cs[..n]
      && (forall i :: 0 <= i < n - 1 ==> cs[i].isAdditive)
      && (n < |cs| ==> !cs[n - 1].isAdditive)
    decreases |c.name|
  {
    if !c.isAdditive || c.name == "" {
    } else {
      VisitedLaw(c.parent);
      var cs, ps := Lineage(c), Lineage(c.parent);
      assert forall i :: 0 < i < |cs| ==> cs[i] == ps[i - 1];
    }
  }

  /** How many of these categories have an appender. */
  ghost function Count(cs: seq<Category>, a: Appender): nat
    reads cs
  {
    if cs == [] then 0 else (if a in cs[0].appenders then 1 else 0) + Count(cs[1..], a)
  }

  lemma {:induction false} VisitedInLine(c: Category)
    requires WellParented(c)
    ensures forall d :: d in Visited(c) ==> d in Line(c)
    decreases |c.name|
  {
    if !c.isAdditive || c.name == "" {
    } else {
      VisitedInLine(c.parent);
    }
  }

  /** How many of the visited categories have an appender. */
  ghost function Visits(c: Category, a: Appender): nat
    requires WellParented(c)
    reads Line(c)
  {
    VisitedInLine(c);
    Count(Visited(c), a)
  }

  lemma VisitsStep(c: Category, a: Appender)
    requires WellParented(c)
    ensures Visits(c, a) == (if a in c.appenders then 1 else 0)
         + if c.isAdditive && c.name != "" then Visits(c.parent, a) else 0
  {
    if c.isAdditive && c.name != "" {
      assert Visited(c)[1..] == Visited(c.parent);
    } else {
      assert Visited(c) == [c] && [c][1..] == [];
      assert Count([c], a) == (if a in c.appenders then 1 else 0) + Count([], a);
    }
  }

  /** Every appender on the way to the root. */
  ghost function Reach(c: Category): set<Appender>
    requires WellParented(c)
    reads Line(c)
    decreases |c.name|
  {
    c.appenders + if c.name == "" then {} else Reach(c.parent)
  }

  lemma {:induction false} NotReached(c: Category, a: Appender)
    requires WellParented(c) && a !in Reach(c)
    ensures Visits(c, a) == 0
    decreases |c.name|
  {
    VisitsStep(c, a);
    if !c.isAdditive || c.name == "" {
    } else {
      NotReached(c.parent, a);
    }
  }

  ghost function Copies(ev: LoggingEvent, n: nat): (s: seq<LoggingEvent>)
    ensures |s| == n
  {
    seq(n, _ => ev)
  }

  // ---------------------------------------------------------------------------------------
  // The tree
  // ---------------------------------------------------------------------------------------

  class HierarchyMaintainer {
    var categoryMap: map<string, Category>

    constructor ()
      ensures Valid() && Priorities() == map[]
    {
      categoryMap := map[];
    }

    /** Every category is filed under its name and hangs below the category its name says; the root
        alone has no parent, and it has a priority. */
    ghost predicate Valid()
      reads this, categoryMap.Values
    {
      forall n {:trigger Filed(n, categoryMap[n])} :: n in categoryMap ==> Filed(n, categoryMap[n])
    }

    ghost predicate Filed(n: string, c: Category)
      reads this`categoryMap, c`priority
    {
      && c.name == n && WellParented(c)
      && (n != "" ==> ParentName(n) in categoryMap && c.parent == categoryMap[ParentName(n)])
      && (n == "" ==> c.priority < NOTSET)
    }

    ghost function Priorities(): Priorities
      reads this, categoryMap.Values
    {
      map n | n in categoryMap :: categoryMap[n].priority
    }

    method GetExistingInstance(name: string) returns (c: Category?)
      requires Valid()
      ensures c == if name in categoryMap then categoryMap[name] else null
    {
      c := null;
      if name in categoryMap {
        c := categoryMap[name];
      }
    }

    /** The category of a name, made on demand together with its missing ancestors. Categories that
        existed are left alone; new ones are additive and have no appender. */
    method GetInstance(name: string) returns (c: Category)
      requires Valid()
      modifies this
      ensures Valid() && name in categoryMap && c == categoryMap[name]
      ensures name !in old(categoryMap) ==> fresh(c)
      ensures Priorities() == Opened(old(Priorities()), name)
      ensures forall n :: n in old(categoryMap) ==> n in categoryMap && categoryMap[n] == old(categoryMap[n])
      ensures forall n :: n in categoryMap && n !in old(categoryMap) ==>
        fresh(categoryMap[n]) && categoryMap[n].isAdditive && categoryMap[n].appenders == {}
      decreases |name|
    {
      hide WellParented, Opened;
      var existing := GetExistingInstance(name);
      if existing != null {
        OpenedKnown(Priorities(), name);
        return existing;
      }
      if name == "" {
        OpenedRoot(Priorities());
        c := new Category(name, null, INFO);
      } else {
        OpenedUnknown(Priorities(), name);
        OpenedShorter(Priorities(), ParentName(name), name);
        var parent := GetInstance(ParentName(name));
        assert name !in Priorities();
        c := new Category(name, parent, NOTSET);
      }
      File(name, c);
    }

    /** Enter a new category into the map. */
    method File(name: string, c: Category)
      requires Valid() && c.name == name && name !in categoryMap
      requires if name == "" then c.parent == null && c.priority < NOTSET
               else ParentName(name) in categoryMap && c.parent == categoryMap[ParentName(name)]
      modifies this
      ensures Valid() && categoryMap == old(categoryMap)[name := c]
      ensures Priorities() == old(Priorities())[name := c.priority]
    {
      assert name != "" ==> Filed(ParentName(name), categoryMap[ParentName(name)]);
      assert WellParented(c);
      hide WellParented;
      categoryMap := categoryMap[name := c];
      forall n {:trigger Filed(n, categoryMap[n])} | n in categoryMap ensures Filed(n, categoryMap[n]) {
        if n != name {
          assert old(Filed(n, categoryMap[n]));
        }
      }
      assert Priorities() == old(Priorities())[name := c.priority];
    }
  }

  /** The tree the maintainer keeps is a grown one. */
  lemma PrioritiesGrown(h: HierarchyMaintainer)
    requires h.Valid()
    ensures Grown(h.Priorities())
  {
    hide WellParented;
    forall n | n in h.categoryMap ensures n != "" ==> ParentName(n) in h.Priorities() {
      assert h.Filed(n, h.categoryMap[n]);
    }
    assert "" in h.categoryMap ==> h.Filed("", h.categoryMap[""]);
  }

  /** In the tree, climbing from a category finds its effective priority. */
  lemma {:induction false} ChainedIsEffective(h: HierarchyMaintainer, name: string)
    requires h.Valid() && name in h.categoryMap && Grown(h.Priorities())
    ensures WellParented(h.categoryMap[name]) && RootSet(h.categoryMap[name])
    ensures ChainedPriority(h.categoryMap[name]) == Effective(h.Priorities(), name)
    decreases |name|
  {
    assert h.Filed(name, h.categoryMap[name]);
    if name == "" {
    } else {
      ChainedIsEffective(h, ParentName(name));
    }
  }

  /** Setting a priority keeps the tree valid. */
  method Assign(h: HierarchyMaintainer, name: string, priority: int) returns (ok: bool)
    requires h.Valid()
    modifies (if name in h.categoryMap then {h.categoryMap[name]} else {})`priority
    ensures h.Valid() && h.Priorities() == Step(old(h.Priorities()), SetPriority(name, priority))
    ensures ok == (name in h.categoryMap && (priority < 800 || name != ""))
  {
    hide WellParented;
    var c := h.GetExistingInstance(name);
    if c == null {
      return false;
    }
    ghost var was := h.Priorities();
    assert h.Filed(name, c);
    forall n | n in h.categoryMap && n != name ensures h.categoryMap[n] != c {
      assert h.Filed(n, h.categoryMap[n]);
    }
    ok := c.SetPriority(priority);
    forall n {:trigger h.Filed(n, h.categoryMap[n])} | n in h.categoryMap ensures h.Filed(n, h.categoryMap[n]) {
      assert old(h.Filed(n, h.categoryMap[n]));
    }
    assert h.Priorities() == if ok then was[name := priority] else was;
  }

  /** A client's calls, one after the other: the tree stays valid, and what becomes of it is what
      becomes of the names and priorities. */
  method Perform(h: HierarchyMaintainer, ops: seq<Op>)
    requires h.Valid()
    modifies h, h.categoryMap.Values
    ensures h.Valid() && h.Priorities() == Run(old(h.Priorities()), ops)
  {
    hide WellParented;
    ghost var start, given := h.Priorities(), h.categoryMap.Values;
    for i := 0 to |ops|
      invariant h.Valid() && Run(h.Priorities(), ops[i..]) == Run(start, ops)
      invariant forall n :: n in h.categoryMap ==> h.categoryMap[n] in given || fresh(h.categoryMap[n])
    {
      assert ops[i..][1..] == ops[i + 1..];
      match ops[i] {
        case GetInstance(name) =>
          var c := h.GetInstance(name);
        case SetPriority(name, priority) =>
          var ok := Assign(h, name, priority);
      }
    }
  }

  /** After any calls, climbing from a category one asks for finds the priority of its nearest set
      ancestor: the loop always terminates, for the root always has one. */
  method PriorityAfter(h: HierarchyMaintainer, ops: seq<Op>, name: string) returns (p: int)
    requires h.Valid()
    modifies h, h.categoryMap.Values
    ensures h.Valid() && h.Priorities() == Opened(Run(old(h.Priorities()), ops), name)
    ensures Grown(h.Priorities()) && p == Effective(h.Priorities(), name)
  {
    Perform(h, ops);
    var c := h.GetInstance(name);
    PrioritiesGrown(h);
    ChainedIsEffective(h, name);
    p := c.GetChainedPriority();
  }

  /** An event of a category visits the categories named by the beginning of its ancestry, up to and
      including the first that is not additive. */
  lemma VisitsAncestry(c: Category)
    requires WellParented(c)
    ensures var cs, names := Visited(c), Ancestry(c.name);
      && 1 <= |cs| <= |names| && (forall i :: 0 <= i < |cs| ==> cs[i].name == names[i])
      && (forall i :: 0 <= i < |cs| - 1 ==> cs[i].isAdditive)
      && (|cs| < |names| ==> !cs[|cs| - 1].isAdditive)
  {
    VisitedLaw(c);
    LineageNames(c);
  }

  /** Appender operations on one category, one after the other: what becomes of it, and how often
      each appender is deleted, is what the run on values says. */
  method AttachAndDetach(c: Category, ops: seq<Ownership.Op<Appender>>) returns (deleted: seq<set<Appender>>)
    modifies c`appenders, c`ownsAppender
    ensures c.Attachments() == Ownership.Run(old(c.Attachments()), ops)
    ensures |deleted| == |ops| && forall i :: 0 <= i < |ops| ==>
      deleted[i] == Ownership.Deleted(Ownership.Run(old(c.Attachments()), ops[..i]), ops[i])
  {
    ghost var start := c.Attachments();
    deleted := [];
    for i := 0 to |ops|
      invariant |deleted| == i && c.Attachments() == Ownership.Run(start, ops[..i])
      invariant forall k :: 0 <= k < i ==> deleted[k] == Ownership.Deleted(Ownership.Run(start, ops[..k]), ops[k])
    {
      Ownership.RunSnoc(start, ops[..i], ops[i]);
      assert ops[..i + 1] == ops[..i] + [ops[i]];
      var gone: set<Appender> := {};
      match ops[i] {
        case AddPointer(a) =>
          var ok := c.AddAppender(a);
        case AddReference(a) => c.AddAppenderReference(a);
        case Remove(a) => gone := c.RemoveAppender(a);
        case RemoveAll => gone := c.RemoveAllAppenders();
      }
      deleted := deleted + [gone];
    }
    assert ops[..|ops|] == ops;
  }
}
