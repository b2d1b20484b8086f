/** Category names and priorities, by name: every dotted prefix of a known category is known, and
    a category without a priority of its own takes the nearest ancestor's. */
module CategoryTree {
  import opened Options
  import opened StringUtil
  import opened Priority

  /** The priority of each known category. */
  type Priorities = map<string, int>

  /** Everything before the last dot; the root's name if there is none. */
  function ParentName(name: string): (p: string)
    requires name != ""
    ensures |p| < |name|
  {
    match FindLast(name, '.', |name| - 1)
    case None => ""
    case Some(i) => name[..i]
  }

  /** A name, its parent's name, and so on up to the root's. */
  function Ancestry(name: string): (v: seq<string>)
    ensures v != [] && v[0] == name
    decreases |name|
  {
    if name == "" then [""] else [name] + Ancestry(ParentName(name))
  }

  /** A name cut off before one of its dots. */
  predicate CutAtDot(p: string, name: string) {
    |p| < |name| && p == name[..|p|] && name[|p|] == '.'
  }

  /** The ancestry of a name is the name, its cuts at dots, and the root. */
  lemma {:induction false} AncestryLaw(name: string, p: string)
    ensures p in Ancestry(name) <==> p == name || p == "" || CutAtDot(p, name)
    decreases |name|
  {
    if name == "" {
    } else {
      var parent := ParentName(name);
      FindLastLaw(name, '.', |name| - 1);
      AncestryLaw(parent, p);
      CutAbove(name, p);
      assert p in Ancestry(name) <==> p == name || p in Ancestry(parent);
    }
  }

  /** A cut of a name is its parent, or a cut of its parent. */
  lemma CutAbove(name: string, p: string)
    requires name != ""
    ensures CutAtDot(p, name) <==> CutAtDot(p, ParentName(name)) || (p == ParentName(name) && '.' in name)
  {
    var dot := FindLast(name, '.', |name| - 1);
    FindLastLaw(name, '.', |name| - 1);
    if dot.None? {
      assert '.' !in name;
    } else {
      var parent := ParentName(name);
      assert name[dot.value] == '.' && |parent| == dot.value;
      if |p| < |parent| {
        assert parent[..|p|] == name[..|p|];
      }
    }
  }

  /** Every ancestor of a known category is known, and the root has a priority. */
  ghost predicate Grown(m: Priorities) {
    && (forall n :: n in m && n != "" ==> ParentName(n) in m)
    && ("" in m ==> m[""] < NOTSET)
  }

  /** Create a category and the ancestors it lacks. */
  function Opened(m: Priorities, name: string): Priorities
    decreases |name|
  {
    if name in m then m
    else if name == "" then m[name := INFO]
    else Opened(m, ParentName(name))[name := NOTSET]
  }

  lemma OpenedKnown(m: Priorities, name: string)
    requires name in m
    ensures Opened(m, name) == m
  {
  }

  lemma OpenedRoot(m: Priorities)
    requires "" !in m
    ensures Opened(m, "") == m["" := INFO]
  {
  }

  lemma OpenedUnknown(m: Priorities, name: string)
    requires name !in m && name != ""
    ensures Opened(m, name) == Opened(m, ParentName(name))[name := NOTSET]
  {
  }

  /** Ancestors have shorter names. */
  lemma {:induction false} OpenedShorter(m: Priorities, name: string, longer: string)
    requires longer !in m && |longer| > |name|
    ensures longer !in Opened(m, name)
    decreases |name|
  {
    if name in m || name == "" {
    } else {
      OpenedShorter(m, ParentName(name), longer);
    }
  }

  /** Set a category's priority; the root refuses not to have one. */
  predicate Assignable(name: string, priority: int) {
    priority < NOTSET || name != ""
  }

  /** The nearest priority that is set, from a category upwards. */
  function Effective(m: Priorities, name: string): int
    requires name in m && Grown(m)
    decreases |name|
  {
    if m[name] < NOTSET then m[name] else Effective(m, ParentName(name))
  }

  /** The effective priority is that of the first in the ancestry whose priority is set. */
  lemma {:induction false} EffectiveLaw(m: Priorities, name: string) returns (i: nat)
    requires name in m && Grown(m)
    ensures FirstSet(m, Ancestry(name), i) && Effective(m, name) == m[Ancestry(name)[i]]
    decreases |name|
  {
    if m[name] < NOTSET {
      i := 0;
    } else {
      var w := Ancestry(ParentName(name));
      assert Ancestry(name) == [name] + w;
      i := EffectiveLaw(m, ParentName(name));
      FirstSetBehind(m, name, w, i);
      i := i + 1;
    }
  }

  ghost predicate FirstSet(m: Priorities, names: seq<string>, i: nat) {
    i < |names| && names[i] in m && m[names[i]] < NOTSET
    && forall j :: 0 <= j < i ==> names[j] in m && m[names[j]] >= NOTSET
  }

  lemma FirstSetBehind(m: Priorities, name: string, w: seq<string>, i: nat)
    requires name in m && m[name] >= NOTSET
    ensures FirstSet(m, w, i) <==> FirstSet(m, [name] + w, i + 1)
  {
    var v := [name] + w;
    assert forall j :: 0 <= j < |w| ==> v[j + 1] == w[j];
    if FirstSet(m, v, i + 1) {
      forall j | 0 <= j < i ensures w[j] in m && m[w[j]] >= NOTSET {
        assert v[j + 1] == w[j];
      }
    }
  }

  /** Asking for a category makes known exactly its ancestry, changes no known priority, and keeps
      the tree grown. */
  lemma {:induction false} OpenedLaw(m: Priorities, name: string, n: string)
    requires Grown(m)
    ensures Grown(Opened(m, name)) && name in Opened(m, name)
    ensures n in Opened(m, name) <==> n in m || n in Ancestry(name)
    ensures n in m ==> Opened(m, name)[n] == m[n]
    ensures n in Opened(m, name) && n !in m ==> Opened(m, name)[n] == if n == "" then 600 else 800
    decreases |name|
  {
    if name in m {
      KnownAncestry(m, name);
    } else if name != "" {
      OpenedLaw(m, ParentName(name), n);
      assert n in Ancestry(name) <==> n == name || n in Ancestry(ParentName(name));
    }
  }

  lemma {:induction false} KnownAncestry(m: Priorities, name: string)
    requires Grown(m) && name in m
    ensures forall n :: n in Ancestry(name) ==> n in m
    decreases |name|
  {
    if name == "" {
    } else {
      KnownAncestry(m, ParentName(name));
    }
  }

  // ---------------------------------------------------------------------------------------
  // Runs
  // ---------------------------------------------------------------------------------------

  datatype Op = GetInstance(name: string) | SetPriority(name: string, priority: int)

  /** A priority can be set on a category one has asked for. */
  function Step(m: Priorities, op: Op): Priorities {
    match op
    case GetInstance(name) => Opened(m, name)
    case SetPriority(name, p) => if name in m && Assignable(name, p) then m[name := p] else m
  }

  function Run(m: Priorities, ops: seq<Op>): Priorities
    decreases |ops|
  {
    if ops == [] then m else Run(Step(m, ops[0]), ops[1..])
  }

  /** After any run the known names are closed under cutting at dots, the root is known with them
      and has a priority, so every known category has an effective one. */
  lemma {:induction false} GrownRun(m: Priorities, ops: seq<Op>, name: string, p: string)
    requires Grown(m)
    ensures Grown(Run(m, ops))
    ensures name in Run(m, ops) && (p == "" || CutAtDot(p, name)) ==> p in Run(m, ops)
    ensures name in Run(m, ops) ==> Effective(Run(m, ops), name) < 800
    decreases |ops|
  {
    if ops == [] {
      AncestryLaw(name, p);
      if name in m {
        EffectiveSet(m, name);
        KnownAncestry(m, name);
      }
    } else {
      if ops[0].GetInstance? {
        OpenedLaw(m, ops[0].name, name);
      }
      GrownRun(Step(m, ops[0]), ops[1..], name, p);
    }
  }

  lemma {:induction false} EffectiveSet(m: Priorities, name: string)
    requires Grown(m) && name in m
    ensures Effective(m, name) < NOTSET
    decreases |name|
  {
    if m[name] < NOTSET {
    } else {
      EffectiveSet(m, ParentName(name));
    }
  }

  /** The root's priority cannot be cleared; nothing happens. */
  lemma RootKeepsOne(m: Priorities, p: int)
    requires p >= 800
    ensures Step(m, SetPriority("", p)) == m
  {
  }

  /** An assignment decides the effective priority of exactly the categories that have no set
      priority on their way up to the assigned one: a set priority becomes theirs, and clearing one
      leaves them that of the assigned category's parent. The others keep theirs. */
  lemma {:induction false} AssignmentReach(m: Priorities, name: string, p: int, x: string)
    requires Grown(m) && name in m && x in m
    requires p < 800 || name != ""
    ensures Step(m, SetPriority(name, p)) == m[name := p] && Grown(m[name := p])
    ensures Effective(m[name := p], x) ==
      if !Reaches(m, name, x) then Effective(m, x)
      else if p < 800 then p
      else Effective(m, ParentName(name))
    decreases |x|
  {
    if x == name {
      if p >= NOTSET {
        AboveUnreached(m, name, ParentName(name));
        AssignmentReach(m, name, p, ParentName(name));
      }
    } else if m[x] >= NOTSET {
      AssignmentReach(m, name, p, ParentName(x));
    }
  }

  lemma {:induction false} AboveUnreached(m: Priorities, name: string, x: string)
    requires Grown(m) && x in m && |x| < |name|
    ensures !Reaches(m, name, x)
    decreases |x|
  {
    if x == "" || m[x] < NOTSET {
    } else {
      AboveUnreached(m, name, ParentName(x));
    }
  }

  /** x is below `name` with no set priority from x up to, not including, `name`. */
  predicate Reaches(m: Priorities, name: string, x: string)
    requires Grown(m) && x in m
    decreases |x|
  {
    x == name || (m[x] >= NOTSET && x != "" && Reaches(m, name, ParentName(x)))
  }
}
