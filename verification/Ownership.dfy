/** Which appenders a category deletes. The category keeps a set of appenders and a table of those
    it owns; the partner is a plain map from the attached appenders to how they were attached. */
module Ownership {

  datatype Attachments<!A(==)> = Attachments(attached: set<A>, owns: map<A, bool>)

  datatype Op<A> = AddPointer(appender: A) | AddReference(appender: A) | Remove(appender: A) | RemoveAll

  predicate Owned<A(==)>(s: Attachments<A>, a: A) {
    a in s.owns && s.owns[a]
  }

  /** The category's own bookkeeping. Removing a borrowed appender leaves its table entry behind. */
  function After<A(==)>(s: Attachments<A>, op: Op<A>): Attachments<A> {
    match op
    case AddPointer(a) => if a in s.attached then s else Attachments(s.attached + {a}, s.owns[a := true])
    case AddReference(a) => if a in s.attached then s else Attachments(s.attached + {a}, s.owns[a := false])
    case Remove(a) =>
      if a in s.attached then Attachments(s.attached - {a}, if Owned(s, a) then s.owns - {a} else s.owns) else s
    case RemoveAll => Attachments({}, map[])
  }

  function Deleted<A(==)>(s: Attachments<A>, op: Op<A>): set<A> {
    match op
    case AddPointer(_) => {}
    case AddReference(_) => {}
    case Remove(a) => if a in s.attached && Owned(s, a) then {a} else {}
    case RemoveAll => set a | a in s.attached && Owned(s, a)
  }

  /** Every attached appender has an entry, and only attached ones are owned. Entries that say
      `false` may be left over. */
  ghost predicate Inv<A>(s: Attachments<A>) {
    && (forall a :: a in s.attached ==> a in s.owns)
    && (forall a :: a in s.owns && s.owns[a] ==> a in s.attached)
  }

  // ---------------------------------------------------------------------------------------
  // The partner
  // ---------------------------------------------------------------------------------------

  datatype Mode = ByPointer | ByReference

  ghost function Modes<A>(s: Attachments<A>): map<A, Mode>
    requires Inv(s)
  {
    map a | a in s.attached :: if s.owns[a] then ByPointer else ByReference
  }

  /** An appender keeps the mode of its first insertion until it is removed. */
  ghost function Attach<A>(m: map<A, Mode>, op: Op<A>): map<A, Mode> {
    match op
    case AddPointer(a) => if a in m then m else m[a := ByPointer]
    case AddReference(a) => if a in m then m else m[a := ByReference]
    case Remove(a) => m - {a}
    case RemoveAll => map[]
  }

  /** Every operation keeps the invariant and does to the modes what the partner does; it deletes
      exactly the appenders attached by pointer that it detaches. */
  lemma OwnershipStep<A(!new)>(s: Attachments<A>, op: Op<A>)
    requires Inv(s)
    ensures Inv(After(s, op)) && Modes(After(s, op)) == Attach(Modes(s), op)
    ensures forall a :: a in Deleted(s, op)
              <==> a in Modes(s) && Modes(s)[a] == ByPointer && a !in Attach(Modes(s), op)
  {
    var m, t := Modes(s), After(s, op);
    assert Inv(t);
    assert Modes(t) == Attach(m, op);
  }

  // ---------------------------------------------------------------------------------------
  // Runs
  // ---------------------------------------------------------------------------------------

  ghost function Run<A>(s: Attachments<A>, ops: seq<Op<A>>): Attachments<A>
    decreases |ops|
  {
    if ops == [] then s else Run(After(s, ops[0]), ops[1..])
  }

  lemma {:induction false} RunSnoc<A>(s: Attachments<A>, ops: seq<Op<A>>, op: Op<A>)
    ensures Run(s, ops + [op]) == After(Run(s, ops), op)
    decreases |ops|
  {
    if ops == [] {
      assert [op][1..] == [];
    } else {
      assert (ops + [op])[1..] == ops[1..] + [op];
      RunSnoc(After(s, ops[0]), ops[1..], op);
    }
  }

  /** How often a run deletes an appender. */
  ghost function Deletions<A>(s: Attachments<A>, ops: seq<Op<A>>, a: A): nat
    decreases |ops|
  {
    if ops == [] then 0
    else (if a in Deleted(s, ops[0]) then 1 else 0) + Deletions(After(s, ops[0]), ops[1..], a)
  }

  /** How many attachments of an appender begin by pointer in a run. */
  ghost function PointerAttachments<A>(s: Attachments<A>, ops: seq<Op<A>>, a: A): nat
    decreases |ops|
  {
    if ops == [] then 0
    else (if ops[0] == AddPointer(a) && a !in s.attached then 1 else 0)
         + PointerAttachments(After(s, ops[0]), ops[1..], a)
  }

  ghost function Held<A>(s: Attachments<A>, a: A): nat {
    if Owned(s, a) then 1 else 0
  }

  lemma HeldStep<A(!new)>(s: Attachments<A>, op: Op<A>, a: A)
    requires Inv(s)
    ensures Held(After(s, op), a) + (if a in Deleted(s, op) then 1 else 0)
         == Held(s, a) + if op == AddPointer(a) && a !in s.attached then 1 else 0
  {
  }

  /** Over any run, every attachment that began by pointer is either still there or was deleted
      once, and nothing else is ever deleted. */
  lemma {:induction false} OwnershipRun<A(!new)>(s: Attachments<A>, ops: seq<Op<A>>, a: A)
    requires Inv(s)
    ensures Inv(Run(s, ops))
    ensures Held(Run(s, ops), a) + Deletions(s, ops, a) == Held(s, a) + PointerAttachments(s, ops, a)
    decreases |ops|
  {
    if ops == [] {
    } else {
      OwnershipStep(s, ops[0]);
      HeldStep(s, ops[0], a);
      OwnershipRun(After(s, ops[0]), ops[1..], a);
    }
  }

  /** The appender is attached before every operation of the run and detached after the last. */
  ghost predicate OneAttachment<A>(s: Attachments<A>, ops: seq<Op<A>>, a: A)
    decreases |ops|
  {
    if ops == [] then a !in s.attached else a in s.attached && OneAttachment(After(s, ops[0]), ops[1..], a)
  }

  lemma {:induction false} OneAttachmentDeletes<A(!new)>(s: Attachments<A>, ops: seq<Op<A>>, a: A)
    requires Inv(s) && OneAttachment(s, ops, a)
    ensures Deletions(s, ops, a) == Held(s, a)
    decreases |ops|
  {
    if ops == [] {
    } else {
      OwnershipStep(s, ops[0]);
      HeldStep(s, ops[0], a);
      OneAttachmentDeletes(After(s, ops[0]), ops[1..], a);
    }
  }

  /** An attachment, whatever else happens on the category while it lasts, deletes its appender
      exactly once if its first insertion was by pointer, and never if by reference. */
  lemma AttachmentDeletesOnce<A(!new)>(s: Attachments<A>, first: Op<A>, ops: seq<Op<A>>, a: A)
    requires Inv(s) && a !in s.attached
    requires first == AddPointer(a) || first == AddReference(a)
    requires OneAttachment(After(s, first), ops, a)
    ensures Deletions(After(s, first), ops, a) == if first == AddPointer(a) then 1 else 0
  {
    OwnershipStep(s, first);
    OneAttachmentDeletes(After(s, first), ops, a);
  }
}
