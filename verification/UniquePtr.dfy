/**
  Unique ownership: a pointer and its deleter travel together through swap.  First what each
  operation does to the handles of a program, then what holds of every program, then the class.
 */
module UniquePtr {
  import opened Common

  type Ptr = nat
  type Name = nat

  /** Converted(d) is what a deleter of another type becomes when d is moved into it, MovedFrom(d)
      what such a move leaves behind. */
  datatype Deleter = DefaultDelete | Custom(id: nat) | Converted(d: Deleter) | MovedFrom(d: Deleter)

  datatype Handle = Handle(p: Option<Ptr>, deleter: Deleter)

  datatype Deletion = Deletion(p: Ptr, deleter: Deleter)

  /** The handles in scope, and the calls of deleters so far. */
  datatype State = State(handles: map<Name, Handle>, log: seq<Deletion>)

  datatype Action =
    | Construct(v: Name, p: Option<Ptr>, d: Deleter)
    | MoveConstruct(v: Name, w: Name)
    | ConvertConstruct(v: Name, w: Name)
    | MoveAssign(v: Name, w: Name)
    | ConvertAssign(v: Name, w: Name)
    | Reset(v: Name, p: Option<Ptr>)   // and the assignment of nullptr
    | Release(v: Name)
    | Swap(v: Name, w: Name)
    | Destroy(v: Name)

  const EMPTY := Handle(None, DefaultDelete)

  function Drop(h: Handle): seq<Deletion> {
    match h.p
    case None => []
    case Some(p) => [Deletion(p, h.deleter)]
  }

  function ConvertedOf(h: Handle): Handle {
    Handle(h.p, Converted(h.deleter))
  }

  function ConvertedFrom(h: Handle): Handle {
    Handle(None, MovedFrom(h.deleter))
  }

  /** No handle owns p: what the client has to see to before it adopts p.  p may well be the address
      of an object that was released, or deleted, before. */
  ghost predicate Adoptable(s: State, p: Ptr) {
    forall v | v in s.handles :: s.handles[v].p != Some(p)
  }

  ghost predicate Enabled(s: State, a: Action) {
    match a
    case Construct(v, p, _) => v !in s.handles && (p.Some? ==> Adoptable(s, p.value))
    case MoveConstruct(v, w) => v !in s.handles && w in s.handles
    case ConvertConstruct(v, w) => v !in s.handles && w in s.handles
    case MoveAssign(v, w) => v in s.handles && w in s.handles
    case ConvertAssign(v, w) => v in s.handles && w in s.handles && v != w
    case Reset(v, p) => v in s.handles && (p.Some? ==> Adoptable(s, p.value))
    case Release(v) => v in s.handles
    case Swap(v, w) => v in s.handles && w in s.handles
    case Destroy(v) => v in s.handles
  }

  function Do(s: State, a: Action): State
    requires Enabled(s, a)
  {
    var hs, log := s.handles, s.log;
    match a
    case Construct(v, p, d) => State(hs[v := Handle(p, d)], log)
    case MoveConstruct(v, w) => State(hs[v := hs[w]][w := EMPTY], log)
    case ConvertConstruct(v, w) => State(hs[v := ConvertedOf(hs[w])][w := ConvertedFrom(hs[w])], log)
    case MoveAssign(v, w) => if v == w then s else State(hs[v := hs[w]][w := EMPTY], log + Drop(hs[v]))
    case ConvertAssign(v, w) =>
      State(hs[v := ConvertedOf(hs[w])][w := ConvertedFrom(hs[w])], log + Drop(hs[v]))
    case Reset(v, p) => State(hs[v := Handle(p, DefaultDelete)], log + Drop(hs[v]))
    case Release(v) => State(hs[v := hs[v].(p := None)], log)
    case Swap(v, w) => State(hs[v := hs[w]][w := hs[v]], log)
    case Destroy(v) => State(hs - {v}, log + Drop(hs[v]))
  }

  // ---------- Histories ----------

  /** The step pairs p with a deleter. */
  predicate Adopts(a: Action, p: Ptr) {
    (a.Construct? || a.Reset?) && a.p == Some(p)
  }

  function AdoptedWith(a: Action): Deleter
    requires a.Construct? || a.Reset?
  {
    if a.Construct? then a.d else DefaultDelete
  }

  /** The step moves p to a handle of another type. */
  predicate Converts(s: State, a: Action, p: Ptr) {
    (a.ConvertConstruct? || a.ConvertAssign?) && a.w in s.handles && s.handles[a.w].p == Some(p)
  }

  predicate Releases(s: State, a: Action, p: Ptr) {
    a.Release? && a.v in s.handles && s.handles[a.v].p == Some(p)
  }

  ghost predicate StepAt(states: seq<State>, acts: seq<Action>, i: nat)
    requires |states| == |acts| + 1 && i < |acts|
  {
    Enabled(states[i], acts[i]) && states[i + 1] == Do(states[i], acts[i])
  }

  ghost predicate IsRun(states: seq<State>, acts: seq<Action>) {
    && |states| == |acts| + 1 && states[0] == State(map[], [])
    && forall i: nat | i < |acts| :: StepAt(states, acts, i)
  }

  /** The deleter paired with p after i steps: that of its last adoption, converted as often as p
      was moved to a handle of another type since. */
  function Paired(states: seq<State>, acts: seq<Action>, p: Ptr, i: nat): Deleter
    requires i <= |acts| < |states|
  {
    if i == 0 then DefaultDelete
    else PairedAfter(states[i - 1], acts[i - 1], p, Paired(states, acts, p, i - 1))
  }

  function PairedAfter(s: State, a: Action, p: Ptr, d: Deleter): Deleter {
    if Adopts(a, p) then AdoptedWith(a)
    else if Converts(s, a, p) then Converted(d)
    else d
  }

  function Adoptions(acts: seq<Action>, p: Ptr, i: nat): nat
    requires i <= |acts|
  {
    if i == 0 then 0 else Adoptions(acts, p, i - 1) + if Adopts(acts[i - 1], p) then 1 else 0
  }

  function Given(states: seq<State>, acts: seq<Action>, p: Ptr, i: nat): nat
    requires i <= |acts| < |states|
  {
    if i == 0 then 0 else Given(states, acts, p, i - 1) + if Releases(states[i - 1], acts[i - 1], p) then 1 else 0
  }

  function Deletions(log: seq<Deletion>, p: Ptr): nat {
    if |log| == 0 then 0 else Deletions(log[..|log| - 1], p) + if log[|log| - 1].p == p then 1 else 0
  }

  predicate Owns(s: State, v: Name, p: Ptr) {
    v in s.handles && s.handles[v].p == Some(p)
  }

  ghost predicate Owned(s: State, p: Ptr) {
    exists v :: Owns(s, v, p)
  }

  function Unit(b: bool): nat {
    if b then 1 else 0
  }

  // ---------- The invariant, pointer by pointer ----------

  /** p has at most one owner, who holds its deleter d. */
  ghost predicate Sole(s: State, p: Ptr, d: Deleter) {
    && (forall v, w :: Owns(s, v, p) && Owns(s, w, p) ==> v == w)
    && (forall v :: Owns(s, v, p) ==> s.handles[v].deleter == d)
  }

  lemma DeletionsAppend(log: seq<Deletion>, h: Handle, p: Ptr)
    ensures Deletions(log + Drop(h), p) == Deletions(log, p) + Unit(h.p == Some(p))
  {
    if h.p.Some? {
      assert (log + Drop(h))[..|log|] == log;
    } else {
      assert log + Drop(h) == log;
    }
  }

  /** The handle that had what handle y has after the step. */
  function Before(a: Action, y: Name): Name {
    if (a.MoveConstruct? || a.ConvertConstruct? || a.MoveAssign? || a.ConvertAssign?) && y == a.v then a.w
    else if a.Swap? && y == a.v then a.w
    else if a.Swap? && y == a.w then a.v
    else y
  }

  /** The handle that has what handle x had before the step. */
  function After(a: Action, x: Name): Name {
    if (a.MoveConstruct? || a.ConvertConstruct? || a.MoveAssign? || a.ConvertAssign?) && x == a.w then a.v
    else if a.Swap? && x == a.v then a.w
    else if a.Swap? && x == a.w then a.v
    else x
  }

  /** The step deletes what its target owned. */
  predicate Overwrites(a: Action) {
    (a.MoveAssign? && a.v != a.w) || a.ConvertAssign? || a.Reset? || a.Destroy?
  }

  predicate Loses(s: State, a: Action, p: Ptr) {
    (Overwrites(a) || a.Release?) && Owns(s, a.v, p)
  }

  lemma OwnsBefore(s: State, a: Action, p: Ptr, y: Name)
    requires Enabled(s, a) && Owns(Do(s, a), y, p) && !Adopts(a, p)
    ensures Owns(s, Before(a, y), p) && After(a, Before(a, y)) == y
    ensures Do(s, a).handles[y].deleter == PairedAfter(s, a, p, s.handles[Before(a, y)].deleter) ||
            (Converts(s, a, p) && Before(a, y) != a.w)
    ensures (Overwrites(a) || a.Release?) ==> Before(a, y) != a.v
  {
  }

  lemma OwnsAfter(s: State, a: Action, p: Ptr, x: Name)
    requires Enabled(s, a) && Owns(s, x, p) && ((Overwrites(a) || a.Release?) ==> x != a.v)
    ensures Owns(Do(s, a), After(a, x), p)
  {
  }

  lemma OwnedAfter(s: State, a: Action, p: Ptr, d: Deleter)
    requires Enabled(s, a) && Sole(s, p, d)
    ensures Owned(Do(s, a), p) <==> Adopts(a, p) || (Owned(s, p) && !Loses(s, a, p))
  {
    var t := Do(s, a);
    if Adopts(a, p) {
      assert Owns(t, a.v, p);
    } else {
      if y :| Owns(t, y, p) {
        OwnsBefore(s, a, p, y);
      }
      if Owned(s, p) && !Loses(s, a, p) {
        var x :| Owns(s, x, p);
        OwnsAfter(s, a, p, x);
      }
    }
  }

  lemma LogAfter(s: State, a: Action, p: Ptr)
    requires Enabled(s, a)
    ensures Do(s, a).log == if Overwrites(a) then s.log + Drop(s.handles[a.v]) else s.log
    ensures Deletions(Do(s, a).log, p) == Deletions(s.log, p) + Unit(Overwrites(a) && Loses(s, a, p))
  {
    if Overwrites(a) {
      DeletionsAppend(s.log, s.handles[a.v], p);
    }
  }

  /** Whoever adopts p has seen to it that nobody owns it. */
  lemma AdoptsFree(s: State, a: Action, p: Ptr)
    requires Enabled(s, a) && Adopts(a, p)
    ensures !Owned(s, p)
  {
    assert Adoptable(s, p);
  }

  lemma StepSole(s: State, a: Action, p: Ptr, d: Deleter)
    requires Enabled(s, a) && Sole(s, p, d)
    ensures Sole(Do(s, a), p, PairedAfter(s, a, p, d))
  {
    var t := Do(s, a);
    if Adopts(a, p) {
      AdoptsFree(s, a, p);
      forall v | Owns(t, v, p) ensures v == a.v {
        assert !Owns(s, v, p);
      }
    } else {
      forall v | Owns(t, v, p)
        ensures Owns(s, Before(a, v), p) && After(a, Before(a, v)) == v
        ensures t.handles[v].deleter == PairedAfter(s, a, p, d)
      {
        OwnsBefore(s, a, p, v);
        if Converts(s, a, p) {
          assert Owns(s, a.w, p);
        }
      }
    }
  }

  /** What a step adds on one side of the ledger it adds on the other. */
  lemma StepLedger(s: State, a: Action, p: Ptr, d: Deleter)
    requires Enabled(s, a) && Sole(s, p, d)
    ensures var t := Do(s, a);
            Unit(Adopts(a, p)) + Deletions(s.log, p) + Unit(Owned(s, p)) ==
            Unit(Releases(s, a, p)) + Deletions(t.log, p) + Unit(Owned(t, p))
  {
    OwnedAfter(s, a, p, d);
    LogAfter(s, a, p);
    if Adopts(a, p) {
      AdoptsFree(s, a, p);
      assert !Owns(s, a.v, p);
    } else if Loses(s, a, p) {
      assert Owned(s, p);
    }
  }

  /** A deletion calls the deleter the pointer is paired with. */
  lemma StepDeletes(s: State, a: Action, p: Ptr, d: Deleter)
    requires Enabled(s, a) && Sole(s, p, d)
    ensures s.log <= Do(s, a).log
    ensures forall k | |s.log| <= k < |Do(s, a).log| :: Do(s, a).log[k].p == p ==> Do(s, a).log[k].deleter == d
  {
    LogAfter(s, a, p);
    if Overwrites(a) && s.handles[a.v].p == Some(p) {
      assert Owns(s, a.v, p);
    }
  }

  // ---------- Every program ----------

  lemma {:induction false} SoleAlways(states: seq<State>, acts: seq<Action>, p: Ptr, i: nat)
    requires IsRun(states, acts) && i <= |acts|
    ensures Sole(states[i], p, Paired(states, acts, p, i))
  {
    if i > 0 {
      SoleAlways(states, acts, p, i - 1);
      assert StepAt(states, acts, i - 1);
      StepSole(states[i - 1], acts[i - 1], p, Paired(states, acts, p, i - 1));
    }
  }

  /** At most one owner, who holds the deleter paired with the pointer at its adoption, converted as
      often as its owners were. */
  lemma OneOwner(states: seq<State>, acts: seq<Action>, p: Ptr, i: nat)
    requires IsRun(states, acts) && i <= |acts|
    ensures forall v, w :: Owns(states[i], v, p) && Owns(states[i], w, p) ==> v == w
    ensures forall v :: Owns(states[i], v, p) ==> states[i].handles[v].deleter == Paired(states, acts, p, i)
  {
    SoleAlways(states, acts, p, i);
  }

  /** Each deletion was made by some step, with the deleter the pointer was paired with then. */
  lemma {:induction false} DeletedByPaired(states: seq<State>, acts: seq<Action>, i: nat, k: nat) returns (j: nat)
    requires IsRun(states, acts) && i <= |acts| && k < |states[i].log|
    ensures j < i && |states[j].log| == k && states[j + 1].log == states[j].log + [states[i].log[k]]
    ensures states[i].log[k].deleter == Paired(states, acts, states[i].log[k].p, j)
  {
    j := i - 1;
    var e := states[i].log[k];
    assert StepAt(states, acts, j);
    SoleAlways(states, acts, e.p, j);
    StepDeletes(states[j], acts[j], e.p, Paired(states, acts, e.p, j));
    LogAfter(states[j], acts[j], e.p);
    if k < |states[j].log| {
      j := DeletedByPaired(states, acts, j, k);
    }
  }

  /** Every adoption of a pointer is matched by a deletion, a release or the present owner. */
  lemma {:induction false} Ledger(states: seq<State>, acts: seq<Action>, p: Ptr, i: nat)
    requires IsRun(states, acts) && i <= |acts|
    ensures Adoptions(acts, p, i) ==
            Given(states, acts, p, i) + Deletions(states[i].log, p) + Unit(Owned(states[i], p))
  {
    if i > 0 {
      Ledger(states, acts, p, i - 1);
      assert StepAt(states, acts, i - 1);
      SoleAlways(states, acts, p, i - 1);
      StepLedger(states[i - 1], acts[i - 1], p, Paired(states, acts, p, i - 1));
    }
  }

  lemma {:induction false} CountsGrow(states: seq<State>, acts: seq<Action>, p: Ptr, i: nat, j: nat)
    requires IsRun(states, acts) && i <= j <= |acts|
    ensures Adoptions(acts, p, i) <= Adoptions(acts, p, j)
    ensures Given(states, acts, p, i) <= Given(states, acts, p, j)
    ensures Deletions(states[i].log, p) <= Deletions(states[j].log, p)
  {
    if i < j {
      CountsGrow(states, acts, p, i, j - 1);
      assert StepAt(states, acts, j - 1);
      LogAfter(states[j - 1], acts[j - 1], p);
    }
  }

  /** Between two adoptions of a pointer lies exactly one deletion or release, and after the last one
      at most one: no adoption is ever deleted twice. */
  lemma OnceAnAdoption(states: seq<State>, acts: seq<Action>, p: Ptr, i: nat, j: nat)
    requires IsRun(states, acts) && i < j <= |acts| && Adopts(acts[i], p)
    requires Adoptions(acts, p, j) == Adoptions(acts, p, i) + 1
    ensures var ended := Deletions(states[j].log, p) - Deletions(states[i].log, p)
                         + Given(states, acts, p, j) - Given(states, acts, p, i);
            && ended == 1 - Unit(Owned(states[j], p))
            && 0 <= Deletions(states[j].log, p) - Deletions(states[i].log, p) <= 1
            && (j < |acts| && Adopts(acts[j], p) ==> ended == 1)
  {
    Ledger(states, acts, p, i);
    Ledger(states, acts, p, j);
    CountsGrow(states, acts, p, i, j);
    assert StepAt(states, acts, i);
    AdoptsFree(states[i], acts[i], p);
    if j < |acts| && Adopts(acts[j], p) {
      assert StepAt(states, acts, j);
      AdoptsFree(states[j], acts[j], p);
    }
  }

  /** When every handle has gone, a pointer has been deleted exactly as often as it was adopted and
      not released: exactly once if it was adopted once and never released. */
  lemma DeletedExactlyOnce(states: seq<State>, acts: seq<Action>, p: Ptr)
    requires IsRun(states, acts) && states[|acts|].handles == map[]
    ensures Deletions(states[|acts|].log, p) == Adoptions(acts, p, |acts|) - Given(states, acts, p, |acts|)
  {
    Ledger(states, acts, p, |acts|);
  }

  function Unconverted(d: Deleter): Deleter {
    if d.Converted? then Unconverted(d.d) else d
  }

  /** The adoptions so far used deleters that nobody had moved from. */
  ghost predicate Intact(acts: seq<Action>) {
    forall i :: 0 <= i < |acts| && acts[i].Construct? ==> !Unconverted(acts[i].d).MovedFrom?
  }

  lemma {:induction false} PairedIntact(states: seq<State>, acts: seq<Action>, p: Ptr, i: nat)
    requires i <= |acts| < |states| && Intact(acts)
    ensures !Unconverted(Paired(states, acts, p, i)).MovedFrom?
  {
    if i > 0 {
      PairedIntact(states, acts, p, i - 1);
    }
  }

  /** Though a converting move leaves a moved-from deleter behind, none is ever called. */
  lemma NoMovedFromDeletion(states: seq<State>, acts: seq<Action>, i: nat, k: nat)
    requires IsRun(states, acts) && Intact(acts) && i <= |acts| && k < |states[i].log|
    ensures !Unconverted(states[i].log[k].deleter).MovedFrom?
  {
    var j := DeletedByPaired(states, acts, i, k);
    PairedIntact(states, acts, states[i].log[k].p, j);
  }

  // ---------- The class ----------

  class Log {
    var deletions: seq<Deletion>

    constructor ()
      ensures deletions == []
    {
      deletions := [];
    }
  }

  class UniquePtr {
    var p: Option<Ptr>
    var deleter: Deleter

    function View(): Handle
      reads this
    {
      Handle(p, deleter)
    }

    constructor (p: Option<Ptr>, d: Deleter)
      ensures View() == Handle(p, d)
    {
      this.p, deleter := p, d;
    }

    constructor Default()
      ensures View() == EMPTY
    {
      p, deleter := None, DefaultDelete;
    }

    constructor Move(other: UniquePtr)
      modifies other
      ensures View() == old(other.View()) && other.View() == EMPTY
    {
      p, deleter := None, DefaultDelete;
      new;
      Swap(this, other);
    }

    constructor Convert(other: UniquePtr)
      modifies other
      ensures View() == ConvertedOf(old(other.View())) && other.View() == ConvertedFrom(old(other.View()))
    {
      p, deleter := None, Converted(other.deleter);
      new;
      other.deleter := MovedFrom(other.deleter);
      p := other.Release();
    }

    method Destroy(log: Log)
      modifies log
      ensures log.deletions == old(log.deletions) + Drop(View())
    {
      if p.Some? {
        log.deletions := log.deletions + [Deletion(p.value, deleter)];
      }
    }

    static method Swap(a: UniquePtr, b: UniquePtr)
      modifies a, b
      ensures a.View() == old(b.View()) && b.View() == old(a.View())
    {
      var d := a.deleter;
      a.deleter := b.deleter;
      b.deleter := d;
      var q := a.p;
      a.p := b.p;
      b.p := q;
    }

    /** Also when other is this handle itself. */
    method MoveAssign(other: UniquePtr, log: Log)
      modifies this, other, log
      ensures this == other ==> View() == old(View()) && log.deletions == old(log.deletions)
      ensures this != other ==>
                && View() == old(other.View()) && other.View() == EMPTY
                && log.deletions == old(log.deletions) + Drop(old(View()))
    {
      var t := new UniquePtr.Move(other);
      Swap(this, t);
      t.Destroy(log);
    }

    method ConvertAssign(other: UniquePtr, log: Log)
      requires this != other
      modifies this, other, log
      ensures View() == ConvertedOf(old(other.View())) && other.View() == ConvertedFrom(old(other.View()))
      ensures log.deletions == old(log.deletions) + Drop(old(View()))
    {
      var t := new UniquePtr.Convert(other);
      Swap(this, t);
      t.Destroy(log);
    }

    /** The deleter does not survive either: the temporary brings a default one. */
    method Reset(q: Option<Ptr>, log: Log)
      modifies this, log
      ensures View() == Handle(q, DefaultDelete)
      ensures log.deletions == old(log.deletions) + Drop(old(View()))
    {
      var t := new UniquePtr(q, DefaultDelete);
      Swap(this, t);
      t.Destroy(log);
    }

    method AssignNull(log: Log)
      modifies this, log
      ensures View() == EMPTY
      ensures log.deletions == old(log.deletions) + Drop(old(View()))
    {
      var t := new UniquePtr.Default();
      Swap(this, t);
      t.Destroy(log);
    }

    method Release() returns (q: Option<Ptr>)
      modifies this`p
      ensures q == old(p) && View() == old(View()).(p := None)
    {
      q := p;
      p := None;
    }
  }

  /** A program's handles by name. */
  class Program {
    var handles: map<Name, UniquePtr>
    const log: Log

    ghost function View(): State
      reads this, handles.Values, log
    {
      State(map v | v in handles :: handles[v].View(), log.deletions)
    }

    ghost predicate Valid()
      reads this
    {
      forall v, w | v in handles && w in handles && v != w :: handles[v] != handles[w]
    }

    constructor ()
      ensures Valid() && View() == State(map[], []) && fresh(log)
    {
      handles := map[];
      log := new Log();
    }

    method Construct(v: Name, q: Option<Ptr>, d: Deleter)
      requires Valid() && Enabled(View(), Action.Construct(v, q, d))
      modifies this`handles
      ensures Valid() && View() == Do(old(View()), Action.Construct(v, q, d))
    {
      var h := new UniquePtr(q, d);
      handles := handles[v := h];
    }

    method MoveConstruct(v: Name, w: Name)
      requires Valid() && Enabled(View(), Action.MoveConstruct(v, w))
      modifies this`handles, handles.Values
      ensures Valid() && View() == Do(old(View()), Action.MoveConstruct(v, w))
    {
      var h := new UniquePtr.Move(handles[w]);
      handles := handles[v := h];
    }

    method ConvertConstruct(v: Name, w: Name)
      requires Valid() && Enabled(View(), Action.ConvertConstruct(v, w))
      modifies this`handles, handles.Values
      ensures Valid() && View() == Do(old(View()), Action.ConvertConstruct(v, w))
    {
      var h := new UniquePtr.Convert(handles[w]);
      handles := handles[v := h];
    }

    method MoveAssign(v: Name, w: Name)
      requires Valid() && Enabled(View(), Action.MoveAssign(v, w))
      modifies handles.Values, log
      ensures Valid() && View() == Do(old(View()), Action.MoveAssign(v, w))
    {
      handles[v].MoveAssign(handles[w], log);
    }

    method ConvertAssign(v: Name, w: Name)
      requires Valid() && Enabled(View(), Action.ConvertAssign(v, w))
      modifies handles.Values, log
      ensures Valid() && View() == Do(old(View()), Action.ConvertAssign(v, w))
    {
      handles[v].ConvertAssign(handles[w], log);
    }

    method Reset(v: Name, q: Option<Ptr>)
      requires Valid() && Enabled(View(), Action.Reset(v, q))
      modifies handles.Values, log
      ensures Valid() && View() == Do(old(View()), Action.Reset(v, q))
    {
      handles[v].Reset(q, log);
    }

    method AssignNull(v: Name)
      requires Valid() && Enabled(View(), Action.Reset(v, None))
      modifies handles.Values, log
      ensures Valid() && View() == Do(old(View()), Action.Reset(v, None))
    {
      handles[v].AssignNull(log);
    }

    method Release(v: Name) returns (q: Option<Ptr>)
      requires Valid() && Enabled(View(), Action.Release(v))
      modifies handles.Values
      ensures Valid() && View() == Do(old(View()), Action.Release(v)) && q == old(View().handles[v].p)
    {
      q := handles[v].Release();
    }

    method Swap(v: Name, w: Name)
      requires Valid() && Enabled(View(), Action.Swap(v, w))
      modifies handles.Values
      ensures Valid() && View() == Do(old(View()), Action.Swap(v, w))
    {
      UniquePtr.Swap(handles[v], handles[w]);
    }

    method Destroy(v: Name)
      requires Valid() && Enabled(View(), Action.Destroy(v))
      modifies this`handles, log
      ensures Valid() && View() == Do(old(View()), Action.Destroy(v))
    {
      handles[v].Destroy(log);
      handles := handles - {v};
    }
  }
}
