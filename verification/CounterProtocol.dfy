/**
  The control block shared by all handles of one object, as an interleaved
  transition system.

  A "call" is one activation of a counter routine; a thread that runs a handle's
  destructor inside a deleter has several.  Every step below performs at most one
  atomic access.  Nothing in a guard mentions the counters or the life of the
  block: guards only say that a routine is called through a handle the caller holds.
 */
module CounterProtocol {

  type Handle = nat
  type Call = nat

  datatype Event = DisposeBegin | DisposeEnd | DestroyBegin | DestroyEnd

  const LIFECYCLE := [DisposeBegin, DisposeEnd, DestroyBegin, DestroyEnd]

  /** Where an unfinished call stands. */
  datatype Pc =
    | Locking(weak: Handle, expected: int, start: nat, seen: nat, failures: nat)
      // in the retry loop; start and seen are the write numbers of use_count at the
      // call's first load and at its latest one
    | LockWon(weak: Handle)   // use_count raised, the shared_ptr is being filled in
    | LastStrong              // fetch_sub on use_count returned 1
    | InDispose
    | Disposed                // dispose returned, dec_weak_count is next
    | LastWeak                // fetch_sub on weak_count returned 1
    | InDestroy
  {
    predicate Pins(w: Handle) { (Locking? || LockWon?) && weak == w }

    /** The call is tearing the block down. */
    predicate Reaps() { !Locking? && !LockWon? }
  }

  /** share, writes and log are bookkeeping: whether the strong group still owns its
      unit of weak_count, how often use_count was written, and the virtual calls made. */
  datatype State = State(
    useCount: int,
    weakCount: int,
    strong: set<Handle>,
    weak: set<Handle>,
    calls: map<Call, Pc>,
    share: bool,
    writes: nat,
    log: seq<Event>)

  datatype Action =
    | CopyStrong(src: Handle, dst: Handle)
    | CopyWeak(src: Handle, dst: Handle)
    | DropStrong(h: Handle, c: Call)
    | DropWeak(h: Handle, c: Call)
    | LockLoad(c: Call, w: Handle)
    | LockCas(c: Call, spurious: bool)
    | LockReturn(c: Call, dst: Handle)
    | BeginDispose(c: Call)
    | EndDispose(c: Call)
    | GiveUpShare(c: Call)
    | BeginDestroy(c: Call)
    | EndDestroy(c: Call)

  /** The constructor of shared_ptr around a new control block. */
  function Init(h: Handle): State {
    State(1, 1, {h}, {}, map[], true, 0, [])
  }

  predicate Unpinned(s: State, w: Handle) {
    forall c :: c in s.calls ==> !s.calls[c].Pins(w)
  }

  predicate Enabled(s: State, a: Action) {
    match a
    case CopyStrong(src, dst) => src in s.strong && dst !in s.strong + s.weak
    case CopyWeak(src, dst) => src in s.strong + s.weak && dst !in s.strong + s.weak
    case DropStrong(h, c) => h in s.strong && c !in s.calls
    case DropWeak(h, c) => h in s.weak && Unpinned(s, h) && c !in s.calls
    case LockLoad(c, w) => w in s.weak && c !in s.calls
    case LockCas(c, _) => c in s.calls && s.calls[c].Locking?
    case LockReturn(c, dst) => c in s.calls && s.calls[c].LockWon? && dst !in s.strong + s.weak
    case BeginDispose(c) => c in s.calls && s.calls[c].LastStrong?
    case EndDispose(c) => c in s.calls && s.calls[c].InDispose?
    case GiveUpShare(c) => c in s.calls && s.calls[c].Disposed?
    case BeginDestroy(c) => c in s.calls && s.calls[c].LastWeak?
    case EndDestroy(c) => c in s.calls && s.calls[c].InDestroy?
  }

  /** The step reads or writes one of the two counters. */
  predicate TouchesCounter(a: Action) {
    !a.LockReturn? && !a.BeginDispose? && !a.EndDispose? && !a.BeginDestroy? && !a.EndDestroy?
  }

  /** fetch_sub (1) on use_count. */
  function SubUse(s: State, c: Call): State {
    s.(useCount := s.useCount - 1, writes := s.writes + 1,
       calls := if s.useCount == 1 then s.calls[c := LastStrong] else s.calls - {c})
  }

  /** fetch_sub (1) on weak_count. */
  function SubWeak(s: State, c: Call): State {
    s.(weakCount := s.weakCount - 1,
       calls := if s.weakCount == 1 then s.calls[c := LastWeak] else s.calls - {c})
  }

  /** One compare_exchange_weak, and the test for zero that follows a failed one. */
  function Cas(s: State, c: Call, spurious: bool): State
    requires c in s.calls && s.calls[c].Locking?
  {
    var Locking(w, n, start, _, failures) := s.calls[c];
    if s.useCount == n && !spurious then
      s.(useCount := n + 1, writes := s.writes + 1, calls := s.calls[c := LockWon(w)])
    else if s.useCount == 0 then
      s.(calls := s.calls - {c})
    else
      s.(calls := s.calls[c := Locking(w, s.useCount, start, s.writes,
                                       if s.useCount == n then failures else failures + 1)])
  }

  function Do(s: State, a: Action): State
    requires Enabled(s, a)
  {
    match a
    case CopyStrong(_, dst) =>
      s.(useCount := s.useCount + 1, writes := s.writes + 1, strong := s.strong + {dst})
    case CopyWeak(_, dst) => s.(weakCount := s.weakCount + 1, weak := s.weak + {dst})
    case DropStrong(h, c) => SubUse(s.(strong := s.strong - {h}), c)
    case DropWeak(h, c) => SubWeak(s.(weak := s.weak - {h}), c)
    case LockLoad(c, w) =>
      if s.useCount == 0 then s
      else s.(calls := s.calls[c := Locking(w, s.useCount, s.writes, s.writes, 0)])
    case LockCas(c, spurious) => Cas(s, c, spurious)
    case LockReturn(c, dst) => s.(strong := s.strong + {dst}, calls := s.calls - {c})
    case BeginDispose(c) => s.(calls := s.calls[c := InDispose], log := s.log + [DisposeBegin])
    case EndDispose(c) => s.(calls := s.calls[c := Disposed], log := s.log + [DisposeEnd])
    case GiveUpShare(c) => SubWeak(s.(share := false), c)
    case BeginDestroy(c) => s.(calls := s.calls[c := InDestroy], log := s.log + [DestroyBegin])
    case EndDestroy(c) => s.(calls := s.calls - {c}, log := s.log + [DestroyEnd])
  }

  // ---------- The invariant ----------

  /** Calls of lock that have raised use_count and not yet returned their handle. */
  function Won(calls: map<Call, Pc>): set<Call> {
    set c | c in calls && calls[c].LockWon?
  }

  ghost predicate Counts(s: State) {
    && s.useCount == |s.strong| + |Won(s.calls)|
    && s.weakCount == |s.weak| + (if s.share then 1 else 0)
  }

  /** What the position of a call says about the rest of the block. */
  predicate PcOk(s: State, pc: Pc) {
    match pc
    case Locking(w, n, start, seen, failures) =>
      && w in s.weak && n != 0
      && start + failures <= seen <= s.writes
      && (seen == s.writes ==> n == s.useCount)
    case LockWon(w) => w in s.weak
    case LastStrong => s.useCount == 0 && s.share && |s.log| == 0
    case InDispose => s.useCount == 0 && s.share && |s.log| == 1
    case Disposed => s.useCount == 0 && s.share && |s.log| == 2
    case LastWeak => s.useCount == 0 && !s.share && s.weakCount == 0 && |s.log| == 2
    case InDestroy => s.useCount == 0 && !s.share && s.weakCount == 0 && |s.log| == 3
  }

  predicate Reaper(s: State, c: Call) {
    c in s.calls && s.calls[c].Reaps()
  }

  ghost predicate Reaping(s: State) {
    exists c :: Reaper(s, c)
  }

  ghost predicate OneReaper(s: State) {
    forall c, d :: Reaper(s, c) && Reaper(s, d) ==> c == d
  }

  ghost predicate PcsOk(s: State) {
    forall c :: c in s.calls ==> PcOk(s, s.calls[c])
  }

  /** How far the teardown has come, read off the log. */
  ghost predicate Progress(s: State) {
    && s.log <= LIFECYCLE
    && (s.useCount > 0 ==> s.share && s.log == [] && !Reaping(s))
    && (s.useCount == 0 && s.share ==> Reaping(s))
    && (!s.share ==> s.useCount == 0 && |s.log| >= 2)
    && (!s.share && s.weakCount > 0 ==> !Reaping(s) && |s.log| == 2)
    && (!s.share && s.weakCount == 0 ==> (|s.log| < 4 <==> Reaping(s)))
  }

  ghost predicate Inv(s: State) {
    && Counts(s)
    && s.strong !! s.weak
    && PcsOk(s)
    && OneReaper(s)
    && Progress(s)
  }

  lemma InitInv(h: Handle)
    ensures Inv(Init(h))
  {
    assert Won(map[]) == {};
  }

  lemma WonSet(calls: map<Call, Pc>, c: Call, pc: Pc)
    ensures Won(calls - {c}) == Won(calls) - {c}
    ensures pc.LockWon? ==> Won(calls[c := pc]) == Won(calls) + {c}
    ensures !pc.LockWon? ==> Won(calls[c := pc]) == Won(calls) - {c}
  {
  }

  /** The call that a step belongs to, if it changes the calls. */
  predicate Steps(a: Action, c: Call) {
    !a.CopyStrong? && !a.CopyWeak? && a.c == c
  }

  lemma OtherCalls(s: State, a: Action, c: Call)
    requires Enabled(s, a) && !Steps(a, c)
    ensures c in Do(s, a).calls <==> c in s.calls
    ensures c in s.calls ==> Do(s, a).calls[c] == s.calls[c]
  {
  }

  // Each conjunct of the invariant, from the facts it depends on.

  predicate Wins(s: State, a: Action)
    requires Enabled(s, a)
  {
    a.LockCas? && !a.spurious && s.useCount == s.calls[a.c].expected
  }

  lemma WonStep(s: State, a: Action)
    requires Enabled(s, a)
    ensures |Won(Do(s, a).calls)|
         == |Won(s.calls)| + (if Wins(s, a) then 1 else 0) - (if a.LockReturn? then 1 else 0)
  {
    if !a.CopyStrong? && !a.CopyWeak? {
      var t := Do(s, a);
      assert a.c !in s.calls ==> s.calls - {a.c} == s.calls;
      assert a.c in Won(s.calls) <==> a.LockReturn?;
      WonSet(s.calls, a.c, if a.c in t.calls then t.calls[a.c] else LastStrong);
    }
  }

  lemma HandleSets(s: State, a: Action)
    requires Enabled(s, a)
    ensures Do(s, a).strong == if a.CopyStrong? || a.LockReturn? then s.strong + {a.dst}
                               else if a.DropStrong? then s.strong - {a.h} else s.strong
    ensures Do(s, a).weak == if a.CopyWeak? then s.weak + {a.dst}
                             else if a.DropWeak? then s.weak - {a.h} else s.weak
  {
  }

  lemma CountsStepWith(s: State, a: Action, t: State)
    requires Counts(s) && s.strong !! s.weak && Enabled(s, a) && (a.GiveUpShare? ==> s.share)
    requires t.strong == if a.CopyStrong? || a.LockReturn? then s.strong + {a.dst}
                         else if a.DropStrong? then s.strong - {a.h} else s.strong
    requires t.weak == if a.CopyWeak? then s.weak + {a.dst}
                       else if a.DropWeak? then s.weak - {a.h} else s.weak
    requires t.share == (s.share && !a.GiveUpShare?)
    requires |Won(t.calls)| == |Won(s.calls)| + (if Wins(s, a) then 1 else 0) - (if a.LockReturn? then 1 else 0)
    requires t.useCount - s.useCount == if a.CopyStrong? || Wins(s, a) then 1 else if a.DropStrong? then -1 else 0
    requires t.weakCount - s.weakCount == if a.CopyWeak? then 1 else if a.DropWeak? || a.GiveUpShare? then -1 else 0
    ensures Counts(t) && t.strong !! t.weak
  {
  }

  lemma CountsStep(s: State, a: Action)
    requires Counts(s) && s.strong !! s.weak && Enabled(s, a) && (a.GiveUpShare? ==> s.share)
    ensures Counts(Do(s, a)) && Do(s, a).strong !! Do(s, a).weak
  {
    WonStep(s, a);
    HandleSets(s, a);
    CountsStepWith(s, a, Do(s, a));
  }

  /** What the handles a step uses say about the counters. */
  predicate Held(s: State, a: Action) {
    && s.useCount >= (if a.CopyStrong? || a.DropStrong? then 1 else 0)
    && (a.CopyWeak? ==> s.useCount > 0 || s.weakCount > 0)
    && (a.DropWeak? ==> s.weakCount > 0 && (s.weakCount == 1 ==> !s.share))
  }

  lemma HandlesHold(s: State, a: Action)
    requires Counts(s) && Enabled(s, a)
    ensures Held(s, a)
  {
    if a.CopyStrong? || (a.CopyWeak? && a.src in s.strong) {
      assert s.strong != {};
    } else if a.CopyWeak? {
      assert s.weak != {};
    }
  }

  /** What the step of another call leaves true of a call at pc. */
  lemma OtherPc(s: State, a: Action, pc: Pc)
    requires Held(s, a) && Progress(s) && Enabled(s, a) && PcOk(s, pc)
    requires a.DropWeak? ==> !pc.Pins(a.h)
    requires a.LockCas? ==> PcOk(s, s.calls[a.c])
    requires pc.Reaps() ==> a.CopyStrong? || a.CopyWeak? || !Reaper(s, a.c)
    ensures PcOk(Do(s, a), pc)
  {
  }

  /** Where a step takes the call it belongs to. */
  lemma OwnPc(s: State, a: Action)
    requires Held(s, a) && Progress(s) && Enabled(s, a) && !a.CopyStrong? && !a.CopyWeak?
    requires a.c in s.calls ==> PcOk(s, s.calls[a.c])
    ensures a.c in Do(s, a).calls ==> PcOk(Do(s, a), Do(s, a).calls[a.c])
  {
  }

  lemma PcsStep(s: State, a: Action)
    requires Inv(s) && Enabled(s, a)
    ensures PcsOk(Do(s, a))
  {
    var t := Do(s, a);
    HandlesHold(s, a);
    forall c | c in t.calls ensures PcOk(t, t.calls[c]) {
      if Steps(a, c) {
        OwnPc(s, a);
      } else {
        OtherCalls(s, a, c);
        OtherPcOk(s, a, c);
      }
    }
  }

  lemma OtherPcOk(s: State, a: Action, c: Call)
    requires Inv(s) && Enabled(s, a) && Held(s, a) && c in s.calls && !Steps(a, c)
    ensures PcOk(Do(s, a), s.calls[c])
  {
    assert PcOk(s, s.calls[c]);
    assert Reaper(s, c) <==> s.calls[c].Reaps();
    if a.LockCas? {
      assert PcOk(s, s.calls[a.c]);
    }
    OtherPc(s, a, s.calls[c]);
  }

  /** Whether some call tears the block down after the step. */
  ghost predicate ReapingAfter(s: State, a: Action)
    requires Enabled(s, a)
  {
    match a
    case DropStrong(_, _) => s.useCount == 1 || Reaping(s)
    case DropWeak(_, _) => s.weakCount == 1 || Reaping(s)
    case GiveUpShare(_) => s.weakCount == 1
    case EndDestroy(_) => false
    case _ => Reaping(s)
  }

  lemma ReaperStep(s: State, a: Action, d: Call)
    requires Enabled(s, a)
    ensures Reaper(Do(s, a), d) <==>
            if !Steps(a, d) then Reaper(s, d)
            else match a
                 case DropStrong(_, _) => s.useCount == 1
                 case DropWeak(_, _) => s.weakCount == 1
                 case GiveUpShare(_) => s.weakCount == 1
                 case EndDestroy(_) => false
                 case _ => Reaper(s, d)
  {
  }

  lemma ReapingStep(s: State, a: Action)
    requires OneReaper(s) && Enabled(s, a)
    ensures Reaping(Do(s, a)) <==> ReapingAfter(s, a)
  {
    var t := Do(s, a);
    if d :| Reaper(t, d) {
      ReaperStep(s, a, d);
      if a.GiveUpShare? || a.EndDestroy? {
        assert Reaper(s, a.c);
      }
    }
    if !a.CopyStrong? && !a.CopyWeak? {
      ReaperStep(s, a, a.c);
    }
    if d :| Reaper(s, d) {
      ReaperStep(s, a, d);
    }
  }

  lemma OneReaperStep(s: State, a: Action)
    requires Held(s, a) && Progress(s) && OneReaper(s) && Enabled(s, a)
    ensures OneReaper(Do(s, a))
  {
    assert a.GiveUpShare? ==> Reaper(s, a.c);
    var t := Do(s, a);
    forall c, d | Reaper(t, c) && Reaper(t, d) ensures c == d {
      ReaperStep(s, a, c);
      ReaperStep(s, a, d);
    }
  }

  lemma ProgressStep(s: State, a: Action)
    requires Held(s, a) && Progress(s) && Enabled(s, a)
    requires !a.CopyStrong? && !a.CopyWeak? && a.c in s.calls ==> PcOk(s, s.calls[a.c])
    requires Reaping(Do(s, a)) <==> ReapingAfter(s, a)
    ensures Progress(Do(s, a))
  {
    if !a.CopyStrong? && !a.CopyWeak? && Reaper(s, a.c) {
      assert Reaping(s);
    }
  }

  lemma StepInv(s: State, a: Action)
    requires Inv(s) && Enabled(s, a)
    ensures Inv(Do(s, a))
  {
    HandlesHold(s, a);
    CountsStep(s, a);
    PcsStep(s, a);
    OneReaperStep(s, a);
    ReapingStep(s, a);
    ProgressStep(s, a);
  }

  // ---------- Whole runs ----------

  predicate StepAt(states: seq<State>, acts: seq<Action>, i: nat)
    requires |states| == |acts| + 1 && i < |acts|
  {
    Enabled(states[i], acts[i]) && states[i + 1] == Do(states[i], acts[i])
  }

  ghost predicate IsRun(states: seq<State>, acts: seq<Action>) {
    && |states| == |acts| + 1
    && (exists h :: states[0] == Init(h))
    && (forall i :: 0 <= i < |acts| ==> StepAt(states, acts, i))
  }

  lemma {:induction false} InvAlways(states: seq<State>, acts: seq<Action>, i: nat)
    requires IsRun(states, acts) && i < |states|
    ensures Inv(states[i])
  {
    if i == 0 {
      var h :| states[0] == Init(h);
      InitInv(h);
    } else {
      InvAlways(states, acts, i - 1);
      assert StepAt(states, acts, i - 1);
      StepInv(states[i - 1], acts[i - 1]);
    }
  }

  lemma {:induction false} ShareUntilGivenUp(states: seq<State>, acts: seq<Action>, i: nat)
    requires IsRun(states, acts) && i < |states|
    ensures states[i].share <==> forall k :: 0 <= k < i ==> !acts[k].GiveUpShare?
  {
    if i > 0 {
      ShareUntilGivenUp(states, acts, i - 1);
      assert StepAt(states, acts, i - 1);
    }
  }

  /** The counters are exactly the handles: use_count the strong ones with the locks about to
      return one, weak_count the weak ones with one unit until dec_use_count gives it back. */
  lemma CountersAreHandles(states: seq<State>, acts: seq<Action>, i: nat)
    requires IsRun(states, acts) && i < |states|
    ensures states[i].useCount == |states[i].strong| + |set c | c in states[i].calls && states[i].calls[c].LockWon?|
    ensures states[i].weakCount
         == |states[i].weak| + (if exists k :: 0 <= k < i && acts[k].GiveUpShare? then 0 else 1)
  {
    InvAlways(states, acts, i);
    ShareUntilGivenUp(states, acts, i);
    var s := states[i];
    assert Won(s.calls) == set c | c in s.calls && s.calls[c].LockWon?;
  }

  /** dispose and destroy each run at most once, in that order, never overlapping, and never
      while a strong handle (or for destroy, any handle) is left. */
  lemma LifecycleOrder(states: seq<State>, acts: seq<Action>, i: nat)
    requires IsRun(states, acts) && i < |states|
    ensures states[i].log <= LIFECYCLE
    ensures states[i].strong != {} ==> states[i].log == []
    ensures states[i].weak != {} ==> DestroyBegin !in states[i].log
  {
    InvAlways(states, acts, i);
    var s := states[i];
    if s.strong != {} {
      assert |s.strong| > 0;
    }
    if s.weak != {} {
      assert |s.weak| > 0;
      assert s.log == LIFECYCLE[..|s.log|];
      assert |s.log| <= 2;
    }
  }

  /** No counter is read or written once destroy has begun. */
  lemma NoTouchAfterDestroy(states: seq<State>, acts: seq<Action>, i: nat)
    requires IsRun(states, acts) && i < |acts| && TouchesCounter(acts[i])
    ensures DestroyBegin !in states[i].log
  {
    InvAlways(states, acts, i);
    assert StepAt(states, acts, i);
    var s, a := states[i], acts[i];
    assert s.log == LIFECYCLE[..|s.log|];
    if a.CopyStrong? || a.CopyWeak? || a.DropStrong? || a.DropWeak? || a.LockLoad? {
      LifecycleOrder(states, acts, i);
    } else {
      assert PcOk(s, s.calls[a.c]);
      if a.LockCas? {
        var w := s.calls[a.c].weak;
        assert w in s.weak;
        LifecycleOrder(states, acts, i);
      }
    }
  }

  /** Nothing is leaked: with no handle and no unfinished call left, both virtual calls were made. */
  lemma NothingLeaks(states: seq<State>, acts: seq<Action>, i: nat)
    requires IsRun(states, acts) && i < |states|
    requires states[i].strong == {} && states[i].weak == {} && states[i].calls == map[]
    ensures states[i].log == LIFECYCLE
  {
    InvAlways(states, acts, i);
    var s := states[i];
    assert Won(s.calls) == {};
    assert !Reaping(s);
    assert s.log == LIFECYCLE[..4];
  }

  lemma StepMovesByOne(s: State, a: Action)
    requires Inv(s) && Enabled(s, a)
    ensures Do(s, a).useCount in {s.useCount - 1, s.useCount, s.useCount + 1}
    ensures Do(s, a).writes == s.writes + if Do(s, a).useCount == s.useCount then 0 else 1
    ensures s.useCount == 0 ==> Do(s, a).useCount == 0
  {
    if s.useCount == 0 {
      assert s.strong == {};
      if a.LockCas? {
        assert PcOk(s, s.calls[a.c]);
      }
    }
  }

  lemma RunMovesByOne(states: seq<State>, acts: seq<Action>, k: nat)
    requires IsRun(states, acts) && k < |acts|
    ensures states[k].useCount >= 0
    ensures states[k + 1].useCount in {states[k].useCount - 1, states[k].useCount, states[k].useCount + 1}
    ensures states[k + 1].writes == states[k].writes + if states[k + 1].useCount == states[k].useCount then 0 else 1
    ensures states[k].useCount == 0 ==> states[k + 1].useCount == 0
  {
    InvAlways(states, acts, k);
    assert StepAt(states, acts, k);
    StepMovesByOne(states[k], acts[k]);
  }

  /** Once use_count is zero it stays zero. */
  lemma {:induction false} ZeroIsPermanent(states: seq<State>, acts: seq<Action>, i: nat, j: nat)
    requires IsRun(states, acts) && i <= j < |states| && states[i].useCount == 0
    ensures states[j].useCount == 0
  {
    if i < j {
      ZeroIsPermanent(states, acts, i, j - 1);
      RunMovesByOne(states, acts, j - 1);
    }
  }

  /** Each step of lock_use_count: it ends in failure exactly when it sees zero, it succeeds
      exactly by moving a non-zero count that it had read up by one, and otherwise it changes
      neither counter. */
  lemma LockDecides(states: seq<State>, acts: seq<Action>, i: nat)
    requires IsRun(states, acts) && i < |acts| && (acts[i].LockLoad? || acts[i].LockCas?)
    ensures acts[i].c !in states[i + 1].calls <==> states[i].useCount == 0
    ensures states[i + 1].useCount != states[i].useCount <==>
            acts[i].c in states[i + 1].calls && states[i + 1].calls[acts[i].c].LockWon?
    ensures states[i + 1].useCount != states[i].useCount ==>
            0 < states[i].useCount == states[i + 1].useCount - 1
    ensures states[i + 1].weakCount == states[i].weakCount
  {
    InvAlways(states, acts, i);
    assert StepAt(states, acts, i);
    if acts[i].LockCas? {
      assert PcOk(states[i], states[i].calls[acts[i].c]);
    }
  }

  /** The number of steps from i to j that changed use_count. */
  function Changes(states: seq<State>, i: nat, j: nat): nat
    requires i <= j < |states|
    decreases j
  {
    if i == j then 0
    else Changes(states, i, j - 1) + if states[j].useCount != states[j - 1].useCount then 1 else 0
  }

  lemma {:induction false} WritesAreChanges(states: seq<State>, acts: seq<Action>, i: nat, j: nat)
    requires IsRun(states, acts) && i <= j < |states|
    ensures states[j].writes == states[i].writes + Changes(states, i, j)
    decreases j
  {
    if i < j {
      WritesAreChanges(states, acts, i, j - 1);
      RunMovesByOne(states, acts, j - 1);
    }
  }

  ghost predicate StaysLocking(states: seq<State>, c: Call, i: nat, j: nat) {
    i < j < |states| && forall k :: i < k <= j ==> c in states[k].calls && states[k].calls[c].Locking?
  }

  lemma StepKeepsStart(s: State, a: Action, c: Call)
    requires Enabled(s, a) && c in s.calls && s.calls[c].Locking?
    requires c in Do(s, a).calls && Do(s, a).calls[c].Locking?
    ensures Do(s, a).calls[c].start == s.calls[c].start
  {
  }

  lemma {:induction false} StartIsLoad(states: seq<State>, acts: seq<Action>, i: nat, j: nat, c: Call, w: Handle)
    requires IsRun(states, acts) && i < |acts| && acts[i] == LockLoad(c, w) && StaysLocking(states, c, i, j)
    ensures states[j].calls[c].start == states[i].writes
    decreases j
  {
    if i + 1 == j {
      assert StepAt(states, acts, i);
    } else {
      StartIsLoad(states, acts, i, j - 1, c, w);
      assert StepAt(states, acts, j - 1);
      StepKeepsStart(states[j - 1], acts[j - 1], c);
    }
  }

  /** Failed exchanges that were not spurious number at most the changes made to use_count
      since the call's first load, the exchange of step j included if it fails too, be it the one
      that ends the call; all of them are other calls' changes. */
  lemma LockRetriesBounded(states: seq<State>, acts: seq<Action>, i: nat, j: nat, c: Call, w: Handle)
    requires IsRun(states, acts) && i < |acts| && acts[i] == LockLoad(c, w) && StaysLocking(states, c, i, j)
    ensures states[j].calls[c].failures <= Changes(states, i + 1, j)
    ensures j < |acts| && (exists spurious: bool :: acts[j] == LockCas(c, spurious))
            && states[j].useCount != states[j].calls[c].expected ==>
              states[j].calls[c].failures + 1 <= Changes(states, i + 1, j)
    ensures forall k, spurious :: i < k < j && acts[k] == LockCas(c, spurious) ==>
              states[k].useCount == states[k + 1].useCount
  {
    InvAlways(states, acts, j);
    assert PcOk(states[j], states[j].calls[c]);
    StartIsLoad(states, acts, i, j, c, w);
    WritesAreChanges(states, acts, i + 1, j);
    assert StepAt(states, acts, i);
    forall k, spurious | i < k < j && acts[k] == LockCas(c, spurious)
      ensures states[k].useCount == states[k + 1].useCount
    {
      LockDecides(states, acts, k);
    }
  }

  // ---------- The exchanges of a run ----------

  /** Step k is call c's first load or one of its exchanges. */
  predicate Reads(a: Action, c: Call) {
    (a.LockLoad? || a.LockCas?) && a.c == c
  }

  /** Call c is about to exchange, and has read nothing since step i. */
  ghost predicate LastRead(acts: seq<Action>, c: Call, i: nat, j: nat) {
    i < j < |acts| && Reads(acts[i], c) && forall k :: i < k < j ==> !Reads(acts[k], c)
  }

  lemma StepKeepsExpected(s: State, a: Action, c: Call)
    requires Enabled(s, a) && c in Do(s, a).calls && Do(s, a).calls[c].Locking?
    ensures Reads(a, c) ==> Do(s, a).calls[c].expected == s.useCount == Do(s, a).useCount
    ensures !Reads(a, c) ==> c in s.calls && s.calls[c] == Do(s, a).calls[c]
  {
  }

  lemma {:induction false} ExpectsWhatItRead(states: seq<State>, acts: seq<Action>, c: Call, i: nat, j: nat)
    requires IsRun(states, acts) && LastRead(acts, c, i, j) && c in states[j].calls && states[j].calls[c].Locking?
    ensures states[j].calls[c].expected == states[i].useCount == states[i + 1].useCount
    decreases j
  {
    assert StepAt(states, acts, j - 1);
    StepKeepsExpected(states[j - 1], acts[j - 1], c);
    if i + 1 < j {
      ExpectsWhatItRead(states, acts, c, i, j - 1);
    }
  }

  /** An exchange wins exactly when it does not fail spuriously and the count is what the call's
      latest load or failed exchange, at step i, has read; a failed one reads the count anew. */
  lemma ExchangeExactly(states: seq<State>, acts: seq<Action>, c: Call, spurious: bool, i: nat, j: nat)
    requires IsRun(states, acts) && LastRead(acts, c, i, j) && acts[j] == LockCas(c, spurious)
    ensures c in states[j + 1].calls && states[j + 1].calls[c].LockWon? <==>
            !spurious && states[j].useCount == states[i].useCount
    ensures c in states[j + 1].calls && states[j + 1].calls[c].Locking? <==>
            states[j].useCount != 0 && (spurious || states[j].useCount != states[i].useCount)
    ensures states[j + 1].useCount == states[j].useCount
              + if !spurious && states[j].useCount == states[i].useCount then 1 else 0
  {
    assert StepAt(states, acts, j);
    ExpectsWhatItRead(states, acts, c, i, j);
    InvAlways(states, acts, j);
    assert PcOk(states[j], states[j].calls[c]);
  }

  /** Step k is an exchange of call c that fails, though not spuriously. */
  predicate FailsAt(states: seq<State>, acts: seq<Action>, c: Call, k: nat)
    requires k < |acts| < |states|
  {
    acts[k] == LockCas(c, false) && !(c in states[k + 1].calls && states[k + 1].calls[c].LockWon?)
  }

  function FailedExchanges(states: seq<State>, acts: seq<Action>, c: Call, i: nat, j: nat): nat
    requires i <= j <= |acts| < |states|
    decreases j
  {
    if i == j then 0
    else FailedExchanges(states, acts, c, i, j - 1) + if FailsAt(states, acts, c, j - 1) then 1 else 0
  }

  lemma {:induction false} FailuresAreCounted(states: seq<State>, acts: seq<Action>, i: nat, j: nat, c: Call, w: Handle)
    requires IsRun(states, acts) && i < |acts| && acts[i] == LockLoad(c, w) && StaysLocking(states, c, i, j)
    ensures FailedExchanges(states, acts, c, i + 1, j) <= states[j].calls[c].failures
    decreases j
  {
    if i + 1 < j {
      FailuresAreCounted(states, acts, i, j - 1, c, w);
      assert StepAt(states, acts, j - 1);
    }
  }

  /** During a call of lock, whether it is still trying, wins or gives up at step j, at most as many
      exchanges fail without being spurious as other calls have changed the count. */
  lemma FailedExchangesBounded(states: seq<State>, acts: seq<Action>, i: nat, j: nat, c: Call, w: Handle)
    requires IsRun(states, acts) && i < |acts| && acts[i] == LockLoad(c, w) && StaysLocking(states, c, i, j)
    ensures FailedExchanges(states, acts, c, i + 1, j) <= Changes(states, i + 1, j)
    ensures j < |acts| ==> FailedExchanges(states, acts, c, i + 1, j + 1) <= Changes(states, i + 1, j)
  {
    FailuresAreCounted(states, acts, i, j, c, w);
    LockRetriesBounded(states, acts, i, j, c, w);
    if j < |acts| {
      assert StepAt(states, acts, j);
    }
  }

  // ---------- Every call comes to its end ----------

  /** How many steps a call that does not retry still has before it. */
  function StepsLeft(pc: Pc): nat {
    match pc
    case Locking(_, _, _, _, _) => 2
    case LockWon(_) => 1
    case LastStrong => 5
    case InDispose => 4
    case Disposed => 3
    case LastWeak => 2
    case InDestroy => 1
  }

  /** Each step of a call ends it or brings it nearer to its end, but for an exchange that fails;
      no step of another call moves it. */
  lemma StepAdvances(s: State, a: Action, c: Call)
    requires Enabled(s, a) && c in s.calls
    ensures !Steps(a, c) ==> c in Do(s, a).calls && Do(s, a).calls[c] == s.calls[c]
    ensures Steps(a, c) && !a.LockCas? ==> c !in Do(s, a).calls || StepsLeft(Do(s, a).calls[c]) < StepsLeft(s.calls[c])
    ensures a == LockCas(c, false) && s.useCount == s.calls[c].expected ==>
              c in Do(s, a).calls && StepsLeft(Do(s, a).calls[c]) < StepsLeft(s.calls[c])
  {
    if !Steps(a, c) {
      OtherCalls(s, a, c);
    }
  }

  lemma {:induction false} FreshHandle(used: set<Handle>) returns (h: Handle)
    ensures forall g :: g in used ==> g < h
  {
    if used == {} {
      h := 0;
    } else {
      var g :| g in used;
      h := FreshHandle(used - {g});
      assert forall f :: f in used ==> f == g || f in used - {g};
      h := if g < h then h else g + 1;
    }
  }

  /** An unfinished call can always take its next step, whatever the others do. */
  lemma CanGoOn(s: State, c: Call)
    requires c in s.calls
    ensures exists a :: Steps(a, c) && Enabled(s, a)
  {
    var h := FreshHandle(s.strong + s.weak);
    var a := match s.calls[c]
             case Locking(_, _, _, _, _) => LockCas(c, false)
             case LockWon(_) => LockReturn(c, h)
             case LastStrong => BeginDispose(c)
             case InDispose => EndDispose(c)
             case Disposed => GiveUpShare(c)
             case LastWeak => BeginDestroy(c)
             case InDestroy => EndDestroy(c);
    assert Steps(a, c) && Enabled(s, a);
  }

  // ---------- The handles of a run ----------

  predicate Creates(a: Action, h: Handle, strong: bool) {
    if strong then (a.CopyStrong? || a.LockReturn?) && a.dst == h else a.CopyWeak? && a.dst == h
  }

  predicate Destroys(a: Action, h: Handle, strong: bool) {
    if strong then a.DropStrong? && a.h == h else a.DropWeak? && a.h == h
  }

  /** Step j created handle h, which no step before i has destroyed; step -1 is the construction. */
  ghost predicate CreatedAt(states: seq<State>, acts: seq<Action>, h: Handle, strong: bool, i: nat, j: int)
    requires i <= |acts| && |states| > 0
  {
    && -1 <= j < i && (forall k :: j < k < i ==> !Destroys(acts[k], h, strong))
    && (if j == -1 then strong && states[0] == Init(h) else Creates(acts[j], h, strong))
  }

  function Handles(s: State, strong: bool): set<Handle> {
    if strong then s.strong else s.weak
  }

  lemma StepHandles(s: State, a: Action, h: Handle, strong: bool)
    requires Enabled(s, a)
    ensures h in Handles(Do(s, a), strong) <==>
            Creates(a, h, strong) || (h in Handles(s, strong) && !Destroys(a, h, strong))
  {
  }

  /** The handles there are at any moment are those created and not destroyed since. */
  lemma {:induction false} HandlesExactly(states: seq<State>, acts: seq<Action>, h: Handle, strong: bool, i: nat)
    requires IsRun(states, acts) && i <= |acts|
    ensures h in Handles(states[i], strong) <==> exists j :: CreatedAt(states, acts, h, strong, i, j)
  {
    if i == 0 {
      var g :| states[0] == Init(g);
      if h == g && strong {
        assert CreatedAt(states, acts, h, strong, 0, -1);
      }
      if j :| CreatedAt(states, acts, h, strong, 0, j) {
        assert states[0] == Init(h);
      }
    } else {
      HandlesExactly(states, acts, h, strong, i - 1);
      assert StepAt(states, acts, i - 1);
      StepHandles(states[i - 1], acts[i - 1], h, strong);
      if Creates(acts[i - 1], h, strong) {
        assert CreatedAt(states, acts, h, strong, i, i - 1);
      } else if !Destroys(acts[i - 1], h, strong) && h in Handles(states[i - 1], strong) {
        var j :| CreatedAt(states, acts, h, strong, i - 1, j);
        assert CreatedAt(states, acts, h, strong, i, j);
      }
      if j :| CreatedAt(states, acts, h, strong, i, j) && j < i - 1 {
        assert CreatedAt(states, acts, h, strong, i - 1, j);
      }
    }
  }
}
