/**
  The bounded blocking queue as a monitor.  A step of a thread that holds the mutex runs from
  taking it to giving it up, by returning or by waiting; notify_one happens inside such a step,
  the two notify_all of close after the mutex is given up.
 */
module QueueProtocol {
  import opened Common

  type Tid = nat

  datatype Op<T> = Push(item: T) | Pop

  datatype Phase =
    | Ready                                    // called, predicate not yet evaluated
    | Sleeping                                 // in the wait set of its condition variable
    | Woken(notified: bool, expired: bool)     // out of the wait set, waiting for the mutex;
                                               // neither flag: a spurious wake-up

  datatype Thread<T> = Thread(op: Op<T>, timed: bool, phase: Phase)

  /** What close still has to do. */
  datatype Closing = NotifyBoth | NotifyPushers

  /** threads are those inside push, try_push, pop or try_pop; poppersFlushed and pushersFlushed
      say that some close has run its notify_all on that condition variable. */
  datatype State<T> = State(
    cap: nat,
    queue: seq<T>,
    closed: bool,
    threads: map<Tid, Thread<T>>,
    closers: map<Tid, Closing>,
    poppersFlushed: bool,
    pushersFlushed: bool,
    accepted: seq<T>,
    delivered: seq<T>)

  datatype Action<T> =
    | Call(t: Tid, op: Op<T>, timed: bool)
    | Run(t: Tid, pick: Option<Tid>)           // pick: whom notify_one wakes, if anyone
    | Spurious(t: Tid)
    | Timeout(t: Tid)
    | Close(t: Tid)
    | NotifyPoppers(t: Tid)
    | NotifyPushersAll(t: Tid)

  function Init<T>(cap: nat): State<T> {
    State(cap, [], false, map[], map[], false, false, [], [])
  }

  predicate Asleep<T>(threads: map<Tid, Thread<T>>, t: Tid, pop: bool) {
    t in threads && threads[t].phase.Sleeping? && threads[t].op.Pop? == pop
  }

  /** The condition a thread waits for. */
  predicate Condition<T>(s: State<T>, op: Op<T>) {
    s.closed || if op.Push? then |s.queue| < s.cap else |s.queue| > 0
  }

  /** The thread will change the queue and notify one thread of the other kind. */
  predicate Transfers<T>(s: State<T>, op: Op<T>) {
    if op.Push? then |s.queue| < s.cap && !s.closed else |s.queue| > 0
  }

  predicate Expired<T>(th: Thread<T>) {
    th.phase.Woken? && th.phase.expired
  }

  /** notify_one wakes a sleeper if there is one. */
  predicate PickOk<T>(s: State<T>, pop: bool, pick: Option<Tid>) {
    match pick
    case Some(u) => Asleep(s.threads, u, pop)
    case None => forall u :: u in s.threads ==> !Asleep(s.threads, u, pop)
  }

  predicate Enabled<T>(s: State<T>, a: Action<T>) {
    match a
    case Call(t, _, _) => t !in s.threads && t !in s.closers
    case Run(t, pick) =>
      && t in s.threads && !s.threads[t].phase.Sleeping?
      && (if Transfers(s, s.threads[t].op) then PickOk(s, s.threads[t].op.Push?, pick) else pick.None?)
    case Spurious(t) => t in s.threads && s.threads[t].phase.Sleeping?
    case Timeout(t) => t in s.threads && s.threads[t].timed && !s.threads[t].phase.Ready?
    case Close(t) => t !in s.threads && t !in s.closers
    case NotifyPoppers(t) => t in s.closers && s.closers[t].NotifyBoth?
    case NotifyPushersAll(t) => t in s.closers && s.closers[t].NotifyPushers?
  }

  function WithPhase<T>(threads: map<Tid, Thread<T>>, t: Tid, phase: Phase): map<Tid, Thread<T>>
    requires t in threads
  {
    threads[t := threads[t].(phase := phase)]
  }

  function Notify<T>(threads: map<Tid, Thread<T>>, pick: Option<Tid>): map<Tid, Thread<T>> {
    if pick.Some? && pick.value in threads then WithPhase(threads, pick.value, Woken(true, false)) else threads
  }

  function NotifyAll<T>(threads: map<Tid, Thread<T>>, pop: bool): map<Tid, Thread<T>> {
    map t | t in threads ::
      if Asleep(threads, t, pop) then threads[t].(phase := Woken(true, false)) else threads[t]
  }

  /** One stretch of thread t with the mutex. */
  function RunOf<T>(s: State<T>, t: Tid, pick: Option<Tid>): State<T>
    requires t in s.threads
  {
    var th := s.threads[t];
    if Transfers(s, th.op) then
      var woken := Notify(s.threads - {t}, pick);
      if th.op.Push? then
        s.(queue := s.queue + [th.op.item], accepted := s.accepted + [th.op.item], threads := woken)
      else
        s.(queue := s.queue[1..], delivered := s.delivered + [s.queue[0]], threads := woken)
    else if Condition(s, th.op) || Expired(th) then
      s.(threads := s.threads - {t})            // false or nothing is returned
    else
      s.(threads := WithPhase(s.threads, t, Sleeping))
  }

  function Do<T>(s: State<T>, a: Action<T>): State<T>
    requires Enabled(s, a)
  {
    match a
    case Call(t, op, timed) => s.(threads := s.threads[t := Thread(op, timed, Ready)])
    case Run(t, pick) => RunOf(s, t, pick)
    case Spurious(t) => s.(threads := WithPhase(s.threads, t, Woken(false, false)))
    case Timeout(t) =>
      var phase := s.threads[t].phase;
      s.(threads := WithPhase(s.threads, t, Woken(phase.Woken? && phase.notified, true)))
    case Close(t) => s.(closed := true, closers := s.closers[t := NotifyBoth])
    case NotifyPoppers(t) =>
      s.(threads := NotifyAll(s.threads, true), poppersFlushed := true, closers := s.closers[t := NotifyPushers])
    case NotifyPushersAll(t) =>
      s.(threads := NotifyAll(s.threads, false), pushersFlushed := true, closers := s.closers - {t})
  }

  // ---------- The invariant ----------

  /** Threads of one kind that were notified and have not run since. */
  function Notified<T>(threads: map<Tid, Thread<T>>, pop: bool): set<Tid> {
    set t | t in threads && threads[t].op.Pop? == pop && threads[t].phase.Woken? && threads[t].phase.notified
  }

  /** How many threads of one kind could proceed now. */
  function Room<T>(s: State<T>, pop: bool): int {
    if pop then |s.queue| else s.cap - |s.queue|
  }

  ghost predicate NoLost<T>(s: State<T>, pop: bool) {
    !s.closed ==> forall t :: Asleep(s.threads, t, pop) ==> Room(s, pop) <= |Notified(s.threads, pop)|
  }

  /** After the queue was closed, a sleeper is still to be notified by a close under way. */
  ghost predicate CloseWakes<T>(s: State<T>) {
    && (forall t :: s.closed && Asleep(s.threads, t, true) ==>
          !s.poppersFlushed && exists c :: c in s.closers && s.closers[c] == NotifyBoth)
    && (forall t :: s.closed && Asleep(s.threads, t, false) ==> !s.pushersFlushed && s.closers != map[])
  }

  ghost predicate Inv<T>(s: State<T>) {
    && |s.queue| <= s.cap
    && s.accepted == s.delivered + s.queue
    && NoLost(s, true)
    && NoLost(s, false)
    && CloseWakes(s)
    && (!s.closed ==> s.closers == map[] && !s.poppersFlushed && !s.pushersFlushed)
    && (forall t :: t in s.threads && Expired(s.threads[t]) ==> s.threads[t].timed)
  }

  lemma InitInv<T>(cap: nat)
    ensures Inv(Init<T>(cap))
  {
  }

  lemma NotifiedRemove<T>(threads: map<Tid, Thread<T>>, t: Tid, pop: bool)
    ensures Notified(threads - {t}, pop) == Notified(threads, pop) - {t}
  {
  }

  lemma NotifiedUpdate<T>(threads: map<Tid, Thread<T>>, t: Tid, th: Thread<T>, pop: bool)
    ensures Notified(threads[t := th], pop)
         == if th.op.Pop? == pop && th.phase.Woken? && th.phase.notified
            then Notified(threads, pop) + {t} else Notified(threads, pop) - {t}
  {
  }

  /** The notified threads of the kind of the thread that transfers an element: it is no longer one,
      and the thread it wakes is of the other kind. */
  lemma NotifiedOwnKind<T>(s: State<T>, t: Tid, pick: Option<Tid>)
    requires Enabled(s, Run(t, pick)) && Transfers(s, s.threads[t].op)
    ensures var pop := s.threads[t].op.Pop?;
            Notified(Notify(s.threads - {t}, pick), pop) == Notified(s.threads, pop) - {t}
  {
    var pop := s.threads[t].op.Pop?;
    var threads := s.threads - {t};
    NotifiedRemove(s.threads, t, pop);
    if pick.Some? {
      NotifiedUpdate(threads, pick.value, threads[pick.value].(phase := Woken(true, false)), pop);
      assert pick.value !in Notified(threads, pop);
    }
  }

  /** The thread that transfers an element, seen from the threads of its own kind. */
  lemma TransferOwnKind<T>(s: State<T>, t: Tid, pick: Option<Tid>)
    requires Enabled(s, Run(t, pick)) && Transfers(s, s.threads[t].op)
    requires NoLost(s, s.threads[t].op.Pop?) && !s.closed
    ensures NoLost(RunOf(s, t, pick), s.threads[t].op.Pop?)
  {
    var pop := s.threads[t].op.Pop?;
    NotifiedOwnKind(s, t, pick);
    assert forall u :: Asleep(Notify(s.threads - {t}, pick), u, pop) ==> Asleep(s.threads, u, pop);
  }

  lemma NotifyOne<T>(threads: map<Tid, Thread<T>>, u: Tid, pop: bool)
    requires Asleep(threads, u, pop)
    ensures |Notified(Notify(threads, Some(u)), pop)| == |Notified(threads, pop)| + 1
  {
    NotifiedUpdate(threads, u, threads[u].(phase := Woken(true, false)), pop);
    assert u !in Notified(threads, pop);
  }

  /** ... and from the threads of the other kind, one of which it wakes. */
  lemma TransferOtherKind<T>(s: State<T>, t: Tid, pick: Option<Tid>)
    requires Enabled(s, Run(t, pick)) && Transfers(s, s.threads[t].op)
    requires NoLost(s, s.threads[t].op.Push?) && !s.closed
    ensures NoLost(RunOf(s, t, pick), s.threads[t].op.Push?)
  {
    var pop := s.threads[t].op.Push?;
    var threads := s.threads - {t};
    NotifiedRemove(s.threads, t, pop);
    assert Notified(threads, pop) == Notified(s.threads, pop);
    if pick.Some? {
      NotifyOne(threads, pick.value, pop);
    }
    assert forall u :: Asleep(Notify(threads, pick), u, pop) ==> Asleep(s.threads, u, pop);
  }

  lemma Appended<T>(delivered: seq<T>, queue: seq<T>, item: T)
    ensures delivered + queue + [item] == delivered + (queue + [item])
  {
  }

  lemma FrontTaken<T>(delivered: seq<T>, queue: seq<T>)
    requires queue != []
    ensures delivered + queue == delivered + [queue[0]] + queue[1..]
  {
  }

  lemma TransferQueue<T>(s: State<T>, t: Tid, pick: Option<Tid>)
    requires Enabled(s, Run(t, pick)) && Transfers(s, s.threads[t].op)
    requires |s.queue| <= s.cap && s.accepted == s.delivered + s.queue
    ensures var u := RunOf(s, t, pick); |u.queue| <= u.cap && u.accepted == u.delivered + u.queue
  {
    if s.threads[t].op.Pop? {
      FrontTaken(s.delivered, s.queue);
    } else {
      Appended(s.delivered, s.queue, s.threads[t].op.item);
    }
  }

  lemma TransferThreads<T>(s: State<T>, t: Tid, pick: Option<Tid>)
    requires Enabled(s, Run(t, pick)) && Transfers(s, s.threads[t].op)
    ensures forall u, pop :: Asleep(RunOf(s, t, pick).threads, u, pop) ==> Asleep(s.threads, u, pop)
    ensures forall u :: u in RunOf(s, t, pick).threads && Expired(RunOf(s, t, pick).threads[u]) ==>
                          u in s.threads && s.threads[u] == RunOf(s, t, pick).threads[u]
  {
  }

  lemma RunTransfers<T>(s: State<T>, t: Tid, pick: Option<Tid>)
    requires Inv(s) && Enabled(s, Run(t, pick)) && Transfers(s, s.threads[t].op)
    ensures Inv(RunOf(s, t, pick))
  {
    TransferQueue(s, t, pick);
    TransferThreads(s, t, pick);
    if !s.closed {
      TransferOwnKind(s, t, pick);
      TransferOtherKind(s, t, pick);
    }
    assert RunOf(s, t, pick).closed == s.closed && RunOf(s, t, pick).closers == s.closers;
  }

  lemma RunReturns<T>(s: State<T>, t: Tid)
    requires Inv(s) && t in s.threads && !Transfers(s, s.threads[t].op)
    requires Condition(s, s.threads[t].op) || Expired(s.threads[t])
    ensures Inv(s.(threads := s.threads - {t}))
  {
    NotifiedRemove(s.threads, t, true);
    NotifiedRemove(s.threads, t, false);
    assert forall u, pop :: Asleep(s.threads - {t}, u, pop) ==> Asleep(s.threads, u, pop);
  }

  lemma RunSleeps<T>(s: State<T>, t: Tid)
    requires Inv(s) && t in s.threads && !Condition(s, s.threads[t].op)
    ensures Inv(s.(threads := WithPhase(s.threads, t, Sleeping)))
  {
    var threads := WithPhase(s.threads, t, Sleeping);
    NotifiedUpdate(s.threads, t, s.threads[t].(phase := Sleeping), true);
    NotifiedUpdate(s.threads, t, s.threads[t].(phase := Sleeping), false);
    assert forall u, pop :: Asleep(threads, u, pop) && u != t ==> Asleep(s.threads, u, pop);
  }

  lemma WakeInv<T>(s: State<T>, t: Tid, phase: Phase)
    requires Inv(s) && t in s.threads && phase.Woken? && (phase.expired ==> s.threads[t].timed)
    requires s.threads[t].phase.Woken? && s.threads[t].phase.notified ==> phase.notified
    ensures Inv(s.(threads := WithPhase(s.threads, t, phase)))
  {
    var threads := WithPhase(s.threads, t, phase);
    forall pop: bool
      ensures |Notified(threads, pop)| >= |Notified(s.threads, pop)|
    {
      NotifiedUpdate(s.threads, t, s.threads[t].(phase := phase), pop);
      var was := Notified(s.threads, pop);
      if t in was {
        assert was + {t} == was;
      } else {
        assert was - {t} == was;
      }
    }
    assert forall u, pop :: Asleep(threads, u, pop) ==> Asleep(s.threads, u, pop);
  }

  lemma CallInv<T>(s: State<T>, t: Tid, op: Op<T>, timed: bool)
    requires Inv(s) && t !in s.threads
    ensures Inv(s.(threads := s.threads[t := Thread(op, timed, Ready)]))
  {
    var threads := s.threads[t := Thread(op, timed, Ready)];
    forall pop: bool
      ensures Notified(threads, pop) == Notified(s.threads, pop)
    {
      NotifiedUpdate(s.threads, t, Thread(op, timed, Ready), pop);
    }
    assert forall u, pop :: Asleep(threads, u, pop) ==> Asleep(s.threads, u, pop);
  }

  lemma CloseInv<T>(s: State<T>, a: Action<T>)
    requires Inv(s) && Enabled(s, a) && (a.Close? || a.NotifyPoppers? || a.NotifyPushersAll?)
    ensures Inv(Do(s, a))
  {
    var u := Do(s, a);
    if a.Close? {
      assert u.closers[a.t] == NotifyBoth;
    } else {
      assert s.closed;
      assert forall t :: Asleep(u.threads, t, a.NotifyPushersAll?) ==> Asleep(s.threads, t, a.NotifyPushersAll?);
      assert forall t :: !Asleep(u.threads, t, a.NotifyPoppers?);
      if a.NotifyPoppers? {
        assert a.t in u.closers;
      } else {
        forall c | c in s.closers && s.closers[c] == NotifyBoth ensures c in u.closers && u.closers[c] == NotifyBoth {
        }
      }
    }
  }

  lemma StepInv<T>(s: State<T>, a: Action<T>)
    requires Inv(s) && Enabled(s, a)
    ensures Inv(Do(s, a))
  {
    match a
    case Call(t, op, timed) => CallInv(s, t, op, timed);
    case Run(t, pick) =>
      if Transfers(s, s.threads[t].op) {
        RunTransfers(s, t, pick);
      } else if Condition(s, s.threads[t].op) || Expired(s.threads[t]) {
        RunReturns(s, t);
      } else {
        RunSleeps(s, t);
      }
    case Spurious(t) => WakeInv(s, t, Woken(false, false));
    case Timeout(t) => WakeInv(s, t, Woken(s.threads[t].phase.Woken? && s.threads[t].phase.notified, true));
    case _ => CloseInv(s, a);
  }

  // ---------- Whole runs ----------

  predicate StepAt<T(==)>(states: seq<State<T>>, acts: seq<Action<T>>, i: nat)
    requires |states| == |acts| + 1 && i < |acts|
  {
    Enabled(states[i], acts[i]) && states[i + 1] == Do(states[i], acts[i])
  }

  ghost predicate IsRun<T>(states: seq<State<T>>, acts: seq<Action<T>>) {
    && |states| == |acts| + 1
    && states[0] == Init(states[0].cap)
    && (forall i :: 0 <= i < |acts| ==> StepAt(states, acts, i))
  }

  lemma {:induction false} InvAlways<T>(states: seq<State<T>>, acts: seq<Action<T>>, i: nat)
    requires IsRun(states, acts) && i < |states|
    ensures Inv(states[i])
  {
    if i == 0 {
      InitInv<T>(states[0].cap);
    } else {
      InvAlways(states, acts, i - 1);
      assert StepAt(states, acts, i - 1);
      StepInv(states[i - 1], acts[i - 1]);
    }
  }

  /** No lost wake-up: while the queue is open and a consumer sleeps, every queued element has a
      consumer that was notified and has not run since; and likewise for free slots and producers. */
  lemma NoLostWakeup<T>(states: seq<State<T>>, acts: seq<Action<T>>, i: nat, t: Tid)
    requires IsRun(states, acts) && i < |states| && !states[i].closed
    ensures Asleep(states[i].threads, t, true) ==> |states[i].queue| <= |Notified(states[i].threads, true)|
    ensures Asleep(states[i].threads, t, false) ==>
              states[i].cap - |states[i].queue| <= |Notified(states[i].threads, false)|
  {
    InvAlways(states, acts, i);
  }

  /** Producers and consumers are never all blocked: with capacity, a sleeper of each kind means
      that some thread is on its way to run. */
  lemma SomeoneRuns<T>(states: seq<State<T>>, acts: seq<Action<T>>, i: nat, t: Tid, u: Tid)
    requires IsRun(states, acts) && i < |states| && !states[i].closed && states[i].cap > 0
    requires Asleep(states[i].threads, t, true) && Asleep(states[i].threads, u, false)
    ensures exists r :: r in states[i].threads && states[i].threads[r].phase.Woken?
  {
    NoLostWakeup(states, acts, i, t);
    NoLostWakeup(states, acts, i, u);
    var s := states[i];
    if |Notified(s.threads, true)| > 0 {
      var r :| r in Notified(s.threads, true);
    } else {
      var r :| r in Notified(s.threads, false);
    }
  }

  /** Elements leave in the order they were accepted, none is lost, and there is a bound. */
  lemma Conservation<T>(states: seq<State<T>>, acts: seq<Action<T>>, i: nat)
    requires IsRun(states, acts) && i < |states|
    ensures states[i].accepted == states[i].delivered + states[i].queue
    ensures |states[i].queue| <= states[i].cap
  {
    InvAlways(states, acts, i);
  }

  /** Closing is for good, and nothing is accepted after it. */
  lemma {:induction false} NothingAcceptedAfterClose<T>(states: seq<State<T>>, acts: seq<Action<T>>, i: nat, j: nat)
    requires IsRun(states, acts) && i <= j < |states| && states[i].closed
    ensures states[j].closed && states[j].accepted == states[i].accepted
  {
    if i < j {
      NothingAcceptedAfterClose(states, acts, i, j - 1);
      assert StepAt(states, acts, j - 1);
    }
  }

  // ---------- What a call returns ----------

  datatype Outcome<T> = Waits | Refused | Pushed | Popped(elem: T)

  function OutcomeOf<T>(s: State<T>, t: Tid): Outcome<T>
    requires t in s.threads
  {
    var th := s.threads[t];
    if Transfers(s, th.op) then if th.op.Push? then Pushed else Popped(s.queue[0])
    else if Condition(s, th.op) || Expired(th) then Refused
    else Waits
  }

  /** push fails exactly when the queue is closed, or its time is up and the queue is full; pop
      gives nothing exactly when the queue is empty and closed, or empty and its time is up. */
  lemma RefusedExactly<T>(states: seq<State<T>>, acts: seq<Action<T>>, i: nat)
    requires IsRun(states, acts) && i < |acts| && acts[i].Run?
    ensures acts[i].t in states[i].threads
    ensures var s, th := states[i], states[i].threads[acts[i].t];
            OutcomeOf(s, acts[i].t) == Refused <==>
            if th.op.Push? then s.closed || (|s.queue| == s.cap && Expired(th))
            else s.queue == [] && (s.closed || Expired(th))
    ensures Expired(states[i].threads[acts[i].t]) ==> states[i].threads[acts[i].t].timed
  {
    assert StepAt(states, acts, i);
    InvAlways(states, acts, i);
  }

  lemma {:induction false} DeliveredGrows<T>(states: seq<State<T>>, acts: seq<Action<T>>, i: nat, j: nat)
    requires IsRun(states, acts) && i <= j < |states|
    ensures |states[i].delivered| <= |states[j].delivered|
  {
    if i < j {
      DeliveredGrows(states, acts, i, j - 1);
      assert StepAt(states, acts, j - 1);
    }
  }

  /** An untimed pop gives nothing only when every element that is ever accepted was delivered. */
  lemma NothingOnlyWhenDrained<T>(states: seq<State<T>>, acts: seq<Action<T>>, i: nat, j: nat)
    requires IsRun(states, acts) && i < |acts| && acts[i].Run? && i <= j < |states|
    requires acts[i].t in states[i].threads && states[i].threads[acts[i].t].op.Pop?
    requires !states[i].threads[acts[i].t].timed && OutcomeOf(states[i], acts[i].t) == Refused
    ensures states[j].accepted == states[j].delivered == states[i].delivered
  {
    RefusedExactly(states, acts, i);
    Conservation(states, acts, i);
    Conservation(states, acts, j);
    NothingAcceptedAfterClose(states, acts, i, j);
    DeliveredGrows(states, acts, i, j);
  }

  /** Once the queue is closed, every call returns the next time it runs. */
  lemma ClosedCallsReturn<T>(states: seq<State<T>>, acts: seq<Action<T>>, i: nat, j: nat)
    requires IsRun(states, acts) && i <= j < |acts| && states[i].closed && acts[j].Run?
    ensures acts[j].t in states[j].threads && acts[j].t !in states[j + 1].threads
    ensures OutcomeOf(states[j], acts[j].t) != Waits
  {
    NothingAcceptedAfterClose(states, acts, i, j);
    assert StepAt(states, acts, j);
    var t, pick := acts[j].t, acts[j].pick;
    if pick.Some? {
      assert pick.value != t;
    }
  }

  lemma {:induction false} FlushedForGood<T>(states: seq<State<T>>, acts: seq<Action<T>>, i: nat, j: nat)
    requires IsRun(states, acts) && i <= j < |states|
    ensures states[i].poppersFlushed ==> states[j].poppersFlushed
    ensures states[i].pushersFlushed ==> states[j].pushersFlushed
  {
    if i < j {
      FlushedForGood(states, acts, i, j - 1);
      assert StepAt(states, acts, j - 1);
    }
  }

  /** After a close has run its notify_all on a condition variable, no thread sleeps there, then or
      ever after, however late it called. */
  lemma NoSleeperAfterFlush<T>(states: seq<State<T>>, acts: seq<Action<T>>, i: nat, j: nat, t: Tid)
    requires IsRun(states, acts) && i < |acts| && i < j < |states|
    ensures acts[i].NotifyPoppers? ==> !Asleep(states[j].threads, t, true)
    ensures acts[i].NotifyPushersAll? ==> !Asleep(states[j].threads, t, false)
  {
    assert StepAt(states, acts, i);
    FlushedForGood(states, acts, i + 1, j);
    InvAlways(states, acts, j);
  }

  /** A thread that sleeps on a closed queue is about to be notified: some close is under way. */
  lemma SleeperWillBeNotified<T>(states: seq<State<T>>, acts: seq<Action<T>>, i: nat, t: Tid)
    requires IsRun(states, acts) && i < |states| && states[i].closed
    ensures Asleep(states[i].threads, t, true) ==> exists c :: c in states[i].closers && states[i].closers[c] == NotifyBoth
    ensures Asleep(states[i].threads, t, false) ==> states[i].closers != map[]
  {
    InvAlways(states, acts, i);
  }

  // ---------- What becomes of each thread ----------

  /** The call can return: its condition holds, or its time is up. */
  predicate MayReturn<T>(s: State<T>, th: Thread<T>) {
    || s.closed
    || (th.op.Push? && |s.queue| < s.cap) || (th.op.Pop? && s.queue != [])
    || (th.phase.Woken? && th.phase.expired)
  }

  /** The step is the notification that wakes sleeper t. */
  predicate Notifies<T>(s: State<T>, a: Action<T>, t: Tid)
    requires Enabled(s, a)
  {
    || (a.Run? && a.pick == Some(t))
    || (a.NotifyPoppers? && Asleep(s.threads, t, true))
    || (a.NotifyPushersAll? && Asleep(s.threads, t, false))
  }

  lemma OwnRun<T>(s: State<T>, t: Tid, pick: Option<Tid>)
    requires |s.queue| <= s.cap && Enabled(s, Run(t, pick))
    ensures pick != Some(t)
    ensures var u := RunOf(s, t, pick);
            && (t !in u.threads <==> MayReturn(s, s.threads[t]))
            && (t in u.threads ==> u.threads[t] == s.threads[t].(phase := Sleeping))
  {
  }

  lemma OtherRun<T>(s: State<T>, r: Tid, pick: Option<Tid>, t: Tid)
    requires Enabled(s, Run(r, pick)) && t in s.threads && t != r
    ensures var u := RunOf(s, r, pick);
            && t in u.threads
            && u.threads[t] == if pick == Some(t) then s.threads[t].(phase := Woken(true, false)) else s.threads[t]
  {
    if Transfers(s, s.threads[r].op) {
      OtherNotify(s.threads, r, pick, t);
    } else {
      assert pick.None?;
    }
  }

  lemma OtherNotify<T>(threads: map<Tid, Thread<T>>, r: Tid, pick: Option<Tid>, t: Tid)
    requires t in threads && t != r
    ensures var woken := Notify(threads - {r}, pick);
            t in woken && woken[t] == if pick == Some(t) then threads[t].(phase := Woken(true, false)) else threads[t]
  {
  }

  lemma StepThread<T>(s: State<T>, a: Action<T>, t: Tid)
    requires |s.queue| <= s.cap && Enabled(s, a) && t in s.threads
    ensures var u := Do(s, a);
            && (t !in u.threads <==> a.Run? && a.t == t && MayReturn(s, s.threads[t]))
            && (t in u.threads ==>
                  && u.threads[t].op == s.threads[t].op && u.threads[t].timed == s.threads[t].timed
                  && u.threads[t].phase ==
                     if a.Run? && a.t == t then Sleeping
                     else if Notifies(s, a, t) then Woken(true, false)
                     else if a == Spurious(t) then Woken(false, false)
                     else if a == Timeout(t) then Woken(s.threads[t].phase.Woken? && s.threads[t].phase.notified, true)
                     else s.threads[t].phase)
  {
    if a.Run? {
      if a.t == t {
        OwnRun(s, t, a.pick);
      } else {
        OtherRun(s, a.t, a.pick, t);
      }
    }
  }

  lemma StepNewThread<T>(s: State<T>, a: Action<T>, t: Tid)
    requires Enabled(s, a) && t !in s.threads
    ensures var u := Do(s, a);
            && (t in u.threads <==> a.Call? && a.t == t)
            && (a.Call? && a.t == t ==> u.threads[t] == Thread(a.op, a.timed, Ready))
  {
    if a.Run? {
      NobodyEnters(s, a.t, a.pick, t);
    }
  }

  lemma NobodyEnters<T>(s: State<T>, r: Tid, pick: Option<Tid>, t: Tid)
    requires Enabled(s, Run(r, pick)) && t !in s.threads
    ensures t !in RunOf(s, r, pick).threads
  {
  }

  /** A call returns at the step at which its thread, with the mutex, finds the queue closed, or room
      or an element for it, or its time up; at no other step does a thread leave; and a thread that
      finds none of these goes to sleep. */
  lemma ReturnsExactly<T>(states: seq<State<T>>, acts: seq<Action<T>>, i: nat, t: Tid)
    requires IsRun(states, acts) && i < |acts| && t in states[i].threads
    ensures var s, u, a := states[i], states[i + 1], acts[i];
            && (t !in u.threads <==> a.Run? && a.t == t && MayReturn(s, s.threads[t]))
            && (a.Run? && a.t == t && !MayReturn(s, s.threads[t]) ==>
                  u.threads[t] == s.threads[t].(phase := Sleeping) && u.queue == s.queue)
            && (t in u.threads ==> u.threads[t].op == s.threads[t].op && u.threads[t].timed == s.threads[t].timed)
            && (a.Run? && a.t == t ==> (t in u.threads <==> OutcomeOf(s, t) == Waits))
  {
    InvAlways(states, acts, i);
    assert StepAt(states, acts, i);
    StepThread(states[i], acts[i], t);
  }

  /** A thread gets out of a wait set by a notification, spuriously or by its time-out, and then runs
      again: notify_one wakes the sleeper it picks, notify_all every sleeper of its kind, and no step
      wakes anyone else. */
  lemma WakesExactly<T>(states: seq<State<T>>, acts: seq<Action<T>>, i: nat, t: Tid, pop: bool)
    requires IsRun(states, acts) && i < |acts| && Asleep(states[i].threads, t, pop)
    ensures var s, u, a := states[i], states[i + 1], acts[i];
            && t in u.threads && u.threads[t].op == s.threads[t].op && u.threads[t].timed == s.threads[t].timed
            && u.threads[t].phase ==
               if (a.Run? && a.pick == Some(t)) || (a.NotifyPoppers? && pop) || (a.NotifyPushersAll? && !pop)
               then Woken(true, false)
               else if a == Spurious(t) then Woken(false, false)
               else if a == Timeout(t) then Woken(false, true)
               else Sleeping
  {
    InvAlways(states, acts, i);
    assert StepAt(states, acts, i);
    StepThread(states[i], acts[i], t);
  }

  /** Each thread is inside the call it made. */
  lemma {:induction false} InsideItsCall<T>(states: seq<State<T>>, acts: seq<Action<T>>, i: nat, t: Tid) returns (j: nat)
    requires IsRun(states, acts) && i < |states| && t in states[i].threads
    ensures j < i && acts[j] == Call(t, states[i].threads[t].op, states[i].threads[t].timed)
    ensures forall k :: j < k <= i ==> t in states[k].threads
  {
    j := i - 1;
    assert StepAt(states, acts, j);
    InvAlways(states, acts, j);
    if t in states[j].threads {
      StepThread(states[j], acts[j], t);
      j := InsideItsCall(states, acts, j, t);
    } else {
      StepNewThread(states[j], acts[j], t);
    }
  }

  predicate Runs<T>(a: Action<T>, t: Tid) {
    a.Run? && a.t == t
  }

  /** The wait of t timed out at step j, and t has not run since. */
  ghost predicate TimedOutAt<T>(acts: seq<Action<T>>, t: Tid, i: nat, j: nat) {
    j < i <= |acts| && acts[j] == Timeout(t) && forall k :: j < k < i ==> !Runs(acts[k], t)
  }

  /** t was notified at step j, and has not run since. */
  ghost predicate NotifiedAt<T>(states: seq<State<T>>, acts: seq<Action<T>>, t: Tid, i: nat, j: nat) {
    && j < i <= |acts| < |states| && Enabled(states[j], acts[j]) && Notifies(states[j], acts[j], t)
    && forall k :: j < k < i ==> !Runs(acts[k], t)
  }

  predicate IsExpired<T>(s: State<T>, t: Tid) {
    t in s.threads && Expired(s.threads[t])
  }

  predicate IsNotified<T>(s: State<T>, t: Tid) {
    t in s.threads && s.threads[t].phase.Woken? && s.threads[t].phase.notified
  }

  lemma StepFlags<T>(s: State<T>, a: Action<T>, t: Tid)
    requires Inv(s) && Enabled(s, a)
    ensures IsExpired(Do(s, a), t) <==> a == Timeout(t) || (IsExpired(s, t) && !Runs(a, t))
    ensures IsNotified(Do(s, a), t) <==> Notifies(s, a, t) || (IsNotified(s, t) && !Runs(a, t))
  {
    if t in s.threads {
      StepThread(s, a, t);
    } else {
      StepNewThread(s, a, t);
    }
  }

  /** The time of a thread is up exactly if its wait timed out since it last ran. */
  lemma {:induction false} ExpiredExactly<T>(states: seq<State<T>>, acts: seq<Action<T>>, i: nat, t: Tid)
    requires IsRun(states, acts) && i < |states|
    ensures IsExpired(states[i], t) <==> exists j: nat :: TimedOutAt(acts, t, i, j)
  {
    if i > 0 {
      var h := i - 1;
      ExpiredExactly(states, acts, h, t);
      InvAlways(states, acts, h);
      assert StepAt(states, acts, h);
      StepFlags(states[h], acts[h], t);
      if acts[h] == Timeout(t) {
        assert TimedOutAt(acts, t, i, h);
      } else if IsExpired(states[i], t) {
        var j: nat :| TimedOutAt(acts, t, h, j);
        assert TimedOutAt(acts, t, i, j);
      }
      if j: nat :| TimedOutAt(acts, t, i, j) && j < h {
        assert TimedOutAt(acts, t, h, j) && !Runs(acts[h], t);
      }
    }
  }

  lemma {:induction false} NotifiedAtExactly<T>(states: seq<State<T>>, acts: seq<Action<T>>, i: nat, t: Tid)
    requires IsRun(states, acts) && i < |states|
    ensures IsNotified(states[i], t) <==> exists j: nat :: NotifiedAt(states, acts, t, i, j)
  {
    if i > 0 {
      var h := i - 1;
      NotifiedAtExactly(states, acts, h, t);
      InvAlways(states, acts, h);
      assert StepAt(states, acts, h);
      StepFlags(states[h], acts[h], t);
      if Notifies(states[h], acts[h], t) {
        assert NotifiedAt(states, acts, t, i, h);
      } else if IsNotified(states[i], t) {
        var j: nat :| NotifiedAt(states, acts, t, h, j);
        assert NotifiedAt(states, acts, t, i, j);
      }
      if j: nat :| NotifiedAt(states, acts, t, i, j) && j < h {
        assert NotifiedAt(states, acts, t, h, j) && !Runs(acts[h], t);
      }
    }
  }

  /** A thread counts as notified exactly if a notification woke it since it last ran. */
  lemma NotifiedExactly<T>(states: seq<State<T>>, acts: seq<Action<T>>, i: nat, t: Tid)
    requires IsRun(states, acts) && i < |states|
    ensures t in Notified(states[i].threads, true) + Notified(states[i].threads, false) <==>
            exists j: nat :: NotifiedAt(states, acts, t, i, j)
  {
    NotifiedAtExactly(states, acts, i, t);
    assert t in Notified(states[i].threads, true) + Notified(states[i].threads, false) <==> IsNotified(states[i], t);
  }

  // ---------- What becomes of the queue ----------

  /** The queue changes only when a thread with the mutex finds room, or an element, for its call:
      a push then appends its element, on an open queue, and a pop takes the front one. */
  lemma TransfersExactly<T>(states: seq<State<T>>, acts: seq<Action<T>>, i: nat)
    requires IsRun(states, acts) && i < |acts|
    ensures acts[i].Run? ==> acts[i].t in states[i].threads
    ensures var s, u, a := states[i], states[i + 1], acts[i];
            if a.Run? && s.threads[a.t].op.Push? && |s.queue| < s.cap && !s.closed then
              var item := s.threads[a.t].op.item;
              u.queue == s.queue + [item] && u.accepted == s.accepted + [item] && u.delivered == s.delivered
            else if a.Run? && s.threads[a.t].op.Pop? && s.queue != [] then
              s.queue == [s.queue[0]] + u.queue && u.delivered == s.delivered + [s.queue[0]] && u.accepted == s.accepted
            else u.queue == s.queue && u.accepted == s.accepted && u.delivered == s.delivered
  {
    assert StepAt(states, acts, i);
  }

  /** The queue is closed exactly once some close has taken the mutex. */
  lemma {:induction false} ClosedExactly<T>(states: seq<State<T>>, acts: seq<Action<T>>, i: nat)
    requires IsRun(states, acts) && i < |states|
    ensures states[i].closed <==> exists j :: 0 <= j < i && acts[j].Close?
  {
    if i > 0 {
      ClosedExactly(states, acts, i - 1);
      assert StepAt(states, acts, i - 1);
    }
  }

  /** What each close still has to do: both notifications, then that of the producers, then none. */
  lemma CloseSteps<T>(states: seq<State<T>>, acts: seq<Action<T>>, i: nat, t: Tid)
    requires IsRun(states, acts) && i < |acts|
    ensures var s, u, a := states[i], states[i + 1], acts[i];
            if a == Close(t) then t in u.closers && u.closers[t] == NotifyBoth
            else if a == NotifyPoppers(t) then t in u.closers && u.closers[t] == NotifyPushers
            else if a == NotifyPushersAll(t) then t !in u.closers
            else (t in u.closers <==> t in s.closers) && (t in s.closers ==> u.closers[t] == s.closers[t])
  {
    assert StepAt(states, acts, i);
  }
}
