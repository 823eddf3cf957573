/** The code of the blocking queue, one stretch with the mutex at a time. */
module BlockingQueue {
  import opened Common
  import opened QueueProtocol

  class Queue<T> {
    const capacity: nat
    var queue: seq<T>
    var closed: bool
    var threads: map<Tid, Thread<T>>    // who is inside a call, and who is in the wait sets
    var closers: map<Tid, Closing>
    ghost var poppersFlushed: bool
    ghost var pushersFlushed: bool
    ghost var accepted: seq<T>
    ghost var delivered: seq<T>

    ghost function View(): State<T>
      reads this
    {
      State(capacity, queue, closed, threads, closers, poppersFlushed, pushersFlushed, accepted, delivered)
    }

    ghost predicate Valid()
      reads this
    {
      Inv(View())
    }

    constructor (capacity: nat)
      ensures Valid() && View() == Init(capacity)
    {
      this.capacity := capacity;
      queue, closed, threads, closers := [], false, map[], map[];
      poppersFlushed, pushersFlushed, accepted, delivered := false, false, [], [];
    }

    /** push and try_push from taking the mutex to waiting or returning: ok is the result, if there
        is one.  pick is the sleeper that notify_one wakes, if there is any. */
    method PushSection(t: Tid, pick: Option<Tid>) returns (ok: Option<bool>)
      requires Valid() && t in threads && threads[t].op.Push? && Enabled(View(), Run(t, pick))
      modifies this`queue, this`threads, this`accepted
      ensures Valid() && View() == Do(old(View()), Run(t, pick))
      ensures ok == match OutcomeOf(old(View()), t)
                    case Waits => None
                    case Refused => Some(false)
                    case _ => Some(true)
      ensures ok == Some(true) ==> queue == old(queue) + [old(threads[t].op.item)]
      ensures ok != Some(true) ==> queue == old(queue)
      ensures ok == Some(true) <==> |old(queue)| < capacity && !closed
      ensures ok == None <==> |old(queue)| == capacity && !closed && !Expired(old(threads[t]))
      ensures if ok.None? then threads == old(threads)[t := old(threads[t]).(phase := Sleeping)]
              else threads == Notify(old(threads) - {t}, if ok.value then pick else None)
    {
      StepInv(View(), Run(t, pick));
      var th := threads[t];
      if !(|queue| < capacity || closed) && !Expired(th) {
        threads := WithPhase(threads, t, Sleeping);
        return None;
      }
      threads := threads - {t};
      if !(|queue| < capacity || closed) || closed {
        return Some(false);
      }
      queue := queue + [th.op.item];
      accepted := accepted + [th.op.item];
      threads := Notify(threads, pick);
      return Some(true);
    }

    /** pop and try_pop from taking the mutex to waiting or returning. */
    method PopSection(t: Tid, pick: Option<Tid>) returns (done: bool, elem: Option<T>)
      requires Valid() && t in threads && threads[t].op.Pop? && Enabled(View(), Run(t, pick))
      modifies this`queue, this`threads, this`delivered
      ensures Valid() && View() == Do(old(View()), Run(t, pick))
      ensures done <==> OutcomeOf(old(View()), t) != Waits
      ensures elem == match OutcomeOf(old(View()), t) case Popped(e) => Some(e) case _ => None
      ensures elem.Some? ==> [elem.value] + queue == old(queue)
      ensures elem.None? ==> queue == old(queue)
      ensures elem.Some? <==> old(queue) != []
      ensures !done <==> old(queue) == [] && !closed && !Expired(old(threads[t]))
      ensures if !done then threads == old(threads)[t := old(threads[t]).(phase := Sleeping)]
              else threads == Notify(old(threads) - {t}, if elem.Some? then pick else None)
    {
      StepInv(View(), Run(t, pick));
      var th := threads[t];
      if !(queue != [] || closed) && !Expired(th) {
        threads := WithPhase(threads, t, Sleeping);
        return false, None;
      }
      threads := threads - {t};
      if !(queue != [] || closed) || (queue == [] && closed) {
        return true, None;
      }
      var front := queue[0];
      queue := queue[1..];
      delivered := delivered + [front];
      threads := Notify(threads, pick);
      return true, Some(front);
    }

    /** The part of close under the mutex. */
    method CloseSection(t: Tid)
      requires Valid() && Enabled(View(), Action<T>.Close(t))
      modifies this`closed, this`closers
      ensures Valid() && closed && View() == Do(old(View()), Close(t))
    {
      StepInv(View(), Close(t));
      closed := true;
      closers := closers[t := NotifyBoth];
    }

    method NotifyPoppersSection(t: Tid)
      requires Valid() && Enabled(View(), Action<T>.NotifyPoppers(t))
      modifies this`threads, this`poppersFlushed, this`closers
      ensures Valid() && View() == Do(old(View()), NotifyPoppers(t))
      ensures forall u :: !Asleep(threads, u, true)
      ensures forall u :: old(Asleep(threads, u, true)) ==>
                u in threads && threads[u] == old(threads[u]).(phase := Woken(true, false))
      ensures forall u :: !old(Asleep(threads, u, true)) ==>
                (u in threads <==> u in old(threads)) && (u in threads ==> threads[u] == old(threads[u]))
    {
      StepInv(View(), NotifyPoppers(t));
      threads := NotifyAll(threads, true);
      poppersFlushed := true;
      closers := closers[t := NotifyPushers];
    }

    method NotifyPushersSection(t: Tid)
      requires Valid() && Enabled(View(), Action<T>.NotifyPushersAll(t))
      modifies this`threads, this`pushersFlushed, this`closers
      ensures Valid() && View() == Do(old(View()), NotifyPushersAll(t))
      ensures forall u :: !Asleep(threads, u, false)
      ensures forall u :: old(Asleep(threads, u, false)) ==>
                u in threads && threads[u] == old(threads[u]).(phase := Woken(true, false))
      ensures forall u :: !old(Asleep(threads, u, false)) ==>
                (u in threads <==> u in old(threads)) && (u in threads ==> threads[u] == old(threads[u]))
    {
      StepInv(View(), NotifyPushersAll(t));
      threads := NotifyAll(threads, false);
      pushersFlushed := true;
      closers := closers - {t};
    }

    method Size() returns (n: nat)
      requires Valid()
      ensures n == |queue| <= capacity
    {
      n := |queue|;
    }
  }
}
