/**
  The counter routines of one control block as code, with the other threads' stores to
  use_count handed in turn by turn.
 */
module ControlBlock {
  import opened CounterProtocol

  /** What happens around one compare_exchange_weak: the values other threads store to
      use_count before it, and whether it then fails without cause. */
  datatype Turn = Turn(stores: seq<int>, spurious: bool)

  /** Stores other threads can make: each moves the count by one, and none follows a zero. */
  predicate LegalStores(n: int, stores: seq<int>)
    decreases |stores|
  {
    stores == [] || (n > 0 && (stores[0] == n + 1 || stores[0] == n - 1) && LegalStores(stores[0], stores[1..]))
  }

  function LastStore(n: int, stores: seq<int>): int {
    if stores == [] then n else stores[|stores| - 1]
  }

  /** The count after the stores of the given turns, had the lock not taken place. */
  function CountAfter(n: int, turns: seq<Turn>): int {
    if turns == [] then n else LastStore(CountAfter(n, turns[..|turns| - 1]), turns[|turns| - 1].stores)
  }

  function Stores(turns: seq<Turn>): nat {
    if turns == [] then 0 else Stores(turns[..|turns| - 1]) + |turns[|turns| - 1].stores|
  }

  ghost predicate LegalTurns(n: int, turns: seq<Turn>) {
    forall k :: 0 <= k < |turns| ==> LegalStores(CountAfter(n, turns[..k]), turns[k].stores)
  }

  lemma {:induction false} LegalKeepsCount(n: int, stores: seq<int>)
    requires n >= 0 && LegalStores(n, stores)
    ensures LastStore(n, stores) >= 0
    ensures n == 0 ==> stores == []
    decreases |stores|
  {
    if stores != [] {
      LegalKeepsCount(stores[0], stores[1..]);
      assert LastStore(stores[0], stores[1..]) == LastStore(n, stores);
    }
  }

  /** The values stored over a stretch of the history of the count. */
  function Trail(counts: seq<int>, i: nat, j: nat): seq<int>
    requires i <= j < |counts|
    decreases j
  {
    if i == j then []
    else if counts[j] == counts[j - 1] then Trail(counts, i, j - 1)
    else Trail(counts, i, j - 1) + [counts[j]]
  }

  /** No step moves the count by more than one, nor away from zero. */
  predicate MovesByOne(counts: seq<int>) {
    && (forall k :: 0 <= k < |counts| ==> counts[k] >= 0)
    && (forall k :: 0 < k < |counts| ==>
          counts[k] == counts[k - 1] || (counts[k - 1] != 0 && counts[k] in {counts[k - 1] - 1, counts[k - 1] + 1}))
  }

  lemma {:induction false} LegalAppend(n: int, stores: seq<int>, x: int)
    requires LegalStores(n, stores) && LastStore(n, stores) > 0
    requires x == LastStore(n, stores) + 1 || x == LastStore(n, stores) - 1
    ensures LegalStores(n, stores + [x])
    decreases |stores|
  {
    if stores != [] {
      assert LastStore(stores[0], stores[1..]) == LastStore(n, stores);
      LegalAppend(stores[0], stores[1..], x);
      assert (stores + [x])[1..] == stores[1..] + [x];
    }
  }

  lemma {:induction false} TrailIsLegal(counts: seq<int>, i: nat, j: nat)
    requires MovesByOne(counts) && i <= j < |counts|
    ensures LegalStores(counts[i], Trail(counts, i, j)) && LastStore(counts[i], Trail(counts, i, j)) == counts[j]
    decreases j
  {
    if i < j {
      TrailIsLegal(counts, i, j - 1);
      if counts[j] != counts[j - 1] {
        LegalAppend(counts[i], Trail(counts, i, j - 1), counts[j]);
      }
    }
  }

  /** Every stretch of every protocol run is legal interference in the sense LockUseCount asks for. */
  lemma RunsInterfereLegally(states: seq<State>, acts: seq<Action>, i: nat, j: nat)
    requires IsRun(states, acts) && i <= j < |states|
    ensures var counts := seq(|states|, k requires 0 <= k < |states| => states[k].useCount);
            LegalStores(counts[i], Trail(counts, i, j)) && LastStore(counts[i], Trail(counts, i, j)) == counts[j]
  {
    var counts := seq(|states|, k requires 0 <= k < |states| => states[k].useCount);
    forall k | 0 <= k < |states|
      ensures counts[k] >= 0
      ensures k > 0 ==> counts[k] in {counts[k - 1] - 1, counts[k - 1], counts[k - 1] + 1}
      ensures k > 0 && counts[k - 1] == 0 ==> counts[k] == 0
    {
      InvAlways(states, acts, k);
      if k > 0 {
        RunMovesByOne(states, acts, k - 1);
      }
    }
    TrailIsLegal(counts, i, j);
  }

  // ---------- Routines that no other call interrupts ----------

  /** Step a takes away a unit of weak_count, the last of which destroys the block. */
  function WeakAlone(s: State, a: Action): State
    requires Enabled(s, a) && (a.DropWeak? || a.GiveUpShare?)
  {
    var t := Do(s, a);
    if a.c in t.calls && t.calls[a.c].LastWeak? then Do(Do(t, BeginDestroy(a.c)), EndDestroy(a.c)) else t
  }

  /** Handle h is dropped by call c, all of whose steps follow. */
  function StrongAlone(s: State, h: Handle, c: Call): State
    requires Enabled(s, DropStrong(h, c))
  {
    var t := Do(s, DropStrong(h, c));
    if c in t.calls then WeakAlone(Do(Do(t, BeginDispose(c)), EndDispose(c)), GiveUpShare(c)) else t
  }

  class Block {
    var useCount: int
    var weakCount: int
    ghost var log: seq<Event>   // the calls of dispose and destroy so far

    /** The block is in state s of the protocol. */
    ghost predicate Shows(s: State)
      reads this
    {
      s.useCount == useCount && s.weakCount == weakCount && s.log == log
    }

    constructor ()
      ensures useCount == 1 && weakCount == 1 && log == []
      ensures forall h :: Shows(Init(h))
    {
      useCount, weakCount, log := 1, 1, [];
    }

    method IncUseCount()
      modifies this
      ensures useCount == old(useCount) + 1 && weakCount == old(weakCount) && log == old(log)
      ensures forall s, src, dst :: old(Shows(s)) && Enabled(s, CopyStrong(src, dst)) ==>
                Shows(Do(s, CopyStrong(src, dst)))
    {
      useCount := useCount + 1;
    }

    method IncWeakCount()
      modifies this
      ensures weakCount == old(weakCount) + 1 && useCount == old(useCount) && log == old(log)
      ensures forall s, src, dst :: old(Shows(s)) && Enabled(s, CopyWeak(src, dst)) ==>
                Shows(Do(s, CopyWeak(src, dst)))
    {
      weakCount := weakCount + 1;
    }

    /** The last weak unit destroys the block. */
    method DecWeakCount()
      modifies this
      ensures weakCount == old(weakCount) - 1 && useCount == old(useCount)
      ensures log == old(log) + if old(weakCount) == 1 then [DestroyBegin, DestroyEnd] else []
      ensures forall s, a :: old(Shows(s)) && Enabled(s, a) && (a.DropWeak? || a.GiveUpShare?) ==>
                Shows(WeakAlone(s, a))
    {
      var before := weakCount;
      weakCount := weakCount - 1;
      if before == 1 {
        log := log + [DestroyBegin];
        log := log + [DestroyEnd];
      }
    }

    /** The last strong handle disposes of the object and then gives up the group's weak unit. */
    method DecUseCount()
      modifies this
      ensures useCount == old(useCount) - 1
      ensures old(useCount) != 1 ==> weakCount == old(weakCount) && log == old(log)
      ensures old(useCount) == 1 ==> weakCount == old(weakCount) - 1
      ensures old(useCount) == 1 ==>
                log == old(log) + if old(weakCount) == 1 then LIFECYCLE else LIFECYCLE[..2]
      ensures forall s, h, c :: old(Shows(s)) && Enabled(s, DropStrong(h, c)) ==> Shows(StrongAlone(s, h, c))
    {
      var before := useCount;
      useCount := useCount - 1;
      if before == 1 {
        log := log + [DisposeBegin];
        log := log + [DisposeEnd];
        DecWeakCount();
      }
    }

    /** The retry loop, against any finite interference.  used says how many turns passed: the
        call takes effect between the last of their stores and the next one, it succeeds exactly
        when the count is not zero there, and the failures that had a cause number at most the
        stores other threads made. */
    method LockUseCount(turns: seq<Turn>) returns (ok: bool, used: nat, failures: nat)
      requires useCount >= 0 && LegalTurns(useCount, turns)
      modifies this`useCount
      ensures used <= |turns|
      ensures ok <==> CountAfter(old(useCount), turns[..used]) != 0
      ensures useCount == CountAfter(old(useCount), turns[..used]) + if ok then 1 else 0
      ensures failures <= Stores(turns[..used])
    {
      ghost var first := useCount;
      var n := useCount;
      used, failures := 0, 0;
      assert turns[..0] == [];
      while true
        invariant used <= |turns| && useCount == CountAfter(first, turns[..used]) == n >= 0
        invariant failures <= Stores(turns[..used])
        decreases |turns| - used
      {
        if n == 0 {
          return false, used, failures;
        }
        var spurious := false;
        if used < |turns| {
          assert turns[..used + 1][..used] == turns[..used];
          LegalKeepsCount(useCount, turns[used].stores);
          useCount := LastStore(useCount, turns[used].stores);
          spurious := turns[used].spurious;
          used := used + 1;
        }
        if useCount == n && !spurious {
          useCount := n + 1;
          return true, used, failures;
        }
        if useCount != n {
          failures := failures + 1;
        }
        n := useCount;
      }
    }
  }
}
