/**
  The single-producer single-consumer ring as a transition system.  push and pop are cut at
  their loads, slot accesses and stores.  heads and tails hold every value ever stored to
  head_ and tail_, so that a load of the other side's index can return any store that is not
  older than one already seen.
 */
module RingProtocol {

  datatype Producer<T> =
    | PIdle
    | PLoaded(item: T, curr: nat)              // own index read
    | PClear(item: T, curr: nat, next: nat)    // room seen, slot write next
    | PWrote(item: T, next: nat)               // index store next

  datatype Consumer<T> =
    | CIdle
    | CLoaded(curr: nat)
    | CReady(curr: nat)                        // element seen, slot read next
    | CTaken(curr: nat, elem: T)               // index store next

  /** published and consumed record the elements of the completed pushes and pops; seenTail and
      seenHead are the numbers of the latest stores each side has seen of the other's index. */
  datatype Ring<T> = Ring(
    cap: nat,
    buffer: seq<T>,
    heads: seq<nat>,
    tails: seq<nat>,
    producer: Producer<T>,
    consumer: Consumer<T>,
    seenTail: nat,
    seenHead: nat,
    published: seq<T>,
    consumed: seq<T>)

  datatype Action<T> =
    | BeginPush(item: T)
    | SeeTail(k: nat)
    | WriteSlot
    | StoreHead
    | BeginPop
    | SeeHead(k: nat)
    | ReadSlot
    | StoreTail

  predicate IsInit<T>(s: Ring<T>) {
    && |s.buffer| == s.cap + 1
    && s.heads == [0] && s.tails == [0]
    && s.producer == PIdle && s.consumer == CIdle
    && s.seenTail == 0 && s.seenHead == 0
    && s.published == [] && s.consumed == []
  }

  function Last(xs: seq<nat>): nat {
    if xs == [] then 0 else xs[|xs| - 1]
  }

  predicate Enabled<T>(s: Ring<T>, a: Action<T>) {
    match a
    case BeginPush(_) => s.producer.PIdle?
    case SeeTail(k) => s.producer.PLoaded? && s.seenTail <= k < |s.tails|
    case WriteSlot => s.producer.PClear?
    case StoreHead => s.producer.PWrote?
    case BeginPop => s.consumer.CIdle?
    case SeeHead(k) => s.consumer.CLoaded? && s.seenHead <= k < |s.heads|
    case ReadSlot => s.consumer.CReady? && s.consumer.curr < |s.buffer|
    case StoreTail => s.consumer.CTaken?
  }

  function Do<T>(s: Ring<T>, a: Action<T>): Ring<T>
    requires Enabled(s, a)
  {
    match a
    case BeginPush(item) => s.(producer := PLoaded(item, Last(s.heads)))
    case SeeTail(k) =>
      var curr := s.producer.curr;
      var next := (curr + 1) % (s.cap + 1);
      s.(seenTail := k, producer := if next == s.tails[k] then PIdle else PClear(s.producer.item, curr, next))
    case WriteSlot =>
      var PClear(item, curr, next) := s.producer;
      s.(buffer := if curr < |s.buffer| then s.buffer[curr := item] else s.buffer, producer := PWrote(item, next))
    case StoreHead =>
      s.(heads := s.heads + [s.producer.next], published := s.published + [s.producer.item], producer := PIdle)
    case BeginPop => s.(consumer := CLoaded(Last(s.tails)))
    case SeeHead(k) =>
      var curr := s.consumer.curr;
      s.(seenHead := k, consumer := if curr == s.heads[k] then CIdle else CReady(curr))
    case ReadSlot => s.(consumer := CTaken(s.consumer.curr, s.buffer[s.consumer.curr]))
    case StoreTail =>
      s.(tails := s.tails + [(s.consumer.curr + 1) % (s.cap + 1)],
         consumed := s.consumed + [s.consumer.elem], consumer := CIdle)
  }

  // ---------- Modular and unbounded indices ----------

  lemma MultipleBound(n: int, d: int)
    requires n > 0
    ensures d >= 1 ==> n * d >= n
    ensures d <= -1 ==> n * d <= -n
  {
    if d >= 1 {
      assert n * (d - 1) >= 0;
    } else if d <= -1 {
      assert n * (-1 - d) >= 0;
    }
  }

  lemma Remainder(x: nat, n: nat, q: nat, r: nat)
    requires n > 0 && x == n * q + r && r < n
    ensures x % n == r
  {
    MultipleBound(n, x / n - q);
    assert n * (x / n - q) == r - x % n;
  }

  /** Within one turn of the ring, distinct elements have distinct slots. */
  lemma SameSlot(i: nat, j: nat, n: nat)
    requires n > 0 && i <= j < i + n
    ensures i % n == j % n <==> i == j
  {
    MultipleBound(n, j / n - i / n);
    assert n * (j / n - i / n) == (j - j % n) - (i - i % n);
  }

  /** The step the code makes from one index to the next. */
  lemma NextSlot(i: nat, n: nat)
    requires n > 0
    ensures (i % n + 1) % n == (i + 1) % n
  {
    var r := i % n;
    assert i == n * (i / n) + r;
    if r + 1 < n {
      Remainder(i + 1, n, i / n, r + 1);
      Remainder(r + 1, n, 0, r + 1);
    } else {
      assert n * (i / n + 1) == n * (i / n) + n;
      Remainder(i + 1, n, i / n + 1, 0);
      Remainder(n, n, 1, 0);
    }
  }

  /** The test in push: the next slot is the tail seen exactly when the ring was full then. */
  lemma FullTest(h: nat, k: nat, cap: nat)
    requires k <= h <= k + cap
    ensures (h % (cap + 1) + 1) % (cap + 1) == k % (cap + 1) <==> h - k == cap
  {
    var n := cap + 1;
    NextSlot(h, n);
    if h - k < cap {
      SameSlot(k, h + 1, n);
    } else {
      assert h + 1 == k + n;
      Remainder(k + n, n, k / n + 1, k % n);
    }
  }

  // ---------- The invariant ----------

  /** Every index ever stored is the number of the store, modulo the number of slots. */
  predicate IndexHistory(xs: seq<nat>, n: nat)
    requires n > 0
  {
    xs != [] && forall i :: 0 <= i < |xs| ==> xs[i] == i % n
  }

  predicate SlotsOk<T(==)>(s: Ring<T>)
    requires |s.buffer| == s.cap + 1
  {
    forall i :: |s.consumed| <= i < |s.published| ==> s.buffer[i % (s.cap + 1)] == s.published[i]
  }

  predicate ProducerOk<T(==)>(s: Ring<T>)
    requires |s.buffer| == s.cap + 1
  {
    var h, n := |s.published|, s.cap + 1;
    match s.producer
    case PIdle => true
    case PLoaded(_, curr) => curr == h % n
    case PClear(_, curr, next) => curr == h % n && next == (h + 1) % n && h < s.seenTail + s.cap
    case PWrote(item, next) => s.buffer[h % n] == item && next == (h + 1) % n && h < s.seenTail + s.cap
  }

  predicate ConsumerOk<T(==)>(s: Ring<T>)
    requires |s.consumed| <= s.seenHead <= |s.published|
  {
    var t, n := |s.consumed|, s.cap + 1;
    match s.consumer
    case CIdle => true
    case CLoaded(curr) => curr == t % n
    case CReady(curr) => curr == t % n && t < s.seenHead
    case CTaken(curr, elem) => curr == t % n && t < s.seenHead && elem == s.published[t]
  }

  predicate Inv<T(==)>(s: Ring<T>) {
    && |s.buffer| == s.cap + 1
    && IndexHistory(s.heads, s.cap + 1) && |s.heads| == |s.published| + 1
    && IndexHistory(s.tails, s.cap + 1) && |s.tails| == |s.consumed| + 1
    && s.seenTail <= |s.consumed| <= s.seenHead <= |s.published| <= s.seenTail + s.cap
    && s.consumed == s.published[..|s.consumed|]
    && SlotsOk(s)
    && ProducerOk(s)
    && ConsumerOk(s)
  }

  lemma InitInv<T>(s: Ring<T>)
    requires IsInit(s)
    ensures Inv(s)
  {
    Remainder(0, s.cap + 1, 0, 0);
  }

  lemma SeeTailFacts<T>(s: Ring<T>, k: nat)
    requires Inv(s) && Enabled(s, SeeTail(k))
    ensures var h, n := |s.published|, s.cap + 1;
            s.producer.curr == h % n && s.tails[k] == k % n && k <= h <= k + s.cap
  {
  }

  lemma SeeTailWith<T>(s: Ring<T>, k: nat, next: nat, full: bool)
    requires Enabled(s, SeeTail(k)) && next == (s.producer.curr + 1) % (s.cap + 1) && (full <==> next == s.tails[k])
    ensures var t := Do(s, SeeTail(k));
            && t.producer == (if full then PIdle else PClear(s.producer.item, s.producer.curr, next))
            && t.buffer == s.buffer && t.published == s.published
  {
  }

  lemma SeeTailStep<T>(s: Ring<T>, k: nat)
    requires Inv(s) && Enabled(s, SeeTail(k))
    ensures var t, h, n := Do(s, SeeTail(k)), |s.published|, s.cap + 1;
            && t.producer == (if h - k == s.cap then PIdle else PClear(s.producer.item, h % n, (h + 1) % n))
            && t.buffer == s.buffer && t.published == s.published
  {
    SeeTailFacts(s, k);
    TailTest(|s.published|, k, s.cap);
    SeeTailWith(s, k, (|s.published| + 1) % (s.cap + 1), |s.published| - k == s.cap);
  }

  lemma TailTest(h: nat, k: nat, cap: nat)
    requires k <= h <= k + cap
    ensures (h % (cap + 1) + 1) % (cap + 1) == (h + 1) % (cap + 1)
    ensures (h + 1) % (cap + 1) == k % (cap + 1) <==> h - k == cap
  {
    FullTest(h, k, cap);
    NextSlot(h, cap + 1);
  }

  lemma SeeTailInv<T>(s: Ring<T>, a: Action<T>)
    requires Inv(s) && Enabled(s, a) && a.SeeTail?
    ensures Inv(Do(s, a))
  {
    SeeTailFacts(s, a.k);
    SeeTailStep(s, a.k);
    assert Do(s, a) == s.(seenTail := a.k, producer := Do(s, a).producer);
  }

  lemma StoreHeadInv<T>(s: Ring<T>, a: Action<T>)
    requires Inv(s) && Enabled(s, a) && a.StoreHead?
    ensures Inv(Do(s, a))
  {
    var t, h := Do(s, a), |s.published|;
    assert forall i :: 0 <= i < |t.heads| ==> t.heads[i] == if i <= h then s.heads[i] else s.producer.next;
    assert forall i :: 0 <= i < |t.published| ==> t.published[i] == if i < h then s.published[i] else s.producer.item;
  }

  lemma WriteInv<T>(s: Ring<T>, a: Action<T>)
    requires Inv(s) && Enabled(s, a) && a.WriteSlot?
    ensures Inv(Do(s, a))
  {
    var t, h, n := Do(s, a), |s.published|, s.cap + 1;
    forall i | |t.consumed| <= i < h
      ensures t.buffer[i % n] == t.published[i]
    {
      SameSlot(i, h, n);
    }
  }

  lemma SeeHeadInv<T>(s: Ring<T>, a: Action<T>)
    requires Inv(s) && Enabled(s, a) && a.SeeHead?
    ensures Inv(Do(s, a))
  {
    SameSlot(|s.consumed|, a.k, s.cap + 1);
  }

  lemma StoreTailInv<T>(s: Ring<T>, a: Action<T>)
    requires Inv(s) && Enabled(s, a) && a.StoreTail?
    ensures Inv(Do(s, a))
  {
    var t, c := Do(s, a), |s.consumed|;
    NextSlot(c, s.cap + 1);
    assert s.published[..c + 1] == s.published[..c] + [s.published[c]];
    assert forall i :: 0 <= i < |t.tails| ==> i <= c ==> t.tails[i] == s.tails[i];
  }

  lemma BeginInv<T>(s: Ring<T>, a: Action<T>)
    requires Inv(s) && Enabled(s, a) && (a.BeginPush? || a.BeginPop?)
    ensures Inv(Do(s, a))
  {
  }

  lemma ReadSlotInv<T>(s: Ring<T>)
    requires Inv(s) && Enabled(s, ReadSlot)
    ensures Inv(Do(s, ReadSlot))
  {
  }

  lemma StepInv<T>(s: Ring<T>, a: Action<T>)
    requires Inv(s) && Enabled(s, a)
    ensures Inv(Do(s, a))
  {
    match a
    case SeeTail(_) => SeeTailInv(s, a);
    case WriteSlot => WriteInv(s, a);
    case StoreHead => StoreHeadInv(s, a);
    case SeeHead(_) => SeeHeadInv(s, a);
    case StoreTail => StoreTailInv(s, a);
    case ReadSlot => ReadSlotInv(s);
    case _ => BeginInv(s, a);
  }

  // ---------- Whole runs ----------

  predicate StepAt<T(==)>(states: seq<Ring<T>>, acts: seq<Action<T>>, i: nat)
    requires |states| == |acts| + 1 && i < |acts|
  {
    Enabled(states[i], acts[i]) && states[i + 1] == Do(states[i], acts[i])
  }

  predicate IsRun<T(==)>(states: seq<Ring<T>>, acts: seq<Action<T>>) {
    && |states| == |acts| + 1
    && IsInit(states[0])
    && (forall i :: 0 <= i < |acts| ==> StepAt(states, acts, i))
  }

  lemma {:induction false} InvAlways<T>(states: seq<Ring<T>>, acts: seq<Action<T>>, i: nat)
    requires IsRun(states, acts) && i < |states|
    ensures Inv(states[i])
  {
    if i == 0 {
      InitInv(states[0]);
    } else {
      InvAlways(states, acts, i - 1);
      assert StepAt(states, acts, i - 1);
      StepInv(states[i - 1], acts[i - 1]);
    }
  }

  /** The slots between tail and head, oldest first. */
  function LiveSlots<T>(s: Ring<T>): (live: seq<T>)
    requires |s.buffer| == s.cap + 1 && |s.consumed| <= |s.published|
    ensures |live| == |s.published| - |s.consumed|
  {
    seq(|s.published| - |s.consumed|, i requires i >= 0 => s.buffer[(|s.consumed| + i) % (s.cap + 1)])
  }

  /** Nothing is lost, duplicated or reordered, however the steps interleave and however stale
      the indices seen are; and the ring never holds more than its capacity. */
  lemma Fifo<T>(states: seq<Ring<T>>, acts: seq<Action<T>>, i: nat)
    requires IsRun(states, acts) && i < |states|
    ensures |states[i].buffer| == states[i].cap + 1 && |states[i].consumed| <= |states[i].published|
    ensures states[i].published == states[i].consumed + LiveSlots(states[i])
    ensures |LiveSlots(states[i])| <= states[i].cap
  {
    InvAlways(states, acts, i);
    var s := states[i];
    assert s.published == s.consumed + s.published[|s.consumed|..];
    assert s.published[|s.consumed|..] == LiveSlots(s);
  }

  /** Each side works on the slot of the element whose turn it is, and the two never touch one slot
      at the same time. */
  lemma Exclusive<T>(states: seq<Ring<T>>, acts: seq<Action<T>>, i: nat)
    requires IsRun(states, acts) && i < |states|
    ensures var s := states[i];
            && (s.producer.PClear? ==>
                  && s.producer.curr < |s.buffer| && s.producer.curr == |s.published| % (s.cap + 1)
                  && |s.published| < s.seenTail + s.cap)
            && (s.consumer.CReady? ==>
                  && s.consumer.curr < |s.buffer| && s.consumer.curr == |s.consumed| % (s.cap + 1)
                  && |s.consumed| < s.seenHead)
            && (s.producer.PClear? && s.consumer.CReady? ==> s.producer.curr != s.consumer.curr)
  {
    InvAlways(states, acts, i);
    var s := states[i];
    if s.producer.PClear? && s.consumer.CReady? {
      SameSlot(|s.consumed|, |s.published|, s.cap + 1);
    }
  }

  lemma StepCounts<T>(s: Ring<T>, a: Action<T>)
    requires Enabled(s, a)
    ensures var t := Do(s, a);
            && t.cap == s.cap
            && t.seenTail == (if a.SeeTail? then a.k else s.seenTail)
            && t.seenHead == (if a.SeeHead? then a.k else s.seenHead)
            && t.published == (if a.StoreHead? then s.published + [s.producer.item] else s.published)
            && t.consumed == (if a.StoreTail? then s.consumed + [s.consumer.elem] else s.consumed)
  {
  }

  /** What a side has seen, it has seen at some step. */
  lemma {:induction false} SeenAtStep<T>(states: seq<Ring<T>>, acts: seq<Action<T>>, i: nat)
    requires IsRun(states, acts) && i < |states|
    ensures states[i].seenTail > 0 ==> exists j :: 0 <= j < i && acts[j] == SeeTail(states[i].seenTail)
    ensures states[i].seenHead > 0 ==> exists j :: 0 <= j < i && acts[j] == SeeHead(states[i].seenHead)
    ensures states[i].cap == states[0].cap
  {
    if i > 0 {
      SeenAtStep(states, acts, i - 1);
      assert StepAt(states, acts, i - 1);
      StepCounts(states[i - 1], acts[i - 1]);
    }
  }

  /** Each element was published by one store to head_, made with that element in hand. */
  lemma {:induction false} PublishedAtStep<T>(states: seq<Ring<T>>, acts: seq<Action<T>>, i: nat, n: nat) returns (j: nat)
    requires IsRun(states, acts) && i < |states| && n < |states[i].published|
    ensures j < i && acts[j] == StoreHead && |states[j].published| == n
    ensures states[j].producer.PWrote? && states[j].producer.item == states[i].published[n]
  {
    assert StepAt(states, acts, i - 1);
    StepCounts(states[i - 1], acts[i - 1]);
    if n < |states[i - 1].published| {
      j := PublishedAtStep(states, acts, i - 1, n);
    } else {
      j := i - 1;
    }
  }

  /** Each element was released by one store to tail_. */
  lemma {:induction false} ReleasedAtStep<T>(states: seq<Ring<T>>, acts: seq<Action<T>>, i: nat, n: nat) returns (j: nat)
    requires IsRun(states, acts) && i < |states| && n < |states[i].consumed|
    ensures j < i && acts[j] == StoreTail && |states[j].consumed| == n && states[j].consumer.CTaken?
  {
    assert StepAt(states, acts, i - 1);
    StepCounts(states[i - 1], acts[i - 1]);
    if n < |states[i - 1].consumed| {
      j := ReleasedAtStep(states, acts, i - 1, n);
    } else {
      j := i - 1;
    }
  }

  lemma ReleasedBySeen<T>(states: seq<Ring<T>>, acts: seq<Action<T>>, k: nat, n: nat)
    requires IsRun(states, acts) && k < |acts| && acts[k] == SeeTail(n)
    ensures n <= |states[k].consumed|
  {
    assert StepAt(states, acts, k);
    InvAlways(states, acts, k);
  }

  lemma TakerSlot<T>(states: seq<Ring<T>>, acts: seq<Action<T>>, j: nat)
    requires IsRun(states, acts) && j < |states| && states[j].consumer.CTaken?
    ensures states[j].consumer.curr == |states[j].consumed| % (states[j].cap + 1)
  {
    InvAlways(states, acts, j);
    assert ConsumerOk(states[j]);
  }

  /** A turn later the slot is the same. */
  lemma SlotAgain(h: nat, n: nat, cap: nat)
    requires h == n + cap + 1
    ensures h % (cap + 1) == n % (cap + 1)
  {
    TailTest(h - 1, n, cap);
  }

  /** Reuse follows release: before a push writes to a slot that was used a turn earlier, the pop of
      that element stored tail_ (at step j) and the push side saw that store or a later one (at
      step k). */
  lemma ReuseFollowsRelease<T>(states: seq<Ring<T>>, acts: seq<Action<T>>, i: nat) returns (j: nat, k: nat)
    requires IsRun(states, acts) && i < |states| && states[i].producer.PClear?
    requires |states[i].published| > states[i].cap
    ensures j < k < i && acts[j] == StoreTail && acts[k].SeeTail?
    ensures |states[j].consumed| == |states[i].published| - (states[i].cap + 1) < acts[k].k
    ensures states[j].consumer.CTaken? && states[j].consumer.curr == states[i].producer.curr
  {
    var s := states[i];
    Exclusive(states, acts, i);
    SeenAtStep(states, acts, i);
    k :| 0 <= k < i && acts[k] == SeeTail(s.seenTail);
    ReleasedBySeen(states, acts, k, s.seenTail);
    var n := |s.published| - (s.cap + 1);
    j := ReleasedAtStep(states, acts, k, n);
    TakerSlot(states, acts, j);
    SeenAtStep(states, acts, j);
    SlotAgain(|s.published|, n, s.cap);
  }

  /** Reading follows publication: before a pop reads its slot, the push of that element stored
      head_ (at step j), having written to that slot, and the pop side saw that store or a later
      one (at step k). */
  lemma ReadFollowsPublication<T>(states: seq<Ring<T>>, acts: seq<Action<T>>, i: nat) returns (j: nat, k: nat)
    requires IsRun(states, acts) && i < |states| && states[i].consumer.CReady?
    ensures j < k < i && acts[j] == StoreHead && acts[k].SeeHead?
    ensures |states[j].published| == |states[i].consumed| < acts[k].k
    ensures var c := states[i].consumer.curr;
            && c < |states[i].buffer| && c < |states[j].buffer| && states[j].producer.PWrote?
            && states[j].buffer[c] == states[j].producer.item == states[i].buffer[c]
  {
    var s := states[i];
    Exclusive(states, acts, i);
    InvAlways(states, acts, i);
    SeenAtStep(states, acts, i);
    k :| 0 <= k < i && acts[k] == SeeHead(s.seenHead);
    assert StepAt(states, acts, k);
    InvAlways(states, acts, k);
    j := PublishedAtStep(states, acts, k, |s.consumed|);
    PublishedStays(states, acts, k, i);
    SeenAtStep(states, acts, j);
    InvAlways(states, acts, j);
    assert ProducerOk(states[j]);
  }

  lemma {:induction false} PublishedStays<T>(states: seq<Ring<T>>, acts: seq<Action<T>>, i: nat, j: nat)
    requires IsRun(states, acts) && i <= j < |states|
    ensures states[i].published <= states[j].published
  {
    if i < j {
      PublishedStays(states, acts, i, j - 1);
      assert StepAt(states, acts, j - 1);
      StepCounts(states[j - 1], acts[j - 1]);
    }
  }

  /** The modular tests are exact on the unbounded counts: push refuses exactly when the ring was
      full at the store it saw, pop exactly when it was empty at the store it saw. */
  lemma TestsExact<T>(states: seq<Ring<T>>, acts: seq<Action<T>>, i: nat)
    requires IsRun(states, acts) && i < |acts|
    ensures var s, t, a := states[i], states[i + 1], acts[i];
            && (a.SeeTail? ==> (t.producer.PIdle? <==> |s.published| - a.k == s.cap))
            && (a.SeeHead? ==> (t.consumer.CIdle? <==> a.k == |s.consumed|))
  {
    InvAlways(states, acts, i);
    assert StepAt(states, acts, i);
    var s, a := states[i], acts[i];
    if a.SeeTail? {
      FullTest(|s.published|, a.k, s.cap);
    } else if a.SeeHead? {
      SameSlot(|s.consumed|, a.k, s.cap + 1);
    }
  }

  lemma ProducerStep<T>(s: Ring<T>, a: Action<T>, slot: nat, next: nat)
    requires Enabled(s, a) && !a.SeeTail? && Last(s.heads) == slot < |s.buffer|
    requires s.producer.PClear? ==> s.producer.curr == slot && s.producer.next == next
    ensures var t := Do(s, a);
            match a
            case BeginPush(item) => t.producer == PLoaded(item, slot) && t.buffer == s.buffer && t.published == s.published
            case WriteSlot =>
              && t.producer == PWrote(s.producer.item, next)
              && t.buffer == s.buffer[slot := s.producer.item] && t.published == s.published
            case StoreHead =>
              t.producer == PIdle && t.buffer == s.buffer && t.published == s.published + [s.producer.item]
            case _ => t.producer == s.producer && t.buffer == s.buffer && t.published == s.published
  {
  }

  lemma ProducerSlot<T>(s: Ring<T>)
    requires Inv(s)
    ensures var h, n := |s.published|, s.cap + 1;
            && Last(s.heads) == h % n < |s.buffer| == n
            && (s.producer.PClear? ==> s.producer.curr == h % n && s.producer.next == (h + 1) % n)
  {
  }

  lemma ConsumerStep<T>(s: Ring<T>, a: Action<T>)
    requires Inv(s) && Enabled(s, a)
    ensures var t, c, n := Do(s, a), |s.consumed|, s.cap + 1;
            match a
            case BeginPop => t.consumer == CLoaded(c % n) && t.consumed == s.consumed
            case SeeHead(k) => t.consumer == (if k == c then CIdle else CReady(c % n)) && t.consumed == s.consumed
            case ReadSlot =>
              c < |s.published| && t.consumer == CTaken(c % n, s.published[c]) && t.consumed == s.consumed
            case StoreTail =>
              c < |s.published| && t.consumer == CIdle && t.consumed == s.consumed + [s.published[c]]
            case _ => t.consumer == s.consumer && t.consumed == s.consumed
  {
    if a.SeeHead? {
      SameSlot(|s.consumed|, a.k, s.cap + 1);
    }
  }

  /** A push goes on with the item it was called with: it gives up exactly if the ring was full at
      the store it saw, else it writes the slot whose turn it is and publishes the item. */
  lemma PushGoesOn<T>(states: seq<Ring<T>>, acts: seq<Action<T>>, i: nat)
    requires IsRun(states, acts) && i < |acts|
    ensures var s, t, h, n := states[i], states[i + 1], |states[i].published|, states[i].cap + 1;
            match acts[i]
            case BeginPush(item) => t.producer == PLoaded(item, h % n) && t.buffer == s.buffer && t.published == s.published
            case SeeTail(k) =>
              && s.producer.PLoaded?
              && t.producer == (if h - k == s.cap then PIdle else PClear(s.producer.item, h % n, (h + 1) % n))
              && t.buffer == s.buffer && t.published == s.published
            case WriteSlot =>
              && s.producer.PClear? && t.producer == PWrote(s.producer.item, (h + 1) % n) && |s.buffer| == n
              && t.buffer == s.buffer[h % n := s.producer.item] && t.published == s.published
            case StoreHead =>
              && s.producer.PWrote? && t.producer == PIdle
              && t.buffer == s.buffer && t.published == s.published + [s.producer.item]
            case _ => t.producer == s.producer && t.buffer == s.buffer && t.published == s.published
  {
    InvAlways(states, acts, i);
    assert StepAt(states, acts, i);
    var h, n := |states[i].published|, states[i].cap + 1;
    if acts[i].SeeTail? {
      SeeTailStep(states[i], acts[i].k);
    } else {
      ProducerSlot(states[i]);
      ProducerStep(states[i], acts[i], h % n, (h + 1) % n);
    }
  }

  /** A pop gives up exactly if the ring was empty at the store it saw, else it takes the oldest
      element that was published and not consumed. */
  lemma PopGoesOn<T>(states: seq<Ring<T>>, acts: seq<Action<T>>, i: nat)
    requires IsRun(states, acts) && i < |acts|
    ensures var s, t, c, n := states[i], states[i + 1], |states[i].consumed|, states[i].cap + 1;
            match acts[i]
            case BeginPop => t.consumer == CLoaded(c % n) && t.consumed == s.consumed
            case SeeHead(k) => t.consumer == (if k == c then CIdle else CReady(c % n)) && t.consumed == s.consumed
            case ReadSlot =>
              c < |s.published| && t.consumer == CTaken(c % n, s.published[c]) && t.consumed == s.consumed
            case StoreTail =>
              c < |s.published| && t.consumer == CIdle && t.consumed == s.consumed + [s.published[c]]
            case _ => t.consumer == s.consumer && t.consumed == s.consumed
  {
    InvAlways(states, acts, i);
    assert StepAt(states, acts, i);
    ConsumerStep(states[i], acts[i]);
  }

  /** What each side has seen of the other lags behind it by no more than the capacity. */
  lemma SeenOrder<T>(states: seq<Ring<T>>, acts: seq<Action<T>>, i: nat)
    requires IsRun(states, acts) && i < |states|
    ensures var s := states[i];
            s.seenTail <= |s.consumed| <= s.seenHead <= |s.published| <= s.seenTail + s.cap
  {
    InvAlways(states, acts, i);
  }
}
