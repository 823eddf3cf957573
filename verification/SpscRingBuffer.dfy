/** The ring buffer as code: push and pop over an array, each tied to the steps of RingProtocol. */
module SpscRingBuffer {
  import opened Common
  import opened RingProtocol

  /** A push whose steps no other step separates, with store number k of tail_ seen. */
  function PushAlone<T>(s: Ring<T>, item: T, k: nat): Ring<T>
    requires s.producer.PIdle? && s.seenTail <= k < |s.tails|
  {
    var t := Do(Do(s, BeginPush(item)), SeeTail(k));
    if t.producer.PIdle? then t else Do(Do(t, WriteSlot), StoreHead)
  }

  /** A pop whose steps no other step separates, with store number k of head_ seen. */
  function PopAlone<T>(s: Ring<T>, k: nat): Ring<T>
    requires s.consumer.CIdle? && s.seenHead <= k < |s.heads|
  {
    var t := Do(Do(s, BeginPop), SeeHead(k));
    if t.consumer.CReady? && t.consumer.curr < |t.buffer| then Do(Do(t, ReadSlot), StoreTail) else t
  }

  lemma TwoSteps<T>(s: Ring<T>, a: Action<T>, b: Action<T>)
    requires Inv(s) && Enabled(s, a) && Enabled(Do(s, a), b)
    ensures Inv(Do(Do(s, a), b))
  {
    StepInv(s, a);
    StepInv(Do(s, a), b);
  }

  lemma PushAloneInv<T>(s: Ring<T>, item: T, k: nat)
    requires Inv(s) && s.producer.PIdle? && s.seenTail <= k < |s.tails|
    ensures Inv(PushAlone(s, item, k))
  {
    TwoSteps(s, BeginPush(item), SeeTail(k));
    var t := Do(Do(s, BeginPush(item)), SeeTail(k));
    if t.producer.PClear? {
      TwoSteps(t, WriteSlot, StoreHead);
    }
  }

  lemma PopAloneInv<T>(s: Ring<T>, k: nat)
    requires Inv(s) && s.consumer.CIdle? && s.seenHead <= k < |s.heads|
    ensures Inv(PopAlone(s, k))
  {
    TwoSteps<T>(s, BeginPop, SeeHead(k));
    var t := Do(Do(s, BeginPop), SeeHead(k));
    if t.consumer.CReady? && t.consumer.curr < |t.buffer| {
      TwoSteps(t, ReadSlot, StoreTail);
    }
  }

  /** The invariant, folded until SoundInv asks for it. */
  ghost predicate Sound<T>(s: Ring<T>) {
    forall x :: Looked(x) ==> Inv(s)
  }

  lemma SoundInv<T>(s: Ring<T>)
    requires Sound(s)
    ensures Inv(s)
  {
    assert Looked(0);
  }

  /** The index after index i. */
  function Next(i: nat, cap: nat): nat {
    (i + 1) % (cap + 1)
  }

  /** The slot and the test of push, in unbounded counts. */
  predicate PushFacts<T(==)>(s: Ring<T>, k: nat)
    requires k < |s.tails|
  {
    && Last(s.heads) < |s.buffer| && |s.consumed| <= |s.published| <= k + s.cap
    && (Next(Last(s.heads), s.cap) == s.tails[k] <==> |s.published| - k == s.cap)
  }

  lemma SoundHeadFacts<T>(s: Ring<T>, k: nat)
    requires Sound(s) && s.seenTail <= k < |s.tails|
    ensures var h, n := |s.published|, s.cap + 1;
            && Last(s.heads) == h % n < |s.buffer| && s.tails[k] == k % n
            && k <= |s.consumed| <= h <= k + s.cap
  {
    SoundInv(s);
  }

  lemma SoundPushFacts<T>(s: Ring<T>, k: nat)
    requires Sound(s) && s.seenTail <= k < |s.tails|
    ensures PushFacts(s, k)
  {
    SoundHeadFacts(s, k);
    NextIsTail(|s.published|, k, s.cap, Last(s.heads), s.tails[k]);
  }

  lemma NextIsTail(h: nat, k: nat, cap: nat, head: nat, tail: nat)
    requires k <= h <= k + cap && head == h % (cap + 1) && tail == k % (cap + 1)
    ensures Next(head, cap) == tail <==> h - k == cap
  {
    FullTest(h, k, cap);
  }

  lemma SoundPushAlone<T>(s: Ring<T>, item: T, k: nat)
    requires Sound(s) && s.producer.PIdle? && s.seenTail <= k < |s.tails|
    ensures Sound(PushAlone(s, item, k))
  {
    SoundInv(s);
    PushAloneInv(s, item, k);
  }

  lemma PushSteps<T>(s: Ring<T>, item: T, k: nat)
    requires s.producer.PIdle? && s.seenTail <= k < |s.tails| && PushFacts(s, k)
    ensures PushAlone(s, item, k) ==
            if |s.published| - k == s.cap then s.(seenTail := k)
            else s.(seenTail := k, buffer := s.buffer[Last(s.heads) := item],
                    heads := s.heads + [Next(Last(s.heads), s.cap)], published := s.published + [item])
  {
  }

  /** What the four steps of a push amount to, in unbounded counts. */
  lemma PushEffect<T>(s: Ring<T>, item: T, k: nat)
    requires Sound(s) && s.producer.PIdle? && s.seenTail <= k < |s.tails|
    ensures Sound(PushAlone(s, item, k)) && PushFacts(s, k)
    ensures PushAlone(s, item, k) ==
            if |s.published| - k == s.cap then s.(seenTail := k)
            else s.(seenTail := k, buffer := s.buffer[Last(s.heads) := item],
                    heads := s.heads + [Next(Last(s.heads), s.cap)], published := s.published + [item])
  {
    SoundPushFacts(s, k);
    SoundPushAlone(s, item, k);
    PushSteps(s, item, k);
  }

  /** The slot and the test of pop, in unbounded counts. */
  predicate PopFacts<T(==)>(s: Ring<T>, k: nat)
    requires k < |s.heads|
  {
    var c := |s.consumed|;
    && Last(s.tails) < |s.buffer| && c <= k <= |s.published|
    && (Last(s.tails) == s.heads[k] <==> c == k)
    && (c < |s.published| ==> s.buffer[Last(s.tails)] == s.published[c])
  }

  lemma SoundPopFacts<T>(s: Ring<T>, k: nat)
    requires Sound(s) && s.seenHead <= k < |s.heads|
    ensures PopFacts(s, k)
  {
    SoundInv(s);
    SameSlot(|s.consumed|, k, s.cap + 1);
  }

  lemma SoundPopAlone<T>(s: Ring<T>, k: nat)
    requires Sound(s) && s.consumer.CIdle? && s.seenHead <= k < |s.heads|
    ensures Sound(PopAlone(s, k))
  {
    SoundInv(s);
    PopAloneInv(s, k);
  }

  lemma PopSteps<T>(s: Ring<T>, k: nat)
    requires s.consumer.CIdle? && s.seenHead <= k < |s.heads| && PopFacts(s, k)
    ensures var c := |s.consumed|;
            PopAlone(s, k) ==
            if c == k then s.(seenHead := k)
            else s.(seenHead := k, tails := s.tails + [Next(Last(s.tails), s.cap)],
                    consumed := s.consumed + [s.published[c]])
  {
  }

  /** What the four steps of a pop amount to, in unbounded counts. */
  lemma PopEffect<T>(s: Ring<T>, k: nat)
    requires Sound(s) && s.consumer.CIdle? && s.seenHead <= k < |s.heads|
    ensures Sound(PopAlone(s, k)) && PopFacts(s, k)
    ensures var c := |s.consumed|;
            PopAlone(s, k) ==
            if c == k then s.(seenHead := k)
            else s.(seenHead := k, tails := s.tails + [Next(Last(s.tails), s.cap)],
                    consumed := s.consumed + [s.published[c]])
  {
    SoundPopFacts(s, k);
    SoundPopAlone(s, k);
    PopSteps(s, k);
  }

  lemma SoundCounts<T>(s: Ring<T>)
    requires Sound(s)
    ensures |s.consumed| <= |s.published| <= |s.consumed| + s.cap
    ensures Last(s.heads) == |s.published| % (s.cap + 1) && Last(s.tails) == |s.consumed| % (s.cap + 1)
    ensures |s.heads| == |s.published| + 1 && |s.tails| == |s.consumed| + 1
  {
    SoundInv(s);
  }

  class RingBuffer<T(0,==)> {
    const cap: nat
    const buffer: array<T>
    var head: nat
    var tail: nat
    // what RingProtocol keeps beside the three fields
    ghost var heads: seq<nat>
    ghost var tails: seq<nat>
    ghost var seenTail: nat
    ghost var seenHead: nat
    ghost var published: seq<T>
    ghost var consumed: seq<T>

    ghost function View(): Ring<T>
      reads this, buffer
    {
      Ring(cap, buffer[..], heads, tails, PIdle, CIdle, seenTail, seenHead, published, consumed)
    }

    ghost predicate Valid()
      reads this, buffer
    {
      Sound(View()) && head == Last(heads) && tail == Last(tails) && |consumed| <= |published|
    }

    /** The elements in the ring, oldest first. */
    ghost function Contents(): seq<T>
      reads this, buffer
      requires Valid()
    {
      published[|consumed|..]
    }

    constructor (cap: nat)
      ensures Valid() && fresh(buffer) && this.cap == cap && Contents() == []
      ensures IsInit(View())
    {
      this.cap := cap;
      buffer := new T[cap + 1];
      head, tail := 0, 0;
      heads, tails, seenTail, seenHead, published, consumed := [0], [0], 0, 0, [], [];
      new;
      InitInv(View());
    }

    /** push, when its load of tail_ returns store number k: any that is not older than the one
        seen before.  It refuses exactly when the ring was full at that store. */
    method Push(item: T, ghost k: nat, loaded: nat) returns (ok: bool)
      requires Valid() && seenTail <= k < |tails| && loaded == tails[k]
      modifies this`head, this`heads, this`seenTail, this`published, buffer
      ensures Valid() && View() == PushAlone(old(View()), item, k)
      ensures ok <==> |old(published)| - k < cap
      ensures Contents() == if ok then old(Contents()) + [item] else old(Contents())
    {
      PushEffect(View(), item, k);
      var currHead := head;
      var nextHead := Next(currHead, cap);
      seenTail := k;
      if nextHead == loaded {
        return false;
      }
      buffer[currHead] := item;
      head, heads, published := nextHead, heads + [nextHead], published + [item];
      return true;
    }

    /** pop, when its load of head_ returns store number k.  It refuses exactly when the ring was
        empty at that store. */
    method Pop(ghost k: nat, loaded: nat, elem: T) returns (ok: bool, elem': T)
      requires Valid() && seenHead <= k < |heads| && loaded == heads[k]
      modifies this`tail, this`tails, this`seenHead, this`consumed
      ensures Valid() && View() == PopAlone(old(View()), k)
      ensures ok <==> |old(consumed)| < k
      ensures !ok ==> elem' == elem && Contents() == old(Contents())
      ensures ok ==> [elem'] + Contents() == old(Contents())
    {
      PopEffect(View(), k);
      var currTail := tail;
      seenHead := k;
      if currTail == loaded {
        return false, elem;
      }
      elem' := buffer[currTail];
      tail := Next(currTail, cap);
      tails, consumed := tails + [tail], consumed + [elem'];
      return true, elem';
    }

    method Size() returns (n: nat)
      requires Valid()
      ensures n == |Contents()|
    {
      SoundCounts(View());
      SizeOf(|consumed|, |published|, cap + 1);
      if head >= tail {
        n := head - tail;
      } else {
        n := (cap + 1) - (tail - head);
      }
    }

    method IsFull() returns (full: bool)
      requires Valid()
      ensures full <==> |Contents()| == cap
    {
      SoundCounts(View());
      FullTest(|published|, |consumed|, cap);
      full := (head + 1) % (cap + 1) == tail;
    }

    method IsEmpty() returns (empty: bool)
      requires Valid()
      ensures empty <==> Contents() == []
    {
      SoundCounts(View());
      SameSlot(|consumed|, |published|, cap + 1);
      empty := head == tail;
    }
  }

  /** size: the distance between the indices around the ring is the number of elements. */
  lemma SizeOf(t: nat, h: nat, n: nat)
    requires n > 0 && t <= h < t + n
    ensures h - t == if h % n >= t % n then h % n - t % n else n - (t % n - h % n)
  {
    MultipleBound(n, h / n - t / n);
    MultipleBound(n, h / n - t / n - 1);
    assert n * (h / n - t / n) == (h - h % n) - (t - t % n);
    assert n * (h / n - t / n - 1) == n * (h / n - t / n) - n;
  }
}
