/**
  What the LRU cache does to its list, most recent entry first, and what follows for whole
  traces of calls.
 */
module LruSpec {

  import opened Common

  datatype Entry<K, V> = Entry(key: K, value: V)

  datatype Op<K, V> = GetOp(key: K) | PutOp(key: K, value: V)

  function KeysOf<K, V>(l: seq<Entry<K, V>>): (ks: seq<K>)
    ensures |ks| == |l| && forall i :: 0 <= i < |l| ==> ks[i] == l[i].key
  {
    seq(|l|, i requires 0 <= i < |l| => l[i].key)
  }

  predicate Has<K(==), V>(l: seq<Entry<K, V>>, k: K) {
    k in KeysOf(l)
  }

  /** The list without its entry for k. */
  function Without<K(==), V>(l: seq<Entry<K, V>>, k: K): seq<Entry<K, V>> {
    if l == [] then []
    else if l[0].key == k then Without(l[1..], k)
    else [l[0]] + Without(l[1..], k)
  }

  function Lookup<K(==), V>(l: seq<Entry<K, V>>, k: K): Option<V> {
    if l == [] then None
    else if l[0].key == k then Some(l[0].value)
    else Lookup(l[1..], k)
  }

  function Get<K(==), V>(l: seq<Entry<K, V>>, k: K): seq<Entry<K, V>> {
    match Lookup(l, k)
    case None => l
    case Some(v) => [Entry(k, v)] + Without(l, k)
  }

  function Put<K(==), V>(l: seq<Entry<K, V>>, k: K, v: V, cap: nat): seq<Entry<K, V>>
    requires cap > 0
  {
    [Entry(k, v)] + if Has(l, k) then Without(l, k) else if |l| >= cap then l[..|l| - 1] else l
  }

  function Step<K(==), V>(l: seq<Entry<K, V>>, op: Op<K, V>, cap: nat): seq<Entry<K, V>>
    requires cap > 0
  {
    match op
    case GetOp(k) => Get(l, k)
    case PutOp(k, v) => Put(l, k, v, cap)
  }

  /** The list after a trace of calls on an empty cache. */
  function Run<K(==), V>(ops: seq<Op<K, V>>, cap: nat): seq<Entry<K, V>>
    requires cap > 0
  {
    if ops == [] then [] else Step(Run(ops[..|ops| - 1], cap), ops[|ops| - 1], cap)
  }

  /** What call number i of the trace returns, if it is a get. */
  function Answer<K(==), V>(ops: seq<Op<K, V>>, cap: nat, i: nat): Option<V>
    requires cap > 0 && i < |ops|
  {
    if ops[i].GetOp? then Lookup(Run(ops[..i], cap), ops[i].key) else None
  }

  function Hits<K(==), V(==)>(ops: seq<Op<K, V>>, cap: nat): nat
    requires cap > 0
  {
    if ops == [] then 0
    else
      var front := ops[..|ops| - 1];
      Hits(front, cap) + if Answer(ops, cap, |ops| - 1).Some? then 1 else 0
  }

  predicate Distinct<T(==)>(xs: seq<T>) {
    forall i, j :: 0 <= i < j < |xs| ==> xs[i] != xs[j]
  }

  /** The list of a cache: distinct keys, no more than the capacity. */
  predicate Ok<K(==), V>(l: seq<Entry<K, V>>, cap: nat) {
    |l| <= cap && Distinct(KeysOf(l))
  }

  // ---------- Removal ----------

  lemma {:induction false} WithoutAbsent<K, V>(l: seq<Entry<K, V>>, k: K)
    requires forall i :: 0 <= i < |l| ==> l[i].key != k
    ensures Without(l, k) == l && Lookup(l, k) == None
  {
    if l != [] {
      WithoutAbsent(l[1..], k);
    }
  }

  lemma TailDistinct<K, V>(l: seq<Entry<K, V>>)
    requires l != [] && Distinct(KeysOf(l))
    ensures Distinct(KeysOf(l[1..])) && forall j :: 0 < j < |l| ==> l[j].key != l[0].key
  {
    var ks, rest := KeysOf(l), KeysOf(l[1..]);
    forall a, b | 0 <= a < b < |rest| ensures rest[a] != rest[b] {
      assert ks[a + 1] != ks[b + 1];
    }
    forall j | 0 < j < |l| ensures l[j].key != l[0].key {
      assert ks[0] != ks[j];
    }
  }

  lemma {:induction false} WithoutAt<K, V>(l: seq<Entry<K, V>>, i: nat)
    requires i < |l| && Distinct(KeysOf(l))
    ensures Without(l, l[i].key) == l[..i] + l[i + 1..]
    ensures Lookup(l, l[i].key) == Some(l[i].value)
  {
    TailDistinct(l);
    if i == 0 {
      WithoutAbsent(l[1..], l[0].key);
    } else {
      WithoutAt(l[1..], i - 1);
      assert l[1..][..i - 1] == l[1..i] && l[1..][i..] == l[i + 1..];
      assert l[..i] == [l[0]] + l[1..i];
    }
  }

  /** Where key k is, if anywhere. */
  lemma Position<K, V>(l: seq<Entry<K, V>>, k: K) returns (i: nat)
    requires Distinct(KeysOf(l))
    ensures Has(l, k) <==> i < |l|
    ensures i < |l| ==> l[i].key == k && Lookup(l, k) == Some(l[i].value) && Without(l, k) == l[..i] + l[i + 1..]
    ensures i >= |l| ==> Lookup(l, k) == None && Without(l, k) == l && forall j :: 0 <= j < |l| ==> l[j].key != k
  {
    if j :| 0 <= j < |l| && KeysOf(l)[j] == k {
      WithoutAt(l, j);
      i := j;
    } else {
      forall j | 0 <= j < |l| ensures l[j].key != k {
        assert KeysOf(l)[j] != k;
      }
      WithoutAbsent(l, k);
      i := |l|;
    }
  }

  /** xs with x in front, and without its element at place p if there is one. */
  function Front<T>(xs: seq<T>, x: T, p: nat): seq<T>
    requires p <= |xs|
  {
    [x] + xs[..p] + if p < |xs| then xs[p + 1..] else []
  }

  function Take<T>(xs: seq<T>, n: nat): seq<T> {
    if |xs| <= n then xs else xs[..n]
  }

  lemma FrontAt<T>(xs: seq<T>, x: T, p: nat, i: nat)
    requires p <= |xs|
    ensures |Front(xs, x, p)| == if p < |xs| then |xs| else |xs| + 1
    ensures i < |Front(xs, x, p)| ==>
              Front(xs, x, p)[i] == if i == 0 then x else if i <= p then xs[i - 1] else xs[i]
  {
  }

  lemma FrontDistinct<T>(xs: seq<T>, x: T, p: nat)
    requires Distinct(xs) && p <= |xs| && (if p < |xs| then xs[p] == x else x !in xs)
    ensures Distinct(Front(xs, x, p))
  {
    var t := Front(xs, x, p);
    forall i, j | 0 <= i < j < |t| ensures t[i] != t[j] {
      FrontAt(xs, x, p, i);
      FrontAt(xs, x, p, j);
    }
  }

  lemma FrontKeys<K, V>(l: seq<Entry<K, V>>, e: Entry<K, V>, p: nat)
    requires p <= |l|
    ensures KeysOf(Front(l, e, p)) == Front(KeysOf(l), e.key, p)
  {
    var ks := KeysOf(l);
    FrontAt(l, e, p, 0);
    FrontAt(ks, e.key, p, 0);
    forall i | 0 <= i < |Front(l, e, p)| ensures KeysOf(Front(l, e, p))[i] == Front(ks, e.key, p)[i] {
      FrontAt(l, e, p, i);
      FrontAt(ks, e.key, p, i);
    }
  }

  lemma TakeKeys<K, V>(l: seq<Entry<K, V>>, n: nat)
    ensures KeysOf(Take(l, n)) == Take(KeysOf(l), n)
  {
  }

  /** A hit moves the entry to the front; a put that misses drops the last entry of a full list. */
  lemma StepShape<K, V>(l: seq<Entry<K, V>>, op: Op<K, V>, cap: nat) returns (i: nat)
    requires cap > 0 && Ok(l, cap)
    ensures i <= |l| && (Has(l, op.key) <==> i < |l|) && (i < |l| ==> l[i].key == op.key)
    ensures i == |l| ==> forall j :: 0 <= j < |l| ==> l[j].key != op.key
    ensures Step(l, op, cap) ==
            if i == |l| && op.GetOp? then l
            else Take(Front(l, Entry(op.key, if op.PutOp? then op.value else l[i].value), i), cap)
  {
    i := Position(l, op.key);
    if i > |l| {
      i := |l|;
    }
    if i < |l| || op.PutOp? {
      FrontWithout(l, Entry(op.key, if op.PutOp? then op.value else l[i].value), cap, i);
    }
  }

  lemma FrontWithout<K, V>(l: seq<Entry<K, V>>, e: Entry<K, V>, cap: nat, i: nat)
    requires cap > 0 && |l| <= cap && i <= |l|
    ensures i < |l| ==> Take(Front(l, e, i), cap) == [e] + (l[..i] + l[i + 1..])
    ensures i == |l| ==> Take(Front(l, e, i), cap) == [e] + if |l| == cap then l[..cap - 1] else l
  {
  }

  lemma StepOk<K, V>(l: seq<Entry<K, V>>, op: Op<K, V>, cap: nat)
    requires cap > 0 && Ok(l, cap)
    ensures Ok(Step(l, op, cap), cap) && |Step(l, op, cap)| >= |l|
  {
    var i := StepShape(l, op, cap);
    if i < |l| || op.PutOp? {
      FrontOk(l, Entry(op.key, if op.PutOp? then op.value else l[i].value), cap, i);
    }
  }

  lemma FrontOk<K, V>(l: seq<Entry<K, V>>, e: Entry<K, V>, cap: nat, i: nat)
    requires cap > 0 && Ok(l, cap) && i <= |l| && (if i < |l| then l[i].key == e.key else !Has(l, e.key))
    ensures Ok(Take(Front(l, e, i), cap), cap) && |Take(Front(l, e, i), cap)| >= |l|
  {
    FrontDistinct(KeysOf(l), e.key, i);
    FrontKeys(l, e, i);
    TakeKeys(Front(l, e, i), cap);
  }

  lemma {:induction false} RunOk<K, V>(ops: seq<Op<K, V>>, cap: nat)
    requires cap > 0
    ensures Ok(Run(ops, cap), cap)
  {
    if ops != [] {
      RunOk(ops[..|ops| - 1], cap);
      StepOk(Run(ops[..|ops| - 1], cap), ops[|ops| - 1], cap);
    }
  }

  // ---------- Inclusion ----------

  /** a is a subsequence of b. */
  predicate Sub<T(==)>(a: seq<T>, b: seq<T>) {
    a == [] || (b != [] && ((a[0] == b[0] && Sub(a[1..], b[1..])) || Sub(a, b[1..])))
  }

  lemma SubCons<T>(a: seq<T>, b: seq<T>, x: T)
    requires Sub(a, b)
    ensures Sub(a, [x] + b) && Sub([x] + a, [x] + b)
  {
    assert ([x] + b)[1..] == b && ([x] + a)[1..] == a;
  }

  lemma {:induction false} SubSelf<T>(a: seq<T>)
    ensures Sub(a, a)
  {
    if a != [] {
      SubSelf(a[1..]);
    }
  }

  lemma {:induction false} SubMember<T>(a: seq<T>, b: seq<T>, x: T)
    requires Sub(a, b) && x in a
    ensures x in b
    decreases |b|
  {
    if a[0] == b[0] && Sub(a[1..], b[1..]) {
      if x != a[0] {
        SubMember(a[1..], b[1..], x);
      }
    } else {
      SubMember(a, b[1..], x);
    }
  }

  lemma {:induction false} SubWithout<K, V>(a: seq<Entry<K, V>>, b: seq<Entry<K, V>>, k: K)
    requires Sub(a, b)
    ensures Sub(Without(a, k), Without(b, k))
    decreases |b|
  {
    if a != [] {
      if a[0] == b[0] && Sub(a[1..], b[1..]) {
        SubWithout(a[1..], b[1..], k);
        SubCons(Without(a[1..], k), Without(b[1..], k), b[0]);
      } else {
        SubWithout(a, b[1..], k);
        SubCons(Without(a, k), Without(b[1..], k), b[0]);
      }
    }
  }

  lemma {:induction false} SubDropLast<T>(a: seq<T>, b: seq<T>)
    requires Sub(a, b) && a != []
    ensures b != [] && Sub(a[..|a| - 1], b[..|b| - 1])
    decreases |b|
  {
    var a', b' := a[..|a| - 1], b[..|b| - 1];
    if a[0] == b[0] && Sub(a[1..], b[1..]) {
      if |a| > 1 {
        SubDropLast(a[1..], b[1..]);
        assert a'[1..] == a[1..][..|a| - 2] && b'[1..] == b[1..][..|b| - 2];
      }
    } else {
      SubDropLast(a, b[1..]);
      assert b'[1..] == b[1..][..|b| - 2];
    }
  }

  lemma {:induction false} SubPrefix<T>(a: seq<T>, b: seq<T>)
    requires Sub(a, b) && a != []
    ensures Sub(a[..|a| - 1], b)
    decreases |b|
  {
    if a[0] == b[0] && Sub(a[1..], b[1..]) {
      if |a| > 1 {
        SubPrefix(a[1..], b[1..]);
        assert a[..|a| - 1][1..] == a[1..][..|a| - 2];
      }
    } else {
      SubPrefix(a, b[1..]);
    }
  }

  /** The relation between the lists of a small and a large cache on one trace. */
  predicate Included<K(==), V(==)>(small: seq<Entry<K, V>>, large: seq<Entry<K, V>>, cap: nat) {
    Sub(small, large) && (|small| == cap || small == large)
  }

  lemma HitIncluded<K, V>(small: seq<Entry<K, V>>, large: seq<Entry<K, V>>, k: K)
    requires Sub(small, large) && Distinct(KeysOf(small)) && Distinct(KeysOf(large))
    ensures Lookup(small, k).Some? ==> Lookup(large, k) == Lookup(small, k)
    ensures Has(small, k) <==> Lookup(small, k).Some?
    ensures Has(large, k) <==> Lookup(large, k).Some?
  {
    var i := Position(small, k);
    var j := Position(large, k);
    if i < |small| {
      SubMember(small, large, small[i]);
      var m :| 0 <= m < |large| && large[m] == small[i];
      assert j < |large| && KeysOf(large)[m] == k == KeysOf(large)[j];
      assert m == j;
    }
  }

  lemma GetIncluded<K, V>(small: seq<Entry<K, V>>, large: seq<Entry<K, V>>, k: K, c: nat, c': nat)
    requires Included(small, large, c) && Ok(small, c) && Ok(large, c') && 0 < c <= c'
    ensures Sub(Get(small, k), Get(large, k))
  {
    HitIncluded(small, large, k);
    SubWithout(small, large, k);
    if Lookup(small, k).Some? {
      SubCons(Without(small, k), Without(large, k), Entry(k, Lookup(small, k).value));
    } else if Lookup(large, k).Some? {
      var i := Position(small, k);
      SubCons(small, Without(large, k), Entry(k, Lookup(large, k).value));
    }
  }

  lemma PutIncluded<K, V>(small: seq<Entry<K, V>>, large: seq<Entry<K, V>>, k: K, v: V, c: nat, c': nat)
    requires Included(small, large, c) && Ok(small, c) && Ok(large, c') && 0 < c <= c'
    ensures Sub(Put(small, k, v, c), Put(large, k, v, c'))
  {
    HitIncluded(small, large, k);
    SubWithout(small, large, k);
    var small', large' := Put(small, k, v, c), Put(large, k, v, c');
    var i := Position(small, k);
    if Has(small, k) {
    } else if Has(large, k) {
      SubPrefix(small, Without(large, k));
    } else if |small| == c {
      SubDropLast(small, large);
      SubPrefix(small, large);
    } else {
      SubSelf(large);
    }
    assert Sub(small'[1..], large'[1..]);
    SubCons(small'[1..], large'[1..], Entry(k, v));
    assert [Entry(k, v)] + small'[1..] == small' && [Entry(k, v)] + large'[1..] == large';
  }

  lemma StepIncluded<K, V>(small: seq<Entry<K, V>>, large: seq<Entry<K, V>>, op: Op<K, V>, c: nat, c': nat)
    requires Included(small, large, c) && Ok(small, c) && Ok(large, c') && 0 < c <= c'
    ensures Included(Step(small, op, c), Step(large, op, c'), c)
  {
    StepOk(small, op, c);
    if op.GetOp? {
      GetIncluded(small, large, op.key, c, c');
    } else {
      PutIncluded(small, large, op.key, op.value, c, c');
    }
  }

  /** On every trace the list of the smaller cache is a subsequence, values included, of that of
      the larger one; it is the same list while the smaller cache is not full. */
  lemma {:induction false} Inclusion<K, V>(ops: seq<Op<K, V>>, c: nat, c': nat)
    requires 0 < c <= c'
    ensures Included(Run(ops, c), Run(ops, c'), c)
  {
    if ops != [] {
      var front := ops[..|ops| - 1];
      Inclusion(front, c, c');
      RunOk(front, c);
      RunOk(front, c');
      StepIncluded(Run(front, c), Run(front, c'), ops[|ops| - 1], c, c');
    }
  }

  /** Every hit of the smaller cache is a hit of the larger one, with the same value. */
  lemma HitsCarryOver<K, V>(ops: seq<Op<K, V>>, c: nat, c': nat, i: nat)
    requires 0 < c <= c' && i < |ops| && Answer(ops, c, i).Some?
    ensures Answer(ops, c', i) == Answer(ops, c, i)
  {
    Inclusion(ops[..i], c, c');
    RunOk(ops[..i], c);
    RunOk(ops[..i], c');
    HitIncluded(Run(ops[..i], c), Run(ops[..i], c'), ops[i].key);
  }

  lemma {:induction false} HitsMonotone<K, V>(ops: seq<Op<K, V>>, c: nat, c': nat)
    requires 0 < c <= c'
    ensures Hits(ops, c) <= Hits(ops, c')
  {
    if ops != [] {
      var n := |ops| - 1;
      HitsMonotone(ops[..n], c, c');
      if Answer(ops, c, n).Some? {
        HitsCarryOver(ops, c, c', n);
      }
    }
  }

  // ---------- Stack distance ----------

  /** The keys touched by a trace, in order: those of its puts and of its gets that hit. */
  function Touches<K(==), V>(ops: seq<Op<K, V>>, cap: nat): seq<K>
    requires cap > 0
  {
    if ops == [] then []
    else
      var front, op := ops[..|ops| - 1], ops[|ops| - 1];
      Touches(front, cap) + if op.PutOp? || Has(Run(front, cap), op.key) then [op.key] else []
  }

  /** The distinct keys other than k touched since k was last touched. */
  function Since<K(==)>(touches: seq<K>, k: K): set<K> {
    if touches == [] || touches[|touches| - 1] == k then {}
    else Since(touches[..|touches| - 1], k) + {touches[|touches| - 1]}
  }

  /** The list of a cache without bound: all touched keys, the latest first. */
  function Recency<K(==)>(touches: seq<K>): seq<K> {
    if touches == [] then []
    else
      var x := touches[|touches| - 1];
      [x] + Remove(Recency(touches[..|touches| - 1]), x)
  }

  function Remove<K(==)>(ks: seq<K>, k: K): seq<K> {
    if ks == [] then [] else if ks[0] == k then Remove(ks[1..], k) else [ks[0]] + Remove(ks[1..], k)
  }

  lemma {:induction false} RemoveAbsent<K>(ks: seq<K>, k: K)
    requires k !in ks
    ensures Remove(ks, k) == ks
  {
    if ks != [] {
      RemoveAbsent(ks[1..], k);
    }
  }

  lemma {:induction false} RemoveAt<K>(ks: seq<K>, i: nat)
    requires i < |ks| && Distinct(ks)
    ensures Remove(ks, ks[i]) == ks[..i] + ks[i + 1..]
  {
    if i == 0 {
      assert ks[0] !in ks[1..];
      RemoveAbsent(ks[1..], ks[0]);
    } else {
      RemoveAt(ks[1..], i - 1);
      assert ks[1..][..i - 1] == ks[1..i] && ks[1..][i..] == ks[i + 1..];
      assert ks[..i] == [ks[0]] + ks[1..i];
    }
  }

  /** One touch: x goes to the front. */
  lemma TouchShape<K>(ks: seq<K>, x: K) returns (i: nat)
    requires Distinct(ks)
    ensures i <= |ks| && (x in ks <==> i < |ks|) && (i < |ks| ==> ks[i] == x)
    ensures [x] + Remove(ks, x) == Front(ks, x, i) && Distinct(Front(ks, x, i))
  {
    if j :| 0 <= j < |ks| && ks[j] == x {
      i := j;
      RemoveAt(ks, i);
    } else {
      i := |ks|;
      RemoveAbsent(ks, x);
    }
    FrontDistinct(ks, x, i);
  }

  function SetOf<K(==)>(ks: seq<K>): set<K> {
    set k | k in ks
  }

  lemma {:induction false} DistinctSize<K>(ks: seq<K>)
    requires Distinct(ks)
    ensures |SetOf(ks)| == |ks|
  {
    if ks != [] {
      var n := |ks| - 1;
      DistinctSize(ks[..n]);
      assert SetOf(ks) == SetOf(ks[..n]) + {ks[n]};
      assert ks[n] !in ks[..n];
    }
  }

  /** Moving x, from place p, to the front puts it before every key that was at j. */
  lemma FrontPrefix<K>(ks: seq<K>, x: K, p: nat, j: nat)
    requires p <= |ks| && j < |ks| && (p < |ks| ==> ks[p] == x) && j != p
    ensures var i := if j < p then j + 1 else j;
            && i < |Front(ks, x, p)| && Front(ks, x, p)[i] == ks[j]
            && SetOf(Front(ks, x, p)[..i]) == SetOf(ks[..j]) + {x}
  {
    var t := Front(ks, x, p);
    if j < p {
      assert t[..j + 1] == [x] + ks[..j];
    } else {
      assert t[..j] == [x] + ks[..p] + ks[p + 1..j];
      assert ks[..j] == ks[..p] + [x] + ks[p + 1..j];
    }
  }

  /** In the unbounded order, exactly the keys touched since k was stand before k. */
  lemma {:induction false} RecencyPrefix<K>(touches: seq<K>, i: nat)
    requires i < |Recency(touches)|
    ensures SetOf(Recency(touches)[..i]) == Since(touches, Recency(touches)[i])
  {
    var n := |touches| - 1;
    var x, r := touches[n], Recency(touches[..n]);
    RecencyDistinct(touches[..n]);
    var p := TouchShape(r, x);
    if i > 0 {
      var j := if i <= p then i - 1 else i;
      FrontAt(r, x, p, i);
      FrontPrefix(r, x, p, j);
      RecencyPrefix(touches[..n], j);
    }
  }

  lemma {:induction false} RemoveMembers<K>(ks: seq<K>, x: K, k: K)
    ensures k in Remove(ks, x) <==> k in ks && k != x
  {
    if ks != [] {
      RemoveMembers(ks[1..], x, k);
    }
  }

  lemma {:induction false} RecencyMembers<K>(touches: seq<K>, k: K)
    ensures k in Recency(touches) <==> k in touches
  {
    if touches != [] {
      var n := |touches| - 1;
      RecencyMembers(touches[..n], k);
      RemoveMembers(Recency(touches[..n]), touches[n], k);
      assert touches == touches[..n] + [touches[n]];
    }
  }

  lemma {:induction false} RecencyDistinct<K>(touches: seq<K>)
    ensures Distinct(Recency(touches))
  {
    if touches != [] {
      RecencyDistinct(touches[..|touches| - 1]);
      var i := TouchShape(Recency(touches[..|touches| - 1]), touches[|touches| - 1]);
    }
  }

  /** A touch of the first keys and one of all of them, as far as there is room. */
  lemma FrontTake<K>(ks: seq<K>, x: K, n: nat, i: nat, j: nat)
    requires i <= |Take(ks, n)| && j <= |ks|
    requires if i < |Take(ks, n)| then i == j else j >= i && (j < |ks| ==> i == n)
    ensures Take(Front(Take(ks, n), x, i), n) == Take(Front(ks, x, j), n)
  {
    var a, b := Front(Take(ks, n), x, i), Front(ks, x, j);
    FrontAt(Take(ks, n), x, i, 0);
    FrontAt(ks, x, j, 0);
    assert |Take(a, n)| == |Take(b, n)|;
    forall m | 0 <= m < |Take(a, n)| ensures a[m] == b[m] {
      FrontAt(Take(ks, n), x, i, m);
      FrontAt(ks, x, j, m);
    }
  }

  lemma StepRecency<K, V>(l: seq<Entry<K, V>>, op: Op<K, V>, cap: nat, ks: seq<K>)
    requires cap > 0 && Ok(l, cap) && Distinct(ks) && KeysOf(l) == Take(ks, cap)
    requires op.PutOp? || Has(l, op.key)
    ensures KeysOf(Step(l, op, cap)) == Take([op.key] + Remove(ks, op.key), cap)
  {
    var i := StepShape(l, op, cap);
    var j := TouchShape(ks, op.key);
    var e := Entry(op.key, if op.PutOp? then op.value else l[i].value);
    FrontKeys(l, e, i);
    TakeKeys(Front(l, e, i), cap);
    PlaceInTake(ks, op.key, cap, i, j);
    FrontTake(ks, op.key, cap, i, j);
  }

  lemma PlaceInTake<K>(ks: seq<K>, x: K, n: nat, i: nat, j: nat)
    requires Distinct(ks) && i <= |Take(ks, n)| && j <= |ks|
    requires (x in Take(ks, n) <==> i < |Take(ks, n)|) && (i < |Take(ks, n)| ==> Take(ks, n)[i] == x)
    requires (x in ks <==> j < |ks|) && (j < |ks| ==> ks[j] == x)
    ensures if i < |Take(ks, n)| then i == j else j >= i && (j < |ks| ==> i == n)
  {
    if i < |Take(ks, n)| {
      assert ks[i] == x;
    }
    if j < |Take(ks, n)| {
      assert Take(ks, n)[j] == x;
    }
  }

  /** The list holds the most recently touched keys, as many as fit, in that order. */
  lemma {:induction false} ListIsRecency<K, V>(ops: seq<Op<K, V>>, cap: nat)
    requires cap > 0
    ensures KeysOf(Run(ops, cap)) == Take(Recency(Touches(ops, cap)), cap)
  {
    if ops != [] {
      var n := |ops| - 1;
      var front, op := ops[..n], ops[n];
      ListIsRecency(front, cap);
      RunOk(front, cap);
      var l, ts := Run(front, cap), Touches(front, cap);
      RecencyDistinct(ts);
      if op.PutOp? || Has(l, op.key) {
        StepRecency(l, op, cap, Recency(ts));
        assert Touches(ops, cap)[..|ts|] == ts;
      } else {
        var i := StepShape(l, op, cap);
        assert Touches(ops, cap) == ts;
      }
    }
  }

  lemma RecencyIndex<K>(touches: seq<K>, k: K) returns (j: nat)
    requires k in touches
    ensures j < |Recency(touches)| && Recency(touches)[j] == k && |Since(touches, k)| == j
  {
    RecencyMembers(touches, k);
    RecencyDistinct(touches);
    var r := Recency(touches);
    j :| 0 <= j < |r| && r[j] == k;
    RecencyPrefix(touches, j);
    DistinctSize(r[..j]);
  }

  /** The stack-distance law: after any trace, key k is at position i exactly when it was touched
      and i distinct other keys were touched since, i being less than the capacity. */
  lemma StackDistance<K, V>(ops: seq<Op<K, V>>, cap: nat, k: K, i: nat)
    requires cap > 0
    ensures var l, ts := Run(ops, cap), Touches(ops, cap);
            i < |l| && l[i].key == k <==> k in ts && |Since(ts, k)| == i && i < cap
  {
    var l, ts := Run(ops, cap), Touches(ops, cap);
    var r := Recency(ts);
    ListIsRecency(ops, cap);
    assert i < |l| ==> KeysOf(l)[i] == r[i];
    if i < |l| && l[i].key == k {
      RecencyMembers(ts, k);
    }
    if k in ts {
      var j := RecencyIndex(ts, k);
      RecencyDistinct(ts);
    }
  }

  /** The keys in the list are among the touched ones. */
  lemma PresentIsTouched<K, V>(ops: seq<Op<K, V>>, cap: nat, k: K)
    requires cap > 0 && Has(Run(ops, cap), k)
    ensures k in Touches(ops, cap)
  {
    var l := Run(ops, cap);
    var i :| 0 <= i < |l| && KeysOf(l)[i] == k;
    StackDistance(ops, cap, k, i);
  }

  predicate EverPut<K(==), V>(ops: seq<Op<K, V>>, k: K) {
    exists i :: 0 <= i < |ops| && ops[i].PutOp? && ops[i].key == k
  }

  lemma EverPutLast<K, V>(ops: seq<Op<K, V>>, k: K)
    requires ops != []
    ensures var n := |ops| - 1;
            EverPut(ops, k) <==> EverPut(ops[..n], k) || (ops[n].PutOp? && ops[n].key == k)
  {
    var n := |ops| - 1;
    if i :| 0 <= i < |ops| && ops[i].PutOp? && ops[i].key == k && i < n {
      assert ops[..n][i].key == k;
    }
  }

  /** Whatever the capacity, the touched keys are those that were ever put. */
  lemma {:induction false} TouchedIsPut<K, V>(ops: seq<Op<K, V>>, cap: nat, k: K)
    requires cap > 0
    ensures k in Touches(ops, cap) <==> EverPut(ops, k)
  {
    if ops != [] {
      var n := |ops| - 1;
      TouchedIsPut(ops[..n], cap, k);
      EverPutLast(ops, k);
      if Has(Run(ops[..n], cap), ops[n].key) {
        PresentIsTouched(ops[..n], cap, ops[n].key);
      }
    }
  }

  /** A key that was ever put is absent exactly when at least as many distinct other keys as the
      capacity were touched since it was last touched. */
  lemma AbsentExactly<K, V>(ops: seq<Op<K, V>>, cap: nat, k: K)
    requires cap > 0 && EverPut(ops, k)
    ensures !Has(Run(ops, cap), k) <==> |Since(Touches(ops, cap), k)| >= cap
  {
    var l, ts := Run(ops, cap), Touches(ops, cap);
    TouchedIsPut(ops, cap, k);
    StackDistance(ops, cap, k, |Since(ts, k)|);
    if Has(l, k) {
      var i :| 0 <= i < |l| && KeysOf(l)[i] == k;
      StackDistance(ops, cap, k, i);
    }
  }

  /** The keys in the list are those that were put and have had fewer distinct other touches since
      than the capacity. */
  lemma PresentExactly<K, V>(ops: seq<Op<K, V>>, cap: nat, k: K)
    requires cap > 0
    ensures Has(Run(ops, cap), k) <==> EverPut(ops, k) && |Since(Touches(ops, cap), k)| < cap
  {
    if EverPut(ops, k) {
      AbsentExactly(ops, cap, k);
    } else if Has(Run(ops, cap), k) {
      PresentIsTouched(ops, cap, k);
      TouchedIsPut(ops, cap, k);
    }
  }

  // ---------- How long an entry stays ----------

  function RunFrom<K(==), V>(l: seq<Entry<K, V>>, ops: seq<Op<K, V>>, cap: nat): seq<Entry<K, V>>
    requires cap > 0
  {
    if ops == [] then l else Step(RunFrom(l, ops[..|ops| - 1], cap), ops[|ops| - 1], cap)
  }

  function AnswersFrom<K(==), V>(l: seq<Entry<K, V>>, ops: seq<Op<K, V>>, cap: nat): seq<Option<V>>
    requires cap > 0
  {
    if ops == [] then []
    else
      var front, op := ops[..|ops| - 1], ops[|ops| - 1];
      AnswersFrom(l, front, cap) + [if op.PutOp? then None else Lookup(RunFrom(l, front, cap), op.key)]
  }

  lemma {:induction false} RunFromEmpty<K, V>(ops: seq<Op<K, V>>, cap: nat)
    requires cap > 0
    ensures RunFrom([], ops, cap) == Run(ops, cap)
  {
    if ops != [] {
      RunFromEmpty(ops[..|ops| - 1], cap);
    }
  }

  lemma {:induction false} AnswersFromEmpty<K, V>(ops: seq<Op<K, V>>, cap: nat)
    requires cap > 0
    ensures |AnswersFrom([], ops, cap)| == |ops|
    ensures forall i :: 0 <= i < |ops| ==> AnswersFrom([], ops, cap)[i] == Answer(ops, cap, i)
  {
    if ops != [] {
      var n := |ops| - 1;
      var front := ops[..n];
      AnswersFromEmpty(front, cap);
      RunFromEmpty(front, cap);
      forall i | 0 <= i < n ensures Answer(front, cap, i) == Answer(ops, cap, i) {
        assert front[..i] == ops[..i];
      }
    }
  }

  /** The keys other than k touched by a trace that starts from list l. */
  function Others<K(==), V>(l: seq<Entry<K, V>>, ops: seq<Op<K, V>>, cap: nat, k: K): set<K>
    requires cap > 0
  {
    if ops == [] then {}
    else
      var front, op := ops[..|ops| - 1], ops[|ops| - 1];
      Others(l, front, cap, k)
      + if op.key != k && (op.PutOp? || Has(RunFrom(l, front, cap), op.key)) then {op.key} else {}
  }

  /** k is in the list and all keys before it are in others. */
  ghost predicate Behind<K, V>(l: seq<Entry<K, V>>, k: K, others: set<K>) {
    exists p: nat :: BehindAt(l, k, others, p)
  }

  ghost predicate BehindAt<K, V>(l: seq<Entry<K, V>>, k: K, others: set<K>, p: nat) {
    p < |l| && l[p].key == k && forall j :: 0 <= j < p ==> l[j].key in others
  }

  /** The last place of a list whose other keys are all in others, with one more key there. */
  lemma LastNeedsMany<K, V>(l: seq<Entry<K, V>>, k: K, others: set<K>, p: nat, x: K)
    requires Distinct(KeysOf(l)) && BehindAt(l, k, others, p) && x in others && !Has(l, x)
    ensures |others| > p
  {
    var ks := KeysOf(l)[..p];
    assert Distinct(ks);
    DistinctSize(ks);
    forall y | y in SetOf(ks) ensures y in others && y in KeysOf(l) {
      var j :| 0 <= j < p && ks[j] == y;
      assert KeysOf(l)[j] == y;
    }
    SubsetSize(SetOf(ks) + {x}, others);
  }

  lemma FrontBehind<K, V>(l: seq<Entry<K, V>>, k: K, others: set<K>, p: nat, e: Entry<K, V>, i: nat)
    requires BehindAt(l, k, others, p) && e.key in others && i <= |l| && i != p
    ensures BehindAt(Front(l, e, i), k, others, if i < p then p else p + 1)
  {
    var q := if i < p then p else p + 1;
    forall j | 0 <= j < q ensures Front(l, e, i)[j].key in others {
      FrontAt(l, e, i, j);
    }
    FrontAt(l, e, i, q);
  }

  lemma TakeBehind<K, V>(l: seq<Entry<K, V>>, k: K, others: set<K>, p: nat, n: nat)
    requires BehindAt(l, k, others, p) && p < n
    ensures Behind(Take(l, n), k, others)
  {
    assert BehindAt(Take(l, n), k, others, p);
  }

  /** A touch of op.key evicts k only when capacity-many others were touched. */
  lemma StepBehind<K, V>(l: seq<Entry<K, V>>, op: Op<K, V>, cap: nat, k: K, others: set<K>)
    requires cap > 0 && Ok(l, cap) && Behind(l, k, others)
    requires op.key in others || op.key == k || (op.GetOp? && !Has(l, op.key))
    requires |others| < cap
    ensures Behind(Step(l, op, cap), k, others)
  {
    var p: nat :| BehindAt(l, k, others, p);
    var i := StepShape(l, op, cap);
    if i < |l| || op.PutOp? {
      TouchBehind(l, k, others, cap, p, Entry(op.key, if op.PutOp? then op.value else l[i].value), i);
    }
  }

  lemma TouchBehind<K, V>(l: seq<Entry<K, V>>, k: K, others: set<K>, cap: nat, p: nat, e: Entry<K, V>, i: nat)
    requires cap > 0 && Ok(l, cap) && BehindAt(l, k, others, p) && |others| < cap
    requires i <= |l| && (if i < |l| then l[i].key == e.key else !Has(l, e.key))
    requires e.key in others || e.key == k
    ensures Behind(Take(Front(l, e, i), cap), k, others)
  {
    if e.key == k {
      assert BehindAt(Front(l, e, i), k, others, 0);
      TakeBehind(Front(l, e, i), k, others, 0, cap);
    } else {
      FrontBehind(l, k, others, p, e, i);
      if i == |l| {
        LastNeedsMany(l, k, others, p, e.key);
      }
      TakeBehind(Front(l, e, i), k, others, if i < p then p else p + 1, cap);
    }
  }

  lemma {:induction false} SubsetSize<T>(a: set<T>, b: set<T>)
    requires a <= b
    ensures |a| <= |b|
  {
    if a != {} {
      var x :| x in a;
      SubsetSize(a - {x}, b - {x});
    }
  }

  /** k is in the list before the trace and after each of its calls. */
  predicate KeptThrough<K(==), V>(l: seq<Entry<K, V>>, ops: seq<Op<K, V>>, cap: nat, k: K)
    requires cap > 0
  {
    Has(RunFrom(l, ops, cap), k) && (ops == [] || KeptThrough(l, ops[..|ops| - 1], cap, k))
  }

  lemma {:induction false} RunFromOk<K, V>(l: seq<Entry<K, V>>, ops: seq<Op<K, V>>, cap: nat)
    requires cap > 0 && Ok(l, cap)
    ensures Ok(RunFrom(l, ops, cap), cap)
  {
    if ops != [] {
      RunFromOk(l, ops[..|ops| - 1], cap);
      StepOk(RunFrom(l, ops[..|ops| - 1], cap), ops[|ops| - 1], cap);
    }
  }

  /** The most recent key is kept through every trace that touches fewer distinct other keys than
      the capacity. */
  lemma {:induction false} FewTouchesKeep<K, V>(l: seq<Entry<K, V>>, ops: seq<Op<K, V>>, cap: nat, k: K)
    requires cap > 0 && Ok(l, cap) && l != [] && l[0].key == k && |Others(l, ops, cap, k)| < cap
    ensures KeptThrough(l, ops, cap, k)
    ensures Behind(RunFrom(l, ops, cap), k, Others(l, ops, cap, k))
  {
    var now := RunFrom(l, ops, cap);
    if ops == [] {
      assert BehindAt(l, k, {}, 0);
    } else {
      var front, op := ops[..|ops| - 1], ops[|ops| - 1];
      var before, after := Others(l, front, cap, k), Others(l, ops, cap, k);
      SubsetSize(before, after);
      FewTouchesKeep(l, front, cap, k);
      RunFromOk(l, front, cap);
      var p: nat :| BehindAt(RunFrom(l, front, cap), k, before, p);
      assert BehindAt(RunFrom(l, front, cap), k, after, p);
      StepBehind(RunFrom(l, front, cap), op, cap, k, after);
    }
    BehindHas(now, k, Others(l, ops, cap, k));
  }

  lemma BehindHas<K, V>(l: seq<Entry<K, V>>, k: K, others: set<K>)
    requires Behind(l, k, others)
    ensures Has(l, k)
  {
    var p: nat :| BehindAt(l, k, others, p);
    assert KeysOf(l)[p] == k;
  }
}
