/** The LRU cache as code: a doubly linked list of heap nodes and an index from keys to nodes. */
module LruCache {
  import opened Common
  import opened LruSpec

  class Node<K, V> {
    const key: K
    var value: V
    var prev: Node?<K, V>
    var next: Node?<K, V>

    constructor (key: K, value: V)
      ensures this.key == key && this.value == value
    {
      this.key, this.value := key, value;
      prev, next := null, null;
    }
  }

  lemma WithoutPlace<T>(xs: seq<T>, i: nat)
    requires i < |xs| && forall j, k :: 0 <= j < k < |xs| ==> xs[j] != xs[k]
    ensures var ys := xs[..i] + xs[i + 1..];
            && |ys| == |xs| - 1
            && (forall j :: 0 <= j < |ys| ==> ys[j] == xs[if j < i then j else j + 1])
            && (forall j, k :: 0 <= j < k < |ys| ==> ys[j] != ys[k])
  {
  }

  /** std::list, as far as the cache uses it. */
  class List<K, V> {
    var first: Node?<K, V>
    var last: Node?<K, V>
    var size: nat
    ghost var nodes: seq<Node<K, V>>

    ghost function At(i: int): Node?<K, V>
      reads this
    {
      if 0 <= i < |nodes| then nodes[i] else null
    }

    ghost function NodeSet(): set<Node<K, V>>
      reads this
    {
      set n | n in nodes
    }

    ghost predicate Linked(i: int)
      requires 0 <= i < |nodes|
      reads this, NodeSet()`prev, NodeSet()`next
    {
      nodes[i].prev == At(i - 1) && nodes[i].next == At(i + 1)
    }

    ghost predicate Valid()
      reads this, NodeSet()`prev, NodeSet()`next
    {
      && size == |nodes|
      && (forall i, j :: 0 <= i < j < |nodes| ==> nodes[i] != nodes[j])
      && first == At(0) && last == At(|nodes| - 1)
      && (forall i :: 0 <= i < |nodes| ==> Linked(i))
    }

    constructor ()
      ensures Valid() && nodes == []
    {
      first, last, size, nodes := null, null, 0, [];
    }

    method Unlink(n: Node<K, V>, ghost i: nat)
      requires Valid() && i < |nodes| && nodes[i] == n
      modifies this, NodeSet()`prev, NodeSet()`next
      ensures Valid() && nodes == old(nodes)[..i] + old(nodes)[i + 1..]
    {
      ghost var was := nodes;
      ghost var before, after := At(i - 1), At(i + 1);
      assert Linked(i);
      if n.prev == null {
        first := n.next;
      } else {
        n.prev.next := n.next;
      }
      if n.next == null {
        last := n.prev;
      } else {
        n.next.prev := n.prev;
      }
      size := size - 1;
      WithoutPlace(was, i);
      nodes := was[..i] + was[i + 1..];
      assert before != null ==> before.next == after;
      assert after != null ==> after.prev == before;
      forall j | 0 <= j < |nodes| ensures Linked(j) {
        var j' := if j < i then j else j + 1;
        assert nodes[j] == was[j'] && old(Linked(j'));
        assert was[j'].prev == At(j - 1) by {
          assert was[j'].prev == if j' == i + 1 then before else old(was[j'].prev);
        }
        assert was[j'].next == At(j + 1) by {
          assert was[j'].next == if j' == i - 1 then after else old(was[j'].next);
        }
      }
      assert first == At(0) && last == At(|nodes| - 1);
    }

    method LinkFront(n: Node<K, V>)
      requires Valid() && n !in nodes
      modifies this, n`prev, n`next, NodeSet()`prev
      ensures Valid() && nodes == [n] + old(nodes)
    {
      n.prev, n.next := null, first;
      if first == null {
        last := n;
      } else {
        first.prev := n;
      }
      first := n;
      size := size + 1;
      nodes := [n] + nodes;
      forall j | 0 <= j < |nodes| ensures Linked(j) {
        assert j > 0 ==> nodes[j] == old(nodes)[j - 1] && old(Linked(j - 1));
      }
    }
  }

  /** index maps exactly the keys of the nodes, each to its node. */
  ghost predicate Indexed<K, V>(nodes: seq<Node<K, V>>, index: map<K, Node<K, V>>) {
    && (forall i :: 0 <= i < |nodes| ==> nodes[i].key in index && index[nodes[i].key] == nodes[i])
    && (forall k :: k in index ==> index[k] in nodes && index[k].key == k)
  }

  /** The index maps distinct keys to distinct nodes, and all nodes are mapped to. */
  ghost predicate Bijection<K, V>(nodes: seq<Node<K, V>>, index: map<K, Node<K, V>>) {
    && (forall i, j :: 0 <= i < j < |nodes| ==> nodes[i] != nodes[j] && nodes[i].key != nodes[j].key)
    && (set n | n in nodes) == index.Values
    && (forall k, m :: k in index && m in index && index[k] == index[m] ==> k == m)
  }

  lemma IndexedBijection<K, V>(nodes: seq<Node<K, V>>, index: map<K, Node<K, V>>)
    requires Indexed(nodes, index) && forall i, j :: 0 <= i < j < |nodes| ==> nodes[i] != nodes[j]
    ensures Bijection(nodes, index)
  {
    forall i, j | 0 <= i < j < |nodes| ensures nodes[i].key != nodes[j].key {
      assert index[nodes[i].key] == nodes[i] && index[nodes[j].key] == nodes[j];
    }
    forall n | n in nodes ensures n in index.Values {
      assert index[n.key] == n;
    }
  }

  lemma IndexedMove<K, V>(nodes: seq<Node<K, V>>, index: map<K, Node<K, V>>, i: nat)
    requires Indexed(nodes, index) && i < |nodes|
    ensures Indexed([nodes[i]] + (nodes[..i] + nodes[i + 1..]), index)
  {
    var t := [nodes[i]] + (nodes[..i] + nodes[i + 1..]);
    forall k | k in index ensures index[k] in t {
      var j :| 0 <= j < |nodes| && nodes[j] == index[k];
      assert t[if j == i then 0 else if j < i then j + 1 else j] == nodes[j];
    }
  }

  lemma IndexedEvict<K, V>(nodes: seq<Node<K, V>>, index: map<K, Node<K, V>>)
    requires Indexed(nodes, index) && nodes != [] && forall i, j :: 0 <= i < j < |nodes| ==> nodes[i] != nodes[j]
    ensures Indexed(nodes[..|nodes| - 1], index - {nodes[|nodes| - 1].key})
  {
    var n := |nodes| - 1;
    forall k | k in index && k != nodes[n].key ensures index[k] in nodes[..n] {
      var j :| 0 <= j < |nodes| && nodes[j] == index[k];
      assert nodes[..n][j] == index[k];
    }
  }

  lemma IndexedInsert<K, V>(nodes: seq<Node<K, V>>, index: map<K, Node<K, V>>, n: Node<K, V>)
    requires Indexed(nodes, index) && n.key !in index
    ensures Indexed([n] + nodes, index[n.key := n])
  {
  }

  lemma IndexedKeys<K, V>(nodes: seq<Node<K, V>>, index: map<K, Node<K, V>>, l: seq<Entry<K, V>>)
    requires Indexed(nodes, index) && (forall i, j :: 0 <= i < j < |nodes| ==> nodes[i] != nodes[j])
    requires |l| == |nodes| && forall i :: 0 <= i < |l| ==> l[i].key == nodes[i].key
    ensures Distinct(KeysOf(l))
    ensures forall k :: Has(l, k) <==> k in index
  {
    var ks := KeysOf(l);
    forall k ensures k in ks <==> k in index {
      if k in index {
        var i :| 0 <= i < |nodes| && nodes[i] == index[k];
        assert ks[i] == k;
      }
    }
  }

  ghost function EntryAt<K, V>(n: Node<K, V>): Entry<K, V>
    reads n
  {
    Entry(n.key, n.value)
  }

  ghost function EntriesOf<K, V>(nodes: seq<Node<K, V>>): (l: seq<Entry<K, V>>)
    reads nodes
    ensures |l| == |nodes|
    ensures forall i :: 0 <= i < |l| ==> l[i] == EntryAt(nodes[i])
  {
    seq(|nodes|, i requires 0 <= i < |nodes| reads nodes => EntryAt(nodes[i]))
  }

  /** Moving node i to the front, perhaps with a new value, moves its entry. */
  lemma EntriesMove<K, V>(nodes: seq<Node<K, V>>, i: nat, l: seq<Entry<K, V>>)
    requires i < |nodes| == |l| && forall j :: 0 <= j < |nodes| && j != i ==> EntryAt(nodes[j]) == l[j]
    ensures EntriesOf([nodes[i]] + (nodes[..i] + nodes[i + 1..])) == [EntryAt(nodes[i])] + (l[..i] + l[i + 1..])
  {
  }

  /** A new node in front of all nodes but perhaps the last. */
  lemma EntriesInsert<K, V>(nodes: seq<Node<K, V>>, was: seq<Node<K, V>>, l: seq<Entry<K, V>>)
    requires nodes != [] && |nodes| - 1 <= |was| == |l| && nodes[1..] == was[..|nodes| - 1]
    requires forall j :: 0 <= j < |was| ==> EntryAt(was[j]) == l[j]
    ensures EntriesOf(nodes) == [EntryAt(nodes[0])] + l[..|nodes| - 1]
  {
    assert forall j :: 0 < j < |nodes| ==> nodes[j] == nodes[1..][j - 1];
  }

  class LruCache<K(==), V> {
    const capacity: nat
    const list: List<K, V>
    var index: map<K, Node<K, V>>

    /** The index is a bijection between keys and list nodes, and there is room for all of them. */
    ghost predicate Inv()
      reads this, list, list.NodeSet()`prev, list.NodeSet()`next
    {
      capacity > 0 && list.Valid() && |list.nodes| <= capacity && Indexed(list.nodes, index)
    }

    /** Inv, folded until Looked (0) is asserted, which keeps the proofs of the callers small. */
    ghost predicate Valid()
      reads this, list, list.NodeSet()`prev, list.NodeSet()`next
    {
      capacity > 0 && forall x :: Looked(x) ==> Inv()
    }

    ghost function Contents(): (l: seq<Entry<K, V>>)
      reads this, list, list.NodeSet()
    {
      EntriesOf(list.nodes)
    }

    constructor (capacity: nat)
      requires capacity > 0
      ensures Valid() && Contents() == [] && list.nodes == [] && this.capacity == capacity && fresh(list)
    {
      this.capacity := capacity;
      list := new List();
      index := map[];
    }

    lemma ContentsOk()
      requires Valid()
      ensures Ok(Contents(), capacity)
      ensures forall k :: Has(Contents(), k) <==> k in index
      ensures forall i, j :: 0 <= i < j < |list.nodes| ==> list.nodes[i] != list.nodes[j]
    {
      assert Looked(0);
      IndexedKeys(list.nodes, index, Contents());
    }

    lemma IndexOk()
      requires Valid()
      ensures Bijection(list.nodes, index)
    {
      assert Looked(0);
      IndexedBijection(list.nodes, index);
    }

    /** list_.splice (list_.begin (), list_, n) */
    method Splice(n: Node<K, V>, ghost i: nat)
      requires Valid() && i < |list.nodes| && list.nodes[i] == n
      modifies list, list.NodeSet()`prev, list.NodeSet()`next
      ensures Valid() && list.nodes == [n] + old(list.nodes[..i] + list.nodes[i + 1..])
    {
      assert Looked(0);
      IndexedMove(list.nodes, index, i);
      list.Unlink(n, i);
      list.LinkFront(n);
    }

    method NodeOf(key: K, ghost i: nat) returns (n: Node<K, V>)
      requires Valid() && key in index && i < |list.nodes| && list.nodes[i].key == key
      ensures n == index[key] == list.nodes[i]
    {
      assert Looked(0);
      n := index[key];
    }

    /** Returns the node whose value field the pointer of the original points at. */
    method Get(key: K) returns (hit: Node?<K, V>)
      requires Valid()
      modifies list, list.NodeSet()`prev, list.NodeSet()`next
      ensures Valid() && Contents() == LruSpec.Get(old(Contents()), key)
      ensures hit == if key in index then index[key] else null
      ensures Lookup(old(Contents()), key) == if hit == null then None else Some(hit.value)
      ensures list.NodeSet() <= old(list.NodeSet())
    {
      ContentsOk();
      ghost var was, l := list.nodes, Contents();
      ghost var i := Position(l, key);
      hit := null;
      if key in index {
        hit := NodeOf(key, i);
        Splice(hit, i);
        EntriesMove(was, i, l);
      }
    }

    /** The branch of put for a key that is present. */
    method Overwrite(key: K, value: V, ghost i: nat)
      requires Valid() && key in index && i < |list.nodes| && list.nodes[i].key == key
      modifies list, list.NodeSet()
      ensures Valid() && list.nodes == old([list.nodes[i]] + (list.nodes[..i] + list.nodes[i + 1..]))
      ensures list.nodes[0].value == value
      ensures forall n :: n in old(list.nodes) && n != list.nodes[0] ==> n.value == old(n.value)
    {
      var n := NodeOf(key, i);
      n.value := value;
      Splice(n, i);
    }

    method EvictLast()
      requires Valid() && list.nodes != []
      modifies this`index, list, list.NodeSet()`prev, list.NodeSet()`next
      ensures Valid() && list.nodes == old(list.nodes[..|list.nodes| - 1])
      ensures index == old(index) - {old(list.nodes[|list.nodes| - 1]).key}
    {
      assert Looked(0);
      ghost var was := list.nodes;
      IndexedEvict(was, index);
      var last := list.last;
      assert last == was[|was| - 1];
      index := index - {last.key};
      list.Unlink(last, |was| - 1);
      assert list.nodes == was[..|was| - 1];
    }

    method InsertFront(key: K, value: V)
      requires Valid() && key !in index && |list.nodes| < capacity
      modifies this`index, list, list.NodeSet()`prev
      ensures Valid() && list.nodes != [] && fresh(list.nodes[0]) && list.nodes[1..] == old(list.nodes)
      ensures index == old(index)[key := list.nodes[0]] && EntryAt(list.nodes[0]) == Entry(key, value)
    {
      assert Looked(0);
      var n := new Node(key, value);
      IndexedInsert(list.nodes, index, n);
      index := index[key := n];
      list.LinkFront(n);
    }

    method MakeRoom()
      requires Valid()
      modifies this`index, list, list.NodeSet()`prev, list.NodeSet()`next
      ensures Valid() && |list.nodes| < capacity && index.Keys <= old(index.Keys)
      ensures list.nodes == old(if |list.nodes| >= capacity then list.nodes[..|list.nodes| - 1] else list.nodes)
      ensures forall k :: k in index ==> index[k] == old(index[k])
    {
      assert Looked(0);
      if list.size >= capacity {
        EvictLast();
      }
    }

    /** The branches of put for a key that is absent. */
    method Insert(key: K, value: V)
      requires Valid() && key !in index
      modifies this`index, list, list.NodeSet()`prev, list.NodeSet()`next
      ensures Valid() && list.nodes != [] && fresh(list.nodes[0]) && EntryAt(list.nodes[0]) == Entry(key, value)
      ensures list.nodes[1..] == old(if |list.nodes| >= capacity then list.nodes[..|list.nodes| - 1] else list.nodes)
      ensures forall k :: k in old(index) && k in index ==> index[k] == old(index[k])
    {
      MakeRoom();
      InsertFront(key, value);
    }

    method Put(key: K, value: V)
      requires Valid()
      modifies this`index, list, list.NodeSet()
      ensures Valid() && Contents() == LruSpec.Put(old(Contents()), key, value, capacity)
      ensures forall k :: k in old(index) && k in index ==> index[k] == old(index[k])
      ensures fresh(list.NodeSet() - old(list.NodeSet()))
    {
      ContentsOk();
      ghost var was, l := list.nodes, Contents();
      ghost var i := Position(l, key);
      if key in index {
        Overwrite(key, value, i);
        EntriesMove(was, i, l);
      } else {
        Insert(key, value);
        EntriesInsert(list.nodes, was, l);
      }
    }
  }

  /** The constructor as callers meet it: capacity 0 is refused. */
  method Make<K(==), V>(capacity: nat) returns (r: Option<LruCache<K, V>>)
    ensures r.None? <==> capacity == 0
    ensures r.Some? ==> fresh(r.value) && fresh(r.value.list) && r.value.list.nodes == []
    ensures r.Some? ==> r.value.Valid() && r.value.Contents() == [] && r.value.capacity == capacity
  {
    if capacity == 0 {
      return None;
    }
    var c := new LruCache<K, V>(capacity);
    return Some(c);
  }

  method Apply<K(==), V>(c: LruCache<K, V>, op: Op<K, V>) returns (answer: Option<V>)
    requires c.Valid()
    modifies c`index, c.list, c.list.NodeSet()
    ensures c.Valid() && c.Contents() == Step(old(c.Contents()), op, c.capacity)
    ensures answer == if op.PutOp? then None else Lookup(old(c.Contents()), op.key)
    ensures forall k :: k in old(c.index) && k in c.index ==> c.index[k] == old(c.index[k])
    ensures fresh(c.list.NodeSet() - old(c.list.NodeSet()))
  {
    answer := None;
    if op.PutOp? {
      c.Put(op.key, op.value);
    } else {
      var hit := c.Get(op.key);
      if hit != null {
        answer := Some(hit.value);
      }
    }
  }

  /** Any trace of calls: the heap list follows the list of LruSpec throughout, and the node of a
      key stays its node while the key stays in the list. */
  method Replay<K(==), V>(c: LruCache<K, V>, ops: seq<Op<K, V>>) returns (answers: seq<Option<V>>)
    requires c.Valid()
    modifies c`index, c.list, c.list.NodeSet()
    ensures c.Valid() && fresh(c.list.NodeSet() - old(c.list.NodeSet()))
    ensures c.Contents() == RunFrom(old(c.Contents()), ops, c.capacity)
    ensures answers == AnswersFrom(old(c.Contents()), ops, c.capacity)
    ensures forall k :: k in old(c.index) && KeptThrough(old(c.Contents()), ops, c.capacity, k) ==>
              k in c.index && c.index[k] == old(c.index[k])
    decreases |ops|
  {
    answers := [];
    if ops != [] {
      var n := |ops| - 1;
      answers := Replay(c, ops[..n]);
      var answer := Apply(c, ops[n]);
      answers := answers + [answer];
      c.ContentsOk();
    }
  }

  /** Any trace of calls from construction: the heap cache holds the list, and gives the answers,
      that the laws of LruSpec are about; its index maps exactly the keys that were put and have had
      fewer distinct other touches since than the capacity, each to its own node of the list. */
  method ReplayNew<K(==), V>(capacity: nat, ops: seq<Op<K, V>>)
    returns (r: Option<LruCache<K, V>>, answers: seq<Option<V>>)
    ensures r.None? <==> capacity == 0
    ensures r.Some? ==> fresh(r.value) && r.value.Valid() && r.value.capacity == capacity
    ensures r.Some? ==> r.value.Contents() == Run(ops, capacity)
    ensures r.Some? ==> |answers| == |ops| && forall i :: 0 <= i < |ops| ==> answers[i] == Answer(ops, capacity, i)
    ensures r.Some? ==> forall k :: k in r.value.index <==>
                                      EverPut(ops, k) && |Since(Touches(ops, capacity), k)| < capacity
    ensures r.Some? ==> Bijection(r.value.list.nodes, r.value.index)
  {
    r := Make(capacity);
    answers := [];
    if r.Some? {
      var c := r.value;
      answers := Replay(c, ops);
      RunFromEmpty(ops, capacity);
      AnswersFromEmpty(ops, capacity);
      c.ContentsOk();
      c.IndexOk();
      forall k ensures k in c.index <==> EverPut(ops, k) && |Since(Touches(ops, capacity), k)| < capacity {
        PresentExactly(ops, capacity, k);
      }
    }
  }

  /** The pointer that a call for k returned keeps pointing at the entry of k, whatever calls
      follow, as long as they touch fewer distinct other keys than the capacity. */
  method ReplayFew<K(==), V>(c: LruCache<K, V>, ops: seq<Op<K, V>>, ghost k: K) returns (answers: seq<Option<V>>)
    requires c.Valid() && c.Contents() != [] && c.Contents()[0].key == k && k in c.index
    requires |Others(c.Contents(), ops, c.capacity, k)| < c.capacity
    modifies c`index, c.list, c.list.NodeSet()
    ensures c.Valid() && k in c.index && c.index[k] == old(c.index[k])
    ensures c.Contents() == RunFrom(old(c.Contents()), ops, c.capacity)
    ensures answers == AnswersFrom(old(c.Contents()), ops, c.capacity)
  {
    c.ContentsOk();
    FewTouchesKeep(c.Contents(), ops, c.capacity, k);
    answers := Replay(c, ops);
  }
}
