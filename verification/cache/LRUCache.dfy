/** The LRU cache: a doubly linked list between two sentinels, and a map from
    keys to its nodes. */
module LRUCaches {
  import opened Coding
  import opened Recency

  class DLinkedNode {
    const key: Bytes
    var value: Bytes
    var prev: DLinkedNode?
    var next: DLinkedNode?

    constructor (key: Bytes, value: Bytes)
      ensures this.key == key && this.value == value && prev == null && next == null
    {
      this.key, this.value, prev, next := key, value, null, null;
    }
  }

  function Drop(ns: seq<DLinkedNode>, p: nat): (r: seq<DLinkedNode>)
    requires p < |ns|
    ensures |r| == |ns| - 1 && forall i :: 0 <= i < |r| ==> r[i] == ns[if i < p then i else i + 1]
    ensures forall n :: n in r ==> n in ns
  {
    ns[..p] + ns[p + 1..]
  }

  predicate Distinct(ns: seq<DLinkedNode>) {
    forall a, b :: 0 <= a < b < |ns| ==> ns[a] != ns[b]
  }

  /** The nodes hold the slots. */
  ghost predicate Holds(ns: seq<DLinkedNode>, s: seq<Slot>)
    reads ns`value
  {
    |ns| == |s| && forall i {:trigger ns[i]} {:trigger s[i]} :: 0 <= i < |ns| ==> s[i] == Slot(ns[i].key, ns[i].value)
  }

  /** The map leads from each key to its node. */
  predicate Mapped(cache: map<Bytes, DLinkedNode>, ns: seq<DLinkedNode>) {
    && (forall i {:trigger ns[i]} :: 0 <= i < |ns| ==> ns[i].key in cache && cache[ns[i].key] == ns[i])
    && (forall k {:trigger cache[k]} :: k in cache ==> cache[k] in ns && cache[k].key == k)
  }

  class LRUCache {
    var cache: map<Bytes, DLinkedNode>
    const head: DLinkedNode
    const tail: DLinkedNode
    var size: int
    const capacity: int
    ghost var nodes: seq<DLinkedNode>   // from head to tail
    ghost var slots: seq<Slot>          // what they hold

    /** The slots there is room for. */
    function Cap(): nat { if capacity < 0 then 0 else capacity }

    ghost function At(ns: seq<DLinkedNode>, i: int): DLinkedNode {
      if i < 0 then head else if i < |ns| then ns[i] else tail
    }

    /** prev and next are mutually inverse along the list. */
    ghost predicate Ring(ns: seq<DLinkedNode>)
      reads head`next, tail`prev, ns`prev, ns`next
    {
      && head.next == At(ns, 0) && tail.prev == At(ns, |ns| - 1)
      && forall i {:trigger RingAt(ns, i)} :: 0 <= i < |ns| ==> RingAt(ns, i)
    }

    ghost predicate RingAt(ns: seq<DLinkedNode>, i: nat)
      requires i < |ns|
      reads ns`prev, ns`next
    {
      ns[i].next == At(ns, i + 1) && ns[i].prev == At(ns, i - 1)
    }

    ghost predicate Apart(ns: seq<DLinkedNode>) {
      head != tail && head !in ns && tail !in ns && Distinct(ns)
    }

    ghost predicate Sound()
      reads this, head`next, tail`prev, nodes`prev, nodes`next, nodes`value
    {
      Apart(nodes) && Ring(nodes) && Holds(nodes, slots) && Mapped(cache, nodes) && DistinctKeys(slots)
          && size == |nodes|
    }

    ghost predicate Valid()
      reads this, head`next, tail`prev, nodes`prev, nodes`next, nodes`value
    {
      Sound() && size <= Cap()
    }

    constructor (capacity: int)
      ensures Valid() && slots == [] && this.capacity == capacity && fresh(head) && fresh(tail)
    {
      this.capacity, size, cache := capacity, 0, map[];
      head := new DLinkedNode([], []);
      tail := new DLinkedNode([], []);
      nodes, slots := [], [];
      new;
      head.next := tail;
      tail.prev := head;
    }

    /** addToHead. */
    method AddToHead(node: DLinkedNode, ghost ns: seq<DLinkedNode>)
      requires Ring(ns) && Apart(ns) && Apart([node] + ns)
      modifies node`prev, node`next, head`next, ns`prev, tail`prev
      ensures Ring([node] + ns)
    {
      node.prev := head;
      node.next := head.next;
      head.next.prev := node;
      head.next := node;
      ghost var r := [node] + ns;
      forall i {:trigger RingAt(r, i)} | 0 <= i < |r| ensures RingAt(r, i) {
        AtCons(node, ns, i);
        if i > 0 {
          assert r[0] == node && r[i] == ns[i - 1] && old(RingAt(ns, i - 1));
          assert r[i].next == At(ns, i);
        } else {
          assert r[0] == node;
        }
      }
    }

    /** removeNode, on the node at position `p`. */
    method RemoveNode(node: DLinkedNode, ghost ns: seq<DLinkedNode>, ghost p: nat)
      requires Ring(ns) && Apart(ns) && p < |ns| && node == ns[p]
      modifies head`next, tail`prev, ns`prev, ns`next
      ensures Ring(Drop(ns, p)) && Apart(Drop(ns, p))
    {
      DropApart(ns, p);
      assert RingAt(ns, p);
      node.prev.next := node.next;
      node.next.prev := node.prev;
      ghost var r := Drop(ns, p);
      forall i {:trigger RingAt(r, i)} | 0 <= i < |r| ensures RingAt(r, i) {
        AtDrop(ns, p, i - 1);
        AtDrop(ns, p, i + 1);
        assert old(RingAt(ns, if i < p then i else i + 1));
      }
      AtDrop(ns, p, 0);
      AtDrop(ns, p, |r| - 1);
    }

    lemma AtCons(node: DLinkedNode, ns: seq<DLinkedNode>, i: nat)
      ensures At([node] + ns, i + 1) == At(ns, i)
    {
    }

    lemma AtDrop(ns: seq<DLinkedNode>, p: nat, i: int)
      requires p < |ns| && -1 <= i < |ns|
      ensures At(Drop(ns, p), i) == At(ns, if i < p then i else i + 1)
    {
    }

    lemma DropApart(ns: seq<DLinkedNode>, p: nat)
      requires Apart(ns) && p < |ns|
      ensures Apart(Drop(ns, p)) && Apart([ns[p]] + Drop(ns, p)) && ns[p] !in Drop(ns, p)
    {
    }

    /** moveToHead. */
    method MoveToHead(node: DLinkedNode, ghost ns: seq<DLinkedNode>, ghost p: nat)
      requires Ring(ns) && Apart(ns) && p < |ns| && node == ns[p]
      modifies head`next, tail`prev, ns`prev, ns`next
      ensures Ring([node] + Drop(ns, p))
    {
      DropApart(ns, p);
      RemoveNode(node, ns, p);
      AddToHead(node, Drop(ns, p));
    }

    /** removeTail: the last node of the list is taken out. */
    method RemoveTail(ghost ns: seq<DLinkedNode>) returns (node: DLinkedNode)
      requires Ring(ns) && Apart(ns) && ns != []
      modifies head`next, tail`prev, ns`prev, ns`next
      ensures node == ns[|ns| - 1] && Ring(ns[..|ns| - 1]) && Apart(ns[..|ns| - 1])
    {
      node := tail.prev;
      RemoveNode(node, ns, |ns| - 1);
      assert Drop(ns, |ns| - 1) == ns[..|ns| - 1];
    }

    lemma Parts()
      requires Sound()
      ensures Apart(nodes) && Ring(nodes) && Holds(nodes, slots) && Mapped(cache, nodes) && DistinctKeys(slots)
      ensures size == |nodes| == |slots|
    {
    }

    lemma Whole()
      requires Apart(nodes) && Ring(nodes) && Holds(nodes, slots) && Mapped(cache, nodes) && DistinctKeys(slots)
               && size == |nodes|
      ensures Sound() && (size <= Cap() ==> Valid())
    {
    }

    lemma Fits()
      requires Valid()
      ensures Sound() && size <= Cap()
    {
    }

    /** The map finds the node at the key's position. */
    lemma Found(key: Bytes) returns (p: nat)
      requires Valid()
      ensures key in cache <==> Has(slots, key)
      ensures p == Position(slots, key) && (key in cache ==>
              p < |nodes| && cache[key] == nodes[p] && slots[p] == Slot(key, nodes[p].value))
    {
      p := Position(slots, key);
      if Has(slots, key) { assert slots[p] == Slot(nodes[p].key, nodes[p].value); }
      if key in cache {
        var i :| 0 <= i < |nodes| && nodes[i] == cache[key];
        assert slots[i] == Slot(nodes[i].key, nodes[i].value);
      }
    }

    /** get: a hit moves the key to the front. */
    method Get(key: Bytes) returns (ok: bool, value: Bytes)
      requires Valid()
      modifies this, head`next, tail`prev, nodes`prev, nodes`next
      ensures Valid() && slots == Step(old(slots), Op.Get(key), Cap())
      ensures ok <==> Has(old(slots), key)
      ensures ok ==> Slot(key, value) in old(slots) && MovedFront(old(slots), Slot(key, value), slots)
      ensures !ok ==> slots == old(slots) && forall i :: 0 <= i < |slots| ==> slots[i].key != key
      ensures forall n :: n in nodes ==> n in old(nodes)
    {
      ghost var p := Found(key);
      if key !in cache {
        return false, [];
      }
      var node := cache[key];
      assert slots[p] in slots;
      FrontMoves(slots, slots[p]);
      ToFront(node, p);
      value := node.value;
      ok := true;
    }

    /** A node of the list becomes its first, as the slot of its key and value. */
    method ToFront(node: DLinkedNode, ghost p: nat)
      requires Valid() && p < |nodes| && node == nodes[p]
      modifies `nodes, `slots, head`next, tail`prev, nodes`prev, nodes`next
      ensures Valid() && slots == Front(old(slots), old(slots)[p])
      ensures forall n :: n in nodes ==> n in old(nodes)
    {
      hide *;
      Fits();
      Parts();
      DropApart(nodes, p);
      MoveToHead(node, nodes, p);
      FrontNodes(cache, nodes, slots, p);
      nodes, slots := [node] + Drop(nodes, p), Front(slots, slots[p]);
      Whole();
    }

    /** put: the key moves to the front with its value, a new one at the cost of the last if there is no room. */
    method Put(key: Bytes, value: Bytes)
      requires Valid()
      modifies this, head`next, tail`prev, nodes`prev, nodes`next, nodes`value
      ensures Valid() && slots == Step(old(slots), Op.Put(key, value), Cap())
      ensures MovedFront(old(slots), Slot(key, value), slots)
              || ((forall i :: 0 <= i < |old(slots)| ==> old(slots)[i].key != key)
                  && slots == Take([Slot(key, value)] + old(slots), Cap()))
      ensures forall n :: n in nodes ==> n in old(nodes) || fresh(n)
    {
      hide *;
      ghost var p := Found(key);
      Fits();
      Parts();
      PutStep(slots, key, value, Cap());
      PutMoves(slots, key, value, Cap());
      if key !in cache {
        PutNew(key, value);
      } else {
        var node := cache[key];
        SetValue(node, value, p);
        ToFront(node, p);
      }
    }

    method SetValue(node: DLinkedNode, value: Bytes, ghost p: nat)
      requires Valid() && p < |nodes| && node == nodes[p]
      modifies node`value, `slots
      ensures Valid() && slots == old(slots)[p := Slot(node.key, value)]
    {
      hide *;
      Fits();
      Parts();
      node.value := value;
      slots := Revalued(nodes, slots, p, value);
      Whole();
    }

    method PutNew(key: Bytes, value: Bytes)
      requires Valid() && key !in cache && !Has(slots, key)
      modifies this, head`next, tail`prev, nodes`prev, nodes`next
      ensures Valid() && slots == Take([Slot(key, value)] + old(slots), Cap())
      ensures forall n :: n in nodes ==> n in old(nodes) || fresh(n)
    {
      hide *;
      Fits();
      var node := Enter(key, value);
      if size > capacity {
        Evict();
      }
      Trimmed([Slot(key, value)] + old(slots), slots, old(size) + 1);
    }

    /** What is left is what there is room for. */
    lemma Trimmed(s: seq<Slot>, r: seq<Slot>, n: int)
      requires 1 <= |s| == n <= Cap() + 1 && Sound() && slots == r
      requires if n > capacity then r == s[..n - 1] && size == n - 1 else r == s && size == n
      ensures Valid() && r == Take(s, Cap())
    {
    }

    method Enter(key: Bytes, value: Bytes) returns (node: DLinkedNode)
      requires Sound() && key !in cache && !Has(slots, key)
      modifies this, head`next, tail`prev, nodes`prev, nodes`next
      ensures Sound() && slots == [Slot(key, value)] + old(slots) && size == old(size) + 1 && |slots| == size
      ensures fresh(node) && nodes == [node] + old(nodes)
    {
      hide *;
      Parts();
      node := new DLinkedNode(key, value);
      NewFirst(cache, nodes, slots, node);
      cache := cache[key := node];
      NewApart(nodes, node);
      AddToHead(node, nodes);
      nodes, slots := [node] + nodes, [Slot(key, value)] + slots;
      size := size + 1;
      Whole();
    }

    lemma NewApart(ns: seq<DLinkedNode>, node: DLinkedNode)
      requires Apart(ns) && node != head && node != tail && node !in ns
      ensures Apart([node] + ns)
    {
    }

    method Evict()
      requires Sound() && nodes != []
      modifies this, head`next, tail`prev, nodes`prev, nodes`next
      ensures Sound() && |old(slots)| == |old(nodes)| && slots == old(slots)[..|old(slots)| - 1]
              && size == old(size) - 1
      ensures nodes == old(nodes)[..|old(nodes)| - 1]
    {
      hide *;
      Parts();
      var removed := RemoveTail(nodes);
      LastGone(cache, nodes, slots);
      cache := cache - {removed.key};
      size := size - 1;
      nodes, slots := nodes[..|nodes| - 1], slots[..|slots| - 1];
      Whole();
    }
  }

  ghost method Revalued(ns: seq<DLinkedNode>, s: seq<Slot>, p: nat, value: Bytes) returns (r: seq<Slot>)
    requires |ns| == |s| && p < |ns| && DistinctKeys(s) && Distinct(ns) && ns[p].value == value && s[p].key == ns[p].key
    requires forall i :: 0 <= i < |ns| && i != p ==> s[i] == Slot(ns[i].key, ns[i].value)
    ensures r == s[p := Slot(ns[p].key, value)] && Holds(ns, r) && DistinctKeys(r)
  {
    r := s[p := Slot(ns[p].key, value)];
  }

  /** Without the last node: list, slots and map. */
  lemma LastGone(cache: map<Bytes, DLinkedNode>, ns: seq<DLinkedNode>, s: seq<Slot>)
    requires Holds(ns, s) && Mapped(cache, ns) && DistinctKeys(s) && ns != []
    ensures Mapped(cache - {ns[|ns| - 1].key}, ns[..|ns| - 1]) && Holds(ns[..|ns| - 1], s[..|s| - 1])
            && DistinctKeys(s[..|s| - 1])
  {
    var r, x := ns[..|ns| - 1], ns[|ns| - 1];
    forall k {:trigger cache[k]} | k in cache && k != x.key ensures cache[k] in r && cache[k].key == k {
      var i :| 0 <= i < |ns| && ns[i] == cache[k];
      assert r[i] == ns[i];
    }
    forall i {:trigger r[i]} | 0 <= i < |r| ensures r[i].key != x.key {
      assert s[i].key != s[|s| - 1].key && s[i] == Slot(ns[i].key, ns[i].value) && s[|s| - 1] == Slot(x.key, x.value);
    }
  }

  lemma FrontNodes(cache: map<Bytes, DLinkedNode>, ns: seq<DLinkedNode>, s: seq<Slot>, p: nat)
    requires Holds(ns, s) && Mapped(cache, ns) && DistinctKeys(s) && p < |ns| == |s|
    ensures var r := [ns[p]] + Drop(ns, p);
            && Holds(r, Front(s, s[p])) && Mapped(cache, r) && DistinctKeys(Front(s, s[p])) && |r| == |ns|
            && forall n :: n in r ==> n in ns
  {
    hide *;
    FrontHolds(ns, s, p);
    FrontMapped(cache, ns, p);
    FrontOrder(s, s[p]);
  }

  lemma FrontHolds(ns: seq<DLinkedNode>, s: seq<Slot>, p: nat)
    requires Holds(ns, s) && DistinctKeys(s) && p < |ns|
    ensures Holds([ns[p]] + Drop(ns, p), Front(s, s[p]))
  {
    PositionIs(s, s[p].key, p);
  }

  lemma FrontMapped(cache: map<Bytes, DLinkedNode>, ns: seq<DLinkedNode>, p: nat)
    requires Mapped(cache, ns) && p < |ns|
    ensures Mapped(cache, [ns[p]] + Drop(ns, p))
    ensures forall n :: n in [ns[p]] + Drop(ns, p) ==> n in ns
  {
    var r := [ns[p]] + Drop(ns, p);
    forall k {:trigger cache[k]} | k in cache ensures cache[k] in r && cache[k].key == k {
      var i :| 0 <= i < |ns| && ns[i] == cache[k];
      assert r[if i == p then 0 else if i < p then i + 1 else i] == ns[i];
    }
    forall i {:trigger r[i]} | 0 <= i < |r| ensures r[i].key in cache && cache[r[i].key] == r[i] {
      assert r[i] == ns[if i == 0 then p else if i - 1 < p then i - 1 else i];
    }
  }

  lemma NewFirst(cache: map<Bytes, DLinkedNode>, ns: seq<DLinkedNode>, s: seq<Slot>, node: DLinkedNode)
    requires Mapped(cache, ns) && node.key !in cache && Holds(ns, s) && DistinctKeys(s) && !Has(s, node.key)
    ensures Mapped(cache[node.key := node], [node] + ns) && Holds([node] + ns, [Slot(node.key, node.value)] + s)
    ensures DistinctKeys([Slot(node.key, node.value)] + s)
  {
  }

  /** What putting a key does to the slots, a new one and one that is there. */
  lemma PutMoves(s: seq<Slot>, key: Bytes, value: Bytes, n: nat)
    requires DistinctKeys(s) && |s| <= n
    ensures MovedFront(s, Slot(key, value), Step(s, Op.Put(key, value), n))
            || ((forall i :: 0 <= i < |s| ==> s[i].key != key)
                && Step(s, Op.Put(key, value), n) == Take([Slot(key, value)] + s, n))
  {
    var x := Slot(key, value);
    if Has(s, key) { FrontMoves(s, x); }
  }

  lemma PutStep(s: seq<Slot>, key: Bytes, value: Bytes, n: nat)
    requires DistinctKeys(s) && |s| <= n
    ensures var x := Slot(key, value); var p := Position(s, key);
            if Has(s, key) then p < |s| && s[p].key == key && Step(s, Op.Put(key, value), n) == Front(s[p := x], x)
            else Step(s, Op.Put(key, value), n) == Take([x] + s, n)
  {
    if Has(s, key) { SetFront(s, key, value); }
  }

  /** A value set in place and then moved to the front. */
  lemma SetFront(s: seq<Slot>, key: Bytes, value: Bytes)
    requires DistinctKeys(s) && Has(s, key)
    ensures var p := Position(s, key); var x := Slot(key, value);
            Front(s[p := x], x) == Front(s, x) && DistinctKeys(s[p := x])
  {
    var p := Position(s, key);
    PositionIs(s[p := Slot(key, value)], key, p);
  }
}
