/** The skip list behind the string index: keys descending, the empty string at
    both ends, and an iterator. */
module StrSkiplists {
  import opened Coding
  import opened SkipLinks
  import opened Members
  import opened Indexers

  class StrSkipListNode {
    const key: Bytes
    const height: nat
    var val: Indexer
    var level: seq<StrSkipListNode?>

    constructor (key: Bytes, val: Indexer, sz: nat)
      ensures this.key == key && this.val == val && height == sz && level == seq(sz, _ => null)
    {
      this.key, this.val, height := key, val, sz;
      level := seq(sz, _ => null);
    }
  }

  function Heights(nodes: seq<StrSkipListNode>): (hs: seq<nat>)
    ensures |hs| == |nodes| && forall k :: 0 <= k < |hs| ==> hs[k] == nodes[k].height
  {
    seq(|nodes|, k requires 0 <= k < |nodes| => nodes[k].height)
  }

  predicate Descending(nodes: seq<StrSkipListNode>) {
    forall a, b :: 0 <= a < b < |nodes| ==> Less(nodes[b].key, nodes[a].key)
  }

  predicate Fits(nodes: seq<StrSkipListNode>, level: int) {
    forall k {:trigger nodes[k]} :: 0 <= k < |nodes| ==> nodes[k].key != [] && 1 <= nodes[k].height <= level
  }

  /** How many nodes have a key above `t`. */
  function Above(nodes: seq<StrSkipListNode>, t: Bytes): (p: nat)
    ensures p <= |nodes|
    ensures forall a :: 0 <= a < p ==> Less(t, nodes[a].key)
    ensures p < |nodes| ==> !Less(t, nodes[p].key)
  {
    AboveFrom(nodes, 0, t)
  }

  function AboveFrom(nodes: seq<StrSkipListNode>, k: nat, t: Bytes): (p: nat)
    requires k <= |nodes|
    ensures k <= p <= |nodes|
    ensures forall a :: k <= a < p ==> Less(t, nodes[a].key)
    ensures p < |nodes| ==> !Less(t, nodes[p].key)
    decreases |nodes| - k
  {
    if k == |nodes| || !Less(t, nodes[k].key) then k else AboveFrom(nodes, k + 1, t)
  }

  /** Past the keys above `t` there are no more of them. */
  lemma NotAbove(nodes: seq<StrSkipListNode>, t: Bytes, j: nat)
    requires Descending(nodes) && Above(nodes, t) <= j < |nodes|
    ensures !Less(t, nodes[j].key)
  {
    var p := Above(nodes, t);
    if p < j && Less(t, nodes[j].key) { LessTransitive(t, nodes[j].key, nodes[p].key); }
  }

  lemma AboveIs(nodes: seq<StrSkipListNode>, t: Bytes, p: nat)
    requires p <= |nodes| && (forall a :: 0 <= a < p ==> Less(t, nodes[a].key))
             && (p < |nodes| ==> !Less(t, nodes[p].key))
    ensures Above(nodes, t) == p
  {
  }

  predicate HasKey(nodes: seq<StrSkipListNode>, key: Bytes) {
    Above(nodes, key) < |nodes| && nodes[Above(nodes, key)].key == key
  }

  lemma KeyAt(nodes: seq<StrSkipListNode>, k: nat)
    requires Descending(nodes) && k < |nodes|
    ensures Above(nodes, nodes[k].key) == k && HasKey(nodes, nodes[k].key)
  {
    LessTotal(nodes[k].key, nodes[k].key);
    AboveIs(nodes, nodes[k].key, k);
  }

  lemma AbsentAt(nodes: seq<StrSkipListNode>, key: Bytes, j: nat)
    requires Descending(nodes) && j < |nodes| && !HasKey(nodes, key)
    ensures nodes[j].key != key
  {
    KeyAt(nodes, j);
  }

  ghost predicate Stored(m: map<Bytes, Indexer>, n: StrSkipListNode)
    reads n`val
  {
    n.key in m && m[n.key] == n.val
  }

  /** The nodes are exactly the map's entries. */
  ghost predicate Refines(m: map<Bytes, Indexer>, nodes: seq<StrSkipListNode>)
    reads nodes`val
  {
    && (forall k {:trigger nodes[k]} :: 0 <= k < |nodes| ==> Stored(m, nodes[k]))
    && (forall key {:trigger HasKey(nodes, key)} :: key in m ==> HasKey(nodes, key))
  }

  lemma PresentIff(m: map<Bytes, Indexer>, nodes: seq<StrSkipListNode>, key: Bytes)
    requires Refines(m, nodes)
    ensures key in m <==> HasKey(nodes, key)
    ensures key in m ==> m[key] == nodes[Above(nodes, key)].val
  {
    if HasKey(nodes, key) { assert Stored(m, nodes[Above(nodes, key)]); }
  }

  /** The top level is in use: from `level` up the head leads straight to the tail. */
  ghost predicate TopUsed(nodes: seq<StrSkipListNode>, level: int) {
    level > 0 ==> exists k :: 0 <= k < |nodes| && nodes[k].height == level
  }

  class StrSkiplist {
    const head: StrSkipListNode
    const tail: StrSkipListNode
    var level: int
    var length: int
    ghost var nodes: seq<StrSkipListNode>   // between head and tail, in order
    ghost var model: map<Bytes, Indexer>   // what they hold
    var iter: StrSkipListNode?                 // the iterator

    ghost predicate Shape()
      reads `level, `length, `nodes
    {
      && head.height == MAXL && tail.height == MAXL && head.key == [] && tail.key == []
      && head != tail && head !in nodes && tail !in nodes
      && Descending(nodes) && Fits(nodes, level)
      && 0 <= level <= MAXL && length == |nodes|
    }

    /** Each level links the nodes it threads, in order, and ends at the tail. */
    ghost predicate Linked(n: StrSkipListNode, k: nat)
      requires k <= |nodes|
      reads `nodes, n`level
    {
      |n.level| == n.height && forall i {:trigger n.level[i]} :: 0 <= i < n.height ==>
          n.level[i] == Succ(nodes, Heights(nodes), tail, k, i)
    }

    ghost predicate Links()
      reads `nodes, head`level, nodes`level
    {
      Linked(head, 0) && forall k {:trigger Linked(nodes[k], k + 1)} :: 0 <= k < |nodes| ==> Linked(nodes[k], k + 1)
    }

    ghost predicate TailEnds()
      reads tail`level
    {
      |tail.level| == MAXL && forall i :: 0 <= i < MAXL ==> tail.level[i] == null
    }

    ghost predicate Valid()
      reads this, head`level, tail`level, nodes`level, nodes`val
    {
      Shape() && Links() && TailEnds() && TopUsed(nodes, level) && Refines(model, nodes)
    }

    ghost predicate AtPosition(p: StrSkipListNode, k: int)
      reads `nodes
    {
      -1 <= k < |nodes| && p == if k < 0 then head else nodes[k]
    }

    constructor ()
      ensures Valid() && model == map[] && iter == null && fresh(head) && fresh(tail)
    {
      iter := null;
      tail := new StrSkipListNode([], Indexer(0, 0, []), MAXL);
      head := new StrSkipListNode([], Indexer(0, 0, []), MAXL);
      level, length, nodes, model := 0, 0, [], map[];
      new;
      var i := 0;
      while i < MAXL
        invariant 0 <= i <= MAXL && |head.level| == MAXL && TailEnds()
        invariant forall j :: 0 <= j < i ==> head.level[j] == tail
        invariant nodes == [] && model == map[] && level == 0 && length == 0 && iter == null && fresh(head)
                  && fresh(tail)
      {
        head.level := head.level[i := tail];
        i := i + 1;
      }
    }

    /** On level `i` at a node with a key above `key`, at position `k`. */
    ghost predicate Walking(p: StrSkipListNode, k: int, i: nat, key: Bytes)
      reads `nodes
    {
      AtPosition(p, k) && k < Above(nodes, key) && p.height > i
    }

    /** A link leads on exactly when it stays among the nodes with a key above `key`. */
    lemma Look(p: StrSkipListNode, k: int, i: nat, key: Bytes)
      requires Shape() && Links() && Walking(p, k, i, key)
      ensures |p.level| == p.height && p.level[i] == Succ(nodes, Heights(nodes), tail, k + 1, i)
      ensures var j := NextTall(Heights(nodes), k + 1, i);
              if j < Above(nodes, key) then Less(key, p.level[i].key) && Walking(p.level[i], j, i, key)
              else !Less(key, p.level[i].key) && k == PrevTall(Heights(nodes), Above(nodes, key), i)
    {
      assert Linked(p, k + 1) by {
        if k >= 0 { assert Linked(nodes[k], k + 1); }
      }
      LastBefore(Heights(nodes), Above(nodes, key), i, k);
      var j := NextTall(Heights(nodes), k + 1, i);
      if Above(nodes, key) <= j < |nodes| { NotAbove(nodes, key, j); }
    }

    /** The walk along level `i` from position `k0` to the last node with a key above `key`. */
    method Advance(start: StrSkipListNode, i: nat, key: Bytes, ghost k0: int) returns (p: StrSkipListNode, ghost k: int)
      requires Shape() && Links() && Walking(start, k0, i, key)
      ensures AtPosition(p, k) && k == PrevTall(Heights(nodes), Above(nodes, key), i)
    {
      p, k := start, k0;
      Look(p, k, i, key);
      while p.level[i] != null && Less(key, p.level[i].key)
        invariant Walking(p, k, i, key) && |p.level| == p.height
                  && p.level[i] == Succ(nodes, Heights(nodes), tail, k + 1, i)
        decreases |nodes| - k
      {
        Look(p, k, i, key);
        p, k := p.level[i], NextTall(Heights(nodes), k + 1, i);
        Look(p, k, i, key);
      }
      Look(p, k, i, key);
    }

    /** Above the top level the walk starts at the head. */
    lemma Top(key: Bytes, i: nat)
      requires Shape() && i >= level
      ensures PrevTall(Heights(nodes), Above(nodes, key), i) == -1
    {
      PrevTallIs(Heights(nodes), Above(nodes, key), i, -1);
    }

    method Descend(key: Bytes) returns (p: StrSkipListNode, ghost k: int)
      requires Shape() && Links()
      ensures AtPosition(p, k) && k == PrevTall(Heights(nodes), Above(nodes, key), 0)
    {
      p, k := head, -1;
      Top(key, level);
      var i := level - 1;
      while i >= 0
        invariant -1 <= i < level && AtPosition(p, k) && k == PrevTall(Heights(nodes), Above(nodes, key), i + 1)
      {
        p, k := Advance(p, i, key, k);
        i := i - 1;
      }
    }

    /** find: the first node with a key at or below `key`, or the tail. */
    method Find(key: Bytes) returns (r: StrSkipListNode)
      requires Valid()
      ensures r == NodeAt(nodes, tail, Above(nodes, key))
    {
      ghost var k;
      r, k := Descend(key);
      Bottom(r, k, key);
      r := r.level[0];
    }

    /** Below the last level the walk stands right before position Above(key). */
    lemma Bottom(p: StrSkipListNode, k: int, key: Bytes)
      requires Shape() && Links() && AtPosition(p, k) && p.height > 0
      requires k == PrevTall(Heights(nodes), Above(nodes, key), 0)
      ensures k == Above(nodes, key) - 1
      ensures |p.level| == p.height && p.level[0] == NodeAt(nodes, tail, Above(nodes, key))
    {
      Look(p, k, 0, key);
      PrevTallIs(Heights(nodes), Above(nodes, key), 0, Above(nodes, key) - 1);
      NextTallIs(Heights(nodes), Above(nodes, key), 0, Above(nodes, key));
    }

    /** The vector `update` of add and erase: per level, the last node before the position. */
    ghost predicate Predecessors(update: seq<StrSkipListNode>, upto: int, pos: nat)
      requires pos <= |nodes|
      reads `nodes
    {
      upto <= |update| && forall i {:trigger update[i]} :: 0 <= i < upto ==>
          AtPosition(update[i], PrevTall(Heights(nodes), pos, i))
    }

    ghost predicate PredecessorsFrom(update: seq<StrSkipListNode>, lo: int, pos: nat)
      requires pos <= |nodes|
      reads `nodes
    {
      |update| == MAXL && forall i {:trigger update[i]} :: 0 <= i < MAXL && lo <= i ==>
          AtPosition(update[i], PrevTall(Heights(nodes), pos, i))
    }

    lemma HeadPrecedes(key: Bytes)
      requires Shape()
      ensures PredecessorsFrom(seq(MAXL, _ => head), level, Above(nodes, key))
    {
      forall i | level <= i < MAXL ensures PrevTall(Heights(nodes), Above(nodes, key), i) == -1 {
        Top(key, i);
      }
    }

    method FindPredecessors(key: Bytes) returns (update: seq<StrSkipListNode>, p: StrSkipListNode, ghost k: int)
      requires Shape() && Links()
      ensures PredecessorsFrom(update, 0, Above(nodes, key))
      ensures AtPosition(p, k) && k == PrevTall(Heights(nodes), Above(nodes, key), 0)
    {
      update := seq(MAXL, _ => head);
      p, k := head, -1;
      HeadPrecedes(key);
      Top(key, level);
      var i := level - 1;
      while i >= 0
        invariant -1 <= i < level && AtPosition(p, k) && k == PrevTall(Heights(nodes), Above(nodes, key), i + 1)
        invariant PredecessorsFrom(update, i + 1, Above(nodes, key))
      {
        p, k := Advance(p, i, key, k);
        update := update[i := p];
        i := i - 1;
      }
    }

    /** get. */
    method Get(key: Bytes) returns (exist: bool, val: Indexer)
      requires Valid() && key != []
      ensures exist <==> key in model
      ensures exist ==> val == model[key]
    {
      var p := Find(key);
      PresentIff(model, nodes, key);
      exist := p.key == key;
      val := p.val;
    }

    /** put: a key already there gets the new value, another a node of its own. */
    method Put(key: Bytes, val: Indexer)
      requires Valid() && key != []
      modifies this, head`level, nodes`level, nodes`val
      ensures Valid() && model == old(model)[key := val] && iter == old(iter)
      ensures forall n :: n in nodes ==> n in old(nodes) || fresh(n)
    {
      var there := Find(key);
      PresentIff(model, nodes, key);
      if there.key == key {
        Overwrite(there, val, Above(nodes, key));
      } else {
        AddNode(key, val);
      }
    }

    method Overwrite(there: StrSkipListNode, val: Indexer, ghost pos: nat)
      requires Valid() && pos < |nodes| && there == nodes[pos]
      modifies there`val, `model
      ensures Valid() && model == old(model)[there.key := val]
    {
      there.val := val;
      model := model[there.key := val];
      KeyAt(nodes, pos);
      forall k {:trigger nodes[k]} | 0 <= k < |nodes| ensures Stored(model, nodes[k]) {
        assert old(Stored(model, nodes[k]));
        KeyAt(nodes, k);
      }
    }

    method AddNode(key: Bytes, val: Indexer)
      requires Valid() && key != [] && !HasKey(nodes, key)
      modifies `nodes, `model, `level, `length, head`level, nodes`level
      ensures Valid() && model == old(model)[key := val]
      ensures forall n :: n in nodes ==> n in old(nodes) || fresh(n)
    {
      hide *;
      ValidParts();
      ghost var pos := Above(nodes, key);
      var update, _, _ := FindPredecessors(key);
      var lv := RandomLevel();
      update, lv := Raise(update, lv, pos);
      var newNode := new StrSkipListNode(key, val, lv);
      Splice(newNode, update, pos);
      InsertContains(nodes, pos, newNode);
      Count(pos, newNode);
    }

    /** A height above the top level becomes one level more, with the head as its predecessor. */
    method Raise(update0: seq<StrSkipListNode>, lv0: nat, ghost pos: nat)
        returns (update: seq<StrSkipListNode>, lv: nat)
      requires Shape() && TopUsed(nodes, level) && pos <= |nodes| && PredecessorsFrom(update0, 0, pos)
               && 1 <= lv0 <= MAXL
      modifies `level
      ensures Shape() && 1 <= lv <= level && |update| == lv && Predecessors(update, lv, pos)
      ensures TopUsed(nodes, level) || lv == level
    {
      update, lv := update0, lv0;
      if lv > level {
        level := level + 1;
        lv := level;
        update := update[lv - 1 := head];
        PrevTallIs(Heights(nodes), pos, lv - 1, -1);
      }
      update := update[..lv];
    }

    /** Threads `newNode` into each of its levels behind that level's predecessor. */
    method Splice(newNode: StrSkipListNode, update: seq<StrSkipListNode>, ghost pos: nat)
      requires Shape() && Links() && pos <= |nodes| && newNode != head && newNode !in nodes
      requires 1 <= |update| == newNode.height == |newNode.level| <= MAXL && Predecessors(update, |update|, pos)
      modifies newNode`level, head`level, nodes`level
      ensures Spliced(nodes, pos, newNode)
    {
      var i := |update| - 1;
      forall k {:trigger PartAt(pos, newNode, i + 1, nodes[k], k)} | 0 <= k < |nodes|
        ensures PartAt(pos, newNode, i + 1, nodes[k], k) {
        assert Linked(nodes[k], k + 1);
      }
      while i >= 0
        invariant -1 <= i < |update| && |newNode.level| == |update|
        invariant forall l :: i < l < |update| ==> newNode.level[l] == Succ(nodes, Heights(nodes), tail, pos, l)
        invariant PartAt(pos, newNode, i + 1, head, -1)
        invariant forall k {:trigger PartAt(pos, newNode, i + 1, nodes[k], k)} :: 0 <= k < |nodes| ==>
                  PartAt(pos, newNode, i + 1, nodes[k], k)
      {
        SpliceLevel(newNode, update, pos, i);
        i := i - 1;
      }
      assert SplicedAt(nodes, pos, newNode, head, -1);
      forall k {:trigger SplicedAt(nodes, pos, newNode, nodes[k], k)} | 0 <= k < |nodes|
        ensures SplicedAt(nodes, pos, newNode, nodes[k], k)
      {
        assert PartAt(pos, newNode, 0, nodes[k], k);
      }
    }

    /** randomLevel, whatever the coin shows. */
    static method RandomLevel() returns (lv: nat)
      ensures 1 <= lv <= MAXL
    {
      lv := 1;
      var heads: bool := *;
      while lv < MAXL && heads
        invariant 1 <= lv <= MAXL
      {
        lv := lv + 1;
        heads := *;
      }
    }

    lemma ValidParts()
      requires Valid()
      ensures Shape() && Links() && TailEnds() && TopUsed(nodes, level) && Refines(model, nodes)
    {
    }

    lemma ShapeParts()
      requires Shape()
      ensures head.height == MAXL && tail.height == MAXL && head.key == [] && tail.key == []
      ensures head != tail && head !in nodes && tail !in nodes
      ensures Descending(nodes) && Fits(nodes, level) && 0 <= level <= MAXL == 32 && length == |nodes|
    {
    }

    lemma Whole()
      requires head.height == MAXL && tail.height == MAXL && head.key == [] && tail.key == []
      requires head != tail && head !in nodes && tail !in nodes
      requires Descending(nodes) && Fits(nodes, level) && 0 <= level <= 32 && length == |nodes|
      requires Links() && TailEnds() && TopUsed(nodes, level) && Refines(model, nodes)
      ensures Valid()
    {
    }

    /** The spliced node is counted in: put's last steps. */
    method Count(ghost pos: nat, newNode: StrSkipListNode)
      requires Shape() && pos == Above(nodes, newNode.key) && Spliced(nodes, pos, newNode)
      requires newNode != head && newNode != tail && 1 <= newNode.height <= level
      requires TailEnds() && (TopUsed(nodes, level) || newNode.height == level)
      requires Refines(model, nodes) && !HasKey(nodes, newNode.key) && newNode.key != []
      modifies `nodes, `model, `length
      ensures Valid() && nodes == InsertAt(old(nodes), pos, newNode) && model == old(model)[newNode.key := newNode.val]
    {
      hide *;
      ghost var old_ := nodes;
      ShapeParts();
      InsertFits(nodes, pos, newNode, level);
      InsertRefines(model, nodes, pos, newNode);
      length := length + 1;
      model := model[newNode.key := newNode.val];
      nodes := InsertAt(nodes, pos, newNode);
      InsertLinks(old_, pos, newNode);
      InsertContains(old_, pos, newNode);
      Whole();
    }

    // ---- the iterator ----

    /** Begin. */
    method Begin()
      requires Valid()
      modifies `iter
      ensures Valid() && iter == NodeAt(nodes, tail, 0)
    {
      Next0(head, -1);
      iter := head.level[0];
    }

    /** End: the node reached is the tail. */
    method End() returns (atEnd: bool)
      requires Valid() && iter != null && (iter == tail || iter in nodes)
      ensures atEnd <==> iter == tail
    {
      if iter != tail {
        ghost var k :| 0 <= k < |nodes| && nodes[k] == iter;
        Next0(iter, k);
      }
      atEnd := iter.level[0] == null;
    }

    /** Next: from one node to the node after it, and from the last to the tail. */
    method Next(ghost k: nat)
      requires Valid() && k < |nodes| && iter == nodes[k]
      modifies `iter
      ensures Valid() && iter == NodeAt(nodes, tail, k + 1)
    {
      Next0(iter, k);
      iter := iter.level[0];
    }

    /** CurIterKeyValue. */
    method CurIterKeyValue() returns (curKey: Bytes, curValue: Indexer)
      requires iter != null
      ensures curKey == iter.key && curValue == iter.val
    {
      return iter.key, iter.val;
    }

    /** Begin to End visits each entry of the map once, by descending key. */
    method Visit() returns (seen: seq<(Bytes, Indexer)>)
      requires Valid()
      modifies `iter
      ensures Valid() && iter == tail
      ensures forall a, b :: 0 <= a < b < |seen| ==> Less(seen[b].0, seen[a].0)
      ensures forall a :: 0 <= a < |seen| ==> seen[a].0 in model && seen[a].1 == model[seen[a].0]
      ensures forall key :: key in model ==> exists a :: 0 <= a < |seen| && seen[a].0 == key
    {
      hide *;
      seen := [];
      Begin();
      IterPlace(0);
      var atEnd := End();
      while !atEnd
        invariant Valid() && |seen| <= |nodes| && iter == NodeAt(nodes, tail, |seen|) && iter != null
                  && (atEnd <==> iter == tail)
        invariant forall a :: 0 <= a < |seen| ==> seen[a] == (nodes[a].key, nodes[a].val)
        decreases |nodes| - |seen|
      {
        IterPlace(|seen|);
        var curKey, curValue := CurIterKeyValue();
        Next(|seen|);
        seen := seen + [(curKey, curValue)];
        IterPlace(|seen|);
        atEnd := End();
      }
      IterPlace(|seen|);
      SeenAll(seen);
    }

    lemma IterPlace(k: nat)
      requires Valid() && k <= |nodes| && iter == NodeAt(nodes, tail, k)
      ensures iter == tail <==> k == |nodes|
      ensures iter != null && (iter == tail || iter in nodes) && (k < |nodes| ==> iter == nodes[k])
    {
    }

    lemma SeenAll(seen: seq<(Bytes, Indexer)>)
      requires Valid() && |seen| == |nodes| && forall a :: 0 <= a < |seen| ==> seen[a] == (nodes[a].key, nodes[a].val)
      ensures forall a, b :: 0 <= a < b < |seen| ==> Less(seen[b].0, seen[a].0)
      ensures forall a :: 0 <= a < |seen| ==> seen[a].0 in model && seen[a].1 == model[seen[a].0]
      ensures forall key :: key in model ==> exists a :: 0 <= a < |seen| && seen[a].0 == key
    {
      forall a | 0 <= a < |seen| ensures seen[a].0 in model && seen[a].1 == model[seen[a].0] {
        assert Stored(model, nodes[a]);
      }
      forall key | key in model ensures exists a :: 0 <= a < |seen| && seen[a].0 == key {
        PresentIff(model, nodes, key);
        assert seen[Above(nodes, key)].0 == key;
      }
    }

    /** On every level keys strictly descend, down to the tail; from `level` up there is only the tail. */
    lemma LevelDescends(n: StrSkipListNode, k: int, i: nat)
      requires Valid() && AtPosition(n, k) && i < n.height
      ensures |n.level| == n.height && n.level[i] != null && (n.level[i] == tail || n.level[i] in nodes)
      ensures k >= 0 ==> Less(n.level[i].key, n.key)
      ensures i >= level ==> k == -1 && n.level[i] == tail
    {
      assert Linked(n, k + 1) by {
        if k >= 0 { assert Linked(nodes[k], k + 1); }
      }
      var j := NextTall(Heights(nodes), k + 1, i);
      if j < |nodes| { assert n.level[i] == nodes[j]; }
    }

    lemma Next0(p: StrSkipListNode, k: int)
      requires Shape() && Links() && AtPosition(p, k)
      ensures p.level != [] && p.level[0] == NodeAt(nodes, tail, k + 1)
    {
      if k >= 0 { assert Linked(nodes[k], k + 1); }
      NextTallIs(Heights(nodes), k + 1, 0, k + 1);
    }

    // ---- erase ----

    /** erase. */
    method Erase(key: Bytes) returns (ok: bool)
      requires Valid() && key != []
      modifies this, head`level, nodes`level
      ensures Valid() && model == old(model) - {key} && iter == old(iter) && (ok <==> key in old(model))
      ensures forall n :: n in nodes ==> n in old(nodes)
    {
      ghost var pos := Above(nodes, key);
      PresentIff(model, nodes, key);
      var update, p, k := FindPredecessors(key);
      Bottom(p, k, key);
      p := p.level[0];
      if p.key != key {
        return false;
      }
      DropNode(p, update, pos);
      return true;
    }

    method DropNode(p: StrSkipListNode, update: seq<StrSkipListNode>, ghost pos: nat)
      requires Valid() && pos < |nodes| && p == nodes[pos] && PredecessorsFrom(update, 0, pos)
      modifies `nodes, `model, `level, `length, head`level, nodes`level
      ensures Valid() && nodes == RemoveAt(old(nodes), pos) && model == old(model) - {p.key}
    {
      Unlink(p, update, pos);
      Discount(pos);
      Lower();
    }

    /** Each level has skipped the node at `pos` up to level `c`. */
    ghost predicate CutAt(old_: seq<StrSkipListNode>, pos: nat, c: nat, n: StrSkipListNode, k: int)
      requires pos < |old_| && -1 <= k < |old_|
      reads n`level
    {
      |n.level| == n.height && CutLevel(n.level, old_, Heights(old_), tail, pos, c, k)
    }

    ghost predicate CutAll(old_: seq<StrSkipListNode>, pos: nat, c: nat)
      requires pos < |old_|
      reads head`level, old_`level
    {
      CutAt(old_, pos, c, head, -1) && forall k {:trigger CutAt(old_, pos, c, old_[k], k)} :: 0 <= k < |old_| ==>
          CutAt(old_, pos, c, old_[k], k)
    }

    method Unlink(p: StrSkipListNode, update: seq<StrSkipListNode>, ghost pos: nat)
      requires Shape() && Links() && pos < |nodes| && p == nodes[pos] && PredecessorsFrom(update, 0, pos)
      modifies head`level, nodes`level
      ensures CutAll(nodes, pos, p.height)
    {
      var i := 0;
      CutNone(pos);
      while i < level
        invariant 0 <= i <= p.height <= level && CutAll(nodes, pos, i)
      {
        Leads(update[i], pos, i);
        if update[i].level[i] != p {
          break;
        }
        CutOff(p, update[i], pos, i);
        i := i + 1;
      }
    }

    lemma CutNone(pos: nat)
      requires Links() && pos < |nodes|
      ensures CutAll(nodes, pos, 0)
    {
      forall k {:trigger CutAt(nodes, pos, 0, nodes[k], k)} | 0 <= k < |nodes|
        ensures CutAt(nodes, pos, 0, nodes[k], k) {
        assert Linked(nodes[k], k + 1);
      }
    }

    /** The predecessor's link is to the node exactly on the node's own levels. */
    lemma Leads(q: StrSkipListNode, pos: nat, i: nat)
      requires Shape() && pos < |nodes| && i < level && CutAll(nodes, pos, i)
               && AtPosition(q, PrevTall(Heights(nodes), pos, i))
      ensures i < |q.level| && (q.level[i] == nodes[pos] <==> i < nodes[pos].height)
    {
      var hs, k := Heights(nodes), PrevTall(Heights(nodes), pos, i);
      assert CutAt(nodes, pos, i, q, k);
      if i < nodes[pos].height { NextTallIs(hs, k + 1, i, pos); }
    }

    /** One turn of the unlinking loop. */
    method CutOff(p: StrSkipListNode, q: StrSkipListNode, ghost pos: nat, i: nat)
      requires Shape() && pos < |nodes| && p == nodes[pos] && i < p.height && CutAll(nodes, pos, i)
      requires AtPosition(q, PrevTall(Heights(nodes), pos, i)) && i < |q.level|
      modifies q`level
      ensures CutAll(nodes, pos, i + 1)
    {
      ghost var k := PrevTall(Heights(nodes), pos, i);
      assert CutAt(nodes, pos, i, p, pos);
      q.level := q.level[i := p.level[i]];
      SamePosition(q, k, head, -1);
      assert old(CutAt(nodes, pos, i, head, -1));
      CutStep(old(head.level), nodes, Heights(nodes), tail, pos, i, -1);
      forall j {:trigger CutAt(nodes, pos, i + 1, nodes[j], j)} | 0 <= j < |nodes|
        ensures CutAt(nodes, pos, i + 1, nodes[j], j) {
        SamePosition(q, k, nodes[j], j);
        assert old(CutAt(nodes, pos, i, nodes[j], j));
        CutStep(old(nodes[j].level), nodes, Heights(nodes), tail, pos, i, j);
      }
    }

    /** The unlinked node is no longer counted. */
    method Discount(ghost pos: nat)
      requires Shape() && pos < |nodes| && CutAll(nodes, pos, nodes[pos].height) && Refines(model, nodes)
      modifies `length, `nodes, `model
      ensures Shape() && Links() && Refines(model, nodes)
      ensures nodes == RemoveAt(old(nodes), pos) && model == old(model) - {old(nodes)[pos].key}
    {
      ghost var old_ := nodes;
      length := length - 1;
      RemoveFits(old_, pos, level);
      RemoveRefines(model, nodes, pos);
      model := model - {nodes[pos].key};
      nodes := RemoveAt(nodes, pos);
      RemoveLinks(old_, pos);
    }

    lemma RemoveLinks(old_: seq<StrSkipListNode>, pos: nat)
      requires pos < |old_| && nodes == RemoveAt(old_, pos) && CutAll(old_, pos, old_[pos].height)
      ensures Links()
    {
      CutLinks(old_, pos, head, -1);
      forall k {:trigger Linked(nodes[k], k + 1)} | 0 <= k < |nodes| ensures Linked(nodes[k], k + 1) {
        var k' := if k < pos then k else k + 1;
        assert CutAt(old_, pos, old_[pos].height, old_[k'], k');
        CutLinks(old_, pos, nodes[k], k');
      }
    }

    lemma CutLinks(old_: seq<StrSkipListNode>, pos: nat, n: StrSkipListNode, k: int)
      requires pos < |old_| && nodes == RemoveAt(old_, pos) && -1 <= k < |old_| && k != pos
      requires (k >= 0 ==> n == old_[k]) && CutAt(old_, pos, old_[pos].height, n, k)
      ensures Linked(n, if k < pos then k + 1 else k)
    {
      HeightsRemove(old_, pos);
      forall i {:trigger n.level[i]} | 0 <= i < n.height
        ensures n.level[i] == Succ(nodes, Heights(nodes), tail, if k < pos then k + 1 else k, i)
      {
        if k > pos {
          SuccPastRemove(old_, Heights(old_), tail, pos, k, i);
        } else {
          SuccBeforeRemove(old_, Heights(old_), tail, pos, k, i);
        }
      }
    }

    /** The levels that lost their last node are given up. */
    method Lower()
      requires Shape() && Links()
      modifies `level
      ensures Shape() && Links() && TopUsed(nodes, level)
    {
      while level > 0 && head.level[level - 1] == tail
        invariant Shape() && Links()
        decreases level
      {
        EmptyLevel(level - 1);
        level := level - 1;
      }
      if level > 0 { EmptyLevel(level - 1); }
    }

    /** The head leads straight to the tail exactly where no node is that tall. */
    lemma EmptyLevel(i: nat)
      requires Shape() && Links() && i < level
      ensures head.level[i] == tail ==> Fits(nodes, i)
      ensures head.level[i] != tail ==> exists k :: 0 <= k < |nodes| && nodes[k].height > i
    {
      var j := NextTall(Heights(nodes), 0, i);
      assert head.level[i] == Succ(nodes, Heights(nodes), tail, 0, i);
      if j < |nodes| { assert nodes[j].height > i; }
    }

    /** The links after a splice, in terms of the nodes before it. */
    ghost predicate Spliced(old_: seq<StrSkipListNode>, p: nat, newNode: StrSkipListNode)
      requires p <= |old_|
      reads head`level, newNode`level, old_`level
    {
      && |newNode.level| == newNode.height
      && (forall i :: 0 <= i < newNode.height ==> newNode.level[i] == Succ(old_, Heights(old_), tail, p, i))
      && SplicedAt(old_, p, newNode, head, -1)
      && (forall k {:trigger SplicedAt(old_, p, newNode, old_[k], k)} :: 0 <= k < |old_| ==>
           SplicedAt(old_, p, newNode, old_[k], k))
    }

    ghost predicate SplicedAt(old_: seq<StrSkipListNode>, p: nat, newNode: StrSkipListNode, n: StrSkipListNode, k: int)
      requires p <= |old_| && -1 <= k < |old_|
      reads n`level
    {
      |n.level| == n.height && PartLevel(n.level, old_, Heights(old_), tail, p, newNode, newNode.height, 0, k)
    }

    /** Positions tell the head and the nodes apart. */
    lemma SamePosition(a: StrSkipListNode, k: int, b: StrSkipListNode, l: int)
      requires head !in nodes && Descending(nodes) && AtPosition(a, k) && AtPosition(b, l)
      ensures a == b <==> k == l
    {
      if k >= 0 { KeyAt(nodes, k); }
      if l >= 0 { KeyAt(nodes, l); }
    }

    /** Levels from `c` on have been spliced at node `n`, at position `k`. */
    ghost predicate PartAt(p: nat, newNode: StrSkipListNode, c: nat, n: StrSkipListNode, k: int)
      requires p <= |nodes| && -1 <= k < |nodes|
      reads `nodes, n`level
    {
      |n.level| == n.height && PartLevel(n.level, nodes, Heights(nodes), tail, p, newNode, newNode.height, c, k)
    }

    /** One turn of the splicing loop. */
    method SpliceLevel(newNode: StrSkipListNode, update: seq<StrSkipListNode>, ghost pos: nat, i: nat)
      requires Shape() && pos <= |nodes| && newNode != head && newNode !in nodes
      requires i < |update| == newNode.height == |newNode.level| <= MAXL && Predecessors(update, |update|, pos)
      requires PartAt(pos, newNode, i + 1, head, -1)
      requires forall k {:trigger PartAt(pos, newNode, i + 1, nodes[k], k)} :: 0 <= k < |nodes| ==>
               PartAt(pos, newNode, i + 1, nodes[k], k)
      modifies newNode`level, head`level, nodes`level
      ensures PartAt(pos, newNode, i, head, -1)
      ensures forall k {:trigger PartAt(pos, newNode, i, nodes[k], k)} :: 0 <= k < |nodes| ==>
              PartAt(pos, newNode, i, nodes[k], k)
      ensures |newNode.level| == old(|newNode.level|) && newNode.level[i] == Succ(nodes, Heights(nodes), tail, pos, i)
      ensures forall l :: 0 <= l < |newNode.level| && l != i ==> newNode.level[l] == old(newNode.level[l])
    {
      var p := update[i];
      ghost var k := PrevTall(Heights(nodes), pos, i);
      assert AtPosition(p, k) && PartAt(pos, newNode, i + 1, p, k);
      SuccAcross(nodes, Heights(nodes), tail, pos, k, i);
      newNode.level := newNode.level[i := p.level[i]];
      p.level := p.level[i := newNode];
      SamePosition(p, k, head, -1);
      PartStep(old(head.level), nodes, Heights(nodes), tail, pos, newNode, newNode.height, i, -1);
      forall j {:trigger PartAt(pos, newNode, i, nodes[j], j)} | 0 <= j < |nodes|
        ensures PartAt(pos, newNode, i, nodes[j], j) {
        SamePosition(p, k, nodes[j], j);
        assert old(PartAt(pos, newNode, i + 1, nodes[j], j));
        PartStep(old(nodes[j].level), nodes, Heights(nodes), tail, pos, newNode, newNode.height, i, j);
      }
    }

    lemma InsertLinks(old_: seq<StrSkipListNode>, p: nat, newNode: StrSkipListNode)
      requires p <= |old_| && nodes == InsertAt(old_, p, newNode) && Spliced(old_, p, newNode)
      ensures Links()
    {
      OldLinks(old_, p, newNode, head, -1);
      NewLinks(old_, p, newNode);
      forall k {:trigger Linked(nodes[k], k + 1)} | 0 <= k < |nodes| ensures Linked(nodes[k], k + 1) {
        if k != p {
          OldLinks(old_, p, newNode, nodes[k], if k < p then k else k - 1);
        }
      }
    }

    lemma NewLinks(old_: seq<StrSkipListNode>, p: nat, newNode: StrSkipListNode)
      requires p <= |old_| && nodes == InsertAt(old_, p, newNode)
      requires |newNode.level| == newNode.height
      requires forall i :: 0 <= i < newNode.height ==> newNode.level[i] == Succ(old_, Heights(old_), tail, p, i)
      ensures Linked(newNode, p + 1)
    {
      HeightsInsert(old_, p, newNode);
      forall i {:trigger newNode.level[i]} | 0 <= i < newNode.height
        ensures newNode.level[i] == Succ(nodes, Heights(nodes), tail, p + 1, i) {
        SuccPastInsert(old_, Heights(old_), tail, p, newNode, newNode.height, p, i);
      }
    }

    lemma OldLinks(old_: seq<StrSkipListNode>, p: nat, newNode: StrSkipListNode, n: StrSkipListNode, k: int)
      requires p <= |old_| && nodes == InsertAt(old_, p, newNode) && -1 <= k < |old_|
      requires (k >= 0 ==> n == old_[k]) && SplicedAt(old_, p, newNode, n, k)
      ensures Linked(n, if k < p then k + 1 else k + 2)
    {
      HeightsInsert(old_, p, newNode);
      forall i {:trigger n.level[i]} | 0 <= i < n.height
        ensures n.level[i] == Succ(nodes, Heights(nodes), tail, if k < p then k + 1 else k + 2, i)
      {
        if k >= p {
          SuccPastInsert(old_, Heights(old_), tail, p, newNode, newNode.height, k + 1, i);
        } else {
          SuccBeforeInsert(old_, Heights(old_), tail, p, newNode, newNode.height, k, i);
        }
      }
    }
  }

  lemma HeightsRemove(old_: seq<StrSkipListNode>, p: nat)
    requires p < |old_|
    ensures Heights(RemoveAt(old_, p)) == RemoveAt(Heights(old_), p)
  {
  }

  lemma RemoveFits(old_: seq<StrSkipListNode>, p: nat, level: int)
    requires Descending(old_) && p < |old_| && Fits(old_, level)
    ensures Descending(RemoveAt(old_, p)) && Fits(RemoveAt(old_, p), level)
  {
  }

  lemma HeightsInsert(old_: seq<StrSkipListNode>, p: nat, newNode: StrSkipListNode)
    requires p <= |old_|
    ensures Heights(InsertAt(old_, p, newNode)) == InsertAt(Heights(old_), p, newNode.height)
  {
  }

  lemma RemoveRefines(m: map<Bytes, Indexer>, nodes: seq<StrSkipListNode>, pos: nat)
    requires Descending(nodes) && pos < |nodes| && Refines(m, nodes) && Descending(RemoveAt(nodes, pos))
    ensures Refines(m - {nodes[pos].key}, RemoveAt(nodes, pos))
  {
    var nodes', m' := RemoveAt(nodes, pos), m - {nodes[pos].key};
    KeyAt(nodes, pos);
    forall k {:trigger nodes'[k]} | 0 <= k < |nodes'| ensures Stored(m', nodes'[k]) {
      RemovedAt(nodes, pos, k);
      var k' := if k < pos then k else k + 1;
      KeyAt(nodes, k');
      assert Stored(m, nodes[k']);
    }
    forall key {:trigger HasKey(nodes', key)} | key in m' ensures HasKey(nodes', key) {
      PresentIff(m, nodes, key);
      var a := Above(nodes, key);
      RemovedAt(nodes, pos, if a < pos then a else a - 1);
      KeyAt(nodes', if a < pos then a else a - 1);
    }
  }

  lemma InsertFits(old_: seq<StrSkipListNode>, p: nat, newNode: StrSkipListNode, level: int)
    requires Descending(old_) && p == Above(old_, newNode.key) && !HasKey(old_, newNode.key) && newNode.key != []
    requires Fits(old_, level) && 1 <= newNode.height <= level && (TopUsed(old_, level) || newNode.height == level)
    ensures Descending(InsertAt(old_, p, newNode)) && Fits(InsertAt(old_, p, newNode), level)
    ensures TopUsed(InsertAt(old_, p, newNode), level)
  {
    var nodes := InsertAt(old_, p, newNode);
    InsertDescends(old_, p, newNode);
    assert nodes[p] == newNode;
    if newNode.height < level {
      var k :| 0 <= k < |old_| && old_[k].height == level;
      assert nodes[if k < p then k else k + 1] == old_[k];
    }
  }

  lemma InsertDescends(old_: seq<StrSkipListNode>, p: nat, newNode: StrSkipListNode)
    requires Descending(old_) && p == Above(old_, newNode.key) && !HasKey(old_, newNode.key)
    ensures Descending(InsertAt(old_, p, newNode))
  {
    var nodes := InsertAt(old_, p, newNode);
    forall a, b | 0 <= a < b < |nodes| ensures Less(nodes[b].key, nodes[a].key) {
      InsertedAt(old_, p, newNode, a);
      InsertedAt(old_, p, newNode, b);
      if a == p {
        NotAbove(old_, newNode.key, b - 1);
        LessTotal(old_[b - 1].key, newNode.key);
        AbsentAt(old_, newNode.key, b - 1);
      }
    }
  }

  lemma InsertRefines(m: map<Bytes, Indexer>, old_: seq<StrSkipListNode>, p: nat, newNode: StrSkipListNode)
    requires Descending(old_) && p == Above(old_, newNode.key) && !HasKey(old_, newNode.key) && Refines(m, old_)
    requires Descending(InsertAt(old_, p, newNode))
    ensures Refines(m[newNode.key := newNode.val], InsertAt(old_, p, newNode))
  {
    var nodes, m' := InsertAt(old_, p, newNode), m[newNode.key := newNode.val];
    forall k {:trigger nodes[k]} | 0 <= k < |nodes| ensures Stored(m', nodes[k]) {
      InsertedAt(old_, p, newNode, k);
      if k != p {
        var k' := if k < p then k else k - 1;
        KeyAt(old_, k');
        assert Stored(m, old_[k']);
      }
    }
    forall key {:trigger HasKey(nodes, key)} | key in m' ensures HasKey(nodes, key) {
      if key != newNode.key { PresentIff(m, old_, key); }
      var a := if key == newNode.key then p else if Above(old_, key) < p then Above(old_, key)
          else Above(old_, key) + 1;
      InsertedAt(old_, p, newNode, a);
      KeyAt(nodes, a);
    }
  }
}
