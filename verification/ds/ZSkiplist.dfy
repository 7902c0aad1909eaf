/** The skip list behind a sorted set: nodes by score, members by name within
    a node, up to 32 levels of links. */
module ZSkiplist {
  import opened Coding
  import opened SkipLinks
  import opened Members
  import opened ScoreGroups
  import opened Ranking

  class SkipListNode {
    const score: real
    const height: nat
    var members: seq<Bytes>
    var level: seq<SkipListNode?>

    constructor (score: real, sz: nat)
      ensures this.score == score && height == sz && members == [] && level == seq(sz, _ => null)
    {
      this.score, height, members := score, sz, [];
      level := seq(sz, _ => null);
    }
  }

  function Heights(nodes: seq<SkipListNode>): (hs: seq<nat>)
    ensures |hs| == |nodes| && forall k :: 0 <= k < |hs| ==> hs[k] == nodes[k].height
  {
    seq(|nodes|, k requires 0 <= k < |nodes| => nodes[k].height)
  }

  /** How many nodes score below `t`. */
  function Below(nodes: seq<SkipListNode>, t: real): (p: nat)
    ensures p <= |nodes|
    ensures forall a :: 0 <= a < p ==> nodes[a].score < t
    ensures p < |nodes| ==> nodes[p].score >= t
  {
    BelowFrom(nodes, 0, t)
  }

  function BelowFrom(nodes: seq<SkipListNode>, k: nat, t: real): (p: nat)
    requires k <= |nodes|
    ensures k <= p <= |nodes|
    ensures forall a :: k <= a < p ==> nodes[a].score < t
    ensures p < |nodes| ==> nodes[p].score >= t
    decreases |nodes| - k
  {
    if k == |nodes| || nodes[k].score >= t then k else BelowFrom(nodes, k + 1, t)
  }

  predicate ByNodeScore(nodes: seq<SkipListNode>) {
    forall a, b :: 0 <= a < b < |nodes| ==> nodes[a].score < nodes[b].score
  }

  predicate Fits(nodes: seq<SkipListNode>, level: int) {
    forall k {:trigger nodes[k]} :: 0 <= k < |nodes| ==> nodes[k].score < INT_MAX && 1 <= nodes[k].height <= level
  }

  /** Each node holds its group's members. */
  ghost predicate Agree(nodes: seq<SkipListNode>, groups: seq<Group>)
    reads nodes`members
  {
    |groups| == |nodes| && forall k {:trigger nodes[k]} {:trigger groups[k]} :: 0 <= k < |nodes| ==>
        groups[k] == Group(nodes[k].score, nodes[k].members)
  }

  /** The top level is in use: from `level` up the head leads straight to the tail. */
  ghost predicate TopUsed(nodes: seq<SkipListNode>, level: int) {
    level > 0 ==> exists k :: 0 <= k < |nodes| && nodes[k].height == level
  }

  class Skiplist {
    const head: SkipListNode
    const tail: SkipListNode
    var level: int
    var length: int
    ghost var nodes: seq<SkipListNode>   // between head and tail, in order
    ghost var groups: seq<Group>         // what they hold

    ghost predicate Shape()
      reads `level, `length, `nodes
    {
      && head.height == MAXL && tail.height == 0 && tail.score == INT_MAX
      && head != tail && head !in nodes && tail !in nodes
      && ByNodeScore(nodes) && Fits(nodes, level)
      && 0 <= level <= MAXL && length == |nodes|
    }

    /** Each level links the nodes it threads, in order, and ends at the tail. */
    ghost predicate Linked(n: SkipListNode, k: nat)
      requires k <= |nodes|
      reads `nodes, n`level
    {
      |n.level| == n.height && forall i {:trigger n.level[i]} :: 0 <= i < n.height ==>
          n.level[i] == Succ(nodes, Heights(nodes), tail, k, i)
    }

    ghost predicate Links()
      reads `nodes, head`level, nodes`level
    {
      Linked(head, 0) && forall k {:trigger Linked(nodes[k], k + 1)} :: 0 <= k < |nodes| ==> Linked(nodes[k], k + 1)
    }

    ghost predicate Valid()
      reads this, head`level, tail, nodes`level, nodes`members
    {
      Shape() && Links() && tail.level == [] && tail.members == [] && TopUsed(nodes, level)
      && Agree(nodes, groups) && Sorted(groups)
    }

    ghost predicate AtPosition(p: SkipListNode, k: int)
      reads `nodes
    {
      -1 <= k < |nodes| && p == if k < 0 then head else nodes[k]
    }

    constructor ()
      ensures Valid() && nodes == [] && groups == [] && fresh(head) && fresh(tail) && level == 0
    {
      tail := new SkipListNode(INT_MAX, 0);
      head := new SkipListNode(INT_MAX, MAXL);
      level, length, nodes, groups := 0, 0, [], [];
      new;
      var i := 0;
      while i < MAXL
        invariant 0 <= i <= MAXL && |head.level| == MAXL && tail.level == [] && tail.members == []
        invariant forall j :: 0 <= j < i ==> head.level[j] == tail
        invariant nodes == [] && groups == [] && level == 0 && length == 0 && fresh(head) && fresh(tail)
      {
        head.level := head.level[i := tail];
        i := i + 1;
      }
    }

    /** On level `i` at a node scoring below `score`, at position `k`. */
    ghost predicate Walking(p: SkipListNode, k: int, i: nat, score: real)
      reads `nodes
    {
      AtPosition(p, k) && k < Below(nodes, score) && p.height > i
    }

    /** A link leads on exactly when it stays among the nodes scoring below `score`. */
    lemma Look(p: SkipListNode, k: int, i: nat, score: real)
      requires Shape() && Links() && Walking(p, k, i, score) && score < INT_MAX
      ensures |p.level| == p.height && p.level[i] == Succ(nodes, Heights(nodes), tail, k + 1, i)
      ensures var j := NextTall(Heights(nodes), k + 1, i);
              if j < Below(nodes, score) then p.level[i].score < score && Walking(p.level[i], j, i, score)
              else p.level[i].score >= score && k == PrevTall(Heights(nodes), Below(nodes, score), i)
    {
      assert Linked(p, k + 1) by {
        if k >= 0 { assert Linked(nodes[k], k + 1); }
      }
      LastBefore(Heights(nodes), Below(nodes, score), i, k);
    }

    /** The walk along level `i` from position `k0` to the last node scoring below `score`. */
    method Advance(start: SkipListNode, i: nat, score: real, ghost k0: int) returns (p: SkipListNode, ghost k: int)
      requires Shape() && Links() && score < INT_MAX && Walking(start, k0, i, score)
      ensures AtPosition(p, k) && k == PrevTall(Heights(nodes), Below(nodes, score), i)
    {
      p, k := start, k0;
      Look(p, k, i, score);
      while p.level[i] != null && p.level[i].score < score
        invariant Walking(p, k, i, score) && |p.level| == p.height
                  && p.level[i] == Succ(nodes, Heights(nodes), tail, k + 1, i)
        decreases |nodes| - k
      {
        Look(p, k, i, score);
        p, k := p.level[i], NextTall(Heights(nodes), k + 1, i);
        Look(p, k, i, score);
      }
      Look(p, k, i, score);
    }

    /** Above the top level the walk starts at the head. */
    lemma Top(score: real, i: nat)
      requires Shape() && i >= level
      ensures PrevTall(Heights(nodes), Below(nodes, score), i) == -1
    {
      PrevTallIs(Heights(nodes), Below(nodes, score), i, -1);
    }

    method Descend(score: real) returns (p: SkipListNode, ghost k: int)
      requires Shape() && Links() && score < INT_MAX
      ensures AtPosition(p, k) && k == PrevTall(Heights(nodes), Below(nodes, score), 0)
    {
      p, k := head, -1;
      Top(score, level);
      var i := level - 1;
      while i >= 0
        invariant -1 <= i < level && AtPosition(p, k) && k == PrevTall(Heights(nodes), Below(nodes, score), i + 1)
      {
        p, k := Advance(p, i, score, k);
        i := i - 1;
      }
    }

    /** find: the first node scoring at or above `score`, or the tail. */
    method Find(score: real) returns (r: SkipListNode)
      requires Valid() && score < INT_MAX
      ensures r == NodeAt(nodes, tail, Below(nodes, score))
    {
      ghost var k;
      r, k := Descend(score);
      Bottom(r, k, score);
      r := r.level[0];
    }

    /** Below the last level the walk stands right before position Below(score). */
    lemma Bottom(p: SkipListNode, k: int, score: real)
      requires Shape() && Links() && score < INT_MAX && AtPosition(p, k) && p.height > 0
      requires k == PrevTall(Heights(nodes), Below(nodes, score), 0)
      ensures k == Below(nodes, score) - 1
      ensures |p.level| == p.height && p.level[0] == NodeAt(nodes, tail, Below(nodes, score))
    {
      Look(p, k, 0, score);
      PrevTallIs(Heights(nodes), Below(nodes, score), 0, Below(nodes, score) - 1);
      NextTallIs(Heights(nodes), Below(nodes, score), 0, Below(nodes, score));
    }

    /** The vector `update` of add and erase: per level, the last node before the position. */
    ghost predicate Predecessors(update: seq<SkipListNode>, upto: int, pos: nat)
      requires pos <= |nodes|
      reads `nodes
    {
      upto <= |update| && forall i {:trigger update[i]} :: 0 <= i < upto ==>
          AtPosition(update[i], PrevTall(Heights(nodes), pos, i))
    }

    ghost predicate PredecessorsFrom(update: seq<SkipListNode>, lo: int, pos: nat)
      requires pos <= |nodes|
      reads `nodes
    {
      |update| == MAXL && forall i {:trigger update[i]} :: 0 <= i < MAXL && lo <= i ==>
          AtPosition(update[i], PrevTall(Heights(nodes), pos, i))
    }

    lemma HeadPrecedes(score: real)
      requires Shape()
      ensures PredecessorsFrom(seq(MAXL, _ => head), level, Below(nodes, score))
    {
      forall i | level <= i < MAXL ensures PrevTall(Heights(nodes), Below(nodes, score), i) == -1 {
        Top(score, i);
      }
    }

    method FindPredecessors(score: real) returns (update: seq<SkipListNode>, p: SkipListNode, ghost k: int)
      requires Shape() && Links() && score < INT_MAX
      ensures PredecessorsFrom(update, 0, Below(nodes, score))
      ensures AtPosition(p, k) && k == PrevTall(Heights(nodes), Below(nodes, score), 0)
    {
      update := seq(MAXL, _ => head);
      p, k := head, -1;
      HeadPrecedes(score);
      Top(score, level);
      var i := level - 1;
      while i >= 0
        invariant -1 <= i < level && AtPosition(p, k) && k == PrevTall(Heights(nodes), Below(nodes, score), i + 1)
        invariant PredecessorsFrom(update, i + 1, Below(nodes, score))
      {
        p, k := Advance(p, i, score, k);
        update := update[i := p];
        i := i - 1;
      }
    }

    lemma BelowIsFind0(score: real)
      requires Agree(nodes, groups)
      ensures Find0(groups, score) == Below(nodes, score)
    {
      Find0Is(groups, score, Below(nodes, score));
    }

    /** add: a new member of its score's node, or a new node of any height. */
    method Add(score: real, member: Bytes) returns (node: SkipListNode)
      requires Valid() && score < INT_MAX
      modifies this, head`level, nodes`level, nodes`members
      ensures Valid() && groups == AddTo(old(groups), score, member)
      ensures Find0(old(groups), score) < |nodes| && node == nodes[Find0(old(groups), score)]
      ensures if HasScore(old(groups), score) then nodes == old(nodes)
              else fresh(node) && nodes == InsertAt(old(nodes), Find0(old(groups), score), node)
    {
      node := Find(score);
      BelowIsFind0(score);
      if node.score == score {
        JoinNode(node, member, Below(nodes, score));
      } else {
        node := AddNode(score, member);
      }
    }

    /** The member goes into the node of its score. */
    method JoinNode(node: SkipListNode, member: Bytes, ghost pos: nat)
      requires Valid() && pos < |nodes| && node == nodes[pos]
      modifies node`members, `groups
      ensures Valid() && groups == old(groups)[pos := Group(node.score, Insert(old(groups)[pos].members, member))]
    {
      assert groups[pos] == Group(node.score, node.members) && Filled(groups[pos]);
      InsertAscends(node.members, member);
      node.members := Insert(node.members, member);
      groups := groups[pos := Group(node.score, node.members)];
      PutSorted(old(groups), pos, groups[pos]);
    }

    /** Threads `newNode` into each of its levels behind that level's predecessor. */
    method Splice(newNode: SkipListNode, update: seq<SkipListNode>, ghost pos: nat)
      requires Shape() && Links() && pos <= |nodes| && newNode != head && newNode !in nodes
      requires 1 <= |update| == newNode.height == |newNode.level| <= MAXL && Predecessors(update, |update|, pos)
      modifies newNode`level, head`level, nodes`level
      ensures Spliced(nodes, pos, newNode)
    {
      var i := |update| - 1;
      forall k {:trigger PartAt(pos, newNode, i + 1, nodes[k], k)} | 0 <= k < |nodes|
        ensures PartAt(pos, newNode, i + 1, nodes[k], k) {
        assert Linked(nodes[k], k + 1);
      }
      while i >= 0
        invariant -1 <= i < |update| && |newNode.level| == |update|
        invariant forall l :: i < l < |update| ==> newNode.level[l] == Succ(nodes, Heights(nodes), tail, pos, l)
        invariant PartAt(pos, newNode, i + 1, head, -1)
        invariant forall k {:trigger PartAt(pos, newNode, i + 1, nodes[k], k)} :: 0 <= k < |nodes| ==>
                  PartAt(pos, newNode, i + 1, nodes[k], k)
      {
        SpliceLevel(newNode, update, pos, i);
        i := i - 1;
      }
      assert SplicedAt(nodes, pos, newNode, head, -1);
      forall k {:trigger SplicedAt(nodes, pos, newNode, nodes[k], k)} | 0 <= k < |nodes|
        ensures SplicedAt(nodes, pos, newNode, nodes[k], k)
      {
        assert PartAt(pos, newNode, 0, nodes[k], k);
      }
    }

    method AddNode(score: real, member: Bytes) returns (newNode: SkipListNode)
      requires Valid() && score < INT_MAX && !HasScore(groups, score)
      modifies this, head`level, nodes`level
      ensures Valid() && fresh(newNode)
      ensures nodes == InsertAt(old(nodes), Find0(old(groups), score), newNode)
      ensures groups == InsertAt(old(groups), Find0(old(groups), score), Group(score, [member]))
    {
      hide *;
      ValidParts();
      ghost var pos := Below(nodes, score);
      BelowIsFind0(score);
      var update, _, _ := FindPredecessors(score);
      UpTo(update, pos);
      var lv := RandomLevel();
      newNode := new SkipListNode(score, lv);
      newNode.members := Insert(newNode.members, member);
      OneMember(score, member);
      Link(newNode, update[..lv], pos);
    }

    /** randomLevel, whatever the coin shows. */
    static method RandomLevel() returns (lv: nat)
      ensures 1 <= lv <= MAXL
    {
      lv := 1;
      var heads: bool := *;
      while lv < MAXL && heads
        invariant 1 <= lv <= MAXL
      {
        lv := lv + 1;
        heads := *;
      }
    }

    lemma ValidParts()
      requires Valid()
      ensures Shape() && Links() && Agree(nodes, groups) && tail.level == [] && tail.members == []
              && TopUsed(nodes, level)
    {
    }

    lemma UpTo(update: seq<SkipListNode>, pos: nat)
      requires pos <= |nodes| && PredecessorsFrom(update, 0, pos)
      ensures |update| == MAXL && forall n :: 0 <= n <= MAXL ==> Predecessors(update[..n], n, pos)
    {
    }

    /** Splices the new node in, and counts it. */
    method Link(newNode: SkipListNode, update: seq<SkipListNode>, ghost pos: nat)
      requires Valid() && pos == Below(nodes, newNode.score) && newNode != head && newNode != tail && newNode !in nodes
      requires 1 <= |update| == newNode.height == |newNode.level| <= MAXL && Predecessors(update, |update|, pos)
      requires !HasScore(groups, newNode.score) && Filled(Group(newNode.score, newNode.members))
      modifies this, newNode`level, head`level, nodes`level
      ensures Valid() && nodes == InsertAt(old(nodes), pos, newNode)
      ensures groups == InsertAt(old(groups), pos, Group(newNode.score, newNode.members))
    {
      Splice(newNode, update, pos);
      Count(pos, newNode);
    }

    /** The spliced node is counted in: add's last steps. */
    method Count(ghost pos: nat, newNode: SkipListNode)
      requires Shape() && pos == Below(nodes, newNode.score) && Spliced(nodes, pos, newNode)
      requires newNode != head && newNode != tail && 1 <= newNode.height <= MAXL
      requires tail.level == [] && tail.members == [] && TopUsed(nodes, level)
      requires Agree(nodes, groups) && Sorted(groups) && !HasScore(groups, newNode.score)
      requires Filled(Group(newNode.score, newNode.members))
      modifies this
      ensures Valid() && nodes == InsertAt(old(nodes), pos, newNode)
      ensures groups == InsertAt(old(groups), pos, Group(newNode.score, newNode.members))
    {
      hide *;
      ghost var old_ := nodes;
      ShapeParts();
      BelowIsFind0(newNode.score);
      InsertFits(nodes, groups, pos, newNode, level);
      if newNode.height > level {
        level := newNode.height;
      }
      length := length + 1;
      AgreeInsert(nodes, groups, pos, newNode);
      InsertSorted(groups, pos, Group(newNode.score, newNode.members));
      groups := InsertAt(groups, pos, Group(newNode.score, newNode.members));
      nodes := InsertAt(nodes, pos, newNode);
      InsertLinks(old_, pos, newNode);
      InsertContains(old_, pos, newNode);
      Whole();
    }

    lemma ShapeParts()
      requires Shape()
      ensures head.height == MAXL && tail.height == 0 && tail.score == INT_MAX && head != tail && head !in nodes
              && tail !in nodes
      ensures ByNodeScore(nodes) && Fits(nodes, level) && 0 <= level <= MAXL == 32 && length == |nodes|
    {
    }

    lemma Whole()
      requires head.height == MAXL && tail.height == 0 && tail.score == INT_MAX && head != tail && head !in nodes
               && tail !in nodes
      requires ByNodeScore(nodes) && Fits(nodes, level) && 0 <= level <= 32 && length == |nodes|
      requires Links() && tail.level == [] && tail.members == [] && TopUsed(nodes, level) && Agree(nodes, groups)
               && Sorted(groups)
      ensures Valid()
    {
    }

    // ---- erase ----

    /** erase: the member leaves its node, and a node left without members leaves the list. */
    method Erase(score: real, member: Bytes) returns (ok: bool)
      requires Valid() && score < INT_MAX
      modifies this, head`level, nodes`level, nodes`members
      ensures Valid() && groups == EraseFrom(old(groups), score, member)
      ensures ok <==> HasScore(old(groups), score) && member in old(groups)[Find0(old(groups), score)].members
      ensures nodes == if |groups| == old(|groups|) then old(nodes) else RemoveAt(old(nodes), Find0(old(groups), score))
    {
      ghost var pos := Below(nodes, score);
      BelowIsFind0(score);
      var update, p, k := FindPredecessors(score);
      Bottom(p, k, score);
      p := p.level[0];
      ok := p.score == score && member in p.members;
      assert ok ==> groups[pos] == Group(p.score, p.members);
      assert ok <==> HasScore(groups, score) && member in groups[pos].members;
      if ok {
        TakeOut(p, member, update, pos);
      }
    }

    method TakeOut(p: SkipListNode, member: Bytes, update: seq<SkipListNode>, ghost pos: nat)
      requires Valid() && pos < |nodes| && p == nodes[pos] && PredecessorsFrom(update, 0, pos) && member in p.members
      modifies this, head`level, nodes`level, p`members
      ensures Valid()
      ensures var rest := Members.Erase(old(p.members), member);
              if rest == [] then nodes == RemoveAt(old(nodes), pos) && groups == RemoveAt(old(groups), pos)
              else nodes == old(nodes) && groups == old(groups)[pos := Group(p.score, rest)]
    {
      EraseAscends(p.members, member);
      assert groups[pos] == Group(p.score, p.members) && Filled(groups[pos]);
      p.members := Members.Erase(p.members, member);
      if !(p.members == []) {
        groups := groups[pos := Group(p.score, p.members)];
        PutSorted(old(groups), pos, groups[pos]);
        return;
      }
      DropNode(p, update, pos);
    }

    /** Agreement everywhere but at one position. */
    ghost predicate AgreeBut(pos: nat)
      reads `nodes, `groups, nodes`members
    {
      |groups| == |nodes| && forall k {:trigger nodes[k]} {:trigger groups[k]} :: 0 <= k < |nodes| && k != pos ==>
          groups[k] == Group(nodes[k].score, nodes[k].members)
    }

    /** A node without members is unlinked from all its levels. */
    method DropNode(p: SkipListNode, update: seq<SkipListNode>, ghost pos: nat)
      requires Shape() && Links() && pos < |nodes| && p == nodes[pos] && PredecessorsFrom(update, 0, pos)
      requires AgreeBut(pos) && Sorted(groups) && tail.level == [] && tail.members == []
      modifies this, head`level, nodes`level
      ensures Valid() && nodes == RemoveAt(old(nodes), pos) && groups == RemoveAt(old(groups), pos)
    {
      Unlink(p, update, pos);
      Discount(pos);
      Lower();
    }

    /** Each level has skipped the node at `pos` up to level `c`. */
    ghost predicate CutAt(old_: seq<SkipListNode>, pos: nat, c: nat, n: SkipListNode, k: int)
      requires pos < |old_| && -1 <= k < |old_|
      reads n`level
    {
      |n.level| == n.height && CutLevel(n.level, old_, Heights(old_), tail, pos, c, k)
    }

    ghost predicate CutAll(old_: seq<SkipListNode>, pos: nat, c: nat)
      requires pos < |old_|
      reads head`level, old_`level
    {
      CutAt(old_, pos, c, head, -1) && forall k {:trigger CutAt(old_, pos, c, old_[k], k)} :: 0 <= k < |old_| ==>
          CutAt(old_, pos, c, old_[k], k)
    }

    method Unlink(p: SkipListNode, update: seq<SkipListNode>, ghost pos: nat)
      requires Shape() && Links() && pos < |nodes| && p == nodes[pos] && PredecessorsFrom(update, 0, pos)
      modifies head`level, nodes`level
      ensures CutAll(nodes, pos, p.height)
    {
      var i := 0;
      CutNone(pos);
      while i < level
        invariant 0 <= i <= p.height <= level && CutAll(nodes, pos, i)
      {
        Leads(update[i], pos, i);
        if update[i].level[i] != p {
          break;
        }
        CutOff(p, update[i], pos, i);
        i := i + 1;
      }
    }

    lemma CutNone(pos: nat)
      requires Links() && pos < |nodes|
      ensures CutAll(nodes, pos, 0)
    {
      forall k {:trigger CutAt(nodes, pos, 0, nodes[k], k)} | 0 <= k < |nodes|
        ensures CutAt(nodes, pos, 0, nodes[k], k) {
        assert Linked(nodes[k], k + 1);
      }
    }

    /** The predecessor's link is to the node exactly on the node's own levels. */
    lemma Leads(q: SkipListNode, pos: nat, i: nat)
      requires Shape() && pos < |nodes| && i < level && CutAll(nodes, pos, i)
               && AtPosition(q, PrevTall(Heights(nodes), pos, i))
      ensures i < |q.level| && (q.level[i] == nodes[pos] <==> i < nodes[pos].height)
    {
      var hs, k := Heights(nodes), PrevTall(Heights(nodes), pos, i);
      assert CutAt(nodes, pos, i, q, k);
      if i < nodes[pos].height { NextTallIs(hs, k + 1, i, pos); }
    }

    /** One turn of the unlinking loop. */
    method CutOff(p: SkipListNode, q: SkipListNode, ghost pos: nat, i: nat)
      requires Shape() && pos < |nodes| && p == nodes[pos] && i < p.height && CutAll(nodes, pos, i)
      requires AtPosition(q, PrevTall(Heights(nodes), pos, i)) && i < |q.level|
      modifies q`level
      ensures CutAll(nodes, pos, i + 1)
    {
      ghost var k := PrevTall(Heights(nodes), pos, i);
      assert CutAt(nodes, pos, i, p, pos);
      q.level := q.level[i := p.level[i]];
      SamePosition(q, k, head, -1);
      assert old(CutAt(nodes, pos, i, head, -1));
      CutStep(old(head.level), nodes, Heights(nodes), tail, pos, i, -1);
      forall j {:trigger CutAt(nodes, pos, i + 1, nodes[j], j)} | 0 <= j < |nodes|
        ensures CutAt(nodes, pos, i + 1, nodes[j], j) {
        SamePosition(q, k, nodes[j], j);
        assert old(CutAt(nodes, pos, i, nodes[j], j));
        CutStep(old(nodes[j].level), nodes, Heights(nodes), tail, pos, i, j);
      }
    }

    /** The unlinked node is no longer counted. */
    method Discount(ghost pos: nat)
      requires Shape() && pos < |nodes| && CutAll(nodes, pos, nodes[pos].height)
      requires AgreeBut(pos) && Sorted(groups)
      modifies `length, `nodes, `groups
      ensures Shape() && Links() && Agree(nodes, groups) && Sorted(groups)
      ensures nodes == RemoveAt(old(nodes), pos) && groups == RemoveAt(old(groups), pos)
    {
      ghost var old_ := nodes;
      length := length - 1;
      RemoveSorted(groups, pos);
      nodes, groups := RemoveAt(nodes, pos), RemoveAt(groups, pos);
      RemoveLinks(old_, pos);
      RemoveFits(old_, pos, level);
    }

    lemma RemoveLinks(old_: seq<SkipListNode>, pos: nat)
      requires pos < |old_| && nodes == RemoveAt(old_, pos) && CutAll(old_, pos, old_[pos].height)
      ensures Links()
    {
      CutLinks(old_, pos, head, -1);
      forall k {:trigger Linked(nodes[k], k + 1)} | 0 <= k < |nodes| ensures Linked(nodes[k], k + 1) {
        var k' := if k < pos then k else k + 1;
        assert CutAt(old_, pos, old_[pos].height, old_[k'], k');
        CutLinks(old_, pos, nodes[k], k');
      }
    }

    lemma CutLinks(old_: seq<SkipListNode>, pos: nat, n: SkipListNode, k: int)
      requires pos < |old_| && nodes == RemoveAt(old_, pos) && -1 <= k < |old_| && k != pos
      requires (k >= 0 ==> n == old_[k]) && CutAt(old_, pos, old_[pos].height, n, k)
      ensures Linked(n, if k < pos then k + 1 else k)
    {
      HeightsRemove(old_, pos);
      forall i {:trigger n.level[i]} | 0 <= i < n.height
        ensures n.level[i] == Succ(nodes, Heights(nodes), tail, if k < pos then k + 1 else k, i)
      {
        if k > pos {
          SuccPastRemove(old_, Heights(old_), tail, pos, k, i);
        } else {
          SuccBeforeRemove(old_, Heights(old_), tail, pos, k, i);
        }
      }
    }

    /** The levels that lost their last node are given up. */
    method Lower()
      requires Shape() && Links()
      modifies `level
      ensures Shape() && Links() && TopUsed(nodes, level)
    {
      while level > 0 && head.level[level - 1] == tail
        invariant Shape() && Links()
        decreases level
      {
        EmptyLevel(level - 1);
        level := level - 1;
      }
      if level > 0 { EmptyLevel(level - 1); }
    }

    /** The head leads straight to the tail exactly where no node is that tall. */
    lemma EmptyLevel(i: nat)
      requires Shape() && Links() && i < level
      ensures head.level[i] == tail ==> Fits(nodes, i)
      ensures head.level[i] != tail ==> exists k :: 0 <= k < |nodes| && nodes[k].height > i
    {
      var j := NextTall(Heights(nodes), 0, i);
      assert head.level[i] == Succ(nodes, Heights(nodes), tail, 0, i);
      if j < |nodes| { assert nodes[j].height > i; }
    }

    // ---- levels ----

    /** What following the links of level `i` from a node visits. */
    ghost function Chain(n: SkipListNode, k: int, i: nat): seq<SkipListNode>
      requires Shape() && Links() && AtPosition(n, k) && i < n.height
      reads this, head`level, nodes`level
      decreases |nodes| - k
    {
      var j := NextTall(Heights(nodes), k + 1, i);
      LinkFrom(n, k, i);
      if n.level[i] == tail then [] else [n.level[i]] + Chain(n.level[i], j, i)
    }

    lemma LinkFrom(n: SkipListNode, k: int, i: nat)
      requires Shape() && Links() && AtPosition(n, k) && i < n.height
      ensures |n.level| == n.height && n.level[i] == Succ(nodes, Heights(nodes), tail, k + 1, i)
      ensures n.level[i] == tail <==> NextTall(Heights(nodes), k + 1, i) == |nodes|
    {
      assert Linked(n, k + 1) by {
        if k >= 0 { assert Linked(nodes[k], k + 1); }
      }
    }

    /** Level `i` visits, in order, exactly the nodes taller than `i`, and then the tail. */
    lemma {:induction false} ChainIsThread(n: SkipListNode, k: int, i: nat)
      requires Shape() && Links() && AtPosition(n, k) && i < n.height
      ensures Chain(n, k, i) == Thread(nodes, k + 1, i)
      decreases |nodes| - k
    {
      var j := NextTall(Heights(nodes), k + 1, i);
      LinkFrom(n, k, i);
      ThreadSkips(nodes, k + 1, j, i);
      if j < |nodes| { ChainIsThread(nodes[j], j, i); }
    }

    /** Each level is strictly sorted by score, is a sublist of the level below,
        and from `level` up holds nothing. */
    lemma LevelsNest(i: nat)
      requires Valid() && i + 1 < MAXL
      ensures ByNodeScore(Chain(head, -1, i))
      ensures Chain(head, -1, i + 1) == Taller(Chain(head, -1, i), i + 1)
      ensures i >= level ==> Chain(head, -1, i) == []
      ensures i == 0 ==> Chain(head, -1, i) == nodes && |nodes| == length
    {
      ChainIsThread(head, -1, i);
      ChainIsThread(head, -1, i + 1);
      ThreadNests(nodes, 0, i);
      ThreadAscends(nodes, 0, i);
      if i >= level { ThreadSkips(nodes, 0, |nodes|, i); }
      if i == 0 { ThreadAll(nodes, 0); }
    }

    // ---- ranks ----

    /** Every node is on level 0. */
    lemma Next0(p: SkipListNode, k: int)
      requires Shape() && Links() && AtPosition(p, k)
      ensures p.level != [] && p.level[0] == NodeAt(nodes, tail, k + 1)
    {
      if k >= 0 { assert Linked(nodes[k], k + 1); }
      NextTallIs(Heights(nodes), k + 1, 0, k + 1);
    }

    lemma GroupHere(k: nat)
      requires Agree(nodes, groups) && k < |nodes|
      ensures groups[k] == Group(nodes[k].score, nodes[k].members)
    {
    }

    /** rank: how many entries come before the member at its score. */
    method Rank(member: Bytes, target: real) returns (rank: int)
      requires Valid() && target < INT_MAX
      ensures rank == RankIn(groups, member, target)
    {
      var p: SkipListNode := head;
      rank := 0;
      ghost var k := -1;
      Next0(p, k);
      BelowIsFind0(target);
      while p.level[0].score < target
        invariant AtPosition(p, k) && k < Below(nodes, target) && p.level != []
                  && p.level[0] == NodeAt(nodes, tail, k + 1)
        invariant rank == Start(groups, k + 1)
        decreases |nodes| - k
      {
        GroupHere(k + 1);
        rank := rank + |p.level[0].members|;
        p, k := p.level[0], k + 1;
        Next0(p, k);
      }
      p := p.level[0];
      if k + 1 < |nodes| { GroupHere(k + 1); }
      var pos := CountTo(p.members, member);
      rank := rank + pos;
    }

    /** The members of a row that come before `member`, or all of them. */
    method CountTo(row: seq<Bytes>, member: Bytes) returns (i: nat)
      ensures i == IndexIn(row, member)
    {
      i := 0;
      while i < |row|
        invariant i <= |row| && forall l :: 0 <= l < i ==> row[l] != member
      {
        if row[i] == member {
          break;
        }
        i := i + 1;
      }
      IndexIs(row, member, i);
    }

    /** getByRank: the entry of that rank. */
    method GetByRank(rank: int) returns (ok: bool, member: Bytes)
      requires Valid() && rank < Card(groups)
      ensures ok <==> rank >= 0
      ensures ok ==> member == Flat(groups)[rank].member
    {
      if rank < 0 {
        return false, [];
      }
      var p, rest := NodeOfRank(rank);
      var it := 0;
      ghost var at := rest;
      while rest > 0
        invariant 0 <= rest && it + rest == at
      {
        it, rest := it + 1, rest - 1;
      }
      return true, p.members[it];
    }

    /** The node that holds the entry of a rank, and where in it. */
    method NodeOfRank(rank: nat) returns (p: SkipListNode, rest: nat)
      requires Valid() && rank < Card(groups)
      ensures rest < |p.members| && p.members[rest] == Flat(groups)[rank].member
    {
      rest := rank;
      p := head;
      ghost var k := -1;
      Next0(p, k);
      while p.level[0] != null && |p.level[0].members| <= rest
        invariant AtPosition(p, k) && p.level != [] && p.level[0] == NodeAt(nodes, tail, k + 1)
        invariant rank == Start(groups, k + 1) + rest && k + 1 < |nodes|
        decreases |nodes| - k
      {
        GroupHere(k + 1);
        rest := rest - |p.level[0].members|;
        p, k := p.level[0], k + 1;
        Next0(p, k);
      }
      p := p.level[0];
      GroupHere(k + 1);
      AtPlace(groups, rank, k + 1, rest);
    }

    // ---- proof of add's links ----

    /** The links after a splice, in terms of the nodes before it. */
    ghost predicate Spliced(old_: seq<SkipListNode>, p: nat, newNode: SkipListNode)
      requires p <= |old_|
      reads head`level, newNode`level, old_`level
    {
      && |newNode.level| == newNode.height
      && (forall i :: 0 <= i < newNode.height ==> newNode.level[i] == Succ(old_, Heights(old_), tail, p, i))
      && SplicedAt(old_, p, newNode, head, -1)
      && (forall k {:trigger SplicedAt(old_, p, newNode, old_[k], k)} :: 0 <= k < |old_| ==>
           SplicedAt(old_, p, newNode, old_[k], k))
    }

    ghost predicate SplicedAt(old_: seq<SkipListNode>, p: nat, newNode: SkipListNode, n: SkipListNode, k: int)
      requires p <= |old_| && -1 <= k < |old_|
      reads n`level
    {
      |n.level| == n.height && PartLevel(n.level, old_, Heights(old_), tail, p, newNode, newNode.height, 0, k)
    }

    /** Positions tell the head and the nodes apart. */
    lemma SamePosition(a: SkipListNode, k: int, b: SkipListNode, l: int)
      requires head !in nodes && ByNodeScore(nodes) && AtPosition(a, k) && AtPosition(b, l)
      ensures a == b <==> k == l
    {
    }

    /** Levels from `c` on have been spliced at node `n`, at position `k`. */
    ghost predicate PartAt(p: nat, newNode: SkipListNode, c: nat, n: SkipListNode, k: int)
      requires p <= |nodes| && -1 <= k < |nodes|
      reads `nodes, n`level
    {
      |n.level| == n.height && PartLevel(n.level, nodes, Heights(nodes), tail, p, newNode, newNode.height, c, k)
    }

    /** One turn of the splicing loop. */
    method SpliceLevel(newNode: SkipListNode, update: seq<SkipListNode>, ghost pos: nat, i: nat)
      requires Shape() && pos <= |nodes| && newNode != head && newNode !in nodes
      requires i < |update| == newNode.height == |newNode.level| <= MAXL && Predecessors(update, |update|, pos)
      requires PartAt(pos, newNode, i + 1, head, -1)
      requires forall k {:trigger PartAt(pos, newNode, i + 1, nodes[k], k)} :: 0 <= k < |nodes| ==>
               PartAt(pos, newNode, i + 1, nodes[k], k)
      modifies newNode`level, head`level, nodes`level
      ensures PartAt(pos, newNode, i, head, -1)
      ensures forall k {:trigger PartAt(pos, newNode, i, nodes[k], k)} :: 0 <= k < |nodes| ==>
              PartAt(pos, newNode, i, nodes[k], k)
      ensures |newNode.level| == old(|newNode.level|) && newNode.level[i] == Succ(nodes, Heights(nodes), tail, pos, i)
      ensures forall l :: 0 <= l < |newNode.level| && l != i ==> newNode.level[l] == old(newNode.level[l])
    {
      var p := update[i];
      ghost var k := PrevTall(Heights(nodes), pos, i);
      assert AtPosition(p, k) && PartAt(pos, newNode, i + 1, p, k);
      SuccAcross(nodes, Heights(nodes), tail, pos, k, i);
      newNode.level := newNode.level[i := p.level[i]];
      p.level := p.level[i := newNode];
      SamePosition(p, k, head, -1);
      PartStep(old(head.level), nodes, Heights(nodes), tail, pos, newNode, newNode.height, i, -1);
      forall j {:trigger PartAt(pos, newNode, i, nodes[j], j)} | 0 <= j < |nodes|
        ensures PartAt(pos, newNode, i, nodes[j], j) {
        SamePosition(p, k, nodes[j], j);
        assert old(PartAt(pos, newNode, i + 1, nodes[j], j));
        PartStep(old(nodes[j].level), nodes, Heights(nodes), tail, pos, newNode, newNode.height, i, j);
      }
    }

    lemma InsertLinks(old_: seq<SkipListNode>, p: nat, newNode: SkipListNode)
      requires p <= |old_| && nodes == InsertAt(old_, p, newNode) && Spliced(old_, p, newNode)
      ensures Links()
    {
      OldLinks(old_, p, newNode, head, -1);
      NewLinks(old_, p, newNode);
      forall k {:trigger Linked(nodes[k], k + 1)} | 0 <= k < |nodes| ensures Linked(nodes[k], k + 1) {
        if k != p {
          OldLinks(old_, p, newNode, nodes[k], if k < p then k else k - 1);
        }
      }
    }

    lemma NewLinks(old_: seq<SkipListNode>, p: nat, newNode: SkipListNode)
      requires p <= |old_| && nodes == InsertAt(old_, p, newNode)
      requires |newNode.level| == newNode.height
      requires forall i :: 0 <= i < newNode.height ==> newNode.level[i] == Succ(old_, Heights(old_), tail, p, i)
      ensures Linked(newNode, p + 1)
    {
      HeightsInsert(old_, p, newNode);
      forall i {:trigger newNode.level[i]} | 0 <= i < newNode.height
        ensures newNode.level[i] == Succ(nodes, Heights(nodes), tail, p + 1, i) {
        SuccPastInsert(old_, Heights(old_), tail, p, newNode, newNode.height, p, i);
      }
    }

    lemma OldLinks(old_: seq<SkipListNode>, p: nat, newNode: SkipListNode, n: SkipListNode, k: int)
      requires p <= |old_| && nodes == InsertAt(old_, p, newNode) && -1 <= k < |old_|
      requires (k >= 0 ==> n == old_[k]) && SplicedAt(old_, p, newNode, n, k)
      ensures Linked(n, if k < p then k + 1 else k + 2)
    {
      HeightsInsert(old_, p, newNode);
      forall i {:trigger n.level[i]} | 0 <= i < n.height
        ensures n.level[i] == Succ(nodes, Heights(nodes), tail, if k < p then k + 1 else k + 2, i)
      {
        if k >= p {
          SuccPastInsert(old_, Heights(old_), tail, p, newNode, newNode.height, k + 1, i);
        } else {
          SuccBeforeInsert(old_, Heights(old_), tail, p, newNode, newNode.height, k, i);
        }
      }
    }
  }

  /** The nodes from position `k` on that are taller than `i`. */
  function Thread(nodes: seq<SkipListNode>, k: nat, i: nat): seq<SkipListNode>
    requires k <= |nodes|
    decreases |nodes| - k
  {
    if k == |nodes| then [] else if nodes[k].height > i then [nodes[k]] + Thread(nodes, k + 1, i)
        else Thread(nodes, k + 1, i)
  }

  function Taller(s: seq<SkipListNode>, i: nat): seq<SkipListNode> {
    if s == [] then [] else if s[0].height > i then [s[0]] + Taller(s[1..], i) else Taller(s[1..], i)
  }

  lemma {:induction false} ThreadSkips(nodes: seq<SkipListNode>, k: nat, j: nat, i: nat)
    requires k <= j <= |nodes| && forall x :: k <= x < j ==> nodes[x].height <= i
    ensures Thread(nodes, k, i) == Thread(nodes, j, i)
    decreases j - k
  {
    if k < j { ThreadSkips(nodes, k + 1, j, i); }
  }

  lemma {:induction false} ThreadNests(nodes: seq<SkipListNode>, k: nat, i: nat)
    requires k <= |nodes|
    ensures Thread(nodes, k, i + 1) == Taller(Thread(nodes, k, i), i + 1)
    decreases |nodes| - k
  {
    if k < |nodes| {
      ThreadNests(nodes, k + 1, i);
      if nodes[k].height > i { assert Thread(nodes, k, i)[1..] == Thread(nodes, k + 1, i); }
    }
  }

  lemma {:induction false} ThreadAscends(nodes: seq<SkipListNode>, k: nat, i: nat)
    requires k <= |nodes| && ByNodeScore(nodes)
    ensures ByNodeScore(Thread(nodes, k, i))
    ensures forall a :: 0 <= a < |Thread(nodes, k, i)| ==> exists x ::
            k <= x < |nodes| && nodes[x] == Thread(nodes, k, i)[a]
    decreases |nodes| - k
  {
    if k < |nodes| { ThreadAscends(nodes, k + 1, i); }
  }

  lemma {:induction false} ThreadAll(nodes: seq<SkipListNode>, k: nat)
    requires k <= |nodes| && forall x :: 0 <= x < |nodes| ==> nodes[x].height > 0
    ensures Thread(nodes, k, 0) == nodes[k..]
    decreases |nodes| - k
  {
    if k < |nodes| { ThreadAll(nodes, k + 1); }
  }

  lemma HeightsRemove(old_: seq<SkipListNode>, p: nat)
    requires p < |old_|
    ensures Heights(RemoveAt(old_, p)) == RemoveAt(Heights(old_), p)
  {
  }

  lemma RemoveFits(old_: seq<SkipListNode>, p: nat, level: int)
    requires ByNodeScore(old_) && p < |old_| && Fits(old_, level)
    ensures ByNodeScore(RemoveAt(old_, p)) && Fits(RemoveAt(old_, p), level)
  {
  }

  lemma HeightsInsert(old_: seq<SkipListNode>, p: nat, newNode: SkipListNode)
    requires p <= |old_|
    ensures Heights(InsertAt(old_, p, newNode)) == InsertAt(Heights(old_), p, newNode.height)
  {
  }

  lemma InsertFits(old_: seq<SkipListNode>, g: seq<Group>, p: nat, newNode: SkipListNode, level: int)
    requires ByNodeScore(old_) && p == Below(old_, newNode.score) == Find0(g, newNode.score)
             && !HasScore(g, newNode.score)
    requires Agree(old_, g) && Fits(old_, level) && TopUsed(old_, level)
    requires Filled(Group(newNode.score, newNode.members)) && newNode.height >= 1
    ensures ByNodeScore(InsertAt(old_, p, newNode))
    ensures var top := if newNode.height > level then newNode.height else level;
            Fits(InsertAt(old_, p, newNode), top) && TopUsed(InsertAt(old_, p, newNode), top)
  {
    var nodes := InsertAt(old_, p, newNode);
    assert nodes[p] == newNode;
    if newNode.height <= level {
      var k :| 0 <= k < |old_| && old_[k].height == level;
      assert nodes[if k < p then k else k + 1] == old_[k];
    }
  }

  lemma OneMember(score: real, member: Bytes)
    ensures Insert([], member) == [member] && (score < INT_MAX ==> Filled(Group(score, [member])))
  {
  }

  lemma AgreeInsert(old_: seq<SkipListNode>, g: seq<Group>, p: nat, newNode: SkipListNode)
    requires p <= |old_| && Agree(old_, g)
    ensures Agree(InsertAt(old_, p, newNode), InsertAt(g, p, Group(newNode.score, newNode.members)))
  {
  }
}
