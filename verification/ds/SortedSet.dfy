/** A sorted set under one key: the skip list, and the dictionary from members
    to the nodes that hold them. */
module SortedSets {
  import opened Coding
  import opened SkipLinks
  import opened ScoreGroups
  import opened Ranking
  import opened ZSkiplist

  function MembersOf(f: seq<Entry>): (r: seq<Bytes>)
    ensures |r| == |f| && forall i :: 0 <= i < |r| ==> r[i] == f[i].member
  {
    seq(|f|, i requires 0 <= i < |f| => f[i].member)
  }

  /** `scores` gives each dictionary entry's score. */
  ghost predicate Reflects(dict: map<Bytes, SkipListNode>, scores: map<Bytes, real>) {
    dict.Keys == scores.Keys && forall m {:trigger dict[m]} {:trigger scores[m]} :: m in dict ==>
        scores[m] == dict[m].score
  }

  class SortedSet {
    const record: Skiplist
    var dict: map<Bytes, SkipListNode>
    ghost var scores: map<Bytes, real>  // the same, as scores
    ghost var repr: set<SkipListNode>   // the head and every node ever added

    ghost predicate Owned()
      reads this, record`nodes
    {
      record.head in repr && forall n :: n in record.nodes ==> n in repr
    }

    ghost predicate Valid()
      reads this, record, record.head`level, record.tail, record.nodes`level, record.nodes`members
    {
      record.Valid() && Owned() && Live(dict) && Reflects(dict, scores) && Agreed(scores, record.groups)
    }

    /** Each member's entry is a node of the list. */
    ghost predicate Live(d: map<Bytes, SkipListNode>)
      reads record`nodes
    {
      forall m {:trigger d[m]} :: m in d ==> d[m] in record.nodes
    }

    constructor ()
      ensures Valid() && dict == map[] && scores == map[] && fresh(record) && fresh(repr)
    {
      record := new Skiplist();
      dict, scores := map[], map[];
      new;
      repr := {record.head};
    }

    /** The dictionary leads to the one node of the member's score, and that node holds the member. */
    lemma DictNode(m: Bytes) returns (p: nat)
      requires Valid() && m in dict
      ensures p == Find0(record.groups, dict[m].score) < |record.nodes| && dict[m] == record.nodes[p]
      ensures m in dict[m].members && Holder(record.groups, m, dict[m].score)
      ensures dict[m].score < INT_MAX && m in scores && scores[m] == dict[m].score
    {
      var g, n := record.groups, dict[m];
      assert scores[m] == n.score;
      assert Holder(g, m, n.score);
      p := Find0(g, n.score);
      var q :| 0 <= q < |record.nodes| && record.nodes[q] == n;
      record.GroupHere(p);
      record.GroupHere(q);
      Find0Of(g, q);
      assert Filled(g[p]);
    }

    /** ZAdd. The dictionary stays in agreement exactly when the member is new or keeps its score. */
    method ZAdd(score: real, member: Bytes)
      requires Valid() && score < INT_MAX
      modifies this, record, repr
      ensures record.Valid() && record.groups == AddTo(old(record.groups), score, member)
      ensures Owned() && fresh(repr - old(repr))
      ensures Live(dict) && Reflects(dict, scores) && scores == IndexAdd(old(scores), score, member)
      ensures Valid() <==> member !in old(scores) || old(scores)[member] == score
    {
      hide *;
      Parts();
      ghost var p := Find0(record.groups, score);
      AddAgreesIff(scores, record.groups, score, member);
      var node := record.Add(score, member);
      Joined(old(record.groups), old(record.nodes), node, score, member, p);
      Note(node, member);
      Whole();
    }

    /** The node added to has the score, and no entry of the dictionary dies. */
    lemma Joined(g: seq<Group>, ns: seq<SkipListNode>, node: SkipListNode, score: real, member: Bytes, p: nat)
      requires record.Valid() && record.groups == AddTo(g, score, member) && p == Find0(g, score) < |record.nodes|
      requires node == record.nodes[p] && p <= |ns| && (record.nodes == ns || record.nodes == InsertAt(ns, p, node))
      requires forall m {:trigger dict[m]} :: m in dict ==> dict[m] in ns
      ensures node.score == score && Live(dict) && node in record.nodes && forall n :: n in record.nodes ==>
              n in ns || n == node
    {
      hide *;
      AddedNode(g, score, member, p);
      StaysLive(ns, node, p, dict);
    }

    lemma Parts()
      requires Valid()
      ensures record.Valid() && Owned() && Live(dict) && Reflects(dict, scores) && Agreed(scores, record.groups)
      ensures Sorted(record.groups) && ByNodeScore(record.nodes) && |record.groups| == |record.nodes|
              && record.head in repr && (forall n :: n in record.nodes ==> n in repr)
      ensures forall m {:trigger dict[m]} :: m in dict ==> dict[m] in record.nodes
    {
    }

    lemma Whole()
      ensures Valid() <==>
              record.Valid() && Owned() && Live(dict) && Reflects(dict, scores) && Agreed(scores, record.groups)
    {
    }

    /** The dictionary entry: one that is there already stays. */
    method Note(node: SkipListNode, member: Bytes)
      requires Live(dict) && Reflects(dict, scores) && node in record.nodes
      requires record.head in repr && forall n :: n in record.nodes ==> n in repr || n == node
      modifies `dict, `scores, `repr
      ensures Owned() && Live(dict) && Reflects(dict, scores)
      ensures scores == IndexAdd(old(scores), node.score, member) && repr == old(repr) + {node}
    {
      repr := repr + {node};
      if member !in dict {
        dict, scores := dict[member := node], scores[member := node.score];
      }
    }

    lemma AddedNode(g: seq<Group>, score: real, member: Bytes, p: nat)
      requires record.Valid() && record.groups == AddTo(g, score, member) && p == Find0(g, score) < |record.nodes|
      ensures record.nodes[p].score == score
    {
      record.GroupHere(p);
      if !HasScore(g, score) { InsertedAt(g, p, Group(score, [member]), p); }
    }

    lemma StaysLive(old_: seq<SkipListNode>, node: SkipListNode, p: nat, d: map<Bytes, SkipListNode>)
      requires p <= |old_| && (record.nodes == old_ || record.nodes == InsertAt(old_, p, node))
      requires forall m {:trigger d[m]} :: m in d ==> d[m] in old_
      ensures Live(d) && forall n :: n in record.nodes ==> n in old_ || n == node
    {
      InsertContains(old_, p, node);
    }

    /** ZScore. */
    method ZScore(member: Bytes) returns (ok: bool, score: real)
      requires Valid()
      ensures ok <==> member in scores
      ensures ok ==> score == scores[member] && Holder(record.groups, member, score) && score < INT_MAX
    {
      if member !in dict {
        return false, 0.0;
      }
      ghost var p := DictNode(member);
      return true, dict[member].score;
    }

    /** ZCard: as many as there are ranks. */
    method ZCard() returns (n: nat)
      requires Valid()
      ensures n == |dict| == Card(record.groups)
    {
      CardIsIndexed(scores, record.groups);
      assert |dict| == |dict.Keys| && |scores| == |scores.Keys|;
      return |dict|;
    }

    /** ZRem: the member leaves the list and the dictionary together. */
    method ZRem(member: Bytes) returns (ok: bool)
      requires Valid()
      modifies this, record, repr
      ensures Valid() && (ok <==> member in old(scores)) && repr == old(repr)
      ensures scores == old(scores) - {member}
      ensures record.groups == if ok then EraseFrom(old(record.groups), old(scores)[member], member)
              else old(record.groups)
    {
      var exist, score := ZScore(member);
      if !exist {
        return false;
      }
      Drop(score, member);
      return true;
    }

    method Drop(score: real, member: Bytes)
      requires Valid() && member in dict && dict[member].score == score < INT_MAX
      modifies this, record, repr
      ensures Valid() && scores == old(scores) - {member} && repr == old(repr)
      ensures record.groups == EraseFrom(old(record.groups), score, member)
    {
      hide *;
      Parts();
      ghost var p := DictNode(member);
      EraseAgrees(scores, record.groups, member);
      var _ := record.Erase(score, member);
      Forget(member, old(record.nodes), p);
      Whole();
    }

    method Forget(member: Bytes, ghost old_: seq<SkipListNode>, ghost p: nat)
      requires record.Valid() && Reflects(dict, scores) && Agreed(scores - {member}, record.groups) && ByNodeScore(old_)
      requires record.nodes == old_ || (p < |old_| && record.nodes == RemoveAt(old_, p))
      requires forall m {:trigger dict[m]} :: m in dict ==> dict[m] in old_
      requires record.head in repr && forall n :: n in old_ ==> n in repr
      modifies `dict, `scores
      ensures Owned() && Live(dict) && Reflects(dict, scores) && scores == old(scores) - {member}
    {
      dict, scores := dict - {member}, scores - {member};
      NodesKept(old_, p);
    }

    /** ZIncrBy: the member's score moves by `increment`, from 0 if it is new. */
    method ZIncrBy(increment: real, member: Bytes) returns (score: real)
      requires Valid() && (if member in scores then scores[member] else 0.0) + increment < INT_MAX
      modifies this, record, repr
      ensures Valid() && score == (if member in old(scores) then old(scores)[member] else 0.0) + increment
      ensures scores == old(scores)[member := score]
    {
      hide *;
      var exist, was := ZScore(member);
      if exist {
        var _ := ZRem(member);
      } else {
        was := 0.0;
      }
      score := was + increment;
      Moved(old(scores), scores, score, member);
      ZAdd(score, member);
    }

    /** Out at the old score and in at the new one is an update. */
    lemma Moved(ix: map<Bytes, real>, ix': map<Bytes, real>, score: real, member: Bytes)
      requires if member in ix then ix' == ix - {member} else ix' == ix
      ensures IndexAdd(ix', score, member) == ix[member := score]
    {
    }

    /** ZRank: where the member's entry stands, or -1. */
    method ZRank(member: Bytes) returns (rank: int)
      requires Valid()
      ensures |dict| == Card(record.groups) && (member !in dict ==> rank == -1)
      ensures member in dict ==> 0 <= rank < |dict| && Flat(record.groups)[rank] == Entry(dict[member].score, member)
    {
      var _ := ZCard();
      if member !in dict {
        return -1;
      }
      ghost var p := DictNode(member);
      rank := record.Rank(member, dict[member].score);
      RankIsIndex(record.groups, member, dict[member].score);
    }

    /** ZGetByRank: the member of that rank. */
    method ZGetByRank(rank: int) returns (ok: bool, member: Bytes)
      requires Valid() && rank < |dict|
      ensures |dict| == Card(record.groups) && (ok <==> rank >= 0)
      ensures ok ==> member == Flat(record.groups)[rank].member && member in dict
      ensures ok ==> Flat(record.groups)[rank] == Entry(dict[member].score, member)
    {
      var _ := ZCard();
      ok, member := record.GetByRank(rank);
      if ok { MembersDistinct(scores, record.groups, rank, rank); }
    }

    /** ZRank and ZGetByRank undo each other. */
    lemma RankSelect(member: Bytes, rank: nat, rank': nat)
      requires Valid() && member in dict && rank < |dict| && rank' < |dict| && |dict| == Card(record.groups)
      requires Flat(record.groups)[rank] == Entry(dict[member].score, member)
      ensures Flat(record.groups)[rank'].member == member <==> rank' == rank
    {
      if Flat(record.groups)[rank'].member == member { MembersDistinct(scores, record.groups, rank, rank'); }
    }

    /** ZRange: the members ranked from `start` to `end`. */
    method ZRange(start: int, end: int) returns (vals: seq<Bytes>)
      requires Valid() && start < |dict| && end < |dict|
      ensures |dict| == Card(record.groups)
      ensures vals == if 0 <= start <= end then MembersOf(Flat(record.groups)[start..end + 1]) else []
    {
      hide *;
      vals := [];
      var _ := ZCard();
      Parts();
      var get, startMember := ZGetByRank(start);
      if !get {
        return;
      }
      var endMember;
      get, endMember := ZGetByRank(end);
      if !get {
        return;
      }
      ghost var k := DictNode(startMember);
      StartPlace(startMember, start, k);
      vals := FromStart(dict[startMember], k, startMember, start, end - start + 1);
      if start <= end { RankedIs(record.groups, start, end, vals); }
    }

    /** The start member stands at its rank. */
    lemma StartPlace(m: Bytes, start: nat, k: nat)
      requires Valid() && m in dict && k == Find0(record.groups, dict[m].score) < |record.nodes|
               && dict[m] == record.nodes[k]
      requires |dict| == Card(record.groups) && start < |dict| && Flat(record.groups)[start] == Entry(dict[m].score, m)
      requires Holder(record.groups, m, dict[m].score)
      ensures Place(record.groups, start, k, IndexIn(dict[m].members, m))
    {
      var g := record.groups;
      record.GroupHere(k);
      RankIsIndex(g, m, dict[m].score);
      RankUnique(g, start, RankIn(g, m, dict[m].score));
    }

    lemma RankedIs(g: seq<Group>, start: nat, end: nat, vals: seq<Bytes>)
      requires start <= end < Card(g) && Ranked(g, start, vals) && |vals| == end - start + 1
      ensures vals == MembersOf(Flat(g)[start..end + 1])
    {
    }

    /** The members of the start node from the start member on, then those of the nodes after it. */
    method FromStart(startNode: SkipListNode, ghost k: nat, startMember: Bytes, ghost start: nat, count0: int)
      returns (vals: seq<Bytes>)
      requires record.Valid() && k < |record.nodes| && startNode == record.nodes[k]
               && start + count0 <= Card(record.groups)
      requires Place(record.groups, start, k, IndexIn(startNode.members, startMember))
      ensures Ranked(record.groups, start, vals) && |vals| == if count0 > 0 then count0 else 0
    {
      record.GroupHere(k);
      PlaceInside(record.groups, start, k, IndexIn(startNode.members, startMember));
      var it := 0;
      while startNode.members[it] != startMember
        invariant 0 <= it <= IndexIn(startNode.members, startMember) < |startNode.members|
        decreases |startNode.members| - it
      {
        it := it + 1;
      }
      var count;
      vals, count := TakeRow(startNode.members, k, it, start, count0, []);
      vals := Onward(startNode, k, start, count, vals);
    }

    /** The rest of a range, node after node along level 0. */
    method Onward(startNode: SkipListNode, ghost k0: nat, ghost start: nat, count0: int, vals0: seq<Bytes>)
      returns (vals: seq<Bytes>)
      requires record.Valid() && record.AtPosition(startNode, k0) && Ranked(record.groups, start, vals0)
      requires count0 > 0 ==> start + |vals0| == Start(record.groups, k0 + 1)
      requires start + |vals0| + count0 <= Card(record.groups)
      ensures Ranked(record.groups, start, vals) && |vals| == |vals0| + if count0 > 0 then count0 else 0
    {
      ghost var g := record.groups;
      var p: SkipListNode, count := startNode, count0;
      ghost var k := k0;
      vals := vals0;
      record.Next0(p, k);
      while p.level[0] != null && count > 0
        invariant record.AtPosition(p, k) && p.level != [] && p.level[0] == NodeAt(record.nodes, record.tail, k + 1)
        invariant count0 > 0 ==> count >= 0 && |vals| + count == |vals0| + count0
        invariant count0 <= 0 ==> count == count0 && vals == vals0
        invariant count > 0 ==> start + |vals| == Start(g, k + 1)
        invariant Ranked(g, start, vals)
        decreases |record.nodes| - k
      {
        StartGrows(g, k + 1, |g|);
        record.GroupHere(k + 1);
        vals, count := TakeRow(p.level[0].members, k + 1, 0, start, count, vals);
        p, k := p.level[0], k + 1;
        record.Next0(p, k);
      }
    }

    /** Members of one node from a place in it on, while the count lasts. */
    method TakeRow(row: seq<Bytes>, ghost k: nat, it0: nat, ghost start: nat, count0: int, vals0: seq<Bytes>)
      returns (vals: seq<Bytes>, count: int)
      requires k < |record.groups| && row == record.groups[k].members && it0 <= |row|
      requires Ranked(record.groups, start, vals0) && start + |vals0| == Start(record.groups, k) + it0
      ensures Ranked(record.groups, start, vals) && |vals| + count == |vals0| + count0
      ensures if count0 > 0 then count >= 0 else vals == vals0
      ensures count > 0 ==> start + |vals| == Start(record.groups, k + 1)
    {
      var it := it0;
      vals, count := vals0, count0;
      while it < |row| && count > 0
        invariant 0 <= it <= |row| && |vals| + count == |vals0| + count0
        invariant if count0 > 0 then count >= 0 else vals == vals0
        invariant start + |vals| == Start(record.groups, k) + it
        invariant Ranked(record.groups, start, vals)
      {
        AtPlace(record.groups, start + |vals|, k, it);
        vals := vals + [row[it]];
        count := count - 1;
        it := it + 1;
      }
    }

    /** `vals` are the members ranked from `start`. */
    ghost predicate Ranked(g: seq<Group>, start: nat, vals: seq<Bytes>) {
      start + |vals| <= Card(g) && forall i {:trigger vals[i]} :: 0 <= i < |vals| ==> vals[i] == At(g, start + i).member
    }

    /** The only node that can go is the one the erased member left empty. */
    lemma NodesKept(old_: seq<SkipListNode>, p: nat)
      requires record.Valid() && Reflects(dict, scores) && Agreed(scores, record.groups) && ByNodeScore(old_)
      requires record.nodes == old_ || (p < |old_| && record.nodes == RemoveAt(old_, p))
      requires forall m {:trigger dict[m]} :: m in dict ==> dict[m] in old_
      ensures Live(dict) && forall n :: n in record.nodes ==> n in old_
    {
      forall n | n in record.nodes ensures n in old_ {
        var k :| 0 <= k < |record.nodes| && record.nodes[k] == n;
        if record.nodes != old_ { RemovedAt(old_, p, k); }
      }
      forall m {:trigger dict[m]} | m in dict ensures dict[m] in record.nodes {
        var t := dict[m].score;
        assert scores[m] == t && Holder(record.groups, m, t);
        record.GroupHere(Find0(record.groups, t));
        SameScore(old_, dict[m], record.nodes[Find0(record.groups, t)]);
      }
    }
  }

  lemma SameScore(nodes: seq<SkipListNode>, a: SkipListNode, b: SkipListNode)
    requires ByNodeScore(nodes) && a in nodes && b in nodes && a.score == b.score
    ensures a == b
  {
  }
}
