/** The arithmetic of skip-list links. `hs` lists the heights of the nodes in
    list order; level `i` threads the nodes of height above `i`. Positions run
    from 0, with |hs| for the tail and -1 for the head. */
module SkipLinks {

  const MAXL: nat := 32

  /** First position at or after `k` that level `i` threads. */
  function NextTall(hs: seq<nat>, k: nat, i: nat): (j: nat)
    requires k <= |hs|
    ensures k <= j <= |hs| && (j < |hs| ==> hs[j] > i)
    ensures forall x :: k <= x < j ==> hs[x] <= i
    decreases |hs| - k
  {
    if k == |hs| then k else if hs[k] > i then k else NextTall(hs, k + 1, i)
  }

  /** Last position before `k` that level `i` threads, or the head. */
  function PrevTall(hs: seq<nat>, k: nat, i: nat): (j: int)
    requires k <= |hs|
    ensures -1 <= j < k && (j >= 0 ==> hs[j] > i)
    ensures forall x :: j < x < k ==> hs[x] <= i
  {
    if k == 0 then -1 else if hs[k - 1] > i then k - 1 else PrevTall(hs, k - 1, i)
  }

  /** NextTall is pinned down by what it skips and where it stops. */
  lemma NextTallIs(hs: seq<nat>, k: nat, i: nat, j: nat)
    requires k <= j <= |hs| && (j < |hs| ==> hs[j] > i)
    requires forall x :: k <= x < j ==> hs[x] <= i
    ensures NextTall(hs, k, i) == j
  {
  }

  lemma PrevTallIs(hs: seq<nat>, k: nat, i: nat, j: int)
    requires k <= |hs| && -1 <= j < k && (j >= 0 ==> hs[j] > i)
    requires forall x :: j < x < k ==> hs[x] <= i
    ensures PrevTall(hs, k, i) == j
  {
  }

  function InsertAt<T>(s: seq<T>, p: nat, x: T): (r: seq<T>)
    requires p <= |s|
    ensures |r| == |s| + 1
  {
    seq(|s| + 1, j requires 0 <= j < |s| + 1 => if j < p then s[j] else if j == p then x else s[j - 1])
  }

  lemma InsertedAt<T>(s: seq<T>, p: nat, x: T, k: nat)
    requires p <= |s| && k <= |s|
    ensures InsertAt(s, p, x)[k] == if k < p then s[k] else if k == p then x else s[k - 1]
  {
  }

  function RemoveAt<T>(s: seq<T>, p: nat): (r: seq<T>)
    requires p < |s|
    ensures |r| == |s| - 1
  {
    seq(|s| - 1, j requires 0 <= j < |s| - 1 => if j < p then s[j] else s[j + 1])
  }

  lemma RemovedAt<T>(s: seq<T>, p: nat, k: nat)
    requires p < |s| && k < |s| - 1
    ensures RemoveAt(s, p)[k] == if k < p then s[k] else s[k + 1]
  {
  }

  /** A node of height `h` put at `p` is the new successor, at each of its
      levels, of the last node before `p`, and of no other. */
  lemma NextBeforeInsert(hs: seq<nat>, p: nat, h: nat, k: nat, i: nat)
    requires k <= p <= |hs|
    ensures NextTall(hs, k, i) < p ==> NextTall(InsertAt(hs, p, h), k, i) == NextTall(hs, k, i)
    ensures NextTall(hs, k, i) >= p && i < h ==> NextTall(InsertAt(hs, p, h), k, i) == p
    ensures NextTall(hs, k, i) >= p && i >= h ==> NextTall(InsertAt(hs, p, h), k, i) == NextTall(hs, k, i) + 1
  {
    var j := NextTall(hs, k, i);
    NextTallIs(InsertAt(hs, p, h), k, i, if j < p then j else if i < h then p else j + 1);
  }

  lemma NextPastInsert(hs: seq<nat>, p: nat, h: nat, k: nat, i: nat)
    requires p <= k <= |hs|
    ensures NextTall(InsertAt(hs, p, h), k + 1, i) == NextTall(hs, k, i) + 1
  {
    NextTallIs(InsertAt(hs, p, h), k + 1, i, NextTall(hs, k, i) + 1);
  }

  /** Taking the node at `p` out sends its predecessors at each of its levels to its successors. */
  lemma NextBeforeRemove(hs: seq<nat>, p: nat, k: nat, i: nat)
    requires k <= p < |hs|
    ensures NextTall(hs, k, i) < p ==> NextTall(RemoveAt(hs, p), k, i) == NextTall(hs, k, i)
    ensures NextTall(hs, k, i) == p ==> NextTall(RemoveAt(hs, p), k, i) == NextTall(hs, p + 1, i) - 1
    ensures NextTall(hs, k, i) > p ==> NextTall(RemoveAt(hs, p), k, i) == NextTall(hs, k, i) - 1
  {
    var j := NextTall(hs, k, i);
    var j' := if j < p then j else if j == p then NextTall(hs, p + 1, i) - 1 else j - 1;
    forall x | k <= x < j' ensures RemoveAt(hs, p)[x] <= i {
      if x >= p { assert hs[x + 1] <= i; }
    }
    NextTallIs(RemoveAt(hs, p), k, i, j');
  }

  lemma NextPastRemove(hs: seq<nat>, p: nat, k: nat, i: nat)
    requires p < k <= |hs|
    ensures NextTall(RemoveAt(hs, p), k - 1, i) == NextTall(hs, k, i) - 1
  {
    var j := NextTall(hs, k, i);
    forall x | k - 1 <= x < j - 1 ensures RemoveAt(hs, p)[x] <= i {
      assert hs[x + 1] <= i;
    }
    NextTallIs(RemoveAt(hs, p), k - 1, i, j - 1);
  }

  /** A node that level `i` threads has its successor at or past `p` exactly when
      it is the last such node before `p`. */
  lemma LastBefore(hs: seq<nat>, p: nat, i: nat, k: int)
    requires p <= |hs| && -1 <= k < p && (k >= 0 ==> hs[k] > i)
    ensures NextTall(hs, k + 1, i) >= p <==> k == PrevTall(hs, p, i)
  {
  }

  // ---- the nodes at the ends of the links ----

  function NodeAt<T>(nodes: seq<T>, tail: T, j: nat): T {
    if j < |nodes| then nodes[j] else tail
  }

  /** The first node from position `k` on that level `i` threads, or the tail. */
  function Succ<T>(nodes: seq<T>, hs: seq<nat>, tail: T, k: nat, i: nat): T
    requires k <= |hs| == |nodes|
  {
    NodeAt(nodes, tail, NextTall(hs, k, i))
  }

  /** The links of the node at position `k` while a node of height `h` is being
      spliced in at `p`: done from level `c` up. */
  ghost predicate PartLevel<T>(links: seq<T>, nodes: seq<T>, hs: seq<nat>, tail: T, p: nat, newNode: T, h: nat, c: nat,
      k: int)
    requires p <= |nodes| == |hs| && -1 <= k < |nodes|
  {
    forall i {:trigger links[i]} :: 0 <= i < |links| ==>
      links[i] == if c <= i < h && k == PrevTall(hs, p, i) then newNode else Succ(nodes, hs, tail, k + 1, i)
  }

  lemma PartStep<T>(links: seq<T>, nodes: seq<T>, hs: seq<nat>, tail: T, p: nat, newNode: T, h: nat, i: nat, k: int)
    requires p <= |nodes| == |hs| && -1 <= k < |nodes| && PartLevel(links, nodes, hs, tail, p, newNode, h, i + 1, k)
             && i < h
    ensures k == PrevTall(hs, p, i) && i < |links| ==>
            PartLevel(links[i := newNode], nodes, hs, tail, p, newNode, h, i, k)
    ensures k != PrevTall(hs, p, i) ==> PartLevel(links, nodes, hs, tail, p, newNode, h, i, k)
  {
  }

  /** The links of the node at position `k` while the node at `p` is being
      unlinked: done below level `c`. */
  ghost predicate CutLevel<T>(links: seq<T>, nodes: seq<T>, hs: seq<nat>, tail: T, p: nat, c: nat, k: int)
    requires p < |nodes| == |hs| && -1 <= k < |nodes|
  {
    forall i {:trigger links[i]} :: 0 <= i < |links| ==>
      links[i] == if i < c && k == PrevTall(hs, p, i) then Succ(nodes, hs, tail, p + 1, i)
          else Succ(nodes, hs, tail, k + 1, i)
  }

  lemma CutStep<T>(links: seq<T>, nodes: seq<T>, hs: seq<nat>, tail: T, p: nat, i: nat, k: int)
    requires p < |nodes| == |hs| && -1 <= k < |nodes| && CutLevel(links, nodes, hs, tail, p, i, k)
    ensures k == PrevTall(hs, p, i) && i < |links| ==>
              CutLevel(links[i := Succ(nodes, hs, tail, p + 1, i)], nodes, hs, tail, p, i + 1, k)
    ensures k != PrevTall(hs, p, i) ==> CutLevel(links, nodes, hs, tail, p, i + 1, k)
  {
  }

  lemma NodeAtInsert<T>(old_: seq<T>, tail: T, p: nat, newNode: T, j: nat)
    requires p <= |old_| && j <= |old_|
    ensures var nodes := InsertAt(old_, p, newNode);
            && NodeAt(nodes, tail, p) == newNode
            && (j < p ==> NodeAt(nodes, tail, j) == NodeAt(old_, tail, j))
            && (j >= p ==> NodeAt(nodes, tail, j + 1) == NodeAt(old_, tail, j))
  {
  }

  lemma NodeAtRemove<T>(old_: seq<T>, tail: T, p: nat, j: nat)
    requires p < |old_| && j <= |old_| && j != p
    ensures NodeAt(RemoveAt(old_, p), tail, if j < p then j else j - 1) == NodeAt(old_, tail, j)
  {
  }

  /** Before an inserted node each level leads to it from its predecessor, and otherwise where it led. */
  lemma SuccBeforeInsert<T>(old_: seq<T>, hs: seq<nat>, tail: T, p: nat, newNode: T, h: nat, k: int, i: nat)
    requires p <= |old_| == |hs| && -1 <= k < p && (k >= 0 ==> i < hs[k])
    ensures Succ(InsertAt(old_, p, newNode), InsertAt(hs, p, h), tail, k + 1, i)
         == if i < h && k == PrevTall(hs, p, i) then newNode else Succ(old_, hs, tail, k + 1, i)
  {
    LastBefore(hs, p, i, k);
    NextBeforeInsert(hs, p, h, k + 1, i);
    NodeAtInsert(old_, tail, p, newNode, NextTall(hs, k + 1, i));
  }

  /** Seen from behind it nothing changes but the positions. */
  lemma SuccPastInsert<T>(old_: seq<T>, hs: seq<nat>, tail: T, p: nat, newNode: T, h: nat, k: nat, i: nat)
    requires p <= k <= |old_| == |hs|
    ensures Succ(InsertAt(old_, p, newNode), InsertAt(hs, p, h), tail, k + 1, i) == Succ(old_, hs, tail, k, i)
  {
    NodeAtInsert(old_, tail, p, newNode, NextTall(hs, k, i));
    NextPastInsert(hs, p, h, k, i);
  }

  /** Before the removed node each level leads past it, and otherwise where it led. */
  lemma SuccBeforeRemove<T>(old_: seq<T>, hs: seq<nat>, tail: T, p: nat, k: int, i: nat)
    requires p < |old_| == |hs| && -1 <= k < p && (k >= 0 ==> i < hs[k])
    ensures Succ(RemoveAt(old_, p), RemoveAt(hs, p), tail, k + 1, i)
         == if i < hs[p] && k == PrevTall(hs, p, i) then Succ(old_, hs, tail, p + 1, i)
             else Succ(old_, hs, tail, k + 1, i)
  {
    LastBefore(hs, p, i, k);
    NextBeforeRemove(hs, p, k + 1, i);
    var j := NextTall(hs, k + 1, i);
    if i < hs[p] && k == PrevTall(hs, p, i) { NextTallIs(hs, k + 1, i, p); }
    NodeAtRemove(old_, tail, p, if j == p then NextTall(hs, p + 1, i) else j);
  }

  lemma SuccPastRemove<T>(old_: seq<T>, hs: seq<nat>, tail: T, p: nat, k: nat, i: nat)
    requires p < k < |old_| == |hs|
    ensures Succ(RemoveAt(old_, p), RemoveAt(hs, p), tail, k, i) == Succ(old_, hs, tail, k + 1, i)
  {
    NodeAtRemove(old_, tail, p, NextTall(hs, k + 1, i));
    NextPastRemove(hs, p, k + 1, i);
  }

  /** No node between a predecessor and the position is on the level. */
  lemma SuccAcross<T>(nodes: seq<T>, hs: seq<nat>, tail: T, p: nat, k: int, i: nat)
    requires p <= |nodes| == |hs| && k == PrevTall(hs, p, i)
    ensures Succ(nodes, hs, tail, k + 1, i) == Succ(nodes, hs, tail, p, i)
  {
    NextTallIs(hs, k + 1, i, NextTall(hs, p, i));
  }

  lemma InsertContains<T>(old_: seq<T>, p: nat, newNode: T)
    requires p <= |old_|
    ensures forall n :: n in InsertAt(old_, p, newNode) <==> n in old_ || n == newNode
  {
    var nodes := InsertAt(old_, p, newNode);
    assert nodes[p] == newNode;
    forall n | n in old_ ensures n in nodes {
      var k :| 0 <= k < |old_| && old_[k] == n;
      assert nodes[if k < p then k else k + 1] == n;
    }
  }
}
