/** Every allowed action keeps the invariant. */
module RaftSteps {
  import opened RaftState
  import opened RaftHistory
  import opened RaftEvents
  import opened RaftCluster
  import opened RaftInvariant
  import opened RaftVotes

  // ---- pieces an action does not touch ----

  ghost predicate TermsGrow(c: Cluster, c': Cluster) {
    && |c.servers| == |c'.servers|
    && forall i :: 0 <= i < |c.servers| ==> c.servers[i].currentTerm <= c'.servers[i].currentTerm
  }

  lemma VoteCallKeeps(h: History, h': History, c: Cluster, c': Cluster, t: int, k: int, v: int)
    requires HistoryInv(h, Terms(c)) && Extends(h, h') && TermsGrow(c, c')
    requires (t, k, v) in c.voteCalls && (t, k, v) in c'.voteCalls && c'.voteCalls[(t, k, v)] == c.voteCalls[(t, k, v)]
    requires VoteCallInv(h, c, t, k, v)
    requires (t, v) in h'.votes && h'.votes[(t, v)] == k ==> (t, v) in h.votes
    requires LogOf(h', k, t) == LogOf(h, k, t)
    ensures VoteCallInv(h', c', t, k, v)
  {
  }

  lemma AppendCallKeeps(h: History, h': History, c: Cluster, c': Cluster, t: int, k: int, f: int)
    requires HistoryInv(h, Terms(c)) && Extends(h, h') && |c.servers| == |c'.servers|
    requires (t, k, f) in c.appendCalls && (t, k, f) in c'.appendCalls
             && c'.appendCalls[(t, k, f)] == c.appendCalls[(t, k, f)]
    requires AppendCallInv(h, c, t, k, f)
    requires (t, f) in h'.acked ==> (t, f) in h.acked && h'.acked[(t, f)] == h.acked[(t, f)]
    requires c'.servers[k].state == Leader && c'.servers[k].currentTerm == t ==>
               c.servers[k].state == Leader && c.servers[k].currentTerm == t &&
               |c.servers[k].nextIndex| == |c.servers| && c'.servers[k].nextIndex[..] == c.servers[k].nextIndex[..]
    ensures AppendCallInv(h', c', t, k, f)
  {
    var call := c.appendCalls[(t, k, f)];
    assert h.tlog[t] <= h'.tlog[t];
    CommittedPrefixStable(h, h', |c.servers|, t, t, call.sentLog[..call.args.leaderCommit + 1]);
  }

  /** All of the parts of Inv that concern servers other than `i` and calls. */
  ghost predicate Framed(h: History, h': History, c: Cluster, c': Cluster, i: int) {
    && Extends(h, h') && TermsGrow(c, c') && 0 <= i < |c.servers|
    && h.base.Keys == h.leaders.Keys && h'.base.Keys == h'.leaders.Keys
    && (forall j :: 0 <= j < |c.servers| && j != i ==> c'.servers[j] == c.servers[j])
    && (forall u, w :: (u, w) in h'.acked && w != i ==> (u, w) in h.acked && h'.acked[(u, w)] == h.acked[(u, w)])
    && (forall u, w :: (u, w) in h'.votes && w != i ==> (u, w) in h.votes)
    && (forall u :: u in h'.leaders && u !in h.leaders ==> h'.leaders[u] == i)
    && c'.due - {i} == c.due - {i}
  }

  lemma OtherServers(h: History, h': History, c: Cluster, c': Cluster, i: int)
    requires Inv(h, c) && Framed(h, h', c, c', i)
    ensures forall j {:trigger ServerInv(h', |c'.servers|, j, c'.servers[j])} ::
              0 <= j < |c'.servers| && j != i ==> ServerInv(h', |c'.servers|, j, c'.servers[j])
  {
    forall j {:trigger ServerInv(h', |c'.servers|, j, c'.servers[j])} | 0 <= j < |c'.servers| && j != i
      ensures ServerInv(h', |c'.servers|, j, c'.servers[j])
    {
      assert ServerInv(h, |c.servers|, j, c.servers[j]);
      ServerKeeps(h, h', Terms(c), |c.servers|, j, c.servers[j]);
    }
  }

  /** What `j` has counted changes only with a vote for `j` or a call of `j`'s. */
  lemma CountKeeps(h: History, h': History, c: Cluster, c': Cluster, j: int)
    requires 0 <= j < |c.servers| == |c'.servers| && CountInv(h, c, j)
    requires c'.servers[j].state == Candidate ==> c.servers[j].state == Candidate
    requires c'.servers[j].voteCount == c.servers[j].voteCount && c'.servers[j].currentTerm == c.servers[j].currentTerm
    requires j in c'.due ==> j in c.due
    requires Extends(h, h')
    requires forall v :: (c.servers[j].currentTerm, v) in h'.votes && h'.votes[(c.servers[j].currentTerm, v)] == j ==>
                         (c.servers[j].currentTerm, v) in h.votes || (c.servers[j].currentTerm, j, v) in c'.voteCalls
    requires j in c.due ==>
             forall v :: (c.servers[j].currentTerm, v) in h'.votes && h'.votes[(c.servers[j].currentTerm, v)] == j ==>
                         (c.servers[j].currentTerm, v) in h.votes
    requires forall v ::
             ((c.servers[j].currentTerm, j, v) in c'.voteCalls <==> (c.servers[j].currentTerm, j, v) in c.voteCalls)
    ensures CountInv(h', c', j)
  {
    assert Counted(h', c', c.servers[j].currentTerm, j) == Counted(h, c, c.servers[j].currentTerm, j);
  }

  // ---- elections ----

  /** The calls stay as described by an event at server `i` that leaves `i`'s calls alone. */
  lemma CallsKeep(h: History, h': History, c: Cluster, c': Cluster, i: int)
    requires Inv(h, c) && Framed(h, h', c, c', i)
    requires c'.voteCalls == c.voteCalls && c'.appendCalls == c.appendCalls
    requires forall w, u :: 0 <= w < |c.servers| && u <= c.servers[w].currentTerm ==> LogOf(h', w, u) == LogOf(h, w, u)
    requires forall u :: (u, i) in h'.votes && (u, i) !in h.votes ==> h'.votes[(u, i)] == i
    requires forall u :: (u, i) in h'.acked && !((u, i) in h.acked && h.acked[(u, i)] == h'.acked[(u, i)]) ==>
               u in h'.leaders && h'.leaders[u] == i
    requires c'.servers[i].state == Leader && c'.servers[i].currentTerm in h.leaders ==>
               c.servers[i].state == Leader && c.servers[i].currentTerm == c'.servers[i].currentTerm &&
               c'.servers[i].nextIndex == c.servers[i].nextIndex
    ensures forall u, k, v {:trigger VoteCallInv(h', c', u, k, v)} :: (u, k, v) in c'.voteCalls ==>
            VoteCallInv(h', c', u, k, v)
    ensures forall u, k, f {:trigger AppendCallInv(h', c', u, k, f)} :: (u, k, f) in c'.appendCalls ==>
            AppendCallInv(h', c', u, k, f)
  {
    forall u, k, v {:trigger VoteCallInv(h', c', u, k, v)} | (u, k, v) in c'.voteCalls
      ensures VoteCallInv(h', c', u, k, v) {
      assert VoteCallInv(h, c, u, k, v);
      VoteCallKeeps(h, h', c, c', u, k, v);
    }
    forall u, k, f {:trigger AppendCallInv(h', c', u, k, f)} | (u, k, f) in c'.appendCalls
      ensures AppendCallInv(h', c', u, k, f) {
      assert AppendCallInv(h, c, u, k, f);
      assert ServerInv(h, |c.servers|, k, c.servers[k]);
      AppendCallKeeps(h, h', c, c', u, k, f);
    }
  }

  /** Nothing about term `t` of server `i` was recorded while `i` was in an earlier term. */
  lemma FreshTerm(h: History, c: Cluster, i: int, t: int)
    requires Inv(h, c) && 0 <= i < |c.servers| && c.servers[i].currentTerm < t
    ensures (t, i) !in h.acked && (t, i) !in h.votes && (t in h.leaders ==> h.leaders[t] != i)
    ensures forall v :: (t, i, v) !in c.voteCalls && ((t, v) in h.votes ==> h.votes[(t, v)] != i)
    ensures LogOf(h, i, t + 1) == LogOf(h, i, c.servers[i].currentTerm + 1)
  {
    if t in h.leaders { LeaderAt(h, Terms(c), t); }
    if (t, i) in h.votes { VoteAt(h, Terms(c), t, i); }
    forall v ensures (t, i, v) !in c.voteCalls && ((t, v) in h.votes ==> h.votes[(t, v)] != i) {
      if (t, i, v) in c.voteCalls { VoteCallAt(h, c, t, i, v); }
      if (t, v) in h.votes { VoteAt(h, Terms(c), t, v); }
    }
    assert ServerInv(h, |c.servers|, i, c.servers[i]);
    LogOfGap(h, c, i, c.servers[i].currentTerm, t);
  }

  lemma {:induction false} LogOfGap(h: History, c: Cluster, i: int, a: int, b: int)
    requires Inv(h, c) && 0 <= i < |c.servers| && 0 <= a <= b && c.servers[i].currentTerm <= a
    ensures LogOf(h, i, b + 1) == LogOf(h, i, a + 1)
    decreases b
  {
    if a < b {
      assert (b, i) !in h.acked;
      LogOfGap(h, c, i, a, b - 1);
    }
  }

  lemma TimeoutServer(h: History, h': History, c: Cluster, i: int)
    requires Inv(h, c) && Enabled(c, Timeout(i))
    requires h' == Vote(h, c.servers[i].currentTerm + 1, i, i) && Extends(h, h')
    requires forall w, u :: LogOf(h', w, u) == LogOf(h, w, u)
    ensures ServerInv(h', |c.servers|, i, ConvertToCandidate(c.servers[i], c.servers[i].state))
  {
    var n, s := |c.servers|, c.servers[i];
    var t := s.currentTerm + 1;
    assert ServerInv(h, n, i, s);
    FreshTerm(h, c, i, t);
    CommittedPrefixStable(h, h', n, CommitBound(h, i, s.currentTerm), CommitBound(h', i, t), s.applied);
  }

  lemma TimeoutCounts(h: History, h': History, c: Cluster, c': Cluster, i: int)
    requires Inv(h, c) && 0 <= i < |c.servers| && c.servers[i].currentTerm >= 0
    requires h' == Vote(h, c.servers[i].currentTerm + 1, i, i) && Extends(h, h')
    requires c' == c.(servers := c.servers[i := ConvertToCandidate(c.servers[i], c.servers[i].state)],
             due := c.due + {i})
    ensures forall j {:trigger CountInv(h', c', j)} :: 0 <= j < |c.servers| ==> CountInv(h', c', j)
  {
    var t := c.servers[i].currentTerm + 1;
    FreshTerm(h, c, i, t);
    assert Counted(h', c', t, i) == {i};
    forall j {:trigger CountInv(h', c', j)} | 0 <= j < |c.servers| ensures CountInv(h', c', j) {
      assert CountInv(h, c, j);
      if j != i {
        CountKeeps(h, h', c, c', j);
      }
    }
  }

  lemma TimeoutFrame(h: History, h': History, c: Cluster, c': Cluster, i: int)
    requires Inv(h, c) && 0 <= i < |c.servers| && c.servers[i].currentTerm >= 0
    requires h' == Vote(h, c.servers[i].currentTerm + 1, i, i)
    requires c' == c.(servers := c.servers[i := ConvertToCandidate(c.servers[i], c.servers[i].state)],
             due := c.due + {i})
    ensures HistoryInv(h', Terms(c')) && Framed(h, h', c, c', i)
    ensures forall w, u :: LogOf(h', w, u) == LogOf(h, w, u)
  {
    var t := c.servers[i].currentTerm + 1;
    BumpKeeps(h, Terms(c), Terms(c'));
    FreshTerm(h, c, i, t);
    VoteKeeps(h, Terms(c'), t, i, i);
  }

  lemma TimeoutKeeps(h: History, c: Cluster, mode: CopyMode, i: int)
    requires Inv(h, c) && Enabled(c, Timeout(i))
    ensures Inv(Record(h, c, mode, Timeout(i)), Apply(c, mode, Timeout(i)))
  {
    var h', c' := Record(h, c, mode, Timeout(i)), Apply(c, mode, Timeout(i));
    ServerAt(h, c, i);
    TimeoutFrame(h, h', c, c', i);
    OtherServers(h, h', c, c', i);
    TimeoutServer(h, h', c, i);
    TimeoutCounts(h, h', c, c', i);
    FreshTerm(h, c, i, c'.servers[i].currentTerm);
    CallsKeep(h, h', c, c', i);
  }

  lemma BroadcastCalls(h: History, c: Cluster, mode: CopyMode, i: int)
    requires Inv(h, c) && Enabled(c, Broadcast(i)) && Allowed(c, mode, Broadcast(i))
    ensures var c' := Apply(c, mode, Broadcast(i));
            forall u, k, v {:trigger VoteCallInv(h, c', u, k, v)} :: (u, k, v) in c'.voteCalls ==>
              VoteCallInv(h, c', u, k, v)
  {
    var c' := Apply(c, mode, Broadcast(i));
    var t := c.servers[i].currentTerm;
    ServerAt(h, c, i);
    assert t in h.leaders || LogOf(h, i, t + 1) == LogOf(h, i, t) by {
      if (t, i) in h.acked { assert t in h.leaders; }
    }
    forall u, k, v {:trigger VoteCallInv(h, c', u, k, v)} | (u, k, v) in c'.voteCalls
      ensures VoteCallInv(h, c', u, k, v) {
      if (u, k, v) in c.voteCalls {
        VoteCallAt(h, c, u, k, v);
      }
    }
  }

  lemma BroadcastCounts(h: History, c: Cluster, mode: CopyMode, i: int)
    requires Inv(h, c) && Enabled(c, Broadcast(i))
    ensures var c' := Apply(c, mode, Broadcast(i));
            forall j {:trigger CountInv(h, c', j)} :: 0 <= j < |c'.servers| ==> CountInv(h, c', j)
  {
    var c' := Apply(c, mode, Broadcast(i));
    var t := c.servers[i].currentTerm;
    ServerAt(h, c, i);
    assert Counted(h, c', t, i) == Counted(h, c, t, i);
    forall j {:trigger CountInv(h, c', j)} | 0 <= j < |c'.servers| ensures CountInv(h, c', j) {
      ServerAt(h, c, j);
      if j != i {
        CountKeeps(h, h, c, c', j);
      }
    }
  }

  lemma BroadcastServers(h: History, c: Cluster, mode: CopyMode, i: int)
    requires Inv(h, c) && Enabled(c, Broadcast(i))
    ensures var c' := Apply(c, mode, Broadcast(i));
            forall j {:trigger ServerInv(h, |c'.servers|, j, c'.servers[j])} ::
              0 <= j < |c'.servers| ==> ServerInv(h, |c'.servers|, j, c'.servers[j])
  {
    var c' := Apply(c, mode, Broadcast(i));
    forall j {:trigger ServerInv(h, |c'.servers|, j, c'.servers[j])} | 0 <= j < |c'.servers|
      ensures ServerInv(h, |c'.servers|, j, c'.servers[j])
    {
      ServerAt(h, c, j);
    }
  }

  lemma BroadcastKeeps(h: History, c: Cluster, mode: CopyMode, i: int)
    requires Inv(h, c) && Enabled(c, Broadcast(i)) && Allowed(c, mode, Broadcast(i))
    ensures Inv(h, Apply(c, mode, Broadcast(i)))
  {
    var c' := Apply(c, mode, Broadcast(i));
    assert Terms(c) == Terms(c');
    BroadcastServers(h, c, mode, i);
    BroadcastCounts(h, c, mode, i);
    BroadcastCalls(h, c, mode, i);
    forall u, k, f {:trigger AppendCallInv(h, c', u, k, f)} | (u, k, f) in c'.appendCalls
      ensures AppendCallInv(h, c', u, k, f) {
      AppendCallAt(h, c, u, k, f);
    }
  }

  // ---- stepping down ----

  function SetServer(c: Cluster, i: int, s: Server): Cluster
    requires 0 <= i < |c.servers|
  {
    c.(servers := c.servers[i := s])
  }

  lemma StepDownServer(h: History, c: Cluster, i: int, t: int)
    requires Inv(h, c) && 0 <= i < |c.servers| && c.servers[i].currentTerm < t
    ensures ServerInv(h, |c.servers|, i, StepDown(c.servers[i], t))
  {
    ServerAt(h, c, i);
    FreshTerm(h, c, i, t);
    CommittedPrefixStable(h, h, |c.servers|, CommitBound(h, i, c.servers[i].currentTerm), CommitBound(h, i, t),
        c.servers[i].applied);
  }

  lemma StepDownCounts(h: History, c: Cluster, i: int, t: int)
    requires Inv(h, c) && 0 <= i < |c.servers| && c.servers[i].currentTerm < t
    ensures var c' := SetServer(c, i, StepDown(c.servers[i], t));
            forall j {:trigger CountInv(h, c', j)} :: 0 <= j < |c'.servers| ==> CountInv(h, c', j)
  {
    var c' := SetServer(c, i, StepDown(c.servers[i], t));
    FreshTerm(h, c, i, t);
    forall j {:trigger CountInv(h, c', j)} | 0 <= j < |c'.servers| ensures CountInv(h, c', j) {
      ServerAt(h, c, j);
      if j != i {
        CountKeeps(h, h, c, c', j);
      }
    }
  }

  /** A server that learns of a higher term becomes a follower of it. */
  lemma StepDownKeeps(h: History, c: Cluster, i: int, t: int)
    requires Inv(h, c) && 0 <= i < |c.servers| && c.servers[i].currentTerm < t
    ensures Inv(h, SetServer(c, i, StepDown(c.servers[i], t)))
  {
    var c' := SetServer(c, i, StepDown(c.servers[i], t));
    BumpKeeps(h, Terms(c), Terms(c'));
    OtherServers(h, h, c, c', i);
    StepDownServer(h, c, i, t);
    StepDownCounts(h, c, i, t);
    CallsKeep(h, h, c, c', i);
  }

  // ---- answering a vote request ----

  lemma AppendCallsKeep(h: History, h': History, c: Cluster, c': Cluster, i: int)
    requires Inv(h, c) && Framed(h, h', c, c', i) && h'.acked == h.acked
    requires c'.appendCalls == c.appendCalls
    requires c'.servers[i].state == Leader ==>
               c.servers[i].state == Leader && c'.servers[i].currentTerm == c.servers[i].currentTerm &&
               c'.servers[i].nextIndex == c.servers[i].nextIndex
    ensures forall u, k, f {:trigger AppendCallInv(h', c', u, k, f)} :: (u, k, f) in c'.appendCalls ==>
            AppendCallInv(h', c', u, k, f)
  {
    forall u, k, f {:trigger AppendCallInv(h', c', u, k, f)} | (u, k, f) in c'.appendCalls
      ensures AppendCallInv(h', c', u, k, f) {
      AppendCallAt(h, c, u, k, f);
      ServerAt(h, c, k);
      AppendCallKeeps(h, h', c, c', u, k, f);
    }
  }

  /** The other vote calls stay as described when one call is answered or removed. */
  lemma VoteCallsKeep(h: History, h': History, c: Cluster, c': Cluster, t: int, k: int, v: int)
    requires Inv(h, c) && Extends(h, h') && TermsGrow(c, c')
    requires forall key :: key in c'.voteCalls && key != (t, k, v) ==>
             key in c.voteCalls && c'.voteCalls[key] == c.voteCalls[key]
    requires forall w, u :: LogOf(h', w, u) == LogOf(h, w, u)
    requires forall key :: key in h'.votes && key !in h.votes ==> key == (t, v) && h'.votes[key] == k
    ensures forall u, l, w {:trigger VoteCallInv(h', c', u, l, w)} ::
              (u, l, w) in c'.voteCalls && (u, l, w) != (t, k, v) ==> VoteCallInv(h', c', u, l, w)
  {
    forall u, l, w {:trigger VoteCallInv(h', c', u, l, w)} | (u, l, w) in c'.voteCalls && (u, l, w) != (t, k, v)
      ensures VoteCallInv(h', c', u, l, w)
    {
      VoteCallAt(h, c, u, l, w);
      VoteCallKeeps(h, h', c, c', u, l, w);
    }
  }

  lemma VoteRefused(h: History, c: Cluster, t: int, k: int, v: int, reply: RequestVoteReply)
    requires Inv(h, c) && (t, k, v) in c.voteCalls && c.voteCalls[(t, k, v)].VoteRequest? && !reply.voteGranted
    ensures var call := c.voteCalls[(t, k, v)];
            Inv(h, c.(voteCalls := c.voteCalls[(t, k, v) := VoteAnswer(call.sent, call.wire, reply)]))
  {
    var call := c.voteCalls[(t, k, v)];
    var c' := c.(voteCalls := c.voteCalls[(t, k, v) := VoteAnswer(call.sent, call.wire, reply)]);
    VoteCallAt(h, c, t, k, v);
    VoteCallsKeep(h, h, c, c', t, k, v);
    assert Terms(c') == Terms(c);
    forall j {:trigger CountInv(h, c', j)} | 0 <= j < |c'.servers| ensures CountInv(h, c', j) {
      ServerAt(h, c, j);
      CountKeeps(h, h, c, c', j);
    }
    OtherServers(h, h, c, c', k);
    ServerAt(h, c, k);
    AppendCallsKeep(h, h, c, c', k);
  }

  lemma VoteGrantedCounts(h: History, h': History, c: Cluster, c': Cluster, t: int, k: int, v: int)
    requires Inv(h, c) && (t, k, v) in c.voteCalls && c.voteCalls[(t, k, v)].VoteRequest? && 0 <= v < |c.servers|
    requires h' == Vote(h, t, v, k) && (t, v) !in h.votes && Extends(h, h')
    requires c' == c.(servers := c.servers[v := c.servers[v].(votedFor := k)], voteCalls := c'.voteCalls)
    requires c'.voteCalls.Keys == c.voteCalls.Keys
    ensures forall j {:trigger CountInv(h', c', j)} :: 0 <= j < |c'.servers| ==> CountInv(h', c', j)
  {
    VoteCallAt(h, c, t, k, v);
    forall j {:trigger CountInv(h', c', j)} | 0 <= j < |c'.servers| ensures CountInv(h', c', j) {
      ServerAt(h, c, j);
      CountKeeps(h, h', c, c', j);
    }
  }

  lemma VoteGrantedRest(h: History, h': History, c: Cluster, c': Cluster, t: int, k: int, v: int)
    requires Inv(h, c) && (t, k, v) in c.voteCalls && c.voteCalls[(t, k, v)].VoteRequest? && 0 <= v < |c.servers|
    requires h' == Vote(h, t, v, k) && (t, v) !in h.votes && Extends(h, h')
    requires forall w, u :: LogOf(h', w, u) == LogOf(h, w, u)
    requires c' == c.(servers := c.servers[v := c.servers[v].(votedFor := k)], voteCalls := c'.voteCalls)
    requires c'.voteCalls.Keys == c.voteCalls.Keys
    requires forall key :: key in c.voteCalls && key != (t, k, v) ==> c'.voteCalls[key] == c.voteCalls[key]
    ensures Terms(c') == Terms(c)
    ensures forall j {:trigger ServerInv(h', |c'.servers|, j, c'.servers[j])} ::
              0 <= j < |c'.servers| && j != v ==> ServerInv(h', |c'.servers|, j, c'.servers[j])
    ensures forall j {:trigger CountInv(h', c', j)} :: 0 <= j < |c'.servers| ==> CountInv(h', c', j)
    ensures forall u, l, w {:trigger VoteCallInv(h', c', u, l, w)} ::
              (u, l, w) in c'.voteCalls && (u, l, w) != (t, k, v) ==> VoteCallInv(h', c', u, l, w)
    ensures forall u, l, f {:trigger AppendCallInv(h', c', u, l, f)} :: (u, l, f) in c'.appendCalls ==>
            AppendCallInv(h', c', u, l, f)
  {
    assert Terms(c') == Terms(c);
    OtherServers(h, h', c, c', v);
    VoteGrantedCounts(h, h', c, c', t, k, v);
    VoteCallsKeep(h, h', c, c', t, k, v);
    AppendCallsKeep(h, h', c, c', v);
  }

  lemma VoteGranted(h: History, c: Cluster, t: int, k: int, v: int)
    requires Inv(h, c) && (t, k, v) in c.voteCalls && c.voteCalls[(t, k, v)].VoteRequest?
    requires 0 <= v < |c.servers| && c.servers[v].currentTerm == t && c.servers[v].votedFor == -1
    requires var wire := c.voteCalls[(t, k, v)].wire; IsLogUpToDate(c.servers[v], wire.lastLogIndex, wire.lastLogTerm)
    ensures var call := c.voteCalls[(t, k, v)];
            Inv(Vote(h, t, v, k),
                c.(servers := c.servers[v := c.servers[v].(votedFor := k)],
                   voteCalls := c.voteCalls[(t, k, v) := VoteAnswer(call.sent, call.wire, RequestVoteReply(t, true))]))
  {
    var call, s := c.voteCalls[(t, k, v)], c.servers[v];
    var h', s' := Vote(h, t, v, k), s.(votedFor := k);
    var c' := c.(servers := c.servers[v := s'],
                 voteCalls := c.voteCalls[(t, k, v) := VoteAnswer(call.sent, call.wire, RequestVoteReply(t, true))]);
    VoteCallAt(h, c, t, k, v);
    ServerAt(h, c, v);
    GrantComparesLogs(h, c, t, k, v);
    VoteKeeps(h, Terms(c), t, v, k);
    VoteGrantedRest(h, h', c, c', t, k, v);
    VotingServer(h, c, t, k, v);
    assert VoteCallInv(h', c', t, k, v);
  }

  /** A vote is granted only when the logs themselves compare, the copy notwithstanding. */
  lemma GrantComparesLogs(h: History, c: Cluster, t: int, k: int, v: int)
    requires Inv(h, c) && (t, k, v) in c.voteCalls && 0 <= v < |c.servers| && c.servers[v].currentTerm == t
    requires var wire := c.voteCalls[(t, k, v)].wire; IsLogUpToDate(c.servers[v], wire.lastLogIndex, wire.lastLogTerm)
    ensures t in h.leaders || UpToDate(LogOf(h, k, t), LogOf(h, v, t))
  {
    VoteCallAt(h, c, t, k, v);
    ServerAt(h, c, v);
    if t !in h.leaders {
      assert (t, v) !in h.acked;
      TrueArgsCompareLogs(c.servers[v], LogOf(h, k, t));
    }
  }

  lemma VotingServer(h: History, c: Cluster, t: int, k: int, v: int)
    requires Inv(h, c) && 0 <= v < |c.servers| && c.servers[v].currentTerm == t && c.servers[v].votedFor == -1 && k >= 0
    requires Extends(h, Vote(h, t, v, k))
    requires forall w, u :: LogOf(Vote(h, t, v, k), w, u) == LogOf(h, w, u)
    ensures ServerInv(Vote(h, t, v, k), |c.servers|, v, c.servers[v].(votedFor := k))
  {
    var h', s := Vote(h, t, v, k), c.servers[v];
    ServerAt(h, c, v);
    CommittedPrefixStable(h, h', |c.servers|, CommitBound(h, v, t), CommitBound(h', v, t), s.applied);
  }

  lemma DeliverVoteRequestKeeps(h: History, c: Cluster, mode: CopyMode, t: int, k: int, v: int)
    requires Inv(h, c) && Enabled(c, DeliverVoteRequest(t, k, v))
    ensures Inv(Record(h, c, mode, DeliverVoteRequest(t, k, v)), Apply(c, mode, DeliverVoteRequest(t, k, v)))
  {
    var call, s := c.voteCalls[(t, k, v)], c.servers[v];
    VoteCallAt(h, c, t, k, v);
    ServerAt(h, c, v);
    var (s', reply) := RequestVote(s, call.wire);
    if t < s.currentTerm {
      assert c.servers[v := s'] == c.servers;
      VoteRefused(h, c, t, k, v, reply);
    } else {
      var s1 := if t > s.currentTerm then StepDown(s, t) else s;
      var c1 := SetServer(c, v, s1);
      if t > s.currentTerm {
        StepDownKeeps(h, c, v, t);
      } else {
        assert c1 == c;
      }
      assert (s', reply) == RequestVote(s1, call.wire);
      VoteCallAt(h, c1, t, k, v);
      ServerAt(h, c1, v);
      assert c.servers[v := s'] == c1.servers[v := s'];
      if reply.voteGranted {
        VoteGranted(h, c1, t, k, v);
      } else {
        assert c1.servers[v := s'] == c1.servers;
        VoteRefused(h, c1, t, k, v, reply);
      }
    }
  }

  // ---- counting votes ----

  lemma VoteReplyCounts(h: History, c: Cluster, c': Cluster, t: int, k: int, v: int)
    requires Inv(h, c) && (t, k, v) in c.voteCalls && c.voteCalls[(t, k, v)].VoteAnswer? && 0 <= k < |c.servers|
    requires c'.voteCalls == c.voteCalls - {(t, k, v)} && c'.due == c.due && |c'.servers| == |c.servers|
    requires forall j :: 0 <= j < |c.servers| && j != k ==> c'.servers[j] == c.servers[j]
    requires var s, s' := c.servers[k], c'.servers[k];
             && s'.currentTerm == s.currentTerm && s'.state == s.state
             && (s.state == Candidate && s.currentTerm == t && c.voteCalls[(t, k, v)].reply.voteGranted ==>
                  s'.voteCount == s.voteCount + 1)
             && (s.state == Candidate && !(s.currentTerm == t && c.voteCalls[(t, k, v)].reply.voteGranted) ==>
                  s'.voteCount == s.voteCount)
    ensures forall j {:trigger CountInv(h, c', j)} :: 0 <= j < |c'.servers| ==> CountInv(h, c', j)
  {
    VoteCallAt(h, c, t, k, v);
    forall j {:trigger CountInv(h, c', j)} | 0 <= j < |c'.servers| ensures CountInv(h, c', j) {
      ServerAt(h, c, j);
      var u := c.servers[j].currentTerm;
      if j == k && u == t && c.voteCalls[(t, k, v)].reply.voteGranted {
        assert Counted(h, c', t, k) == Counted(h, c, t, k) + {v};
      } else {
        assert Counted(h, c', u, j) == Counted(h, c, u, j);
      }
    }
  }

  /** The reply of one call is taken off, and counted if it was a granted vote of this candidacy. */
  lemma VoteCounted(h: History, c: Cluster, t: int, k: int, v: int, s': Server)
    requires Inv(h, c) && (t, k, v) in c.voteCalls && c.voteCalls[(t, k, v)].VoteAnswer? && 0 <= k < |c.servers|
    requires var s := c.servers[k];
             && s' == s.(voteCount := s'.voteCount, winElection := s'.winElection)
             && (s.state == Candidate && s.currentTerm == t && c.voteCalls[(t, k, v)].reply.voteGranted ==>
                  s'.voteCount == s.voteCount + 1)
             && (s.state == Candidate && !(s.currentTerm == t && c.voteCalls[(t, k, v)].reply.voteGranted) ==>
                  s'.voteCount == s.voteCount)
    ensures Inv(h, c.(servers := c.servers[k := s'], voteCalls := c.voteCalls - {(t, k, v)}))
  {
    var c' := c.(servers := c.servers[k := s'], voteCalls := c.voteCalls - {(t, k, v)});
    assert Terms(c') == Terms(c);
    VoteReplyCounts(h, c, c', t, k, v);
    VoteCallsKeep(h, h, c, c', t, k, v);
    forall j {:trigger ServerInv(h, |c'.servers|, j, c'.servers[j])} | 0 <= j < |c'.servers|
      ensures ServerInv(h, |c'.servers|, j, c'.servers[j])
    {
      ServerAt(h, c, j);
      if j == k { SameButVotes(h, |c.servers|, k, c.servers[k], s'); }
    }
    forall u, l, f {:trigger AppendCallInv(h, c', u, l, f)} | (u, l, f) in c'.appendCalls
      ensures AppendCallInv(h, c', u, l, f) {
      AppendCallAt(h, c, u, l, f);
    }
  }

  lemma SameButVotes(h: History, n: nat, i: int, s: Server, s': Server)
    requires ServerInv(h, n, i, s) && s' == s.(voteCount := s'.voteCount, winElection := s'.winElection)
    ensures ServerInv(h, n, i, s')
  {
    if s.state == Leader {
      forall f {:trigger IndexOk(h, s', f)} | 0 <= f < n && f != i ensures IndexOk(h, s', f) {
        assert IndexOk(h, s, f);
      }
    }
  }

  lemma DeliverVoteReplyKeeps(h: History, c: Cluster, mode: CopyMode, t: int, k: int, v: int)
    requires Inv(h, c) && Enabled(c, DeliverVoteReply(t, k, v))
    ensures Inv(h, Apply(c, mode, DeliverVoteReply(t, k, v)))
  {
    var call, s := c.voteCalls[(t, k, v)], c.servers[k];
    VoteCallAt(h, c, t, k, v);
    ServerAt(h, c, k);
    var s' := HandleVoteReply(s, call.wire, call.reply);
    if s.state == Candidate && t == s.currentTerm && call.reply.term > s.currentTerm {
      StepDownKeeps(h, c, k, call.reply.term);
      VoteCounted(h, SetServer(c, k, s'), t, k, v, s');
      assert SetServer(c, k, s').servers[k := s'] == c.servers[k := s'];
    } else {
      VoteCounted(h, c, t, k, v, s');
    }
  }

  // ---- taking office ----

  /** A majority counted by a candidate is a majority of votes for it. */
  lemma CountedVoted(h: History, c: Cluster, t: int, k: int)
    ensures |Counted(h, c, t, k)| <= |Voters(h, |c.servers|, t, k)|
  {
    SubsetSize(Counted(h, c, t, k), Voters(h, |c.servers|, t, k));
  }

  /** A candidate with a majority is the first to lead its term. */
  lemma WinnerIsFirst(h: History, c: Cluster, i: int)
    requires Inv(h, c) && 0 <= i < |c.servers|
    requires c.servers[i].state == Candidate && c.servers[i].voteCount >= Majority(|c.servers|)
    ensures c.servers[i].currentTerm !in h.leaders
    ensures |Voters(h, |c.servers|, c.servers[i].currentTerm, i)| >= Majority(|c.servers|)
  {
    var t := c.servers[i].currentTerm;
    ServerAt(h, c, i);
    CountedVoted(h, c, t, i);
    if t in h.leaders {
      MajorityIsExclusive(h, Terms(c), t, i);
    }
  }

  lemma NewLeaderServer(h: History, c: Cluster, i: int)
    requires Inv(h, c) && 0 <= i < |c.servers| && c.servers[i].state == Candidate
    requires var t := c.servers[i].currentTerm; t !in h.leaders && Extends(h, Elect(h, t, i))
    requires var t := c.servers[i].currentTerm; LogOf(Elect(h, t, i), i, t + 1) == LogOf(h, i, t) == LogOf(h, i, t + 1)
    ensures ServerInv(Elect(h, c.servers[i].currentTerm, i), |c.servers|, i, ConvertToLeader(c.servers[i]))
  {
    var s := c.servers[i];
    var t := s.currentTerm;
    ServerAt(h, c, i);
    CommittedPrefixStable(h, Elect(h, t, i), |c.servers|, CommitBound(h, i, t), t, s.applied);
  }

  lemma BecomeLeaderFrame(h: History, c: Cluster, i: int)
    requires Inv(h, c) && 0 <= i < |c.servers|
    requires c.servers[i].state == Candidate && c.servers[i].voteCount >= Majority(|c.servers|)
    ensures var t := c.servers[i].currentTerm;
            var h', c' := Elect(h, t, i), SetServer(c, i, ConvertToLeader(c.servers[i]));
            && t !in h.leaders && HistoryInv(h', Terms(c')) && Framed(h, h', c, c', i)
            && LogOf(h', i, t + 1) == LogOf(h, i, t) == LogOf(h, i, t + 1)
            && (forall w, u :: 0 <= w < |c.servers| && u <= c.servers[w].currentTerm ==>
                 LogOf(h', w, u) == LogOf(h, w, u))
  {
    var t := c.servers[i].currentTerm;
    ServerAt(h, c, i);
    WinnerIsFirst(h, c, i);
    ElectKeeps(h, Terms(c), t, i);
    assert Terms(SetServer(c, i, ConvertToLeader(c.servers[i]))) == Terms(c);
  }

  lemma BecomeLeaderKeeps(h: History, c: Cluster, mode: CopyMode, i: int)
    requires Inv(h, c) && Enabled(c, BecomeLeader(i)) && Allowed(c, mode, BecomeLeader(i))
    ensures Inv(Record(h, c, mode, BecomeLeader(i)), Apply(c, mode, BecomeLeader(i)))
  {
    var h', c' := Elect(h, c.servers[i].currentTerm, i), SetServer(c, i, ConvertToLeader(c.servers[i]));
    BecomeLeaderFrame(h, c, i);
    NewLeaderServer(h, c, i);
    OtherServers(h, h', c, c', i);
    LeaderCounts(h, h', c, c', i);
    CallsKeep(h, h', c, c', i);
  }

  lemma LeaderCounts(h: History, h': History, c: Cluster, c': Cluster, i: int)
    requires Inv(h, c) && Extends(h, h') && h'.votes == h.votes && 0 <= i < |c.servers|
    requires c'.voteCalls == c.voteCalls && c'.due == c.due && |c'.servers| == |c.servers|
    requires forall j :: 0 <= j < |c.servers| && j != i ==> c'.servers[j] == c.servers[j]
    requires c'.servers[i].state != Candidate && c'.servers[i].currentTerm == c.servers[i].currentTerm
      && c'.servers[i].voteCount == c.servers[i].voteCount
    ensures forall j {:trigger CountInv(h', c', j)} :: 0 <= j < |c'.servers| ==> CountInv(h', c', j)
  {
    forall j {:trigger CountInv(h', c', j)} | 0 <= j < |c'.servers| ensures CountInv(h', c', j) {
      ServerAt(h, c, j);
      CountKeeps(h, h', c, c', j);
    }
  }

  // ---- client writes ----

  /** While a server leads, its log is the log its term is recorded with. */
  lemma LeaderLog(h: History, c: Cluster, i: int)
    requires Inv(h, c) && 0 <= i < |c.servers| && c.servers[i].state == Leader
    ensures var t := c.servers[i].currentTerm;
            t in h.leaders && h.leaders[t] == i && t in h.tlog && t in h.base && h.tlog[t] == c.servers[i].logs
            && h.base[t] <= |c.servers[i].logs| && (t, i) in h.acked
  {
    ServerAt(h, c, i);
    LeaderAt(h, Terms(c), c.servers[i].currentTerm);
  }

  lemma WritingServer(h: History, c: Cluster, i: int, e: LogEntry)
    requires Inv(h, c) && 0 <= i < |c.servers| && c.servers[i].state == Leader
    requires var t := c.servers[i].currentTerm;
             t in h.tlog && t in h.leaders && h.leaders[t] == i && Extends(h, Append(h, t, e))
    requires var t := c.servers[i].currentTerm; LogOf(Append(h, t, e), i, t + 1) == LogOf(h, i, t + 1) + [e]
    ensures ServerInv(Append(h, c.servers[i].currentTerm, e), |c.servers|, i,
            c.servers[i].(logs := c.servers[i].logs + [e]))
  {
    var s := c.servers[i];
    var t := s.currentTerm;
    var h', s' := Append(h, t, e), s.(logs := s.logs + [e]);
    ServerAt(h, c, i);
    LeaderLog(h, c, i);
    CommittedPrefixStable(h, h', |c.servers|, CommitBound(h, i, t), t, s.applied);
    forall f {:trigger IndexOk(h', s', f)} | 0 <= f < |c.servers| && f != i ensures IndexOk(h', s', f) {
      assert IndexOk(h, s, f);
    }
  }

  lemma ClientWriteFrame(h: History, c: Cluster, i: int, e: LogEntry)
    requires Inv(h, c) && 0 <= i < |c.servers| && c.servers[i].state == Leader && e.term == c.servers[i].currentTerm
    ensures var t := c.servers[i].currentTerm; t in h.tlog && t in h.leaders && h.leaders[t] == i
    ensures var t := c.servers[i].currentTerm;
            var h', c' := Append(h, t, e), SetServer(c, i, c.servers[i].(logs := c.servers[i].logs + [e]));
            && HistoryInv(h', Terms(c')) && Framed(h, h', c, c', i)
            && LogOf(h', i, t + 1) == LogOf(h, i, t + 1) + [e]
            && (forall w, u :: 0 <= w < |c.servers| && u <= c.servers[w].currentTerm ==>
                 LogOf(h', w, u) == LogOf(h, w, u))
  {
    LeaderLog(h, c, i);
    ServerAt(h, c, i);
    AppendKeeps(h, Terms(c), c.servers[i].currentTerm, e);
    assert Terms(SetServer(c, i, c.servers[i].(logs := c.servers[i].logs + [e]))) == Terms(c);
  }

  lemma ClientWriteKeeps(h: History, c: Cluster, mode: CopyMode, i: int, command: Command)
    requires Inv(h, c) && Enabled(c, ClientWrite(i, command)) && Allowed(c, mode, ClientWrite(i, command))
    ensures Inv(Record(h, c, mode, ClientWrite(i, command)), Apply(c, mode, ClientWrite(i, command)))
  {
    var t := c.servers[i].currentTerm;
    var e := LogEntry(t, command);
    ClientWriteFrame(h, c, i, e);
    var h', c' := Append(h, t, e), SetServer(c, i, AddLog(c.servers[i], command));
    WritingServer(h, c, i, e);
    OtherServers(h, h', c, c', i);
    LeaderCounts(h, h', c, c', i);
    CallsKeep(h, h', c, c', i);
  }

  // ---- sending and dropping AppendEntries calls ----

  lemma SentRequestOk(h: History, c: Cluster, i: int, f: int)
    requires Inv(h, c) && Enabled(c, SendAppend(i, f))
    ensures RequestOk(h, |c.servers|, c.servers[i].currentTerm, i, f, AppendArgs(c.servers[i], f), c.servers[i].logs)
  {
    var s := c.servers[i];
    ServerAt(h, c, i);
    LeaderLog(h, c, i);
    assert s.logs[..s.commitIndex + 1] == s.applied;
  }

  lemma SendAppendKeeps(h: History, c: Cluster, mode: CopyMode, i: int, f: int)
    requires Inv(h, c) && Enabled(c, SendAppend(i, f))
    ensures Inv(h, Apply(c, mode, SendAppend(i, f)))
  {
    var c' := Apply(c, mode, SendAppend(i, f));
    SentRequestOk(h, c, i, f);
    AppendCallsChanged(h, c, c', (c.servers[i].currentTerm, i, f));
  }

  /** Only one AppendEntries call changed, or went away. */
  lemma AppendCallsChanged(h: History, c: Cluster, c': Cluster, key: (int, int, int))
    requires Inv(h, c) && c' == c.(appendCalls := c'.appendCalls)
    requires forall k :: k in c'.appendCalls && k != key ==> k in c.appendCalls && c'.appendCalls[k] == c.appendCalls[k]
    requires key in c'.appendCalls ==> AppendCallInv(h, c', key.0, key.1, key.2)
    ensures Inv(h, c')
  {
    assert Terms(c') == Terms(c);
    forall j {:trigger CountInv(h, c', j)} | 0 <= j < |c'.servers| ensures CountInv(h, c', j) {
      ServerAt(h, c, j);
      assert Counted(h, c', c.servers[j].currentTerm, j) == Counted(h, c, c.servers[j].currentTerm, j);
    }
    forall u, l, w {:trigger VoteCallInv(h, c', u, l, w)} | (u, l, w) in c'.voteCalls
      ensures VoteCallInv(h, c', u, l, w) {
      VoteCallAt(h, c, u, l, w);
    }
    forall u, l, f {:trigger AppendCallInv(h, c', u, l, f)} | (u, l, f) in c'.appendCalls
      ensures AppendCallInv(h, c', u, l, f) {
      if (u, l, f) != key { AppendCallAt(h, c, u, l, f); }
    }
  }

  lemma DropKeeps(h: History, c: Cluster, mode: CopyMode, t: int, k: int, f: int)
    requires Inv(h, c) && Enabled(c, Drop(t, k, f))
    ensures Inv(h, Apply(c, mode, Drop(t, k, f)))
  {
    AppendCallsChanged(h, c, Apply(c, mode, Drop(t, k, f)), (t, k, f));
  }
}
