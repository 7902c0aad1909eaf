/** AppendEntries, its reply and the commit scan keep the invariant. */
module RaftReplication {
  import opened RaftState
  import opened RaftHistory
  import opened RaftEvents
  import opened RaftCluster
  import opened RaftInvariant
  import opened RaftSteps

  // ---- the follower's side ----

  /** Logs in which equal terms at an index mean equal prefixes. */
  ghost predicate Matching(a: seq<LogEntry>, b: seq<LogEntry>) {
    forall i {:trigger a[i], b[i]} :: 0 <= i < |a| && i < |b| && a[i].term == b[i].term ==> a[..i + 1] == b[..i + 1]
  }

  /** Log matching makes the merge produce exactly the sender's log: what agrees
      is kept, everything after it is cut, conflicting or not. */
  lemma {:induction false} MergeGivesSent(log: seq<LogEntry>, sent: seq<LogEntry>, p: nat)
    requires p <= |log| && p <= |sent| && log[..p] == sent[..p] && Matching(log, sent)
    ensures MergeEntries(log, p, sent[p..]) == sent
  {
    MatchedPart(log, sent, p);
    var m := TermMatch(log, p, sent[p..]);
    assert sent[p..][m..] == sent[p + m..];
  }

  lemma {:induction false} MatchedPart(log: seq<LogEntry>, sent: seq<LogEntry>, p: nat)
    requires p <= |log| && p <= |sent| && log[..p] == sent[..p] && Matching(log, sent)
    ensures var m := TermMatch(log, p, sent[p..]); p + m <= |sent| && log[..p + m] == sent[..p + m]
    decreases |sent| - p
  {
    if p < |log| && p < |sent| && log[p].term == sent[p].term {
      assert sent[p..][1..] == sent[p + 1..];
      MatchedPart(log, sent, p + 1);
    }
  }

  /** Every server's log matches every request sent to it. */
  lemma LogsMatch(h: History, c: Cluster, f: int, t: int, sent: seq<LogEntry>)
    requires Inv(h, c) && 0 <= f < |c.servers| && t in h.tlog && sent <= h.tlog[t]
    ensures Matching(c.servers[f].logs, sent)
  {
    var log := c.servers[f].logs;
    ServerAt(h, c, f);
    var a := LogOfIsPrefix(h, Terms(c), f, c.servers[f].currentTerm + 1);
    forall i {:trigger log[i], sent[i]} | 0 <= i < |log| && i < |sent| && log[i].term == sent[i].term
      ensures log[..i + 1] == sent[..i + 1]
    {
      TLogsMatch(h, a, t, i);
      assert log[..i + 1] == h.tlog[a][..i + 1];
      assert sent[..i + 1] == h.tlog[t][..i + 1];
    }
  }

  /** What a follower has applied is in every request a leader of its term sends it. */
  lemma AppliedSurvives(h: History, c: Cluster, t: int, k: int, f: int, args: AppendEntriesArgs, sent: seq<LogEntry>)
    requires Inv(h, c) && 0 <= f < |c.servers| && c.servers[f].currentTerm == t
    requires RequestOk(h, |c.servers|, t, k, f, args, sent)
    ensures c.servers[f].applied <= sent
  {
    var s := c.servers[f];
    ServerAt(h, c, f);
    if (t, f) in h.acked {
      assert s.logs == h.tlog[t][..h.acked[(t, f)]];
    } else {
      CommittedInLater(h, Terms(c), t - 1, s.applied, t);
    }
  }

  /** The server and reply of an accepted request, computed from the sender's log alone. */
  function Accepted(s: Server, args: AppendEntriesArgs, sent: seq<LogEntry>): Server
    requires -1 <= s.lastApplied && -1 <= args.leaderCommit < |sent|
  {
    AdvanceCommit(s.(logs := sent), args.leaderCommit)
  }

  lemma AcceptIsSent(h: History, c: Cluster, t: int, k: int, f: int, args: AppendEntriesArgs, sent: seq<LogEntry>)
    requires Inv(h, c) && 0 <= f < |c.servers| && c.servers[f].currentTerm == t
    requires RequestOk(h, |c.servers|, t, k, f, args, sent)
    requires c.servers[f].Shape() && AppendFits(c.servers[f], args) && AppendEntries(c.servers[f], args).1.success
    ensures -1 <= c.servers[f].lastApplied
    ensures AppendEntries(c.servers[f], args).0 == Accepted(c.servers[f], args, sent)
    ensures AppendEntries(c.servers[f], args).1.term == t
  {
    var s := c.servers[f];
    var p := args.prevLogIndex + 1;
    ServerAt(h, c, f);
    LogsMatch(h, c, f, t, sent);
    assert s.logs[..p] == sent[..p] by {
      if args.prevLogIndex >= 0 {
        assert s.logs[args.prevLogIndex].term == sent[args.prevLogIndex].term;
      }
    }
    MergeGivesSent(s.logs, sent, p);
  }

  /** Accepting applies exactly the newly committed entries of what was sent. */
  lemma AcceptedApplies(s: Server, args: AppendEntriesArgs, sent: seq<LogEntry>)
    requires -1 <= s.lastApplied == s.commitIndex && -1 <= args.leaderCommit < |sent|
    requires s.commitIndex < |sent| && s.applied == sent[..s.commitIndex + 1]
    ensures var s' := Accepted(s, args, sent);
            && s' == s.(logs := sent, commitIndex := s'.commitIndex, lastApplied := s'.commitIndex,
                 applied := s'.applied)
            && s'.commitIndex == (if args.leaderCommit > s.commitIndex then args.leaderCommit else s.commitIndex)
            && s'.applied == sent[..s'.commitIndex + 1]
  {
  }

  lemma AcceptedServer(h: History, c: Cluster, t: int, k: int, f: int, args: AppendEntriesArgs, sent: seq<LogEntry>)
    requires Inv(h, c) && 0 <= f < |c.servers| && c.servers[f].currentTerm == t && f != k
    requires RequestOk(h, |c.servers|, t, k, f, args, sent)
    requires Extends(h, Ack(h, t, f, |sent|)) && LogOf(Ack(h, t, f, |sent|), f, t + 1) == h.tlog[t][..|sent|]
    requires -1 <= c.servers[f].lastApplied
    ensures ServerInv(Ack(h, t, f, |sent|), |c.servers|, f, Accepted(c.servers[f], args, sent))
    ensures var s' := Accepted(c.servers[f], args, sent);
            s'.currentTerm == t && s'.state == c.servers[f].state && s'.voteCount == c.servers[f].voteCount
                && s'.logs == sent
  {
    hide Inv, CommittedPrefix, Accepted, Extends, LogOf;
    var s, h' := c.servers[f], Ack(h, t, f, |sent|);
    ServerAt(h, c, f);
    AppliedSurvives(h, c, t, k, f, args, sent);
    assert s.applied == sent[..s.commitIndex + 1];
    AcceptedApplies(s, args, sent);
    AcceptedPrefix(h, c, t, f, args, sent);
  }

  lemma AcceptedPrefix(h: History, c: Cluster, t: int, f: int, args: AppendEntriesArgs, sent: seq<LogEntry>)
    requires Inv(h, c) && 0 <= f < |c.servers| && c.servers[f].currentTerm == t
    requires -1 <= args.leaderCommit < |sent| && CommittedPrefix(h, |c.servers|, t, sent[..args.leaderCommit + 1])
    requires Extends(h, Ack(h, t, f, |sent|))
    ensures CommittedPrefix(Ack(h, t, f, |sent|), |c.servers|, t, sent[..args.leaderCommit + 1])
    ensures CommittedPrefix(Ack(h, t, f, |sent|), |c.servers|, t, c.servers[f].applied)
  {
    var h' := Ack(h, t, f, |sent|);
    ServerAt(h, c, f);
    CommittedPrefixStable(h, h', |c.servers|, t, t, sent[..args.leaderCommit + 1]);
    CommittedPrefixStable(h, h', |c.servers|, CommitBound(h, f, t), t, c.servers[f].applied);
  }

  lemma AckFrame(h: History, c: Cluster, t: int, k: int, f: int, args: AppendEntriesArgs, sent: seq<LogEntry>,
      s': Server)
    requires Inv(h, c) && 0 <= f < |c.servers| && c.servers[f].currentTerm == t == s'.currentTerm && f != k
    requires RequestOk(h, |c.servers|, t, k, f, args, sent)
    ensures var h', c' := Ack(h, t, f, |sent|), SetServer(c, f, s');
            && HistoryInv(h', Terms(c')) && Framed(h, h', c, c', f)
            && LogOf(h', f, t + 1) == h.tlog[t][..|sent|]
            && (forall w, u :: 0 <= w < |c.servers| && u <= c.servers[w].currentTerm ==>
                 LogOf(h', w, u) == LogOf(h, w, u))
  {
    AckKeeps(h, Terms(c), t, f, |sent|);
    assert Terms(SetServer(c, f, s')) == Terms(c);
  }

  /** The calls other than the one just answered. */
  lemma OtherCalls(h: History, h': History, c: Cluster, c': Cluster, t: int, k: int, f: int)
    requires Inv(h, c) && Framed(h, h', c, c', f) && c'.voteCalls == c.voteCalls && h'.votes == h.votes
    requires t in h.leaders && h.leaders[t] == k
    requires forall key :: key in c'.appendCalls && key != (t, k, f) ==>
             key in c.appendCalls && c'.appendCalls[key] == c.appendCalls[key]
    requires forall w, u :: 0 <= w < |c.servers| && u <= c.servers[w].currentTerm ==> LogOf(h', w, u) == LogOf(h, w, u)
    requires forall u :: u != t && (u, f) in h'.acked ==> (u, f) in h.acked && h'.acked[(u, f)] == h.acked[(u, f)]
    requires c'.servers[f].state == Leader ==> c'.servers[f] == c.servers[f]
    ensures forall u, l, w {:trigger VoteCallInv(h', c', u, l, w)} :: (u, l, w) in c'.voteCalls ==>
            VoteCallInv(h', c', u, l, w)
    ensures forall u, l, w {:trigger AppendCallInv(h', c', u, l, w)} ::
              (u, l, w) in c'.appendCalls && (u, l, w) != (t, k, f) ==> AppendCallInv(h', c', u, l, w)
  {
    forall u, l, w {:trigger VoteCallInv(h', c', u, l, w)} | (u, l, w) in c'.voteCalls
      ensures VoteCallInv(h', c', u, l, w) {
      VoteCallAt(h, c, u, l, w);
      VoteCallKeeps(h, h', c, c', u, l, w);
    }
    forall u, l, w {:trigger AppendCallInv(h', c', u, l, w)} | (u, l, w) in c'.appendCalls && (u, l, w) != (t, k, f)
      ensures AppendCallInv(h', c', u, l, w)
    {
      AppendCallAt(h, c, u, l, w);
      ServerAt(h, c, l);
      AppendCallKeeps(h, h', c, c', u, l, w);
    }
  }

  lemma AppendCounts(h: History, h': History, c: Cluster, c': Cluster, f: int)
    requires Inv(h, c) && Extends(h, h') && h'.votes == h.votes && 0 <= f < |c.servers|
    requires c'.voteCalls == c.voteCalls && c'.due == c.due && |c'.servers| == |c.servers|
    requires forall j :: 0 <= j < |c.servers| && j != f ==> c'.servers[j] == c.servers[j]
    requires c'.servers[f].state == c.servers[f].state && c'.servers[f].currentTerm == c.servers[f].currentTerm
      && c'.servers[f].voteCount == c.servers[f].voteCount
    ensures forall j {:trigger CountInv(h', c', j)} :: 0 <= j < |c'.servers| ==> CountInv(h', c', j)
  {
    forall j {:trigger CountInv(h', c', j)} | 0 <= j < |c'.servers| ensures CountInv(h', c', j) {
      ServerAt(h, c, j);
      CountKeeps(h, h', c, c', j);
    }
  }

  /** The cluster once the call of (t, k, f) has been answered. */
  function Answered(c: Cluster, t: int, k: int, f: int, s': Server, reply: AppendEntriesReply): Cluster
    requires (t, k, f) in c.appendCalls && 0 <= f < |c.servers|
  {
    var call := c.appendCalls[(t, k, f)];
    SetServer(c, f, s').(appendCalls := c.appendCalls[(t, k, f) := AppendAnswer(call.args, call.sentLog, reply)])
  }

  /** An accepted request: the follower's log becomes the log that was sent. */
  lemma AcceptKeeps(h: History, c: Cluster, t: int, k: int, f: int)
    requires Inv(h, c) && (t, k, f) in c.appendCalls && c.appendCalls[(t, k, f)].AppendRequest?
    requires 0 <= f < |c.servers| && c.servers[f].currentTerm == t
    requires c.servers[f].Shape() && AppendFits(c.servers[f], c.appendCalls[(t, k, f)].args)
    requires AppendEntries(c.servers[f], c.appendCalls[(t, k, f)].args).1.success
    ensures var (s', reply) := AppendEntries(c.servers[f], c.appendCalls[(t, k, f)].args);
            s'.logs == c.appendCalls[(t, k, f)].sentLog && Inv(Ack(h, t, f, |s'.logs|), Answered(c, t, k, f, s', reply))
  {
    var call := c.appendCalls[(t, k, f)];
    var (s', reply) := AppendEntries(c.servers[f], call.args);
    AppendCallAt(h, c, t, k, f);
    AcceptIsSent(h, c, t, k, f, call.args, call.sentLog);
    AckFrame(h, c, t, k, f, call.args, call.sentLog, s');
    AcceptedServer(h, c, t, k, f, call.args, call.sentLog);
    AcceptAssembles(h, c, t, k, f, s', reply);
  }

  lemma AcceptAssembles(h: History, c: Cluster, t: int, k: int, f: int, s': Server, reply: AppendEntriesReply)
    requires Inv(h, c) && (t, k, f) in c.appendCalls && AppendCallInv(h, c, t, k, f)
    requires c.servers[f].currentTerm == t && reply.success && reply.term == t
    requires s'.state == c.servers[f].state && s'.currentTerm == t && s'.voteCount == c.servers[f].voteCount
    requires var h' := Ack(h, t, f, |c.appendCalls[(t, k, f)].sentLog|);
             && HistoryInv(h', Terms(SetServer(c, f, s'))) && Framed(h, h', c, SetServer(c, f, s'), f)
             && (forall w, u :: 0 <= w < |c.servers| && u <= c.servers[w].currentTerm ==>
                  LogOf(h', w, u) == LogOf(h, w, u))
             && ServerInv(h', |c.servers|, f, s')
    ensures Inv(Ack(h, t, f, |c.appendCalls[(t, k, f)].sentLog|), Answered(c, t, k, f, s', reply))
  {
    var h', c' := Ack(h, t, f, |c.appendCalls[(t, k, f)].sentLog|), Answered(c, t, k, f, s', reply);
    assert Terms(c') == Terms(SetServer(c, f, s'));
    AcceptRest(h, h', c, c', t, k, f, s');
    AcceptAnswer(h, h', c, c', t, k, f);
  }

  lemma AcceptAnswer(h: History, h': History, c: Cluster, c': Cluster, t: int, k: int, f: int)
    requires (t, k, f) in c.appendCalls && AppendCallInv(h, c, t, k, f)
    requires h' == Ack(h, t, f, |c.appendCalls[(t, k, f)].sentLog|) && Extends(h, h')
    requires |c'.servers| == |c.servers| && c'.servers[k] == c.servers[k]
    requires (t, k, f) in c'.appendCalls
    requires var call, call' := c.appendCalls[(t, k, f)], c'.appendCalls[(t, k, f)];
             call'.AppendAnswer? && call'.args == call.args && call'.sentLog == call.sentLog && call'.reply.success
                 && call'.reply.term == t
    ensures AppendCallInv(h', c', t, k, f)
  {
    var call := c.appendCalls[(t, k, f)];
    assert h.tlog[t] <= h'.tlog[t];
    CommittedPrefixStable(h, h', |c.servers|, t, t, call.sentLog[..call.args.leaderCommit + 1]);
  }

  lemma AcceptRest(h: History, h': History, c: Cluster, c': Cluster, t: int, k: int, f: int, s': Server)
    requires Inv(h, c) && (t, k, f) in c.appendCalls && AppendCallInv(h, c, t, k, f)
    requires h' == Ack(h, t, f, |c.appendCalls[(t, k, f)].sentLog|)
    requires c' == SetServer(c, f, s').(appendCalls := c'.appendCalls)
    requires Framed(h, h', c, SetServer(c, f, s'), f)
    requires forall w, u :: 0 <= w < |c.servers| && u <= c.servers[w].currentTerm ==> LogOf(h', w, u) == LogOf(h, w, u)
    requires forall key :: key in c'.appendCalls && key != (t, k, f) ==>
             key in c.appendCalls && c'.appendCalls[key] == c.appendCalls[key]
    requires c.servers[f].currentTerm == t
    requires s'.state == c.servers[f].state && s'.currentTerm == t && s'.voteCount == c.servers[f].voteCount
    ensures forall j {:trigger ServerInv(h', |c'.servers|, j, c'.servers[j])} ::
              0 <= j < |c'.servers| && j != f ==> ServerInv(h', |c'.servers|, j, c'.servers[j])
    ensures forall j {:trigger CountInv(h', c', j)} :: 0 <= j < |c'.servers| ==> CountInv(h', c', j)
    ensures forall u, l, w {:trigger VoteCallInv(h', c', u, l, w)} :: (u, l, w) in c'.voteCalls ==>
            VoteCallInv(h', c', u, l, w)
    ensures forall u, l, w {:trigger AppendCallInv(h', c', u, l, w)} ::
              (u, l, w) in c'.appendCalls && (u, l, w) != (t, k, f) ==> AppendCallInv(h', c', u, l, w)
  {
    ServerAt(h, c, f);
    OtherServers(h, h', c, c', f);
    AppendCounts(h, h', c, c', f);
    OtherCalls(h, h', c, c', t, k, f);
  }

  /** What a rejection reports about the follower's log. */
  lemma RejectReports(h: History, c: Cluster, t: int, k: int, f: int, args: AppendEntriesArgs, sent: seq<LogEntry>)
    requires Inv(h, c) && 0 <= f < |c.servers| && c.servers[f].currentTerm >= t
    requires RequestOk(h, |c.servers|, t, k, f, args, sent)
    requires c.servers[f].Shape() && AppendFits(c.servers[f], args) && !AppendEntries(c.servers[f], args).1.success
    ensures AppendEntries(c.servers[f], args).0 == c.servers[f]
    ensures var reply := AppendEntries(c.servers[f], args).1; reply.term == t ==> ConflictOk(h, args, reply)
  {
    var s := c.servers[f];
    ServerAt(h, c, f);
    if s.currentTerm == t && args.prevLogIndex <= s.LastIndex() {
      var i := args.prevLogIndex;
      var a := LogOfIsPrefix(h, Terms(c), f, t + 1);
      assert EntryOk(h, a, i);
      LeaderAt(h, Terms(c), s.logs[i].term);
    }
  }

  /** A request of a higher term is handled as if the term had been learnt first. */
  lemma AppendAfterStepDown(s: Server, args: AppendEntriesArgs)
    requires s.Shape() && AppendFits(s, args) && args.term > s.currentTerm
    ensures StepDown(s, args.term).Shape() && AppendFits(StepDown(s, args.term), args)
    ensures AppendEntries(s, args) == AppendEntries(StepDown(s, args.term), args)
  {
  }

  lemma DeliverAtTerm(h: History, c: Cluster, t: int, k: int, f: int)
    requires Inv(h, c) && (t, k, f) in c.appendCalls && c.appendCalls[(t, k, f)].AppendRequest?
    requires 0 <= f < |c.servers| && t <= c.servers[f].currentTerm
    requires c.servers[f].Shape() && AppendFits(c.servers[f], c.appendCalls[(t, k, f)].args)
    ensures var (s', reply) := AppendEntries(c.servers[f], c.appendCalls[(t, k, f)].args);
            Inv(if reply.success then Ack(h, t, f, |s'.logs|) else h, Answered(c, t, k, f, s', reply))
  {
    var call, s := c.appendCalls[(t, k, f)], c.servers[f];
    AppendCallAt(h, c, t, k, f);
    var (s', reply) := AppendEntries(s, call.args);
    if reply.success {
      AcceptKeeps(h, c, t, k, f);
    } else {
      RejectReports(h, c, t, k, f, call.args, call.sentLog);
      assert c.servers[f := s'] == c.servers;
      AppendCallsChanged(h, c, Answered(c, t, k, f, s', reply), (t, k, f));
    }
  }

  lemma DeliverAppendKeeps(h: History, c: Cluster, mode: CopyMode, t: int, k: int, f: int)
    requires Inv(h, c) && Enabled(c, DeliverAppend(t, k, f))
    ensures Inv(Record(h, c, mode, DeliverAppend(t, k, f)), Apply(c, mode, DeliverAppend(t, k, f)))
  {
    var s, args := c.servers[f], c.appendCalls[(t, k, f)].args;
    AppendCallAt(h, c, t, k, f);
    if t > s.currentTerm {
      StepDownKeeps(h, c, f, t);
      AppendAfterStepDown(s, args);
      DeliverAtTerm(h, SetServer(c, f, StepDown(s, t)), t, k, f);
      assert c.servers[f := StepDown(s, t)][f := AppendEntries(s, args).0] == c.servers[f := AppendEntries(s, args).0];
    } else {
      DeliverAtTerm(h, c, t, k, f);
    }
  }

  // ---- the leader's side ----

  /** A rejection strictly lowers nextIndex and keeps it at 0 or above. When the
      conflicting term is found in the leader's log this is the term-run
      invariant: that run would otherwise cover the rejected position too. */
  lemma RejectionLowers(h: History, c: Cluster, t: int, k: int, f: int)
    requires Inv(h, c) && (t, k, f) in c.appendCalls && c.appendCalls[(t, k, f)].AppendAnswer?
    requires 0 <= k < |c.servers| && c.servers[k].state == Leader && c.servers[k].currentTerm == t
    requires var reply := c.appendCalls[(t, k, f)].reply; !reply.success && reply.term == t
    requires 0 <= f < |c.servers[k].nextIndex| && 0 <= f < |c.servers[k].matchIndex|
    ensures var call := c.appendCalls[(t, k, f)];
            var s' := UpdateIndices(c.servers[k], f, call.args, call.reply);
            0 <= s'.nextIndex[f] < c.servers[k].nextIndex[f] == call.args.prevLogIndex + 1
  {
    var call, s := c.appendCalls[(t, k, f)], c.servers[k];
    AppendCallAt(h, c, t, k, f);
    LeaderLog(h, c, k);
    var prev, ct := call.args.prevLogIndex, call.reply.conflictTerm;
    var found := LastWithTerm(s.logs, ct, s.LastIndex());
    if ct >= 0 && found >= prev {
      TermRun(h, t, found, prev);
      assert false;
    }
  }

  lemma UpdatedIndex(h: History, c: Cluster, t: int, k: int, f: int)
    requires Inv(h, c) && (t, k, f) in c.appendCalls && c.appendCalls[(t, k, f)].AppendAnswer?
    requires 0 <= k < |c.servers| && c.servers[k].state == Leader && c.servers[k].currentTerm == t
    requires c.appendCalls[(t, k, f)].reply.term == t
    requires 0 <= f < |c.servers[k].nextIndex| && 0 <= f < |c.servers[k].matchIndex|
    ensures IndexOk(h, UpdateIndices(c.servers[k], f, c.appendCalls[(t, k, f)].args, c.appendCalls[(t, k, f)].reply), f)
  {
    var call, s := c.appendCalls[(t, k, f)], c.servers[k];
    AppendCallAt(h, c, t, k, f);
    ServerAt(h, c, k);
    LeaderLog(h, c, k);
    assert IndexOk(h, s, f);
    if !call.reply.success {
      RejectionLowers(h, c, t, k, f);
    }
  }

  lemma UpdateKeeps(h: History, c: Cluster, t: int, k: int, f: int)
    requires Inv(h, c) && (t, k, f) in c.appendCalls && c.appendCalls[(t, k, f)].AppendAnswer?
    requires 0 <= k < |c.servers| && c.servers[k].state == Leader && c.servers[k].currentTerm == t
    requires c.appendCalls[(t, k, f)].reply.term == t
    requires 0 <= f < |c.servers[k].nextIndex| && 0 <= f < |c.servers[k].matchIndex|
    ensures var call := c.appendCalls[(t, k, f)];
            Inv(h, SetServer(c, k, UpdateIndices(c.servers[k], f, call.args,
                call.reply)).(appendCalls := c.appendCalls - {(t, k, f)}))
  {
    var call, s := c.appendCalls[(t, k, f)], c.servers[k];
    var s' := UpdateIndices(s, f, call.args, call.reply);
    var c' := SetServer(c, k, s').(appendCalls := c.appendCalls - {(t, k, f)});
    ServerAt(h, c, k);
    assert Terms(c') == Terms(c);
    UpdatedIndex(h, c, t, k, f);
    SameButIndices(h, |c.servers|, k, s, s', f);
    OtherServers(h, h, c, c', k);
    AppendCounts(h, h, c, c', k);
    UpdateCalls(h, c, c', t, k, f);
  }

  lemma SameButIndices(h: History, n: nat, i: int, s: Server, s': Server, f: int)
    requires ServerInv(h, n, i, s) && 0 <= f < n && s.state == Leader
    requires |s'.nextIndex| == |s'.matchIndex| == n && s' == s.(nextIndex := s'.nextIndex, matchIndex := s'.matchIndex)
    requires IndexOk(h, s', f)
    requires forall g :: 0 <= g < n && g != f ==>
             s'.nextIndex[g] == s.nextIndex[g] && s'.matchIndex[g] == s.matchIndex[g]
    ensures ServerInv(h, n, i, s')
  {
    forall g {:trigger IndexOk(h, s', g)} | 0 <= g < n && g != i ensures IndexOk(h, s', g) {
      assert IndexOk(h, s, g);
    }
  }

  lemma UpdateCalls(h: History, c: Cluster, c': Cluster, t: int, k: int, f: int)
    requires Inv(h, c) && 0 <= k < |c.servers| && c.servers[k].state == Leader && c.servers[k].currentTerm == t
    requires |c'.servers| == |c.servers|
    requires c' == SetServer(c, k, c'.servers[k]).(appendCalls := c.appendCalls - {(t, k, f)})
    requires c'.servers[k].currentTerm == t && |c'.servers[k].nextIndex| == |c.servers[k].nextIndex|
    requires forall g :: 0 <= g < |c.servers[k].nextIndex| && g != f ==>
             c'.servers[k].nextIndex[g] == c.servers[k].nextIndex[g]
    ensures forall u, l, w {:trigger VoteCallInv(h, c', u, l, w)} :: (u, l, w) in c'.voteCalls ==>
            VoteCallInv(h, c', u, l, w)
    ensures forall u, l, w {:trigger AppendCallInv(h, c', u, l, w)} :: (u, l, w) in c'.appendCalls ==>
            AppendCallInv(h, c', u, l, w)
  {
    forall u, l, w {:trigger VoteCallInv(h, c', u, l, w)} | (u, l, w) in c'.voteCalls
      ensures VoteCallInv(h, c', u, l, w) {
      VoteCallAt(h, c, u, l, w);
    }
    forall u, l, w {:trigger AppendCallInv(h, c', u, l, w)} | (u, l, w) in c'.appendCalls
      ensures AppendCallInv(h, c', u, l, w) {
      AppendCallAt(h, c, u, l, w);
    }
  }

  /** Peers counted for index `n` have accepted the leader's log past `n`. */
  lemma {:induction false} CountedAcked(h: History, s: Server, n: int, upto: nat, acks: set<int>)
    requires |s.matchIndex| == |s.nextIndex| && upto <= |s.matchIndex| && s.currentTerm in h.base
             && h.base[s.currentTerm] <= n
    requires forall f :: 0 <= f < upto && f != s.me ==> IndexOk(h, s, f)
    requires acks == set v | 0 <= v < upto && v != s.me && (s.currentTerm, v) in h.acked
             && h.acked[(s.currentTerm, v)] >= n + 1
    ensures MatchCount(s.matchIndex, s.me, n, upto) <= |acks|
    decreases upto
  {
    if upto > 0 {
      var last := upto - 1;
      var rest := set v | 0 <= v < last && v != s.me && (s.currentTerm, v) in h.acked
          && h.acked[(s.currentTerm, v)] >= n + 1;
      CountedAcked(h, s, n, last, rest);
      if last != s.me && s.matchIndex[last] >= n {
        assert IndexOk(h, s, last);
        assert acks == rest + {last};
      } else {
        SubsetSize(rest, acks);
      }
    }
  }

  /** The current-term commit rule (section 5.4.2 of the extended Raft paper):
      what CheckCommit commits has reached a majority in the term of its entry. */
  lemma CommitVotesCommit(h: History, c: Cluster, i: int, n: int)
    requires Inv(h, c) && 0 <= i < |c.servers| && c.servers[i].state == Leader
    requires 0 <= n < |c.servers[i].logs| && |c.servers[i].matchIndex| == c.servers[i].peers
    requires CommitVotes(c.servers[i], n) > c.servers[i].peers / 2
    ensures var u := c.servers[i].logs[n].term;
            u <= c.servers[i].currentTerm && Committed(h, |c.servers|, u, n)
                && h.tlog[u][..n + 1] == c.servers[i].logs[..n + 1]
  {
    var s, N := c.servers[i], |c.servers|;
    var t := s.currentTerm;
    ServerAt(h, c, i);
    LeaderLog(h, c, i);
    assert EntryOk(h, t, n);
    var u := s.logs[n].term;
    if u == t {
      var acks := set v | 0 <= v < N && v != i && (t, v) in h.acked && h.acked[(t, v)] >= n + 1;
      forall f | 0 <= f < N && f != i ensures IndexOk(h, s, f) {}
      CountedAcked(h, s, n, N, acks);
      LeaderAt(h, Terms(c), t);
      assert Ackers(h, N, t, n + 1) == acks + {i};
    } else {
      LeaderAt(h, Terms(c), u);
      assert N == 1 && h.leaders[u] == 0;
      assert Ackers(h, N, u, n + 1) == {0};
    }
  }

  lemma CommitScanServer(h: History, c: Cluster, i: int)
    requires Inv(h, c) && 0 <= i < |c.servers| && c.servers[i].state == Leader && c.servers[i].Shape()
    ensures ServerInv(h, |c.servers|, i, CommitScan(c.servers[i]))
  {
    var s := c.servers[i];
    ServerAt(h, c, i);
    var n := CommitTarget(s, s.LastIndex());
    if n > s.commitIndex {
      CommitVotesCommit(h, c, i, n);
      LeaderLog(h, c, i);
      var s' := CommitScan(s);
      assert s'.applied == s.logs[..n + 1];
      assert CommittedPrefix(h, |c.servers|, s.currentTerm, s.logs[..n + 1]);
      SameButCommit(h, |c.servers|, i, s, s');
    }
  }

  lemma SameButCommit(h: History, n: nat, i: int, s: Server, s': Server)
    requires ServerInv(h, n, i, s) && s.state == Leader && (s.currentTerm, i) in h.acked
    requires s' == s.(commitIndex := s'.commitIndex, lastApplied := s'.commitIndex, applied := s'.applied)
    requires -1 <= s'.commitIndex < |s.logs| && s'.applied == s.logs[..s'.commitIndex + 1]
    requires CommittedPrefix(h, n, s.currentTerm, s'.applied)
    ensures ServerInv(h, n, i, s')
  {
    forall f {:trigger IndexOk(h, s', f)} | 0 <= f < n && f != i ensures IndexOk(h, s', f) {
      assert IndexOk(h, s, f);
    }
  }

  lemma CommitScanKeeps(h: History, c: Cluster, i: int)
    requires Inv(h, c) && 0 <= i < |c.servers| && c.servers[i].state == Leader && c.servers[i].Shape()
    ensures Inv(h, SetServer(c, i, CommitScan(c.servers[i])))
  {
    var c' := SetServer(c, i, CommitScan(c.servers[i]));
    assert Terms(c') == Terms(c);
    CommitScanServer(h, c, i);
    OtherServers(h, h, c, c', i);
    AppendCounts(h, h, c, c', i);
    CallsKeep(h, h, c, c', i);
  }

  lemma DeliverAppendReplyKeeps(h: History, c: Cluster, mode: CopyMode, t: int, k: int, f: int)
    requires Inv(h, c) && Enabled(c, DeliverAppendReply(t, k, f))
    ensures Inv(h, Apply(c, mode, DeliverAppendReply(t, k, f)))
  {
    var call, s := c.appendCalls[(t, k, f)], c.servers[k];
    var calls := c.appendCalls - {(t, k, f)};
    AppendCallAt(h, c, t, k, f);
    if s.state != Leader || t != s.currentTerm || call.reply.term < s.currentTerm {
      assert c.servers[k := s] == c.servers;
      AppendCallsChanged(h, c, c.(appendCalls := calls), (t, k, f));
    } else if call.reply.term > s.currentTerm {
      StepDownKeeps(h, c, k, call.reply.term);
      var c1 := SetServer(c, k, StepDown(s, call.reply.term));
      AppendCallsChanged(h, c1, c1.(appendCalls := calls), (t, k, f));
    } else {
      UpdateKeeps(h, c, t, k, f);
      var s1 := UpdateIndices(s, f, call.args, call.reply);
      var c1 := SetServer(c, k, s1).(appendCalls := calls);
      CommitScanKeeps(h, c1, k);
      assert c.servers[k := s1][k := CommitScan(s1)] == c.servers[k := CommitScan(s1)];
    }
  }

  /** Every allowed action keeps the invariant. */
  lemma StepKeeps(h: History, c: Cluster, mode: CopyMode, a: Action)
    requires Inv(h, c) && Enabled(c, a) && Allowed(c, mode, a)
    ensures Inv(Record(h, c, mode, a), Apply(c, mode, a))
  {
    match a
    case Timeout(i) => TimeoutKeeps(h, c, mode, i);
    case Broadcast(i) => BroadcastKeeps(h, c, mode, i);
    case DeliverVoteRequest(t, k, v) => DeliverVoteRequestKeeps(h, c, mode, t, k, v);
    case DeliverVoteReply(t, k, v) => DeliverVoteReplyKeeps(h, c, mode, t, k, v);
    case BecomeLeader(i) => BecomeLeaderKeeps(h, c, mode, i);
    case ClientWrite(i, command) => ClientWriteKeeps(h, c, mode, i, command);
    case SendAppend(i, f) => SendAppendKeeps(h, c, mode, i, f);
    case DeliverAppend(t, k, f) => DeliverAppendKeeps(h, c, mode, t, k, f);
    case DeliverAppendReply(t, k, f) => DeliverAppendReplyKeeps(h, c, mode, t, k, f);
    case Drop(t, k, f) => DropKeeps(h, c, mode, t, k, f);
    case Commit(i) => CommitScanKeeps(h, c, i);
  }

  lemma InitKeeps(n: nat)
    ensures Inv(EmptyHistory(), Init(n))
  {
    EmptyHistoryInv(Terms(Init(n)));
    forall i {:trigger ServerInv(EmptyHistory(), n, i, Init(n).servers[i])} | 0 <= i < n
      ensures ServerInv(EmptyHistory(), n, i, Init(n).servers[i]) && CountInv(EmptyHistory(), Init(n), i)
    {
      assert Init(n).servers[i] == InitServer(i, n);
      assert LogOf(EmptyHistory(), i, 1) == LogOf(EmptyHistory(), i, 0) == [];
    }
  }
}
