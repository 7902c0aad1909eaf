/** What holds between the servers and calls of a cluster and its history, and
    the history each action records. */
module RaftInvariant {
  import opened RaftState
  import opened RaftHistory
  import opened RaftEvents
  import opened RaftCluster

  function Terms(c: Cluster): (cur: seq<int>)
    ensures |cur| == |c.servers|
    ensures forall i :: 0 <= i < |cur| ==> cur[i] == c.servers[i].currentTerm
  {
    seq(|c.servers|, i requires 0 <= i < |c.servers| => c.servers[i].currentTerm)
  }

  /** The history after an action. */
  function Record(h: History, c: Cluster, mode: CopyMode, a: Action): History
    requires Enabled(c, a)
  {
    match a
    case Timeout(i) => Vote(h, c.servers[i].currentTerm + 1, i, i)
    case DeliverVoteRequest(t, k, v) =>
      if RequestVote(c.servers[v], c.voteCalls[(t, k, v)].wire).1.voteGranted then Vote(h, t, v, k) else h
    case BecomeLeader(i) => Elect(h, c.servers[i].currentTerm, i)
    case ClientWrite(i, command) =>
      var t := c.servers[i].currentTerm;
      if t in h.leaders && t in h.tlog then Append(h, t, LogEntry(t, command)) else h
    case DeliverAppend(t, k, f) =>
      var (s, reply) := AppendEntries(c.servers[f], c.appendCalls[(t, k, f)].args);
      if reply.success then Ack(h, t, f, |s.logs|) else h
    case _ => h
  }

  // ---- servers ----

  /** The last term of which server `i`, now in term `t`, may hold commits. */
  function CommitBound(h: History, i: int, t: int): int {
    if (t, i) in h.acked then t else t - 1
  }

  ghost predicate RoleOk(h: History, i: int, s: Server) {
    match s.state
    case Follower => true
    case Candidate =>
      && s.votedFor == i && 1 <= s.currentTerm
      && (s.currentTerm in h.leaders ==> h.leaders[s.currentTerm] != i)
    case Leader => s.votedFor == i && s.currentTerm in h.leaders && h.leaders[s.currentTerm] == i
  }

  ghost predicate VotedForOk(h: History, i: int, s: Server) {
    if s.votedFor == -1 then (s.currentTerm, i) !in h.votes
    else (s.currentTerm, i) in h.votes && h.votes[(s.currentTerm, i)] == s.votedFor
  }

  ghost predicate IndexOk(h: History, s: Server, f: int)
    requires 0 <= f < |s.nextIndex| && 0 <= f < |s.matchIndex|
  {
    var t := s.currentTerm;
    && s.nextIndex[f] == s.matchIndex[f] + 1
    && 0 <= s.nextIndex[f] <= |s.logs|
    && (t in h.base && s.matchIndex[f] >= h.base[t] ==> (t, f) in h.acked && h.acked[(t, f)] >= s.nextIndex[f])
  }

  ghost predicate ServerInv(h: History, n: nat, i: int, s: Server) {
    && s.me == i && s.peers == n && s.Shape() && 0 <= s.currentTerm && s.firstOffset == 0
    && s.logs == LogOf(h, i, s.currentTerm + 1)
    && s.lastApplied == s.commitIndex && s.applied == s.logs[..s.commitIndex + 1]
    && CommittedPrefix(h, n, CommitBound(h, i, s.currentTerm), s.applied)
    && VotedForOk(h, i, s)
    && RoleOk(h, i, s)
    && (s.state == Leader ==> forall f {:trigger IndexOk(h, s, f)} :: 0 <= f < n && f != i ==> IndexOk(h, s, f))
  }

  // ---- votes in flight ----

  ghost predicate VoteCallInv(h: History, c: Cluster, t: int, k: int, v: int)
    requires (t, k, v) in c.voteCalls
  {
    var call := c.voteCalls[(t, k, v)];
    var granted := (t, v) in h.votes && h.votes[(t, v)] == k;
    && 0 <= k < |c.servers| && 0 <= v < |c.servers| && k != v && 1 <= t <= c.servers[k].currentTerm
    && call.sent.term == call.wire.term == t && call.wire.candidateId == k
    && (call.wire == call.sent ||
        (call.sent.lastLogIndex <= call.sent.lastLogTerm && call.wire == CopyVoteArgs(call.sent)))
    && (t in h.leaders ||
        (call.sent.lastLogIndex == |LogOf(h, k, t)| - 1 && call.sent.lastLogTerm == LastTermOf(LogOf(h, k, t))))
    && (call.VoteRequest? ==> !granted)
    && (call.VoteAnswer? ==> (call.reply.voteGranted <==> granted) && (call.reply.voteGranted ==> call.reply.term == t))
  }

  /** Votes for `k` in term `t` whose reply it has processed, its own included. */
  ghost function Counted(h: History, c: Cluster, t: int, k: int): set<int> {
    set v | 0 <= v < |c.servers| && (t, v) in h.votes && h.votes[(t, v)] == k && (t, k, v) !in c.voteCalls
  }

  ghost predicate CountInv(h: History, c: Cluster, i: int)
    requires 0 <= i < |c.servers|
  {
    var s := c.servers[i];
    && (s.state == Candidate ==> s.voteCount == |Counted(h, c, s.currentTerm, i)|)
    && (i in c.due ==> forall v :: 0 <= v < |c.servers| && v != i ==>
          (s.currentTerm, i, v) !in c.voteCalls && !((s.currentTerm, v) in h.votes && h.votes[(s.currentTerm, v)] == i))
  }

  // ---- replication in flight ----

  /** What a rejection says, as the leader of term `t` can use it. */
  ghost predicate ConflictOk(h: History, args: AppendEntriesArgs, reply: AppendEntriesReply) {
    && 0 <= reply.conflictIndex <= args.prevLogIndex
    && (reply.conflictTerm == -1 ||
        (reply.conflictTerm in h.base && 1 <= reply.conflictTerm && h.base[reply.conflictTerm] <= args.prevLogIndex
         && reply.conflictTerm != args.prevLogTerm))
  }

  ghost predicate RequestOk(h: History, n: nat, t: int, k: int, f: int, args: AppendEntriesArgs, sent: seq<LogEntry>) {
    && t in h.leaders && h.leaders[t] == k && t in h.tlog && t in h.base
    && sent <= h.tlog[t] && h.base[t] <= |sent|
    && args.term == t && args.firstOffset == 0 && -1 <= args.prevLogIndex < |sent|
    && args.prevLogTerm == (if args.prevLogIndex == -1 then -1 else sent[args.prevLogIndex].term)
    && args.entries == sent[args.prevLogIndex + 1..]
    && -1 <= args.leaderCommit < |sent|
    && CommittedPrefix(h, n, t, sent[..args.leaderCommit + 1])
    && ((t, f) in h.acked ==> h.acked[(t, f)] <= |sent|)
  }

  ghost predicate AppendCallInv(h: History, c: Cluster, t: int, k: int, f: int)
    requires (t, k, f) in c.appendCalls
  {
    var call := c.appendCalls[(t, k, f)];
    && 0 <= k < |c.servers| && 0 <= f < |c.servers| && k != f
    && RequestOk(h, |c.servers|, t, k, f, call.args, call.sentLog)
    && (c.servers[k].state == Leader && c.servers[k].currentTerm == t && f < |c.servers[k].nextIndex| ==>
          c.servers[k].nextIndex[f] == call.args.prevLogIndex + 1)
    && (call.AppendAnswer? && call.reply.success ==>
         call.reply.term == t && (t, f) in h.acked && h.acked[(t, f)] >= |call.sentLog|)
    && (call.AppendAnswer? && !call.reply.success && call.reply.term == t ==> ConflictOk(h, call.args, call.reply))
  }

  ghost predicate Inv(h: History, c: Cluster) {
    && HistoryInv(h, Terms(c))
    && (forall i {:trigger ServerInv(h, |c.servers|, i, c.servers[i])} :: 0 <= i < |c.servers| ==>
         ServerInv(h, |c.servers|, i, c.servers[i]))
    && (forall i {:trigger CountInv(h, c, i)} :: 0 <= i < |c.servers| ==> CountInv(h, c, i))
    && (forall t, k, v {:trigger VoteCallInv(h, c, t, k, v)} :: (t, k, v) in c.voteCalls ==> VoteCallInv(h, c, t, k, v))
    && (forall t, k, f {:trigger AppendCallInv(h, c, t, k, f)} :: (t, k, f) in c.appendCalls ==>
         AppendCallInv(h, c, t, k, f))
  }

  // ---- reading the invariant at one place ----

  lemma LeaderAt(h: History, cur: seq<int>, t: int)
    requires HistoryInv(h, cur) && t in h.leaders
    ensures LeaderOk(h, cur, t)
  {
  }

  lemma VoteAt(h: History, cur: seq<int>, t: int, v: int)
    requires HistoryInv(h, cur) && (t, v) in h.votes
    ensures VoteOk(h, cur, t, v)
  {
  }

  lemma ServerAt(h: History, c: Cluster, i: int)
    requires Inv(h, c) && 0 <= i < |c.servers|
    ensures ServerInv(h, |c.servers|, i, c.servers[i]) && CountInv(h, c, i)
  {
  }

  lemma VoteCallAt(h: History, c: Cluster, t: int, k: int, v: int)
    requires Inv(h, c) && (t, k, v) in c.voteCalls
    ensures VoteCallInv(h, c, t, k, v)
  {
  }

  lemma AppendCallAt(h: History, c: Cluster, t: int, k: int, f: int)
    requires Inv(h, c) && (t, k, f) in c.appendCalls
    ensures AppendCallInv(h, c, t, k, f)
  {
  }

  // ---- frame lemmas ----

  /** `a` and `b` agree on everything about server `w`: its acks, its current vote. */
  ghost predicate Untouched(h: History, h': History, w: int, t: int) {
    && (forall u :: (u, w) in h'.acked <==> (u, w) in h.acked)
    && (forall u :: (u, w) in h.acked ==> h'.acked[(u, w)] == h.acked[(u, w)])
    && ((t, w) in h'.votes <==> (t, w) in h.votes)
  }

  /** A server an event does not concern stays as described. */
  lemma ServerKeeps(h: History, h': History, cur: seq<int>, n: nat, i: int, s: Server)
    requires HistoryInv(h, cur) && Extends(h, h')
    requires ServerInv(h, n, i, s) && Untouched(h, h', i, s.currentTerm)
    requires s.currentTerm in h'.leaders ==> s.currentTerm in h.leaders || h'.leaders[s.currentTerm] != i
    requires h'.base.Keys == h'.leaders.Keys && h.base.Keys == h.leaders.Keys
    ensures ServerInv(h', n, i, s)
  {
    LogOfStable(h, h', cur, i, s.currentTerm + 1);
    var b := CommitBound(h, i, s.currentTerm);
    CommittedPrefixStable(h, h', n, b, b, s.applied);
    if s.state == Leader {
      forall f {:trigger IndexOk(h', s, f)} | 0 <= f < n && f != i ensures IndexOk(h', s, f) {
        assert IndexOk(h, s, f);
      }
    }
  }
}
