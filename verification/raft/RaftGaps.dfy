/** What goes wrong without each condition of Allowed: runs that break election
    safety, log matching and state machine safety. */
module RaftGaps {
  import opened RaftState
  import opened RaftCluster

  /** The condition of Allowed a run here does without: taking office on this
      candidacy's majority, writing as a Leader, or asking for votes with a copy
      that asks for no more. */
  datatype Gap = Office | Writing | Asking

  predicate Excepted(gap: Gap, a: Action) {
    match gap
    case Office => a.BecomeLeader?
    case Writing => a.ClientWrite?
    case Asking => a.Broadcast?
  }

  function ModeOf(gap: Gap): CopyMode { if gap == Asking then AsWritten else Faithful }

  predicate RunWithGap(gap: Gap, acts: seq<Action>) {
    Run(3, ModeOf(gap), acts) &&
    (acts == [] ||
     (var before, a := acts[..|acts| - 1], acts[|acts| - 1];
      RunWithGap(gap, before) && (Excepted(gap, a) || Allowed(After(3, ModeOf(gap), before), ModeOf(gap), a))))
  }

  predicate Reached(gap: Gap, acts: seq<Action>, c: Cluster) {
    RunWithGap(gap, acts) && After(3, ModeOf(gap), acts) == c
  }

  // One lemma per kind of action, so that a long run is followed field by field.

  lemma Play(gap: Gap, acts: seq<Action>, c: Cluster, a: Action) returns (acts': seq<Action>)
    requires Reached(gap, acts, c) && Enabled(c, a) && (Excepted(gap, a) || Allowed(c, ModeOf(gap), a))
    ensures Reached(gap, acts', Apply(c, ModeOf(gap), a))
  {
    hide Enabled, Apply, Allowed, Excepted;
    acts' := acts + [a];
    assert acts'[..|acts'| - 1] == acts && acts'[|acts'| - 1] == a;
  }

  lemma PlayTimeout(gap: Gap, acts: seq<Action>, c: Cluster, i: int) returns (acts': seq<Action>, c': Cluster)
    requires Reached(gap, acts, c) && IsServer(c, i) && c.servers[i].state != Leader
    ensures Reached(gap, acts', c')
    ensures c' == c.(servers := c.servers[i := ConvertToCandidate(c.servers[i], c.servers[i].state)],
            due := c.due + {i})
  {
    acts' := Play(gap, acts, c, Timeout(i));
    c' := Apply(c, ModeOf(gap), Timeout(i));
  }

  lemma PlayBroadcast(gap: Gap, acts: seq<Action>, c: Cluster, i: int) returns (acts': seq<Action>, c': Cluster)
    requires Reached(gap, acts, c) && IsServer(c, i) && i in c.due && c.servers[i].state == Candidate
    requires c.servers[i].voteCount != Majority(c.servers[i].peers)
    ensures Reached(gap, acts', c')
    ensures c' == c.(due := c.due - {i}, voteCalls := SendVotes(c, ModeOf(gap), i))
  {
    acts' := Play(gap, acts, c, Broadcast(i));
    c' := Apply(c, ModeOf(gap), Broadcast(i));
    assert c.servers[i := c.servers[i]] == c.servers;
  }

  lemma PlayVoteRequest(gap: Gap, acts: seq<Action>, c: Cluster, t: int, k: int, v: int, args: RequestVoteArgs)
      returns (acts': seq<Action>, c': Cluster)
    requires Reached(gap, acts, c) && IsServer(c, v) && (t, k, v) in c.voteCalls
    requires c.voteCalls[(t, k, v)] == VoteRequest(args, Wire(ModeOf(gap), args))
    ensures Reached(gap, acts', c')
    ensures var (s, reply) := RequestVote(c.servers[v], Wire(ModeOf(gap), args));
            c' == c.(servers := c.servers[v := s],
                voteCalls := c.voteCalls[(t, k, v) := VoteAnswer(args, Wire(ModeOf(gap), args), reply)])
  {
    acts' := Play(gap, acts, c, DeliverVoteRequest(t, k, v));
    c' := Apply(c, ModeOf(gap), DeliverVoteRequest(t, k, v));
  }

  lemma PlayVoteReply(gap: Gap, acts: seq<Action>, c: Cluster, t: int, k: int, v: int)
      returns (acts': seq<Action>, c': Cluster)
    requires Reached(gap, acts, c) && IsServer(c, k) && (t, k, v) in c.voteCalls && c.voteCalls[(t, k, v)].VoteAnswer?
    ensures Reached(gap, acts', c')
    ensures var call := c.voteCalls[(t, k, v)];
            c' == c.(servers := c.servers[k := HandleVoteReply(c.servers[k], call.wire, call.reply)],
                voteCalls := c.voteCalls - {(t, k, v)})
  {
    acts' := Play(gap, acts, c, DeliverVoteReply(t, k, v));
    c' := Apply(c, ModeOf(gap), DeliverVoteReply(t, k, v));
  }

  lemma PlayLead(gap: Gap, acts: seq<Action>, c: Cluster, i: int) returns (acts': seq<Action>, c': Cluster)
    requires Reached(gap, acts, c) && IsServer(c, i) && c.servers[i].state == Candidate && c.servers[i].winElection
    requires gap == Office || c.servers[i].voteCount >= Majority(c.servers[i].peers)
    ensures Reached(gap, acts', c')
    ensures c' == c.(servers := c.servers[i := ConvertToLeader(c.servers[i])])
  {
    acts' := Play(gap, acts, c, BecomeLeader(i));
    c' := Apply(c, ModeOf(gap), BecomeLeader(i));
  }

  /** Server `i` times out and asks for votes. */
  lemma PlayCampaign(gap: Gap, acts: seq<Action>, c: Cluster, i: int, s: Server)
      returns (acts': seq<Action>, c': Cluster)
    requires Reached(gap, acts, c) && |c.servers| == 3 && IsServer(c, i) && c.servers[i].state != Leader
    requires s == ConvertToCandidate(c.servers[i], c.servers[i].state) && s.me == i
    ensures Reached(gap, acts', c')
    ensures c' == c.(servers := c.servers[i := s], due := c.due - {i}, voteCalls := c'.voteCalls)
    ensures forall w :: 0 <= w < 3 && w != i ==>
              (s.currentTerm, i, w) in c'.voteCalls && c'.voteCalls[(s.currentTerm, i, w)] ==
                  VoteRequest(VoteArgs(s), Wire(ModeOf(gap), VoteArgs(s)))
    ensures c'.voteCalls.Keys == c.voteCalls.Keys + (set w | 0 <= w < 3 && w != i :: (s.currentTerm, i, w))
  {
    var acts1, c1 := PlayTimeout(gap, acts, c, i);
    acts', c' := PlayBroadcast(gap, acts1, c1, i);
    assert c'.due == c.due - {i};
  }

  /** Candidate `i` handles the vote of `v` and leads. */
  lemma PlayWin(gap: Gap, acts: seq<Action>, c: Cluster, i: int, v: int) returns (acts': seq<Action>, c': Cluster)
    requires Reached(gap, acts, c) && |c.servers| == 3 && IsServer(c, i)
    requires c.servers[i].state == Candidate && c.servers[i].voteCount == 1
    requires var t := c.servers[i].currentTerm;
             (t, i, v) in c.voteCalls && c.voteCalls[(t, i, v)].VoteAnswer? && c.voteCalls[(t, i, v)].wire.term == t
             && c.voteCalls[(t, i, v)].reply == RequestVoteReply(t, true)
    ensures Reached(gap, acts', c')
    ensures c' == c.(servers := c.servers[i := ConvertToLeader(c.servers[i].(voteCount := 2, winElection := true))],
                     voteCalls := c.voteCalls - {(c.servers[i].currentTerm, i, v)})
  {
    var acts1, c1 := PlayVoteReply(gap, acts, c, c.servers[i].currentTerm, i, v);
    assert c1.servers[i] == c.servers[i].(voteCount := 2, winElection := true);
    acts', c' := PlayLead(gap, acts1, c1, i);
  }

  /** Server `i` times out, is voted for by `v` and leads; its call to `w` stays. */
  lemma PlayElection(gap: Gap, acts: seq<Action>, c: Cluster, i: int, v: int, w: int, s: Server)
      returns (acts': seq<Action>, c': Cluster)
    requires Reached(gap, acts, c) && |c.servers| == 3 && IsServer(c, i) && IsServer(c, v) && i != v
    requires 0 <= w < 3 && w != i && w != v
    requires s == ConvertToCandidate(c.servers[i], c.servers[i].state) && s.state == Candidate && s.me == i
             && c.servers[i].state != Leader
    requires RequestVote(c.servers[v], Wire(ModeOf(gap), VoteArgs(s))).1 == RequestVoteReply(s.currentTerm, true)
    ensures Reached(gap, acts', c')
    ensures c' == c.(servers := c'.servers, due := c.due - {i}, voteCalls := c'.voteCalls)
    ensures c'.servers == c.servers[i := ConvertToLeader(s.(voteCount := 2, winElection := true))]
                                   [v := RequestVote(c.servers[v], Wire(ModeOf(gap), VoteArgs(s))).0]
    ensures (s.currentTerm, i, w) in c'.voteCalls
    ensures c'.voteCalls[(s.currentTerm, i, w)] == VoteRequest(VoteArgs(s), Wire(ModeOf(gap), VoteArgs(s)))
  {
    hide Enabled, Apply, Reached, RequestVote;
    var s2 := RequestVote(c.servers[v], Wire(ModeOf(gap), VoteArgs(s))).0;
    var acts2, c2 := PlayCampaign(gap, acts, c, i, s);
    assert c2.servers[v] == c.servers[v];
    var acts3, c3 := PlayVoteRequest(gap, acts2, c2, s.currentTerm, i, v, VoteArgs(s));
    assert c3.servers == c.servers[i := s][v := s2];
    acts', c' := PlayWin(gap, acts3, c3, i, v);
    assert c'.servers == c.servers[i := ConvertToLeader(s.(voteCount := 2, winElection := true))][v := s2];
  }

  lemma PlayWrite(gap: Gap, acts: seq<Action>, c: Cluster, i: int, command: Command)
      returns (acts': seq<Action>, c': Cluster)
    requires Reached(gap, acts, c) && IsServer(c, i) && c.servers[i].state == Leader
    ensures Reached(gap, acts', c')
    ensures c' == c.(servers := c.servers[i := AddLog(c.servers[i], command)])
  {
    acts' := Play(gap, acts, c, ClientWrite(i, command));
    c' := Apply(c, ModeOf(gap), ClientWrite(i, command));
  }

  lemma PlaySend(gap: Gap, acts: seq<Action>, c: Cluster, k: int, f: int) returns (acts': seq<Action>, c': Cluster)
    requires Reached(gap, acts, c) && IsServer(c, k) && IsServer(c, f) && k != f && c.servers[k].state == Leader
    requires 0 <= c.servers[k].nextIndex[f] <= |c.servers[k].logs| && (c.servers[k].currentTerm, k, f) !in c.appendCalls
    ensures Reached(gap, acts', c')
    ensures c' == c.(appendCalls := c.appendCalls[(c.servers[k].currentTerm, k,
            f) := AppendRequest(AppendArgs(c.servers[k], f), c.servers[k].logs)])
  {
    acts' := Play(gap, acts, c, SendAppend(k, f));
    c' := Apply(c, ModeOf(gap), SendAppend(k, f));
  }

  lemma PlayAppend(gap: Gap, acts: seq<Action>, c: Cluster, t: int, k: int, f: int, args: AppendEntriesArgs,
      sent: seq<LogEntry>) returns (acts': seq<Action>, c': Cluster)
    requires Reached(gap, acts, c) && IsServer(c, f) && (t, k, f) in c.appendCalls
             && c.appendCalls[(t, k, f)] == AppendRequest(args, sent)
    requires AppendFits(c.servers[f], args)
    ensures Reached(gap, acts', c')
    ensures var (s, reply) := AppendEntries(c.servers[f], args);
            c' == c.(servers := c.servers[f := s],
                appendCalls := c.appendCalls[(t, k, f) := AppendAnswer(args, sent, reply)])
  {
    acts' := Play(gap, acts, c, DeliverAppend(t, k, f));
    c' := Apply(c, ModeOf(gap), DeliverAppend(t, k, f));
  }

  lemma PlayAppendReply(gap: Gap, acts: seq<Action>, c: Cluster, t: int, k: int, f: int, args: AppendEntriesArgs,
      sent: seq<LogEntry>, reply: AppendEntriesReply)
    returns (acts': seq<Action>, c': Cluster)
    requires Reached(gap, acts, c) && IsServer(c, k) && IsServer(c, f) && (t, k, f) in c.appendCalls
    requires c.appendCalls[(t, k, f)] == AppendAnswer(args, sent, reply)
    requires c.servers[k].state == Leader && args.term == reply.term == c.servers[k].currentTerm
    ensures Reached(gap, acts', c')
    ensures c' == c.(servers := c.servers[k := CommitScan(UpdateIndices(c.servers[k], f, args, reply))],
            appendCalls := c.appendCalls - {(t, k, f)})
  {
    acts' := Play(gap, acts, c, DeliverAppendReply(t, k, f));
    c' := Apply(c, ModeOf(gap), DeliverAppendReply(t, k, f));
  }

  /** One exchange between leader `s` and follower `r`: what each is afterwards. */
  predicate Round(s: Server, r: Server, args: AppendEntriesArgs, reply: AppendEntriesReply, s': Server, r': Server) {
    && s.Shape() && r.Shape() && s.peers == r.peers == 3 && s.state == Leader && 0 <= r.me < 3 && r.me != s.me
    && 0 <= s.nextIndex[r.me] <= |s.logs| && args == AppendArgs(s, r.me)
    && AppendFits(r, args) && AppendEntries(r, args) == (r', reply) && r'.Shape() && r'.peers == 3
    && reply.term == s.currentTerm && s' == CommitScan(UpdateIndices(s, r.me, args, reply))
  }

  /** Leader `k` sends to `f`, `f` answers, `k` handles the answer. */
  lemma PlayRound(gap: Gap, acts: seq<Action>, c: Cluster, k: int, f: int, s: Server, r: Server,
                  args: AppendEntriesArgs, reply: AppendEntriesReply, sk: Server, sf: Server)
    returns (acts': seq<Action>, c': Cluster)
    requires Reached(gap, acts, c) && |c.servers| == 3 && 0 <= k < 3 && 0 <= f < 3 && k != f && c.appendCalls == map[]
    requires c.servers[k] == s && c.servers[f] == r && r.me == f && Round(s, r, args, reply, sk, sf)
    ensures Reached(gap, acts', c')
    ensures |c'.servers| == 3 && c'.servers[k] == sk && c'.servers[f] == sf && c'.appendCalls == map[]
    ensures forall i :: 0 <= i < 3 && i != k && i != f ==> c'.servers[i] == c.servers[i]
  {
    var t := c.servers[k].currentTerm;
    var acts1, c1 := PlaySend(gap, acts, c, k, f);
    var acts2, c2 := PlayAppend(gap, acts1, c1, t, k, f, args, c.servers[k].logs);
    acts', c' := PlayAppendReply(gap, acts2, c2, t, k, f, args, c.servers[k].logs, reply);
    assert c'.appendCalls == map[];
  }

  // ---- winElection outlives its candidacy ----

  lemma VotedOut() returns (acts: seq<Action>, c: Cluster)
    ensures Reached(Office, acts, c) && |c.servers| == 3 && c.servers[0].Shape() && c.servers[0].me == 0
            && c.servers[0].peers == 3
    ensures c.servers[0].state == Follower && c.servers[0].currentTerm == 2 && c.servers[0].winElection
            && c.servers[0].logs == []
    ensures c.servers[1] == InitServer(1, 3).(currentTerm := 2, votedFor := 1, voteCount := 1, state := Candidate)
    ensures c.servers[2] == InitServer(2, 3)
  {
    acts, c := [], Init(3);
    acts, c := PlayElection(Office, acts, c, 0, 1, 2, ConvertToCandidate(InitServer(0, 3), Follower));
    assert c.servers[1] == InitServer(1, 3).(currentTerm := 1, votedFor := 0);
    acts, c := PlayCampaign(Office, acts, c, 1, ConvertToCandidate(c.servers[1], Follower));
    acts, c := PlayVoteRequest(Office, acts, c, 2, 1, 0, RequestVoteArgs(2, 1, -1, -1));
  }

  /** Server 0 wins term 1 and is voted out by server 1's request in term 2; its
      winElection stays set, so in term 3 it takes office with its own vote
      only, beside server 1, which is elected by server 2. */
  lemma StaleWinElection() returns (acts: seq<Action>)
    ensures RunWithGap(Office, acts)
    ensures var c := After(3, Faithful, acts);
            && |c.servers| == 3
            && c.servers[0].state == c.servers[1].state == Leader
            && c.servers[0].currentTerm == c.servers[1].currentTerm == 3
  {
    var c;
    acts, c := VotedOut();
    acts, c := PlayTimeout(Office, acts, c, 0);
    acts, c := PlayLead(Office, acts, c, 0);
    assert c.servers[0].state == Leader && c.servers[0].currentTerm == 3;
    acts, c := PlayElection(Office, acts, c, 1, 2, 0, ConvertToCandidate(c.servers[1], Candidate));
  }

  // ---- a Candidate's write ----

  /** Two candidates of term 1 that take a write each hold different entries of one term at one index. */
  lemma CandidateWriteBreaksMatching() returns (acts: seq<Action>)
    ensures RunWithGap(Writing, acts)
    ensures var c := After(3, Faithful, acts);
            && |c.servers| == 3 && |c.servers[0].logs| == |c.servers[1].logs| == 1
            && c.servers[0].logs[0].term == c.servers[1].logs[0].term && c.servers[0].logs[0] != c.servers[1].logs[0]
  {
    var c := Init(3);
    acts, c := PlayTimeout(Writing, [], c, 0);
    acts, c := PlayTimeout(Writing, acts, c, 1);
    acts, c := PlayCandidateWrite(acts, c, 0, [97]);
    acts, c := PlayCandidateWrite(acts, c, 1, [98]);
  }

  lemma PlayCandidateWrite(acts: seq<Action>, c: Cluster, i: int, command: Command)
      returns (acts': seq<Action>, c': Cluster)
    requires Reached(Writing, acts, c) && IsServer(c, i) && c.servers[i].state == Candidate
    ensures Reached(Writing, acts', c')
    ensures c' == c.(servers := c.servers[i := AddLog(c.servers[i], command)])
  {
    acts' := Play(Writing, acts, c, ClientWrite(i, command));
    c' := Apply(c, Faithful, ClientWrite(i, command));
  }

  // ---- the copied vote request ----

  /** The log server 2 builds in term 1, of which nothing is replicated. */
  function LonelyLog(): seq<LogEntry> { [LogEntry(1, [120]), LogEntry(1, [120]), LogEntry(1, [120])] }

  lemma LonelyLeader() returns (acts: seq<Action>, c: Cluster)
    ensures Reached(Asking, acts, c) && |c.servers| == 3 && c.appendCalls == map[] && c.due == {}
    ensures c.servers[0] == InitServer(0, 3)
    ensures c.servers[1] == InitServer(1, 3).(currentTerm := 1, votedFor := 2)
    ensures c.servers[2].Shape() && c.servers[2] == InitServer(2, 3).(
              currentTerm := 1, votedFor := 2, logs := LonelyLog(), state := Leader, voteCount := 2,
              winElection := true, nextIndex := c.servers[2].nextIndex, matchIndex := c.servers[2].matchIndex)
  {
    acts, c := [], Init(3);
    acts, c := PlayElection(Asking, acts, c, 2, 1, 0, ConvertToCandidate(InitServer(2, 3), Follower));
    acts, c := PlayWrite(Asking, acts, c, 2, [120]);
    acts, c := PlayWrite(Asking, acts, c, 2, [120]);
    acts, c := PlayWrite(Asking, acts, c, 2, [120]);
  }

  /** Server 2 leads term 1 with three entries nobody else has; server 0 leads
      term 2, and server 2 follows it. */
  lemma LonelyFollower() returns (acts: seq<Action>, c: Cluster)
    ensures Reached(Asking, acts, c) && |c.servers| == 3 && c.appendCalls == map[]
    ensures c.servers[0] == InitServer(0, 3).(currentTerm := 2, votedFor := 0, state := Leader, voteCount := 2,
            winElection := true)
    ensures c.servers[1] == InitServer(1, 3).(currentTerm := 2, votedFor := 0)
    ensures c.servers[2].Shape() && c.servers[2] == InitServer(2, 3).(
              currentTerm := 2, votedFor := -1, logs := LonelyLog(), voteCount := 2, winElection := true,
              nextIndex := c.servers[2].nextIndex, matchIndex := c.servers[2].matchIndex)
  {
    acts, c := LonelyLeader();
    acts, c := PlayTimeout(Asking, acts, c, 0);
    acts, c := PlayElection(Asking, acts, c, 0, 1, 2, ConvertToCandidate(c.servers[0], Candidate));
    acts, c := PlayVoteRequest(Asking, acts, c, 2, 0, 2, RequestVoteArgs(2, 0, -1, -1));
  }

  lemma CountOfThree(m: seq<int>, me: int, n: int)
    requires |m| == 3
    ensures MatchCount(m, me, n, 3) == (if 0 != me && m[0] >= n then 1 else 0) + (if 1 != me && m[1] >= n then 1 else 0)
                                       + (if 2 != me && m[2] >= n then 1 else 0)
  {
    assert MatchCount(m, me, n, 3) == MatchCount(m, me, n, 2) + (if 2 != me && m[2] >= n then 1 else 0);
    assert MatchCount(m, me, n, 2) == MatchCount(m, me, n, 1) + (if 1 != me && m[1] >= n then 1 else 0);
    assert MatchCount(m, me, n, 1) == MatchCount(m, me, n, 0) + (if 0 != me && m[0] >= n then 1 else 0);
  }

  /** A leader whose last entry is of its term and one follower has commits its whole log. */
  lemma CommitsAll(s: Server)
    requires s.Shape() && s.peers == 3 && s.logs != [] && s.LastTerm() == s.currentTerm
    requires s.lastApplied == s.commitIndex == -1 && s.applied == [] && s.me != 1 && s.matchIndex[1] == s.LastIndex()
    ensures CommitScan(s) == s.(commitIndex := s.LastIndex(), lastApplied := s.LastIndex(), applied := s.logs)
  {
    CountOfThree(s.matchIndex, s.me, s.LastIndex());
    assert CommitTarget(s, s.LastIndex()) == s.LastIndex();
    assert [] + s.logs[0..s.LastIndex() + 1] == s.logs;
  }

  lemma CommitsNothing(s: Server)
    requires s.Shape() && s.peers == 3 && s.commitIndex == -1 && |s.logs| == 4 && s.me == 2
    requires s.logs[0].term != s.currentTerm && s.logs[1].term != s.currentTerm && s.logs[2].term != s.currentTerm
    requires s.matchIndex[0] < 3 && s.matchIndex[1] < 3
    ensures CommitScan(s) == s
  {
    CountOfThree(s.matchIndex, s.me, 3);
    assert CommitTarget(s, 3) == CommitTarget(s, 2);
    assert CommitTarget(s, 2) == CommitTarget(s, 1);
    assert CommitTarget(s, 1) == CommitTarget(s, 0);
    assert CommitTarget(s, 0) == CommitTarget(s, -1);
  }

  /** From nextIndex 0 the follower takes the leader's log, and the leader commits it. */
  lemma LastRound(s: Server, r: Server)
    requires s.Shape() && r.Shape() && s.peers == r.peers == 3 && s.state == Leader && r.me == 1 && s.me != 1
    requires s.nextIndex[1] == 0 && s.matchIndex[1] == -1 && s.logs != []
             && s.LastTerm() == s.currentTerm == r.currentTerm
    requires s.lastApplied == s.commitIndex == -1 && s.applied == [] && s.firstOffset == r.firstOffset == 0
             && r.commitIndex == -1
    requires r.logs == [] || r.logs[0].term != s.logs[0].term
    ensures Round(s, r, AppendArgs(s, 1), AppendEntriesReply(s.currentTerm, true, -1, -1),
                  s.(nextIndex := s.nextIndex[1 := |s.logs|], matchIndex := s.matchIndex[1 := |s.logs| - 1],
                     commitIndex := s.LastIndex(), lastApplied := s.LastIndex(), applied := s.logs),
                  r.(logs := s.logs))
  {
    hide Round, AppendEntries, CommitScan, AppendFits, UpdateIndices;
    var args, reply := AppendArgs(s, 1), AppendEntriesReply(s.currentTerm, true, -1, -1);
    FollowerTakesAll(s, r);
    LeaderCommitsAll(s, args, reply);
    RoundIs(s, r, args, reply, s.(nextIndex := s.nextIndex[1 := |s.logs|],
        matchIndex := s.matchIndex[1 := |s.logs| - 1],
                                  commitIndex := s.LastIndex(), lastApplied := s.LastIndex(), applied := s.logs),
                                      r.(logs := s.logs));
  }

  lemma RoundIs(s: Server, r: Server, args: AppendEntriesArgs, reply: AppendEntriesReply, s': Server, r': Server)
    requires s.Shape() && r.Shape() && s.peers == r.peers == 3 && s.state == Leader && r.me == 1 && s.me != 1
    requires s.nextIndex[1] == 0 && args == AppendArgs(s, 1) && AppendFits(r, args)
             && AppendEntries(r, args) == (r', reply)
    requires r'.Shape() && r'.peers == 3 && reply.term == s.currentTerm
             && s' == CommitScan(UpdateIndices(s, 1, args, reply))
    ensures Round(s, r, args, reply, s', r')
  {
    hide AppendEntries, AppendArgs, CommitScan, UpdateIndices, AppendFits;
  }

  lemma FollowerTakesAll(s: Server, r: Server)
    requires s.Shape() && r.Shape() && s.peers == r.peers == 3 && r.me == 1
    requires s.nextIndex[1] == 0 && s.logs != [] && s.currentTerm == r.currentTerm
    requires s.commitIndex == -1 && s.firstOffset == r.firstOffset == 0 && r.commitIndex == -1
    requires r.logs == [] || r.logs[0].term != s.logs[0].term
    ensures AppendFits(r, AppendArgs(s, 1))
    ensures AppendEntries(r, AppendArgs(s, 1)) == (r.(logs := s.logs), AppendEntriesReply(s.currentTerm, true, -1, -1))
    ensures r.(logs := s.logs).Shape()
  {
    var args := AppendArgs(s, 1);
    assert args.entries == s.logs;
    assert r.logs[..0] + args.entries[0..] == args.entries;
  }

  lemma LeaderCommitsAll(s: Server, args: AppendEntriesArgs, reply: AppendEntriesReply)
    requires s.Shape() && s.peers == 3 && s.me != 1 && s.nextIndex[1] == 0 && args == AppendArgs(s, 1)
    requires s.logs != [] && s.LastTerm() == s.currentTerm && s.lastApplied == s.commitIndex == -1 && s.applied == []
    requires reply == AppendEntriesReply(s.currentTerm, true, -1, -1) && s.matchIndex[1] == -1
    ensures CommitScan(UpdateIndices(s, 1, args, reply))
         == s.(nextIndex := s.nextIndex[1 := |s.logs|], matchIndex := s.matchIndex[1 := |s.logs| - 1],
               commitIndex := s.LastIndex(), lastApplied := s.LastIndex(), applied := s.logs)
  {
    hide CommitScan;
    assert args.entries == s.logs;
    CommitsAll(UpdateIndices(s, 1, args, reply));
  }

  function Writer(): Server {
    InitServer(0, 3).(currentTerm := 2, votedFor := 0, state := Leader, voteCount := 2, winElection := true,
        logs := [LogEntry(2, [97])])
  }

  function Reader(): Server { InitServer(1, 3).(currentTerm := 2, votedFor := 0) }

  lemma WrittenWithoutTwo() returns (acts: seq<Action>, c: Cluster)
    ensures Reached(Asking, acts, c) && |c.servers| == 3 && c.appendCalls == map[]
    ensures c.servers[0] == Writer() && c.servers[1] == Reader()
    ensures c.servers[2].Shape() && c.servers[2] == InitServer(2, 3).(
              currentTerm := 2, votedFor := -1, logs := LonelyLog(), voteCount := 2, winElection := true,
              nextIndex := c.servers[2].nextIndex, matchIndex := c.servers[2].matchIndex)
  {
    acts, c := LonelyFollower();
    acts, c := PlayWrite(Asking, acts, c, 0, [97]);
  }

  /** Server 0 commits and applies an entry with server 1. */
  lemma CommittedWithoutTwo() returns (acts: seq<Action>, c: Cluster)
    ensures Reached(Asking, acts, c) && |c.servers| == 3 && c.appendCalls == map[]
    ensures c.servers[0].applied == [LogEntry(2, [97])]
    ensures c.servers[1] == InitServer(1, 3).(currentTerm := 2, votedFor := 0, logs := [LogEntry(2, [97])])
    ensures c.servers[2].Shape() && c.servers[2] == InitServer(2, 3).(
              currentTerm := 2, votedFor := -1, logs := LonelyLog(), voteCount := 2, winElection := true,
              nextIndex := c.servers[2].nextIndex, matchIndex := c.servers[2].matchIndex)
  {
    acts, c := WrittenWithoutTwo();
    LastRound(Writer(), Reader());
    acts, c := PlayRound(Asking, acts, c, 0, 1, Writer(), Reader(), AppendArgs(Writer(), 1),
        AppendEntriesReply(2, true, -1, -1),
                         Writer().(nextIndex := Writer().nextIndex[1 := 1], matchIndex := Writer().matchIndex[1 := 0],
                            commitIndex := 0, lastApplied := 0, applied := Writer().logs),
                         Reader().(logs := Writer().logs));
  }

  /** Server 2 as leader of term 3, with the entry server 0 applied nowhere in its log. */
  function Usurper(next: int): Server {
    InitServer(2, 3).(currentTerm := 3, votedFor := 2, logs := LonelyLog() + [LogEntry(3, [121])], state := Leader,
                      voteCount := 2, winElection := true, nextIndex := [3, next, 3], matchIndex := [2, next - 1, 2])
  }

  function Voter(): Server { InitServer(1, 3).(currentTerm := 3, votedFor := 2, logs := [LogEntry(2, [97])]) }

  /** The copied request (index 2, term 2) wins server 1's vote in term 3, which
      the request itself (index 2, term 1) would have lost. */
  lemma ElectedWithoutCommitted() returns (acts: seq<Action>, c: Cluster)
    ensures Reached(Asking, acts, c) && |c.servers| == 3 && c.appendCalls == map[]
    ensures c.servers[0].applied == [LogEntry(2, [97])] && c.servers[1] == Voter() && c.servers[2] == Usurper(3)
  {
    acts, c := CommittedWithoutTwo();
    var s := ConvertToCandidate(c.servers[2], Follower);
    assert Wire(AsWritten, VoteArgs(s)) == RequestVoteArgs(3, 2, 2, 2);
    acts, c := PlayElection(Asking, acts, c, 2, 1, 0, s);
    acts, c := PlayWrite(Asking, acts, c, 2, [121]);
  }

  /** Two rejections bring nextIndex from 3 to 1 and to 0. */
  lemma RejectedAsShort()
    ensures Round(Usurper(3), Voter(), AppendArgs(Usurper(3), 1), AppendEntriesReply(3, false, 1, -1), Usurper(1),
            Voter())
  {
    CommitsNothing(Usurper(1));
    assert Usurper(3).matchIndex[1 := 0] == Usurper(1).matchIndex
           && Usurper(3).nextIndex[1 := 1] == Usurper(1).nextIndex;
  }

  lemma RejectedForTerm()
    ensures Round(Usurper(1), Voter(), AppendArgs(Usurper(1), 1), AppendEntriesReply(3, false, 0, 2), Usurper(0),
            Voter())
  {
    CommitsNothing(Usurper(0));
    assert Usurper(1).matchIndex[1 := -1] == Usurper(0).matchIndex
           && Usurper(1).nextIndex[1 := 0] == Usurper(0).nextIndex;
    assert LastWithTerm(Usurper(1).logs, 2, 3) == -1;
  }

  lemma BackedOffOnce() returns (acts: seq<Action>, c: Cluster)
    ensures Reached(Asking, acts, c) && |c.servers| == 3 && c.appendCalls == map[]
    ensures c.servers[0].applied == [LogEntry(2, [97])] && c.servers[1] == Voter() && c.servers[2] == Usurper(1)
  {
    acts, c := ElectedWithoutCommitted();
    RejectedAsShort();
    acts, c := PlayRound(Asking, acts, c, 2, 1, Usurper(3), Voter(), AppendArgs(Usurper(3), 1),
        AppendEntriesReply(3, false, 1, -1), Usurper(1), Voter());
  }

  lemma BackedOff() returns (acts: seq<Action>, c: Cluster)
    ensures Reached(Asking, acts, c) && |c.servers| == 3 && c.appendCalls == map[]
    ensures c.servers[0].applied == [LogEntry(2, [97])] && c.servers[1] == Voter() && c.servers[2] == Usurper(0)
  {
    acts, c := BackedOffOnce();
    RejectedForTerm();
    acts, c := PlayRound(Asking, acts, c, 2, 1, Usurper(1), Voter(), AppendArgs(Usurper(1), 1),
        AppendEntriesReply(3, false, 0, 2), Usurper(0), Voter());
  }

  /** With the copy constructor as written and every other condition of Allowed
      met, two servers apply different first entries. */
  lemma CopiedVoteRequestBreaksSafety() returns (acts: seq<Action>)
    ensures RunWithGap(Asking, acts)
    ensures var c := After(3, AsWritten, acts);
            && |c.servers| == 3
            && !(c.servers[0].applied <= c.servers[2].applied) && !(c.servers[2].applied <= c.servers[0].applied)
  {
    var c;
    acts, c := BackedOff();
    var s := Usurper(0);
    LastRound(s, Voter());
    acts, c := PlayRound(Asking, acts, c, 2, 1, s, Voter(), AppendArgs(s, 1), AppendEntriesReply(3, true, -1, -1),
                         s.(nextIndex := s.nextIndex[1 := 4], matchIndex := s.matchIndex[1 := 3],
                            commitIndex := 3, lastApplied := 3, applied := s.logs),
                         Voter().(logs := s.logs));
    assert c.servers[2].applied[0] == LogEntry(1, [120]);
  }
}
