/** What the handlers bring about: when an election is won, what a vote depends
    on, what a rejection reports and where it sends the leader, and what
    catching up with a compacted log does. */
module RaftProgress {
  import opened RaftState
  import opened RaftHistory
  import opened RaftCluster
  import opened RaftInvariant
  import opened RaftSteps
  import opened RaftSafety

  // ---- winning ----

  /** winElection turns true only for a Candidate that a majority has voted for in its term. */
  lemma WinNeedsMajority(n: nat, mode: CopyMode, acts: seq<Action>, i: nat)
    requires GoodRun(n, mode, acts) && acts != [] && i < n
    requires |After(n, mode, acts[..|acts| - 1]).servers| == |After(n, mode, acts).servers| == n
    requires !After(n, mode, acts[..|acts| - 1]).servers[i].winElection && After(n, mode, acts).servers[i].winElection
    ensures var s := After(n, mode, acts).servers[i];
            s.state == Candidate && |Voters(RunHistory(n, mode, acts), n, s.currentTerm, i)| >= Majority(n)
  {
    var before, a := acts[..|acts| - 1], acts[|acts| - 1];
    RunInv(n, mode, before);
    RunInv(n, mode, acts);
    var h, c := RunHistory(n, mode, acts), After(n, mode, acts);
    TurnedByCount(RunHistory(n, mode, before), After(n, mode, before), mode, a, i);
    ServerAt(h, c, i);
    assert CountInv(h, c, i);
    CountedVoted(h, c, c.servers[i].currentTerm, i);
  }

  lemma TurnedByCount(h: History, c: Cluster, mode: CopyMode, a: Action, i: nat)
    requires Inv(h, c) && Enabled(c, a) && i < |c.servers|
    requires !c.servers[i].winElection && Apply(c, mode, a).servers[i].winElection
    ensures var s := Apply(c, mode, a).servers[i]; s.state == Candidate && s.voteCount >= Majority(|c.servers|)
  {
    hide Inv, AppendEntries, AppendFits, UpdateIndices, CommitScan;
    ServerAt(h, c, i);
    match a
    case DeliverAppend(t, k, f) => AppendKeepsWin(c.servers[f], c.appendCalls[(t, k, f)].args);
    case DeliverAppendReply(t, k, f) => ReplyKeepsWin(c.servers[k], f, c.appendCalls[(t, k, f)]);
    case Commit(k) => ScanKeepsWin(c.servers[k]);
    case _ =>
  }

  lemma AppendKeepsWin(s: Server, args: AppendEntriesArgs)
    requires s.Shape() && AppendFits(s, args)
    ensures var s' := AppendEntries(s, args).0;
            s'.winElection == s.winElection && s'.voteCount == s.voteCount && s'.peers == s.peers
            && (s'.state == Candidate ==> s.state == Candidate)
  {
  }

  lemma ScanKeepsWin(s: Server)
    requires s.Shape()
    ensures var s' := CommitScan(s);
            s'.winElection == s.winElection && s'.voteCount == s.voteCount && s'.state == s.state && s'.peers == s.peers
  {
  }

  lemma ReplyKeepsWin(s: Server, f: int, call: AppendCall)
    requires s.Shape() && 0 <= f < s.peers && call.AppendAnswer?
    ensures var (s', handled) := HandleAppendReply(s, f, call.args, call.reply);
            && (handled ==> s'.Shape())
            && (var r := if handled then CommitScan(s') else s';
                r.winElection == s.winElection && r.voteCount == s.voteCount && r.peers == s.peers
                && (r.state == Candidate ==> s.state == Candidate))
  {
    hide CommitScan;
    var (s', handled) := HandleAppendReply(s, f, call.args, call.reply);
    if handled { ScanKeepsWin(s'); }
  }

  /** A candidate that has broadcast and counts a majority has won. */
  ghost predicate Wins(c: Cluster, i: int)
    requires 0 <= i < |c.servers|
  {
    var s := c.servers[i];
    s.state == Candidate && i !in c.due && s.voteCount >= Majority(|c.servers|) ==> s.winElection
  }

  lemma StepWins(h: History, c: Cluster, mode: CopyMode, a: Action, i: nat)
    requires Inv(h, c) && Enabled(c, a) && i < |c.servers| && Wins(c, i)
    ensures Wins(Apply(c, mode, a), i)
  {
    hide Inv;
    match a
    case Broadcast(k) =>
      ServerAt(h, c, i);
      if i == k { DueCountsOne(h, c, i); }
    case DeliverVoteReply(t, k, v) =>
      ServerAt(h, c, i);
      if i == k { NotDue(h, c, t, k, v); }
    case _ => OtherStepWins(h, c, mode, a, i);
  }

  lemma OtherStepWins(h: History, c: Cluster, mode: CopyMode, a: Action, i: nat)
    requires Inv(h, c) && Enabled(c, a) && i < |c.servers| && Wins(c, i) && !a.Broadcast? && !a.DeliverVoteReply?
    ensures Wins(Apply(c, mode, a), i)
  {
    hide Inv, AppendEntries, AppendFits, UpdateIndices, CommitScan, RequestVote;
    ServerAt(h, c, i);
    match a
    case DeliverVoteRequest(t, k, v) => VotingKeepsWin(c.servers[v], c.voteCalls[(t, k, v)].wire);
    case DeliverAppend(t, k, f) => AppendKeepsWin(c.servers[f], c.appendCalls[(t, k, f)].args);
    case DeliverAppendReply(t, k, f) => ReplyKeepsWin(c.servers[k], f, c.appendCalls[(t, k, f)]);
    case Commit(k) => ScanKeepsWin(c.servers[k]);
    case _ =>
  }

  lemma VotingKeepsWin(s: Server, args: RequestVoteArgs)
    ensures var s' := RequestVote(s, args).0;
            s'.winElection == s.winElection && s'.voteCount == s.voteCount
            && (s'.state == Candidate ==> s.state == Candidate)
  {
  }

  /** Before its broadcast a candidate has counted its own vote at most. */
  lemma DueCountsOne(h: History, c: Cluster, i: nat)
    requires Inv(h, c) && i < |c.servers| && i in c.due && c.servers[i].state == Candidate
    ensures c.servers[i].voteCount <= 1
  {
    assert CountInv(h, c, i);
    var counted := Counted(h, c, c.servers[i].currentTerm, i);
    SubsetSize(counted, {i as int});
  }

  /** A candidate that has a call of its term in flight has broadcast. */
  lemma NotDue(h: History, c: Cluster, t: int, k: int, v: int)
    requires Inv(h, c) && (t, k, v) in c.voteCalls
    ensures 0 <= k < |c.servers| && (c.servers[k].currentTerm == t ==> k !in c.due)
    ensures c.voteCalls[(t, k, v)].wire.term == t
  {
    VoteCallAt(h, c, t, k, v);
    assert CountInv(h, c, k);
  }

  /** In every run, a candidate past its broadcast for which a majority's votes have been counted has winElection
      set. */
  lemma {:induction false} MajorityWins(n: nat, mode: CopyMode, acts: seq<Action>, i: nat)
    requires GoodRun(n, mode, acts) && i < n && |After(n, mode, acts).servers| == n
    requires var c := After(n, mode, acts);
             c.servers[i].state == Candidate && i !in c.due
             && |Counted(RunHistory(n, mode, acts), c, c.servers[i].currentTerm, i)| >= Majority(n)
    ensures After(n, mode, acts).servers[i].winElection
  {
    RunInv(n, mode, acts);
    assert CountInv(RunHistory(n, mode, acts), After(n, mode, acts), i);
    RunWins(n, mode, acts, i);
  }

  lemma {:induction false} RunWins(n: nat, mode: CopyMode, acts: seq<Action>, i: nat)
    requires GoodRun(n, mode, acts) && i < n
    ensures |After(n, mode, acts).servers| == n && Wins(After(n, mode, acts), i)
  {
    RunInv(n, mode, acts);
    if acts != [] {
      var before := acts[..|acts| - 1];
      RunInv(n, mode, before);
      RunWins(n, mode, before, i);
      StepWins(RunHistory(n, mode, before), After(n, mode, before), mode, acts[|acts| - 1], i);
    }
  }

  // ---- votes ----

  /** A vote is granted exactly to a request of a term not behind, from the candidate voted for in that term if there
      is one, with a log at least as up to date as the voter's (section 5.4.1 of the extended Raft paper). */
  lemma VoteGrantedIff(s: Server, term: int, candidateId: int, log: seq<LogEntry>)
    requires candidateId != -1
    ensures var (s', reply) := RequestVote(s, RequestVoteArgs(term, candidateId, |log| - 1, LastTermOf(log)));
            && (reply.voteGranted <==>
                  && term >= s.currentTerm
                  && (term == s.currentTerm && s.votedFor != -1 ==> s.votedFor == candidateId)
                  && UpToDate(log, s.logs))
            && reply.term == s'.currentTerm == (if term > s.currentTerm then term else s.currentTerm)
            && s'.votedFor == (if reply.voteGranted then candidateId
                               else if term > s.currentTerm then -1 else s.votedFor)
            && s'.state == (if term > s.currentTerm then Follower else s.state)
            && s' == s.(currentTerm := s'.currentTerm, votedFor := s'.votedFor, state := s'.state)
  {
  }

  // ---- rejections ----

  /** A request that is not behind, from a leader whose log does not start later, is rejected exactly if the previous
      entry is missing or has another term; the reply reports the end of a short log, or that other term and the first
      index of the run it stands in. */
  lemma RejectionReports(s: Server, args: AppendEntriesArgs)
    requires s.Shape() && AppendFits(s, args) && args.term >= s.currentTerm && args.firstOffset <= s.firstOffset
    requires 0 <= args.prevLogIndex
    ensures var (s', reply) := AppendEntries(s, args); var prev := args.prevLogIndex;
            && (reply.success <==> prev < |s.logs| && s.logs[prev].term == args.prevLogTerm)
            && (prev >= |s.logs| ==> reply.conflictTerm == -1 && reply.conflictIndex == |s.logs|)
            && (prev < |s.logs| && !reply.success ==>
                  && reply.conflictTerm == s.logs[prev].term && 0 <= reply.conflictIndex <= prev
                  && (forall j :: reply.conflictIndex <= j <= prev ==> s.logs[j].term == reply.conflictTerm)
                  && (reply.conflictIndex > 0 ==> s.logs[reply.conflictIndex - 1].term != reply.conflictTerm))
            && reply.term == args.term
            && (!reply.success ==> s'.logs == s.logs && s'.commitIndex == s.commitIndex && s'.applied == s.applied)
  {
  }

  /** A rejection of this term sends the leader to its last entry of the conflicting term, or where the follower says
      if it has none; matchIndex goes just before it, and no other peer's indices move. */
  lemma RejectionMovesTo(s: Server, f: int, args: AppendEntriesArgs, reply: AppendEntriesReply)
    requires s.Shape() && 0 <= f < s.peers && s.state == Leader && args.term == reply.term == s.currentTerm
    requires !reply.success
    ensures var (s', handled) := HandleAppendReply(s, f, args, reply); var next := s'.nextIndex[f];
            && handled && |s'.nextIndex| == |s'.matchIndex| == s.peers
            && (if reply.conflictTerm >= 0 && exists i :: 0 <= i < |s.logs| && s.logs[i].term == reply.conflictTerm
                then 0 <= next < |s.logs| && s.logs[next].term == reply.conflictTerm
                     && forall j :: next < j < |s.logs| ==> s.logs[j].term != reply.conflictTerm
                else next == reply.conflictIndex)
            && s'.matchIndex[f] == next - 1
            && forall g :: 0 <= g < s.peers && g != f ==>
                 s'.nextIndex[g] == s.nextIndex[g] && s'.matchIndex[g] == s.matchIndex[g]
  {
  }

  /** An acceptance raises matchIndex to the last entry sent, never lowers it, and nextIndex follows it. */
  lemma AcceptanceMovesTo(s: Server, f: int, args: AppendEntriesArgs, reply: AppendEntriesReply)
    requires s.Shape() && 0 <= f < s.peers && s.state == Leader && args.term == reply.term == s.currentTerm
    requires reply.success
    ensures var (s', handled) := HandleAppendReply(s, f, args, reply); var last := args.prevLogIndex + |args.entries|;
            && handled && |s'.nextIndex| == |s'.matchIndex| == s.peers
            && s'.matchIndex[f] >= last && s'.matchIndex[f] >= s.matchIndex[f]
            && (s'.matchIndex[f] == last || s'.matchIndex[f] == s.matchIndex[f])
            && s'.nextIndex[f] == s'.matchIndex[f] + 1
            && forall g :: 0 <= g < s.peers && g != f ==>
                 s'.nextIndex[g] == s.nextIndex[g] && s'.matchIndex[g] == s.matchIndex[g]
  {
  }

  /** A reply of another term than the leader's, or to a server that leads no more, moves nothing; one of a higher
      term makes the leader a follower of it. */
  lemma StaleReplies(s: Server, f: int, args: AppendEntriesArgs, reply: AppendEntriesReply)
    requires 0 <= f < |s.nextIndex| && 0 <= f < |s.matchIndex|
    requires s.state != Leader || args.term != s.currentTerm || reply.term != s.currentTerm
    ensures var (s', handled) := HandleAppendReply(s, f, args, reply);
            && !handled
            && (if s.state == Leader && args.term == s.currentTerm && reply.term > s.currentTerm
                then s' == s.(state := Follower, currentTerm := reply.term, votedFor := -1) else s' == s)
  {
  }

  /** The same for vote replies, which otherwise count one vote exactly if it was granted. */
  lemma VoteReplyCounts(s: Server, args: RequestVoteArgs, reply: RequestVoteReply)
    ensures var s' := HandleVoteReply(s, args, reply);
            if s.state != Candidate || args.term != s.currentTerm || reply.term < s.currentTerm then s' == s
            else if reply.term > s.currentTerm
            then s' == s.(state := Follower, currentTerm := reply.term, votedFor := -1)
            else
              && s'.voteCount == s.voteCount + (if reply.voteGranted then 1 else 0)
              && (s'.winElection <==> s.winElection || (reply.voteGranted && s'.voteCount == s.peers / 2 + 1))
              && s' == s.(voteCount := s'.voteCount, winElection := s'.winElection)
  {
  }

  // ---- a leader whose log starts later ----

  /** A follower that has committed everything the leader has dropped drops it too: its log then starts where the
      leader's does, and no absolute position moves; otherwise it keeps what it has. */
  lemma SkipAligns(s: Server, offset: int)
    requires s.commitIndex < |s.logs|
    ensures var s0 := SkipCompacted(s, offset); var end := s.firstOffset + s.commitIndex + 1;
            && s0.firstOffset == (if s.firstOffset < offset <= end then offset else s.firstOffset)
            && s0.firstOffset + s0.commitIndex == s.firstOffset + s.commitIndex
            && s0.firstOffset + s0.lastApplied == s.firstOffset + s.lastApplied
            && s0.firstOffset + |s0.logs| == s.firstOffset + |s.logs|
            && s0.logs == s.logs[s0.firstOffset - s.firstOffset..] && s0.applied == s.applied
  {
  }

  // ---- requests and the terms they carry ----

  /** A request of an older term is refused, and leaves all but what compaction drops. */
  lemma OldRequest(s: Server, args: AppendEntriesArgs)
    requires s.Shape() && AppendFits(s, args) && args.term < s.currentTerm
    ensures AppendEntries(s, args)
         == (SkipCompacted(s, args.firstOffset), AppendEntriesReply(s.currentTerm, false, -1, -1))
  {
  }

  /** A newer term makes the receiver a follower of it without a vote; one of the same term leaves role and vote. */
  lemma RequestTerm(s: Server, args: AppendEntriesArgs)
    requires s.Shape() && AppendFits(s, args) && args.term >= s.currentTerm
    ensures var s' := AppendEntries(s, args).0;
            && s'.currentTerm == args.term
            && s'.state == (if args.term > s.currentTerm then Follower else s.state)
            && s'.votedFor == (if args.term > s.currentTerm then -1 else s.votedFor)
            && SameBeside(s', s)
  {
    hide AppendChecked;
    var s0 := SkipCompacted(s, args.firstOffset);
    CheckedKeeps(if args.term > s0.currentTerm then StepDown(s0, args.term) else s0, args);
  }

  /** A leader's indices and a candidate's votes. */
  predicate SameBeside(s': Server, s: Server) {
    s'.nextIndex == s.nextIndex && s'.matchIndex == s.matchIndex && s'.voteCount == s.voteCount
    && s'.winElection == s.winElection
  }

  lemma CheckedKeeps(s: Server, args: AppendEntriesArgs)
    requires -1 <= s.lastApplied && -1 <= args.prevLogIndex && MergeFits(s, args)
    ensures var s' := AppendChecked(s, args).0;
            s'.currentTerm == s.currentTerm && s'.state == s.state && s'.votedFor == s.votedFor && SameBeside(s', s)
  {
    hide MergeEntries, ConflictStart;
  }

  // ---- what a leader commits and drops ----

  /** The servers that have entry `n`, by the leader's count. */
  ghost function Having(s: Server, n: int): (have: set<int>)
    requires |s.matchIndex| == s.peers
  {
    HavingBelow(s, n, s.peers)
  }

  ghost function HavingBelow(s: Server, n: int, upto: nat): (have: set<int>)
    requires upto <= |s.matchIndex|
  {
    set i: int | 0 <= i < upto && (i == s.me || s.matchIndex[i] >= n)
  }

  lemma {:induction false} CountsHaving(s: Server, n: int, upto: nat)
    requires upto <= |s.matchIndex| && s.me >= 0
    ensures |HavingBelow(s, n, upto)| == MatchCount(s.matchIndex, s.me, n, upto) + if s.me < upto then 1 else 0
  {
    if upto == 0 {
      assert HavingBelow(s, n, 0) == {};
    } else {
      CountsHaving(s, n, upto - 1);
      var last, rest := upto - 1, HavingBelow(s, n, upto - 1);
      assert HavingBelow(s, n, upto) == if last == s.me || s.matchIndex[last] >= n then rest + {last} else rest;
      assert last !in rest;
    }
  }

  /** CheckCommit commits the largest index that a majority has and whose entry is of the leader's term (section 5.4.2
      of the extended Raft paper), if that is beyond the commit index; a leader alone commits any entry. */
  lemma CommitMoves(s: Server)
    requires s.Shape()
    ensures var n := CommitScan(s).commitIndex;
            && n >= s.commitIndex && (n > s.commitIndex ==> n < |s.logs| && Committable(s, n))
            && forall j :: n < j < |s.logs| ==> !Committable(s, j)
  {
    var upto := |s.logs| - 1;
    forall j | 0 <= j < |s.logs| ensures Committable(s, j) <==> CommitVotes(s, j) > s.peers / 2 {
      CountsHaving(s, j, s.peers);
      assert Having(s, j) == HavingBelow(s, j, s.peers);
    }
    NoneBeyond(s, upto);
  }

  ghost predicate Committable(s: Server, n: int)
    requires 0 <= n < |s.logs| && |s.matchIndex| == s.peers
  {
    if s.logs[n].term == s.currentTerm then |Having(s, n)| > s.peers / 2 else s.peers < 2
  }

  lemma {:induction false} NoneBeyond(s: Server, upto: int)
    requires s.Shape() && -1 <= upto < |s.logs|
    ensures forall j {:trigger CommitVotes(s, j)} :: CommitTarget(s, upto) < j <= upto ==>
              CommitVotes(s, j) <= s.peers / 2
    decreases upto + 1
  {
    if upto > s.commitIndex && CommitVotes(s, upto) <= s.peers / 2 { NoneBeyond(s, upto - 1); }
  }

  /** What every other peer has is dropped, up to the largest such index. */
  lemma TruncateMoves(s: Server)
    requires s.Shape()
    ensures var k := Truncate(s).firstOffset - s.firstOffset;
            && 0 <= k <= |s.logs| && Truncate(s).logs == s.logs[k..]
            && (k > 0 ==> forall i :: 0 <= i < s.peers && i != s.me ==> s.matchIndex[i] >= k - 1)
            && (k < |s.logs| ==> exists i :: 0 <= i < s.peers && i != s.me && s.matchIndex[i] < k)
  {
    NoneMatchedBeyond(s, |s.logs| - 1);
    var k := Truncate(s).firstOffset - s.firstOffset;
    if k < |s.logs| { assert !AllMatched(s, k); }
  }

  lemma {:induction false} NoneMatchedBeyond(s: Server, upto: int)
    requires s.Shape() && -1 <= upto < |s.logs|
    ensures forall n {:trigger AllMatched(s, n)} :: TruncateTarget(s, upto) < n <= upto ==> !AllMatched(s, n)
    decreases upto + 1
  {
    if upto >= 0 && !AllMatched(s, upto) { NoneMatchedBeyond(s, upto - 1); }
  }
}
