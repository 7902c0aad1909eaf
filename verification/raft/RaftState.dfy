/** The state of one Raft server and the effect of each of its handlers, as
    functions on values. The class in RaftNode.dfy runs the same handlers with
    the source's loops and field updates and is proved to compute these. */
module RaftState {
  import opened Coding

  type Command = Bytes

  /** `conn_fd` is not sent to other servers, so an entry is its term and command. */
  datatype LogEntry = LogEntry(term: int, command: Command)

  datatype Role = Leader | Candidate | Follower

  datatype RequestVoteArgs = RequestVoteArgs(term: int, candidateId: int, lastLogIndex: int, lastLogTerm: int)

  datatype RequestVoteReply = RequestVoteReply(term: int, voteGranted: bool)

  datatype AppendEntriesArgs = AppendEntriesArgs(
    term: int, leaderId: int, prevLogIndex: int, prevLogTerm: int,
    leaderCommit: int, firstOffset: int, entries: seq<LogEntry>)

  datatype AppendEntriesReply = AppendEntriesReply(term: int, success: bool, conflictIndex: int, conflictTerm: int)

  /** `applied` is everything ever enqueued on ApplyQueue, in order. */
  datatype Server = Server(
    me: int,
    peers: nat,
    currentTerm: int,
    votedFor: int,
    logs: seq<LogEntry>,
    commitIndex: int,
    lastApplied: int,
    firstOffset: int,
    nextIndex: seq<int>,
    matchIndex: seq<int>,
    state: Role,
    voteCount: int,
    winElection: bool,
    applied: seq<LogEntry>)
  {
    function LastIndex(): int { |logs| - 1 }

    function LastTerm(): int { LastTermOf(logs) }

    /** What every handler may assume of the fields it indexes. */
    predicate Shape() {
      && 0 <= me < peers
      && |nextIndex| == peers && |matchIndex| == peers
      && -1 <= lastApplied <= commitIndex < |logs|
    }
  }

  function LastTermOf(log: seq<LogEntry>): int {
    if log == [] then -1 else log[|log| - 1].term
  }

  function InitServer(me: int, peers: nat): Server {
    Server(me, peers, 0, -1, [], -1, -1, 0, seq(peers, _ => 0), seq(peers, _ => -1), Follower, 0, false, [])
  }

  // ---- elections ----

  function StepDown(s: Server, term: int): Server {
    s.(state := Follower, currentTerm := term, votedFor := -1)
  }

  function ConvertToCandidate(s: Server, from: Role): Server {
    if s.state != from then s
    else s.(state := Candidate, currentTerm := s.currentTerm + 1, votedFor := s.me, voteCount := 1)
  }

  function ConvertToLeader(s: Server): Server {
    if s.state != Candidate then s
    else s.(state := Leader,
            nextIndex := seq(s.peers, _ => s.LastIndex() + 1),
            matchIndex := seq(s.peers, _ => s.LastIndex()))
  }

  predicate IsLogUpToDate(s: Server, cLastIndex: int, cLastTerm: int) {
    if cLastTerm == s.LastTerm() then cLastIndex >= s.LastIndex() else cLastTerm > s.LastTerm()
  }

  function Majority(peers: nat): nat { peers / 2 + 1 }

  /** The arguments broadcastRequestVote builds before any copy is made. */
  function VoteArgs(s: Server): RequestVoteArgs {
    RequestVoteArgs(s.currentTerm, s.me, s.LastIndex(), s.LastTerm())
  }

  /** The copy constructor of requestVoteArgs, which every request sent passes
      through when the voting thread captures it: LastLogTerm is initialised
      from LastLogIndex. */
  function CopyVoteArgs(a: RequestVoteArgs): RequestVoteArgs {
    RequestVoteArgs(a.term, a.candidateId, a.lastLogIndex, a.lastLogIndex)
  }

  /** The candidate's own check inside broadcastRequestVote. */
  function SelfCheck(s: Server): Server {
    if s.state == Candidate && s.voteCount == Majority(s.peers) then s.(winElection := true) else s
  }

  function RequestVote(s: Server, args: RequestVoteArgs): (Server, RequestVoteReply) {
    if args.term < s.currentTerm then (s, RequestVoteReply(s.currentTerm, false))
    else
      var s1 := if args.term > s.currentTerm then StepDown(s, args.term) else s;
      var grant := (s1.votedFor == -1 || s1.votedFor == args.candidateId)
                   && IsLogUpToDate(s1, args.lastLogIndex, args.lastLogTerm);
      (if grant then s1.(votedFor := args.candidateId) else s1, RequestVoteReply(s1.currentTerm, grant))
  }

  /** sendRequestVote once the reply has arrived. */
  function HandleVoteReply(s: Server, args: RequestVoteArgs, reply: RequestVoteReply): Server {
    if s.state != Candidate || args.term != s.currentTerm || reply.term < s.currentTerm then s
    else if reply.term > s.currentTerm then StepDown(s, reply.term)
    else if reply.voteGranted then
      s.(voteCount := s.voteCount + 1, winElection := s.winElection || s.voteCount + 1 == Majority(s.peers))
    else s
  }

  // ---- replication ----

  function AddLog(s: Server, command: Command): Server {
    s.(logs := s.logs + [LogEntry(s.currentTerm, command)])
  }

  function AppendArgs(s: Server, server: int): AppendEntriesArgs
    requires 0 <= server < |s.nextIndex| && 0 <= s.nextIndex[server] <= |s.logs|
  {
    var prev := s.nextIndex[server] - 1;
    AppendEntriesArgs(s.currentTerm, s.me, prev, if prev == -1 then -1 else s.logs[prev].term,
                      s.commitIndex, s.firstOffset, s.logs[prev + 1..])
  }

  function ApplyLogs(s: Server): Server
    requires -1 <= s.lastApplied && s.commitIndex < |s.logs|
  {
    if s.lastApplied >= s.commitIndex then s
    else s.(applied := s.applied + s.logs[s.lastApplied + 1..s.commitIndex + 1], lastApplied := s.commitIndex)
  }

  /** The follower's side of compaction at the top of AppendEntries. */
  function SkipCompacted(s: Server, firstOffset: int): Server
    requires s.commitIndex < |s.logs|
  {
    var behind := firstOffset - s.firstOffset;
    if firstOffset > s.firstOffset && s.commitIndex + 1 >= behind then
      s.(firstOffset := firstOffset, logs := s.logs[behind..],
         commitIndex := s.commitIndex - behind, lastApplied := s.lastApplied - behind)
    else s
  }

  /** How many leading entries agree in term with the log from position `i` on. */
  function TermMatch(logs: seq<LogEntry>, i: nat, entries: seq<LogEntry>): (m: nat)
    ensures m <= |entries| && (i <= |logs| ==> i + m <= |logs|)
    decreases |entries|
  {
    if i < |logs| && entries != [] && logs[i].term == entries[0].term
    then 1 + TermMatch(logs, i + 1, entries[1..])
    else 0
  }

  function MergeEntries(logs: seq<LogEntry>, i: nat, entries: seq<LogEntry>): seq<LogEntry>
    requires i <= |logs|
  {
    var m := TermMatch(logs, i, entries);
    logs[..i + m] + entries[m..]
  }

  /** First index of the run of `logs[i].term` that ends at `i`. */
  function RunStart(logs: seq<LogEntry>, i: nat): (k: nat)
    requires i < |logs|
    ensures k <= i && forall j :: k <= j <= i ==> logs[j].term == logs[i].term
    ensures k == 0 || logs[k - 1].term != logs[i].term
  {
    if i > 0 && logs[i - 1].term == logs[i].term then RunStart(logs, i - 1) else i
  }

  function AdvanceCommit(s: Server, leaderCommit: int): Server
    requires -1 <= s.lastApplied
  {
    if leaderCommit > s.commitIndex then
      ApplyLogs(s.(commitIndex := if leaderCommit < s.LastIndex() then leaderCommit else s.LastIndex()))
    else s
  }

  /** The merge starts inside the log: always so when the two offsets agree. */
  predicate MergeFits(s: Server, args: AppendEntriesArgs) {
    var behind := args.firstOffset - s.firstOffset;
    0 <= args.prevLogIndex + 1 + behind && (behind > 0 ==> args.prevLogIndex + 1 + behind <= |s.logs|)
  }

  /** The positions AppendEntries indexes exist. */
  predicate AppendFits(s: Server, args: AppendEntriesArgs)
    requires s.commitIndex < |s.logs|
  {
    var s0 := SkipCompacted(s, args.firstOffset);
    -1 <= args.prevLogIndex && -1 <= s0.lastApplied && MergeFits(s0, args)
  }

  /** AppendEntries from a leader whose term is not behind. */
  function AppendChecked(s: Server, args: AppendEntriesArgs): (Server, AppendEntriesReply)
    requires -1 <= s.lastApplied && -1 <= args.prevLogIndex && MergeFits(s, args)
  {
    if args.prevLogIndex > s.LastIndex() then
      (s, AppendEntriesReply(s.currentTerm, false, s.LastIndex() + 1, -1))
    else
      var cf := if args.prevLogIndex == -1 then -1 else s.logs[args.prevLogIndex].term;
      if cf != args.prevLogTerm then
        (s, AppendEntriesReply(s.currentTerm, false, ConflictStart(s.logs, args.prevLogIndex), cf))
      else
        var behind := args.firstOffset - s.firstOffset;
        var merged := MergeEntries(s.logs, args.prevLogIndex + 1 + behind, args.entries);
        (AdvanceCommit(s.(logs := merged), args.leaderCommit + behind),
         AppendEntriesReply(s.currentTerm, true, -1, -1))
  }

  function AppendEntries(s: Server, args: AppendEntriesArgs): (Server, AppendEntriesReply)
    requires s.Shape() && AppendFits(s, args)
  {
    var s0 := SkipCompacted(s, args.firstOffset);
    if args.term < s0.currentTerm then (s0, AppendEntriesReply(s0.currentTerm, false, -1, -1))
    else AppendChecked(if args.term > s0.currentTerm then StepDown(s0, args.term) else s0, args)
  }

  function ConflictStart(logs: seq<LogEntry>, prev: int): int
    requires -1 <= prev < |logs|
  {
    if prev == -1 then -1 else RunStart(logs, prev)
  }

  /** Last index at or below `i` whose entry has `term`, or -1. */
  function LastWithTerm(logs: seq<LogEntry>, term: int, i: int): (k: int)
    requires i < |logs|
    ensures -1 <= k && (k <= i || k == -1)
    ensures k >= 0 ==> logs[k].term == term
    ensures forall j :: 0 <= j <= i && j > k ==> logs[j].term != term
    decreases i + 1
  {
    if i < 0 then -1 else if logs[i].term == term then i else LastWithTerm(logs, term, i - 1)
  }

  /** nextIndex and matchIndex after a reply from `server`. */
  function UpdateIndices(s: Server, server: int, args: AppendEntriesArgs, reply: AppendEntriesReply): Server
    requires 0 <= server < |s.nextIndex| && 0 <= server < |s.matchIndex|
  {
    if reply.success then
      var newMatch := args.prevLogIndex + |args.entries|;
      var m := if newMatch > s.matchIndex[server] then newMatch else s.matchIndex[server];
      s.(matchIndex := s.matchIndex[server := m], nextIndex := s.nextIndex[server := m + 1])
    else
      var found := LastWithTerm(s.logs, reply.conflictTerm, s.LastIndex());
      var next := if reply.conflictTerm < 0 || found < 0 then reply.conflictIndex else found;
      s.(nextIndex := s.nextIndex[server := next], matchIndex := s.matchIndex[server := next - 1])
  }

  /** Peers other than `me`, below `upto`, whose matchIndex reaches `n`. */
  function MatchCount(matchIndex: seq<int>, me: int, n: int, upto: nat): (c: nat)
    requires upto <= |matchIndex|
    ensures c <= upto
  {
    if upto == 0 then 0
    else MatchCount(matchIndex, me, n, upto - 1) + (if upto - 1 != me && matchIndex[upto - 1] >= n then 1 else 0)
  }

  function CommitVotes(s: Server, n: int): int
    requires 0 <= n < |s.logs| && |s.matchIndex| == s.peers
  {
    1 + (if s.logs[n].term == s.currentTerm then MatchCount(s.matchIndex, s.me, n, s.peers) else 0)
  }

  /** The first loop of CheckCommit: the largest n in (commitIndex, upto] with a majority. */
  function CommitTarget(s: Server, upto: int): (n: int)
    requires upto < |s.logs| && |s.matchIndex| == s.peers
    requires -1 <= s.commitIndex
    ensures n == s.commitIndex || (s.commitIndex < n <= upto && CommitVotes(s, n) > s.peers / 2)
    decreases upto + 1
  {
    if upto <= s.commitIndex then s.commitIndex
    else if CommitVotes(s, upto) > s.peers / 2 then upto
    else CommitTarget(s, upto - 1)
  }

  function CommitScan(s: Server): Server
    requires s.Shape()
  {
    var n := CommitTarget(s, s.LastIndex());
    if n > s.commitIndex then ApplyLogs(s.(commitIndex := n)) else s
  }

  predicate AllMatched(s: Server, n: int)
    requires |s.matchIndex| == s.peers
  {
    forall i :: 0 <= i < s.peers && i != s.me ==> s.matchIndex[i] >= n
  }

  /** The second loop of CheckCommit: the largest n <= upto matched by every peer, or -1. */
  function TruncateTarget(s: Server, upto: int): (n: int)
    requires upto < |s.logs| && |s.matchIndex| == s.peers
    ensures n == -1 || (0 <= n <= upto && AllMatched(s, n))
    decreases upto + 1
  {
    if upto < 0 then -1 else if AllMatched(s, upto) then upto else TruncateTarget(s, upto - 1)
  }

  function DropPrefix(s: Server, k: nat): Server
    requires k <= |s.logs| && |s.nextIndex| == |s.matchIndex| == s.peers
  {
    s.(logs := s.logs[k..],
       nextIndex := seq(s.peers, i requires 0 <= i < s.peers => s.nextIndex[i] - k),
       matchIndex := seq(s.peers, i requires 0 <= i < s.peers => s.matchIndex[i] - k),
       commitIndex := s.commitIndex - k,
       lastApplied := s.lastApplied - k,
       firstOffset := s.firstOffset + k)
  }

  function Truncate(s: Server): Server
    requires s.Shape()
  {
    var n := TruncateTarget(s, s.LastIndex());
    if n < 0 then s else DropPrefix(s, n + 1)
  }

  function CheckCommit(s: Server): Server
    requires s.Shape()
  {
    Truncate(CommitScan(s))
  }

  /** sendAppendEntries once the reply has arrived, up to its call of CheckCommit. */
  function HandleAppendReply(s: Server, server: int, args: AppendEntriesArgs,
      reply: AppendEntriesReply): (r: (Server, bool))
    requires 0 <= server < |s.nextIndex| && 0 <= server < |s.matchIndex|
  {
    if s.state != Leader || args.term != s.currentTerm || reply.term < s.currentTerm then (s, false)
    else if reply.term > s.currentTerm then (StepDown(s, reply.term), false)
    else (UpdateIndices(s, server, args, reply), true)
  }
}
