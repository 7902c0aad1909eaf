/** A cluster of Raft servers and the calls in flight between them. One action
    is one handler, or the part of an RPC that runs when its reply arrives. */
module RaftCluster {
  import opened RaftState

  /** `AsWritten` sends what the copy constructor of requestVoteArgs makes of
      the arguments; `Faithful` sends the arguments themselves. */
  datatype CopyMode = AsWritten | Faithful

  datatype VoteCall =
    | VoteRequest(sent: RequestVoteArgs, wire: RequestVoteArgs)
    | VoteAnswer(sent: RequestVoteArgs, wire: RequestVoteArgs, reply: RequestVoteReply)

  /** `sentLog` is the leader's log when the request was built; no handler reads it. */
  datatype AppendCall =
    | AppendRequest(args: AppendEntriesArgs, sentLog: seq<LogEntry>)
    | AppendAnswer(args: AppendEntriesArgs, sentLog: seq<LogEntry>, reply: AppendEntriesReply)

  /** `due` holds the candidates whose detached broadcast thread has not run yet.
      Calls are keyed by (term, caller, callee): an RPC is delivered at most
      once, and a leader has one AppendEntries call per follower in flight. */
  datatype Cluster = Cluster(
    servers: seq<Server>,
    due: set<int>,
    voteCalls: map<(int, int, int), VoteCall>,
    appendCalls: map<(int, int, int), AppendCall>)

  datatype Action =
    | Timeout(i: int)
    | Broadcast(i: int)
    | DeliverVoteRequest(t: int, c: int, v: int)
    | DeliverVoteReply(t: int, c: int, v: int)
    | BecomeLeader(i: int)
    | ClientWrite(i: int, command: Command)
    | SendAppend(i: int, f: int)
    | DeliverAppend(t: int, c: int, f: int)
    | DeliverAppendReply(t: int, c: int, f: int)
    | Drop(t: int, c: int, f: int)
    | Commit(i: int)

  function Init(n: nat): Cluster {
    Cluster(seq(n, i => InitServer(i, n)), {}, map[], map[])
  }

  predicate IsServer(c: Cluster, i: int) {
    0 <= i < |c.servers| && c.servers[i].Shape() && c.servers[i].peers == |c.servers|
  }

  predicate Enabled(c: Cluster, a: Action) {
    match a
    case Timeout(i) => IsServer(c, i) && c.servers[i].state != Leader
    case Broadcast(i) => IsServer(c, i) && i in c.due && c.servers[i].state == Candidate
    case DeliverVoteRequest(t, k, v) => IsServer(c, v) && (t, k, v) in c.voteCalls
        && c.voteCalls[(t, k, v)].VoteRequest?
    case DeliverVoteReply(t, k, v) => IsServer(c, k) && (t, k, v) in c.voteCalls && c.voteCalls[(t, k, v)].VoteAnswer?
    case BecomeLeader(i) => IsServer(c, i) && c.servers[i].state == Candidate && c.servers[i].winElection
    case ClientWrite(i, _) => IsServer(c, i) && c.servers[i].state != Follower
    case SendAppend(i, f) =>
      && IsServer(c, i) && IsServer(c, f) && i != f && c.servers[i].state == Leader
      && 0 <= c.servers[i].nextIndex[f] <= |c.servers[i].logs|
      && (c.servers[i].currentTerm, i, f) !in c.appendCalls
    case DeliverAppend(t, k, f) =>
      && IsServer(c, f) && (t, k, f) in c.appendCalls && c.appendCalls[(t, k, f)].AppendRequest?
      && AppendFits(c.servers[f], c.appendCalls[(t, k, f)].args)
    case DeliverAppendReply(t, k, f) =>
      IsServer(c, k) && IsServer(c, f) && (t, k, f) in c.appendCalls && c.appendCalls[(t, k, f)].AppendAnswer?
    case Drop(t, k, f) => (t, k, f) in c.appendCalls
    case Commit(i) => IsServer(c, i) && c.servers[i].state == Leader
  }

  function Wire(mode: CopyMode, args: RequestVoteArgs): RequestVoteArgs {
    if mode == AsWritten then CopyVoteArgs(args) else args
  }

  function SendVotes(c: Cluster, mode: CopyMode, i: int): map<(int, int, int), VoteCall>
    requires 0 <= i < |c.servers|
  {
    var args := VoteArgs(c.servers[i]);
    c.voteCalls + map v | 0 <= v < |c.servers| && v != i ::
      (args.term, i, v) := VoteRequest(args, Wire(mode, args))
  }

  function Apply(c: Cluster, mode: CopyMode, a: Action): Cluster
    requires Enabled(c, a)
  {
    match a
    case Timeout(i) =>
      c.(servers := c.servers[i := ConvertToCandidate(c.servers[i], c.servers[i].state)], due := c.due + {i})
    case Broadcast(i) =>
      c.(servers := c.servers[i := SelfCheck(c.servers[i])], due := c.due - {i}, voteCalls := SendVotes(c, mode, i))
    case DeliverVoteRequest(t, k, v) =>
      var call := c.voteCalls[(t, k, v)];
      var (s, reply) := RequestVote(c.servers[v], call.wire);
      c.(servers := c.servers[v := s], voteCalls := c.voteCalls[(t, k, v) := VoteAnswer(call.sent, call.wire, reply)])
    case DeliverVoteReply(t, k, v) =>
      var call := c.voteCalls[(t, k, v)];
      c.(servers := c.servers[k := HandleVoteReply(c.servers[k], call.wire, call.reply)],
         voteCalls := c.voteCalls - {(t, k, v)})
    case BecomeLeader(i) =>
      c.(servers := c.servers[i := ConvertToLeader(c.servers[i])])
    case ClientWrite(i, command) =>
      c.(servers := c.servers[i := AddLog(c.servers[i], command)])
    case SendAppend(i, f) =>
      c.(appendCalls := c.appendCalls[(c.servers[i].currentTerm, i, f) :=
                                      AppendRequest(AppendArgs(c.servers[i], f), c.servers[i].logs)])
    case DeliverAppend(t, k, f) =>
      var call := c.appendCalls[(t, k, f)];
      var (s, reply) := AppendEntries(c.servers[f], call.args);
      c.(servers := c.servers[f := s],
          appendCalls := c.appendCalls[(t, k, f) := AppendAnswer(call.args, call.sentLog, reply)])
    case DeliverAppendReply(t, k, f) =>
      var call := c.appendCalls[(t, k, f)];
      var (s, handled) := HandleAppendReply(c.servers[k], f, call.args, call.reply);
      c.(servers := c.servers[k := if handled then CommitScan(s) else s],
         appendCalls := c.appendCalls - {(t, k, f)})
    case Drop(t, k, f) =>
      c.(appendCalls := c.appendCalls - {(t, k, f)})
    case Commit(i) =>
      c.(servers := c.servers[i := CommitScan(c.servers[i])])
  }

  /** What the code itself does not make sure of, checked before an action:
      a candidate takes office on this candidacy's own majority (winElection is
      never cleared), only a Leader takes client writes, and a vote request is
      sent only when its copy asks for no more than the request itself would. */
  predicate Allowed(c: Cluster, mode: CopyMode, a: Action)
    requires Enabled(c, a)
  {
    match a
    case BecomeLeader(i) => c.servers[i].voteCount >= Majority(c.servers[i].peers)
    case ClientWrite(i, _) => c.servers[i].state == Leader
    case Broadcast(i) => mode == Faithful || c.servers[i].LastIndex() <= c.servers[i].LastTerm()
    case _ => true
  }

  // ---- runs ----

  predicate Run(n: nat, mode: CopyMode, acts: seq<Action>)
    decreases |acts|, 0
  {
    acts == [] ||
    (var before := acts[..|acts| - 1];
     Run(n, mode, before) && Enabled(After(n, mode, before), acts[|acts| - 1]))
  }

  /** The cluster after a run. */
  function After(n: nat, mode: CopyMode, acts: seq<Action>): Cluster
    requires Run(n, mode, acts)
    decreases |acts|, 1
  {
    if acts == [] then Init(n)
    else
      Apply(After(n, mode, acts[..|acts| - 1]), mode, acts[|acts| - 1])
  }

  /** A run in which every action met the conditions of Allowed. */
  predicate GoodRun(n: nat, mode: CopyMode, acts: seq<Action>) {
    Run(n, mode, acts) &&
    (acts == [] ||
     (var before := acts[..|acts| - 1];
      GoodRun(n, mode, before) && Allowed(After(n, mode, before), mode, acts[|acts| - 1])))
  }
}
