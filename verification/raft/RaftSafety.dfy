/** The properties of the protocol, stated over runs: any number of servers,
    any sequence of allowed actions, any two moments of one run. */
module RaftSafety {
  import opened RaftState
  import opened RaftHistory
  import opened RaftEvents
  import opened RaftCluster
  import opened RaftInvariant
  import opened RaftSteps
  import opened RaftReplication

  function RunHistory(n: nat, mode: CopyMode, acts: seq<Action>): History
    requires Run(n, mode, acts)
  {
    if acts == [] then EmptyHistory()
    else
      var before := acts[..|acts| - 1];
      Record(RunHistory(n, mode, before), After(n, mode, before), mode, acts[|acts| - 1])
  }

  lemma {:induction false} RunInv(n: nat, mode: CopyMode, acts: seq<Action>)
    requires GoodRun(n, mode, acts)
    ensures Inv(RunHistory(n, mode, acts), After(n, mode, acts))
    ensures |After(n, mode, acts).servers| == n
  {
    if acts == [] {
      InitKeeps(n);
    } else {
      var before := acts[..|acts| - 1];
      RunInv(n, mode, before);
      StepKeeps(RunHistory(n, mode, before), After(n, mode, before), mode, acts[|acts| - 1]);
    }
  }

  /** An initial part of a run is a run. */
  lemma {:induction false} RunPrefix(n: nat, mode: CopyMode, acts: seq<Action>, p: nat)
    requires GoodRun(n, mode, acts) && p <= |acts|
    ensures GoodRun(n, mode, acts[..p])
    decreases |acts|
  {
    if p == |acts| {
      assert acts[..p] == acts;
    } else {
      assert acts[..|acts| - 1][..p] == acts[..p];
      RunPrefix(n, mode, acts[..|acts| - 1], p);
    }
  }

  lemma RecordExtends(h: History, c: Cluster, mode: CopyMode, a: Action)
    requires Inv(h, c) && Enabled(c, a) && Allowed(c, mode, a)
    ensures Extends(h, Record(h, c, mode, a))
  {
    hide Inv, RequestVote, AppendEntries, AppendFits;
    match a
    case Timeout(i) => FreshTerm(h, c, i, c.servers[i].currentTerm + 1);
    case DeliverVoteRequest(t, k, v) => VoteRequestExtends(h, c, mode, t, k, v);
    case BecomeLeader(i) =>
      ServerAt(h, c, i);
      BecomeLeaderFrame(h, c, i);
    case ClientWrite(i, command) => ClientWriteFrame(h, c, i, LogEntry(c.servers[i].currentTerm, command));
    case DeliverAppend(t, k, f) => DeliverExtends(h, c, t, k, f);
    case _ =>
  }

  lemma VoteRequestExtends(h: History, c: Cluster, mode: CopyMode, t: int, k: int, v: int)
    requires Inv(h, c) && Enabled(c, DeliverVoteRequest(t, k, v))
    ensures Extends(h, Record(h, c, mode, DeliverVoteRequest(t, k, v)))
  {
    hide Inv, RequestVote;
    GrantIsNew(h, c, t, k, v);
  }

  /** A vote granted contradicts no vote on record. */
  lemma GrantIsNew(h: History, c: Cluster, t: int, k: int, v: int)
    requires Inv(h, c) && Enabled(c, DeliverVoteRequest(t, k, v))
    ensures RequestVote(c.servers[v], c.voteCalls[(t, k, v)].wire).1.voteGranted && (t, v) in h.votes ==>
            h.votes[(t, v)] == k
  {
    hide Inv, IsLogUpToDate;
    VoteCallAt(h, c, t, k, v);
    ServerAt(h, c, v);
    if t > c.servers[v].currentTerm { FreshTerm(h, c, v, t); }
  }

  lemma DeliverExtends(h: History, c: Cluster, t: int, k: int, f: int)
    requires Inv(h, c) && Enabled(c, DeliverAppend(t, k, f))
    ensures var (s', reply) := AppendEntries(c.servers[f], c.appendCalls[(t, k, f)].args);
            reply.success ==> s'.logs == c.appendCalls[(t, k, f)].sentLog && Extends(h, Ack(h, t, f, |s'.logs|))
  {
    var call, s := c.appendCalls[(t, k, f)], c.servers[f];
    AppendCallAt(h, c, t, k, f);
    ServerAt(h, c, f);
    if AppendEntries(s, call.args).1.success {
      if t > s.currentTerm {
        StepDownKeeps(h, c, f, t);
        AppendAfterStepDown(s, call.args);
        AcceptKeeps(h, SetServer(c, f, StepDown(s, t)), t, k, f);
      } else {
        AcceptKeeps(h, c, t, k, f);
      }
    }
  }

  /** The history of a longer run extends the history of a shorter one. */
  lemma {:induction false} HistoryGrows(n: nat, mode: CopyMode, acts: seq<Action>, p: nat)
    requires GoodRun(n, mode, acts) && p <= |acts|
    ensures GoodRun(n, mode, acts[..p])
    ensures Extends(RunHistory(n, mode, acts[..p]), RunHistory(n, mode, acts))
    decreases |acts|
  {
    RunPrefix(n, mode, acts, p);
    if p == |acts| {
      assert acts[..p] == acts;
    } else {
      var before := acts[..|acts| - 1];
      assert before[..p] == acts[..p];
      HistoryGrows(n, mode, before, p);
      RunInv(n, mode, before);
      RecordExtends(RunHistory(n, mode, before), After(n, mode, before), mode, acts[|acts| - 1]);
      ExtendsTransitive(RunHistory(n, mode, acts[..p]), RunHistory(n, mode, before), RunHistory(n, mode, acts));
    }
  }

  lemma ExtendsTransitive(a: History, b: History, c: History)
    requires Extends(a, b) && Extends(b, c)
    ensures Extends(a, c)
  {
    forall t | t in a.tlog ensures t in c.tlog && a.tlog[t] <= c.tlog[t] {
      assert a.tlog[t] <= b.tlog[t] && b.tlog[t] <= c.tlog[t];
    }
  }

  /** The cluster after the first `p` actions of a run. */
  function At(n: nat, mode: CopyMode, acts: seq<Action>, p: nat): (c: Cluster)
    requires GoodRun(n, mode, acts) && p <= |acts|
    ensures |c.servers| == n
  {
    RunPrefix(n, mode, acts, p);
    RunInv(n, mode, acts[..p]);
    After(n, mode, acts[..p])
  }

  function HistoryAt(n: nat, mode: CopyMode, acts: seq<Action>, p: nat): History
    requires GoodRun(n, mode, acts) && p <= |acts|
  {
    RunPrefix(n, mode, acts, p);
    RunHistory(n, mode, acts[..p])
  }

  lemma InvAt(n: nat, mode: CopyMode, acts: seq<Action>, p: nat)
    requires GoodRun(n, mode, acts) && p <= |acts|
    ensures Inv(HistoryAt(n, mode, acts, p), At(n, mode, acts, p))
  {
    RunPrefix(n, mode, acts, p);
    RunInv(n, mode, acts[..p]);
  }

  /** Two moments of one run, seen from the later history. */
  lemma TwoMoments(n: nat, mode: CopyMode, acts: seq<Action>, p: nat, q: nat)
    requires GoodRun(n, mode, acts) && p <= q <= |acts|
    ensures Inv(HistoryAt(n, mode, acts, p), At(n, mode, acts, p))
    ensures Inv(HistoryAt(n, mode, acts, q), At(n, mode, acts, q))
    ensures Extends(HistoryAt(n, mode, acts, p), HistoryAt(n, mode, acts, q))
  {
    InvAt(n, mode, acts, p);
    InvAt(n, mode, acts, q);
    RunPrefix(n, mode, acts, q);
    HistoryGrows(n, mode, acts[..q], p);
    assert acts[..q][..p] == acts[..p];
  }

  // ---- election safety ----

  predicate HasMajority(s: Server) { s.state == Candidate && s.voteCount >= Majority(s.peers) }

  /** No two servers ever hold a majority of one term's votes, whenever each held it. */
  lemma OneWinnerPerTerm(n: nat, mode: CopyMode, acts: seq<Action>, p: nat, q: nat, a: nat, b: nat)
    requires GoodRun(n, mode, acts) && p <= q <= |acts| && a < n && b < n
    requires HasMajority(At(n, mode, acts, p).servers[a]) && HasMajority(At(n, mode, acts, q).servers[b])
    requires At(n, mode, acts, p).servers[a].currentTerm == At(n, mode, acts, q).servers[b].currentTerm
    ensures a == b
  {
    TwoMoments(n, mode, acts, p, q);
    var h1, c1 := HistoryAt(n, mode, acts, p), At(n, mode, acts, p);
    var h2, c2 := HistoryAt(n, mode, acts, q), At(n, mode, acts, q);
    var t := c2.servers[b].currentTerm;
    ServerAt(h1, c1, a);
    ServerAt(h2, c2, b);
    CountedVoted(h1, c1, t, a);
    CountedVoted(h2, c2, t, b);
    SubsetSize(Voters(h1, n, t, a), Voters(h2, n, t, a));
    OneMajority(h2, n, t, a, b);
  }

  /** At most one leader per term, over the whole run. */
  lemma ElectionSafety(n: nat, mode: CopyMode, acts: seq<Action>, p: nat, q: nat, a: nat, b: nat)
    requires GoodRun(n, mode, acts) && p <= q <= |acts| && a < n && b < n
    requires At(n, mode, acts, p).servers[a].state == Leader && At(n, mode, acts, q).servers[b].state == Leader
    requires At(n, mode, acts, p).servers[a].currentTerm == At(n, mode, acts, q).servers[b].currentTerm
    ensures a == b
  {
    TwoMoments(n, mode, acts, p, q);
    ServerAt(HistoryAt(n, mode, acts, p), At(n, mode, acts, p), a);
    ServerAt(HistoryAt(n, mode, acts, q), At(n, mode, acts, q), b);
  }

  /** Action `p` gives the vote of `v` in term `t` to `k`: on request, or to itself when it times out. */
  predicate Grants(n: nat, mode: CopyMode, acts: seq<Action>, p: nat, t: int, k: int, v: int)
    requires GoodRun(n, mode, acts) && p < |acts|
  {
    var c := At(n, mode, acts, p);
    Enabled(c, acts[p]) &&
    match acts[p]
    case DeliverVoteRequest(t', k', v') =>
      (t', k', v') == (t, k, v) && RequestVote(c.servers[v], c.voteCalls[(t, k, v)].wire).1.voteGranted
    case Timeout(i) => i == k == v && t == c.servers[i].currentTerm + 1
    case _ => false
  }

  lemma GrantRecorded(n: nat, mode: CopyMode, acts: seq<Action>, p: nat, t: int, k: int, v: int)
    requires GoodRun(n, mode, acts) && p < |acts| && Grants(n, mode, acts, p, t, k, v)
    ensures var h := RunHistory(n, mode, acts); (t, v) in h.votes && h.votes[(t, v)] == k
  {
    hide Inv, Enabled, Apply, RequestVote;
    var now := acts[..p + 1];
    HistoryGrows(n, mode, acts, p + 1);
    assert now[..|now| - 1] == acts[..p] && now[|now| - 1] == acts[p];
  }

  /** In one term a server grants its vote to one candidate only. */
  lemma OneVotePerTerm(n: nat, mode: CopyMode, acts: seq<Action>, p: nat, q: nat, t: int, k1: int, k2: int, v: int)
    requires GoodRun(n, mode, acts) && p < |acts| && q < |acts|
    requires Grants(n, mode, acts, p, t, k1, v) && Grants(n, mode, acts, q, t, k2, v)
    ensures k1 == k2
  {
    GrantRecorded(n, mode, acts, p, t, k1, v);
    GrantRecorded(n, mode, acts, q, t, k2, v);
  }

  // ---- log matching ----

  /** If two servers' logs hold the same term at one index, they agree up to there. */
  lemma LogMatching(n: nat, mode: CopyMode, acts: seq<Action>, a: nat, b: nat, i: nat)
    requires GoodRun(n, mode, acts) && a < n && b < n
    requires var c := At(n, mode, acts, |acts|);
             i < |c.servers[a].logs| && i < |c.servers[b].logs|
                 && c.servers[a].logs[i].term == c.servers[b].logs[i].term
    ensures var c := At(n, mode, acts, |acts|); c.servers[a].logs[..i + 1] == c.servers[b].logs[..i + 1]
  {
    hide *;
    InvAt(n, mode, acts, |acts|);
    LogsMatch(HistoryAt(n, mode, acts, |acts|), At(n, mode, acts, |acts|), a, b, i);
  }

  lemma LogsMatch(h: History, c: Cluster, a: nat, b: nat, i: nat)
    requires Inv(h, c) && a < |c.servers| && b < |c.servers|
    requires i < |c.servers[a].logs| && i < |c.servers[b].logs|
             && c.servers[a].logs[i].term == c.servers[b].logs[i].term
    ensures c.servers[a].logs[..i + 1] == c.servers[b].logs[..i + 1]
  {
    var u := SourceLog(h, c, a);
    var w := SourceLog(h, c, b);
    hide *;
    PrefixTo(c.servers[a].logs, h.tlog[u], i);
    PrefixTo(c.servers[b].logs, h.tlog[w], i);
    EntriesOk(h, c);
    TLogsMatch(h, u, w, i);
  }

  lemma EntriesOk(h: History, c: Cluster)
    requires Inv(h, c)
    ensures EntryInv(h)
  {
  }

  /** A server's log is a prefix of some leader's. */
  lemma SourceLog(h: History, c: Cluster, a: nat) returns (u: int)
    requires Inv(h, c) && a < |c.servers| && c.servers[a].logs != []
    ensures u in h.tlog && c.servers[a].logs <= h.tlog[u]
  {
    ServerAt(h, c, a);
    u := LogOfIsPrefix(h, Terms(c), a, c.servers[a].currentTerm + 1);
  }

  lemma PrefixTo(s: seq<LogEntry>, t: seq<LogEntry>, i: nat)
    requires s <= t && i < |s|
    ensures s[..i + 1] == t[..i + 1] && s[i] == t[i]
  {
  }

  /** Where the run of one term starts in a log, and that it has no gap. */
  predicate RunFrom(log: seq<LogEntry>, term: int, start: int) {
    forall i :: 0 <= i < |log| && log[i].term == term ==> start <= i && forall j :: start <= j <= i ==>
      0 <= j && log[j].term == term
  }

  lemma RunInOneLog(h: History, c: Cluster, a: int, term: int, start: nat)
    requires Inv(h, c) && 0 <= a < |c.servers|
    requires start == if term in h.base then h.base[term] else 0
    ensures RunFrom(c.servers[a].logs, term, start)
  {
    ServerAt(h, c, a);
    var log := c.servers[a].logs;
    var u := LogOfIsPrefix(h, Terms(c), a, c.servers[a].currentTerm + 1);
    forall i | 0 <= i < |log| && log[i].term == term
      ensures start <= i && forall j :: start <= j <= i ==> 0 <= j && log[j].term == term
    {
      assert EntryOk(h, u, i);
      forall j | start <= j <= i ensures log[j].term == term {
        TermRun(h, u, i, j);
      }
    }
  }

  /** The entries of one term form one contiguous run, which starts at the same
      index in every server's log. */
  lemma TermRunsAligned(n: nat, mode: CopyMode, acts: seq<Action>, term: int) returns (start: nat)
    requires GoodRun(n, mode, acts)
    ensures forall a :: 0 <= a < |After(n, mode, acts).servers| ==>
            RunFrom(After(n, mode, acts).servers[a].logs, term, start)
  {
    RunInv(n, mode, acts);
    var h, c := RunHistory(n, mode, acts), After(n, mode, acts);
    start := if term in h.base then h.base[term] else 0;
    forall a | 0 <= a < |c.servers| ensures RunFrom(c.servers[a].logs, term, start) {
      RunInOneLog(h, c, a, term, start);
    }
  }

  lemma CallSurvives(c: Cluster, mode: CopyMode, a: Action, t: int, k: int, f: int)
    requires Enabled(c, a) && (t, k, f) in Apply(c, mode, a).appendCalls
    requires !(a == SendAppend(k, f) && c.servers[k].currentTerm == t)
    ensures (t, k, f) in c.appendCalls
    ensures var call, call' := c.appendCalls[(t, k, f)], Apply(c, mode, a).appendCalls[(t, k, f)];
            call'.sentLog == call.sentLog && call'.args == call.args
  {
  }

  /** What a request says of the leader that sends it. */
  predicate Describes(args: AppendEntriesArgs, s: Server, f: int) {
    && 0 <= f < |s.nextIndex| && 0 <= s.nextIndex[f] <= |s.logs|
    && args.term == s.currentTerm && args.leaderId == s.me && args.prevLogIndex == s.nextIndex[f] - 1
    && args.prevLogTerm == (if s.nextIndex[f] == 0 then -1 else s.logs[s.nextIndex[f] - 1].term)
    && args.entries == s.logs[s.nextIndex[f]..]
    && args.leaderCommit == s.commitIndex && args.firstOffset == s.firstOffset
  }

  /** The moment a request in flight was built, and the log it was built from. */
  lemma {:induction false} SentWhen(n: nat, mode: CopyMode, acts: seq<Action>, t: int, k: int, f: int) returns (p: nat)
    requires GoodRun(n, mode, acts) && (t, k, f) in After(n, mode, acts).appendCalls
    ensures p < |acts| && acts[p] == SendAppend(k, f) && 0 <= k < n
    ensures At(n, mode, acts, p).servers[k].currentTerm == t
    ensures At(n, mode, acts, p).servers[k].logs == After(n, mode, acts).appendCalls[(t, k, f)].sentLog
    ensures Describes(After(n, mode, acts).appendCalls[(t, k, f)].args, At(n, mode, acts, p).servers[k], f)
    decreases |acts|
  {
    var before, a := acts[..|acts| - 1], acts[|acts| - 1];
    var c := After(n, mode, before);
    RunInv(n, mode, before);
    if a == SendAppend(k, f) && c.servers[k].currentTerm == t {
      p := |acts| - 1;
    } else {
      CallSurvives(c, mode, a, t, k, f);
      p := SentWhen(n, mode, before, t, k, f);
      assert before[..p] == acts[..p];
    }
  }

  /** What a follower has applied once it has accepted: of the log sent, as much as it or the request counts
      committed. */
  lemma DeliverApplies(h: History, c: Cluster, t: int, k: int, f: int)
    requires Inv(h, c) && Enabled(c, DeliverAppend(t, k, f))
    requires AppendEntries(c.servers[f], c.appendCalls[(t, k, f)].args).1.success
    ensures var s, call := c.servers[f], c.appendCalls[(t, k, f)];
            var n := if call.args.leaderCommit > s.commitIndex then call.args.leaderCommit else s.commitIndex;
            -1 <= n < |call.sentLog| && AppendEntries(s, call.args).0.applied == call.sentLog[..n + 1]
            && -1 <= s.commitIndex && s.applied == call.sentLog[..s.commitIndex + 1]
  {
    var call, s := c.appendCalls[(t, k, f)], c.servers[f];
    AppendCallAt(h, c, t, k, f);
    ServerAt(h, c, f);
    if t > s.currentTerm {
      StepDownKeeps(h, c, f, t);
      AppendAfterStepDown(s, call.args);
      AppliesAtTerm(h, SetServer(c, f, StepDown(s, t)), t, k, f, call.args, call.sentLog);
    } else {
      AppliesAtTerm(h, c, t, k, f, call.args, call.sentLog);
    }
  }

  lemma AppliesAtTerm(h: History, c: Cluster, t: int, k: int, f: int, args: AppendEntriesArgs, sent: seq<LogEntry>)
    requires Inv(h, c) && 0 <= f < |c.servers| && c.servers[f].currentTerm == t
    requires RequestOk(h, |c.servers|, t, k, f, args, sent)
    requires c.servers[f].Shape() && AppendFits(c.servers[f], args) && AppendEntries(c.servers[f], args).1.success
    ensures var s := c.servers[f];
            var n := if args.leaderCommit > s.commitIndex then args.leaderCommit else s.commitIndex;
            && -1 <= n < |sent| && AppendEntries(s, args).0.applied == sent[..n + 1]
            && s.applied == sent[..s.commitIndex + 1]
  {
    hide Inv, AppendEntries, Accepted;
    ServerAt(h, c, f);
    AcceptIsSent(h, c, t, k, f, args, sent);
    AppliedSurvives(h, c, t, k, f, args, sent);
    assert c.servers[f].applied == sent[..c.servers[f].commitIndex + 1];
    AcceptedApplies(c.servers[f], args, sent);
  }

  /** An accepted AppendEntries leaves the follower's log equal to the leader's
      log at the moment `p` the request was built. */
  lemma AcceptedEqualsSent(n: nat, mode: CopyMode, acts: seq<Action>, t: int, k: int, f: int) returns (p: nat)
    requires GoodRun(n, mode, acts) && Enabled(After(n, mode, acts), DeliverAppend(t, k, f))
    requires AppendEntries(After(n, mode, acts).servers[f], After(n, mode, acts).appendCalls[(t, k, f)].args).1.success
    ensures p < |acts| && acts[p] == SendAppend(k, f) && 0 <= k < n
    ensures Apply(After(n, mode, acts), mode, DeliverAppend(t, k, f)).servers[f].logs ==
            At(n, mode, acts, p).servers[k].logs
  {
    RunInv(n, mode, acts);
    DeliverExtends(RunHistory(n, mode, acts), After(n, mode, acts), t, k, f);
    p := SentWhen(n, mode, acts, t, k, f);
  }

  /** And what it has applied equal to what it or the leader had applied then, whichever was more: a follower
      that accepts has caught up with the leader's commits as of the sending. */
  lemma AcceptedCatchesUp(n: nat, mode: CopyMode, acts: seq<Action>, t: int, k: int, f: int) returns (p: nat)
    requires GoodRun(n, mode, acts) && Enabled(After(n, mode, acts), DeliverAppend(t, k, f))
    requires AppendEntries(After(n, mode, acts).servers[f], After(n, mode, acts).appendCalls[(t, k, f)].args).1.success
    ensures p < |acts| && acts[p] == SendAppend(k, f) && 0 <= k < n
    ensures var sent, was := At(n, mode, acts, p).servers[k].applied, After(n, mode, acts).servers[f].applied;
            var now := Apply(After(n, mode, acts), mode, DeliverAppend(t, k, f)).servers[f].applied;
            sent <= now && now == if |sent| > |was| then sent else was
  {
    RunInv(n, mode, acts);
    var h, c := RunHistory(n, mode, acts), After(n, mode, acts);
    hide *;
    p := SentWhen(n, mode, acts, t, k, f);
    DeliverApplies(h, c, t, k, f);
    LeaderApplied(n, mode, acts, p, k);
    DescribesCommit(c.appendCalls[(t, k, f)].args, At(n, mode, acts, p).servers[k], f);
    DeliveredServer(c, mode, t, k, f);
  }

  lemma LeaderApplied(n: nat, mode: CopyMode, acts: seq<Action>, p: nat, k: nat)
    requires GoodRun(n, mode, acts) && p <= |acts| && k < n
    ensures var s := At(n, mode, acts, p).servers[k];
            -1 <= s.commitIndex < |s.logs| && s.applied == s.logs[..s.commitIndex + 1]
  {
    InvAt(n, mode, acts, p);
    ServerAt(HistoryAt(n, mode, acts, p), At(n, mode, acts, p), k);
  }

  lemma DescribesCommit(args: AppendEntriesArgs, s: Server, f: int)
    requires Describes(args, s, f)
    ensures args.leaderCommit == s.commitIndex
  {
  }

  lemma DeliveredServer(c: Cluster, mode: CopyMode, t: int, k: int, f: int)
    requires Enabled(c, DeliverAppend(t, k, f))
    ensures 0 <= f < |c.servers| && (t, k, f) in c.appendCalls
    ensures Apply(c, mode, DeliverAppend(t, k, f)).servers[f] ==
            AppendEntries(c.servers[f], c.appendCalls[(t, k, f)].args).0
  {
  }

  // ---- back-off ----

  /** The last action of `acts` handles a rejection (or an acceptance) of `f` by leader `k` of term `t`. */
  predicate Handles(n: nat, mode: CopyMode, acts: seq<Action>, t: int, k: int, f: int, success: bool)
    requires GoodRun(n, mode, acts) && acts != []
  {
    var c := After(n, mode, acts[..|acts| - 1]);
    && acts[|acts| - 1] == DeliverAppendReply(t, k, f)
    && c.servers[k].state == Leader && c.servers[k].currentTerm == t
    && c.appendCalls[(t, k, f)].reply.term == t && c.appendCalls[(t, k, f)].reply.success == success
  }

  function Rejections(n: nat, mode: CopyMode, acts: seq<Action>, p: nat, t: int, k: int, f: int): nat
    requires GoodRun(n, mode, acts) && p <= |acts|
    decreases |acts|
  {
    if |acts| == p then 0
    else Rejections(n, mode, acts[..|acts| - 1], p, t, k, f) + (if Handles(n, mode, acts, t, k, f, false) then 1 else 0)
  }

  /** From moment `p` on, `k` has led term `t` and has handled no acceptance from `f`. */
  predicate OnlyRejections(n: nat, mode: CopyMode, acts: seq<Action>, p: nat, t: int, k: int, f: int)
    requires GoodRun(n, mode, acts) && p <= |acts|
    decreases |acts|
  {
    && (var c := After(n, mode, acts);
        0 <= k < |c.servers| && 0 <= f < |c.servers[k].nextIndex| && f != k
        && c.servers[k].state == Leader && c.servers[k].currentTerm == t)
    && (|acts| > p ==>
          OnlyRejections(n, mode, acts[..|acts| - 1], p, t, k, f) && !Handles(n, mode, acts, t, k, f, true))
  }

  lemma AppendKeepsIndices(s: Server, args: AppendEntriesArgs)
    requires s.Shape() && AppendFits(s, args)
    ensures AppendEntries(s, args).0.nextIndex == s.nextIndex
  {
  }

  /** Only a reply from `f` in this term moves a leader's nextIndex for `f`. */
  lemma OthersKeepIndex(c: Cluster, mode: CopyMode, a: Action, k: int, f: int)
    requires Enabled(c, a) && 0 <= k < |c.servers| && 0 <= f < |c.servers[k].nextIndex|
    requires c.servers[k].state == Leader && !a.DeliverAppendReply?
    ensures Apply(c, mode, a).servers[k].nextIndex == c.servers[k].nextIndex
  {
    match a
    case DeliverAppend(t, l, g) => AppendKeepsIndices(c.servers[g], c.appendCalls[(t, l, g)].args);
    case _ =>
  }

  lemma ReplyKeepsIndex(c: Cluster, mode: CopyMode, t: int, l: int, g: int, k: int, f: int)
    requires Enabled(c, DeliverAppendReply(t, l, g)) && 0 <= k < |c.servers| && 0 <= f < |c.servers[k].nextIndex|
    requires l != k || g != f || c.servers[k].currentTerm != c.appendCalls[(t, l, g)].args.term
             || c.appendCalls[(t, l, g)].reply.term != c.servers[k].currentTerm
    ensures f < |Apply(c, mode, DeliverAppendReply(t, l, g)).servers[k].nextIndex|
    ensures Apply(c, mode, DeliverAppendReply(t, l, g)).servers[k].nextIndex[f] == c.servers[k].nextIndex[f]
  {
  }

  lemma RejectionMoves(h: History, c: Cluster, mode: CopyMode, t: int, k: int, f: int)
    requires Inv(h, c) && Enabled(c, DeliverAppendReply(t, k, f))
    requires c.servers[k].state == Leader && c.servers[k].currentTerm == t
    requires c.appendCalls[(t, k, f)].reply.term == t && !c.appendCalls[(t, k, f)].reply.success
    ensures f < |Apply(c, mode, DeliverAppendReply(t, k, f)).servers[k].nextIndex|
    ensures 0 <= Apply(c, mode, DeliverAppendReply(t, k, f)).servers[k].nextIndex[f] < c.servers[k].nextIndex[f]
  {
    AppendCallAt(h, c, t, k, f);
    RejectionLowers(h, c, t, k, f);
  }

  /** Leader `k`'s nextIndex for `f`. */
  function IndexOf(c: Cluster, k: int, f: int): int {
    if 0 <= k < |c.servers| && 0 <= f < |c.servers[k].nextIndex| then c.servers[k].nextIndex[f] else 0
  }

  lemma StepMovesIndex(n: nat, mode: CopyMode, acts: seq<Action>, t: int, k: int, f: int)
    requires GoodRun(n, mode, acts) && acts != []
    requires OnlyRejections(n, mode, acts, |acts| - 1, t, k, f)
    ensures var next, next' := IndexOf(After(n, mode, acts[..|acts| - 1]), k, f), IndexOf(After(n, mode, acts), k, f);
            if Handles(n, mode, acts, t, k, f, false) then 0 <= next' < next else next' == next
  {
    hide Inv;
    var before, a := acts[..|acts| - 1], acts[|acts| - 1];
    RunInv(n, mode, before);
    var h, c := RunHistory(n, mode, before), After(n, mode, before);
    if Handles(n, mode, acts, t, k, f, false) {
      RejectionMoves(h, c, mode, t, k, f);
    } else if a.DeliverAppendReply? {
      AppendCallAt(h, c, a.t, a.c, a.f);
      ReplyKeepsIndex(c, mode, a.t, a.c, a.f, k, f);
    } else {
      OthersKeepIndex(c, mode, a, k, f);
    }
  }

  /** While one leader leads, a follower's rejections are at most as many as
      nextIndex was high: so many precede an acceptance at most. */
  lemma {:induction false} BackOffTerminates(n: nat, mode: CopyMode, acts: seq<Action>, p: nat, t: int, k: int, f: int)
    requires GoodRun(n, mode, acts) && p <= |acts| && OnlyRejections(n, mode, acts, p, t, k, f)
    ensures 0 <= k < n && 0 <= f < |At(n, mode, acts, p).servers[k].nextIndex|
    ensures var next0 := At(n, mode, acts, p).servers[k].nextIndex[f];
            var next := After(n, mode, acts).servers[k].nextIndex[f];
            0 <= next && Rejections(n, mode, acts, p, t, k, f) + next <= next0
    decreases |acts|
  {
    if |acts| == p {
      assert acts[..p] == acts;
      RunInv(n, mode, acts);
      ServerAt(RunHistory(n, mode, acts), After(n, mode, acts), k);
      assert IndexOk(RunHistory(n, mode, acts), After(n, mode, acts).servers[k], f);
    } else {
      var before := acts[..|acts| - 1];
      assert before[..p] == acts[..p];
      BackOffTerminates(n, mode, before, p, t, k, f);
      OnlyLast(n, mode, acts, p, t, k, f);
      StepMovesIndex(n, mode, acts, t, k, f);
    }
  }

  lemma OnlyLast(n: nat, mode: CopyMode, acts: seq<Action>, p: nat, t: int, k: int, f: int)
    requires GoodRun(n, mode, acts) && p < |acts| && OnlyRejections(n, mode, acts, p, t, k, f)
    ensures OnlyRejections(n, mode, acts, |acts| - 1, t, k, f)
  {
    var before := acts[..|acts| - 1];
    assert OnlyRejections(n, mode, before, p, t, k, f);
    assert OnlyRejections(n, mode, before, |before|, t, k, f);
  }

  /** And a request from the very start of the log is never rejected for its position. */
  lemma StartIsAccepted(s: Server, args: AppendEntriesArgs)
    requires s.Shape() && AppendFits(s, args) && args.term >= s.currentTerm
    requires args.prevLogIndex == -1 && args.prevLogTerm == -1
    ensures AppendEntries(s, args).1.success
  {
  }

  // ---- state machine safety ----

  /** Any two servers' applied sequences, at any two moments, are prefixes of one another. */
  lemma StateMachineSafety(n: nat, mode: CopyMode, acts: seq<Action>, p: nat, q: nat, a: nat, b: nat)
    requires GoodRun(n, mode, acts) && p <= q <= |acts| && a < n && b < n
    ensures var x, y := At(n, mode, acts, p).servers[a].applied, At(n, mode, acts, q).servers[b].applied;
            x <= y || y <= x
  {
    TwoMoments(n, mode, acts, p, q);
    var h1, c1 := HistoryAt(n, mode, acts, p), At(n, mode, acts, p);
    var h2, c2 := HistoryAt(n, mode, acts, q), At(n, mode, acts, q);
    ServerAt(h1, c1, a);
    ServerAt(h2, c2, b);
    var b1, b2 := CommitBound(h1, a, c1.servers[a].currentTerm), CommitBound(h2, b, c2.servers[b].currentTerm);
    CommittedPrefixStable(h1, h2, n, b1, b1, c1.servers[a].applied);
    CommittedPrefixesComparable(h2, Terms(c2), b1, c1.servers[a].applied, b2, c2.servers[b].applied);
  }

  /** What a server has applied is in the log of every leader of a later term. */
  lemma LeadersKeepApplied(n: nat, mode: CopyMode, acts: seq<Action>, p: nat, q: nat, a: nat, b: nat)
    requires GoodRun(n, mode, acts) && p <= q <= |acts| && a < n && b < n
    requires At(n, mode, acts, q).servers[b].state == Leader
    requires At(n, mode, acts, p).servers[a].currentTerm < At(n, mode, acts, q).servers[b].currentTerm
    ensures At(n, mode, acts, p).servers[a].applied <= At(n, mode, acts, q).servers[b].logs
  {
    TwoMoments(n, mode, acts, p, q);
    var h1, c1 := HistoryAt(n, mode, acts, p), At(n, mode, acts, p);
    var h2, c2 := HistoryAt(n, mode, acts, q), At(n, mode, acts, q);
    ServerAt(h1, c1, a);
    LeaderLog(h2, c2, b);
    var b1 := CommitBound(h1, a, c1.servers[a].currentTerm);
    CommittedPrefixStable(h1, h2, n, b1, b1, c1.servers[a].applied);
    CommittedInLater(h2, Terms(c2), b1, c1.servers[a].applied, c2.servers[b].currentTerm);
  }

  /** What an action needs of the indices it uses. */
  predicate IndexFits(c: Cluster, i: int, f: int) {
    IsServer(c, i) && (c.servers[i].state == Leader && 0 <= f < |c.servers| && f != i ==>
                         0 <= c.servers[i].nextIndex[f] <= |c.servers[i].logs|)
  }

  predicate CallFits(c: Cluster, t: int, k: int, f: int)
    requires (t, k, f) in c.appendCalls
  {
    IsServer(c, f) && AppendFits(c.servers[f], c.appendCalls[(t, k, f)].args)
  }

  /** The checks of Enabled that only keep indices in range never hold an action back. */
  lemma IndicesInRange(n: nat, mode: CopyMode, acts: seq<Action>)
    requires GoodRun(n, mode, acts)
    ensures var c := After(n, mode, acts);
            && |c.servers| == n
            && (forall i, f :: 0 <= i < n ==> IndexFits(c, i, f))
            && (forall t, k, f :: (t, k, f) in c.appendCalls ==> CallFits(c, t, k, f))
  {
    RunInv(n, mode, acts);
    var h, c := RunHistory(n, mode, acts), After(n, mode, acts);
    forall i, f | 0 <= i < n ensures IndexFits(c, i, f) {
      ServerAt(h, c, i);
      if c.servers[i].state == Leader && 0 <= f < n && f != i {
        assert IndexOk(h, c.servers[i], f);
      }
    }
    forall t, k, f | (t, k, f) in c.appendCalls ensures CallFits(c, t, k, f) {
      AppendCallAt(h, c, t, k, f);
      ServerAt(h, c, f);
    }
  }
}
