/** Log compaction at one server: what ApplyQueue has received is the log by
    absolute position, whatever prefix of it has been dropped. */
module RaftCompaction {
  import opened RaftState

  /** `full` is the log by absolute position, dropped entries included. */
  ghost predicate Conserved(s: Server, full: seq<LogEntry>) {
    && s.Shape() && 0 <= s.firstOffset
    && |full| == s.firstOffset + |s.logs| && full[s.firstOffset..] == s.logs
    && s.applied == full[..s.firstOffset + s.lastApplied + 1]
  }

  datatype LocalAction =
    | Write(command: Command)
    | Check
    | Reply(server: int, args: AppendEntriesArgs, reply: AppendEntriesReply)
    | Receive(args: AppendEntriesArgs)

  predicate CanDo(s: Server, a: LocalAction) {
    s.Shape() &&
    match a
    case Write(_) => true
    case Check => true
    case Reply(server, _, _) => 0 <= server < s.peers
    case Receive(args) => AppendFits(s, args)
  }

  function Do(s: Server, a: LocalAction): Server
    requires CanDo(s, a)
  {
    match a
    case Write(command) => AddLog(s, command)
    case Check => CheckCommit(s)
    case Reply(server, args, reply) =>
      var (s', handled) := HandleAppendReply(s, server, args, reply);
      if handled then CheckCommit(s') else s'
    case Receive(args) => AppendEntries(s, args).0
  }

  /** The server on which the compaction loop of an action runs. */
  function Scanned(s: Server, a: LocalAction): Server
    requires CanDo(s, a)
  {
    match a
    case Check => CommitScan(s)
    case Reply(server, args, reply) =>
      var (s', handled) := HandleAppendReply(s, server, args, reply);
      if handled then CommitScan(s') else s'
    case _ => s
  }

  function DropsUpTo(s: Server): int
    requires s.Shape()
  {
    TruncateTarget(s, s.LastIndex())
  }

  /** Compaction drops only what has been applied, and a leader's request does
      not rewrite it. */
  predicate Careful(s: Server, a: LocalAction)
    requires CanDo(s, a)
  {
    match a
    case Write(_) => true
    case Check => DropsUpTo(Scanned(s, a)) <= Scanned(s, a).lastApplied
    case Reply(server, args, reply) =>
      HandleAppendReply(s, server, args, reply).1 ==> DropsUpTo(Scanned(s, a)) <= Scanned(s, a).lastApplied
    case Receive(args) =>
      var s0, s' := SkipCompacted(s, args.firstOffset), Do(s, a);
      && s0.firstOffset - s.firstOffset <= s.lastApplied + 1
      && s0.commitIndex < |s'.logs| && s'.logs[..s0.lastApplied + 1] == s0.logs[..s0.lastApplied + 1]
  }

  /** The absolute log after an action. */
  function FullAfter(s: Server, full: seq<LogEntry>, a: LocalAction): seq<LogEntry>
    requires CanDo(s, a)
  {
    match a
    case Write(command) => full + [LogEntry(s.currentTerm, command)]
    case Receive(_) =>
      var s' := Do(s, a);
      (if 0 <= s'.firstOffset <= |full| then full[..s'.firstOffset] else full) + s'.logs
    case _ => full
  }

  // ---- truncation ----

  predicate SamePosition(s: Server, s': Server, i: int)
    requires 0 <= i < |s.nextIndex| == |s'.nextIndex| == |s.matchIndex| == |s'.matchIndex|
  {
    && s'.firstOffset + s'.nextIndex[i] == s.firstOffset + s.nextIndex[i]
    && s'.firstOffset + s'.matchIndex[i] == s.firstOffset + s.matchIndex[i]
  }

  /** No absolute position moves when a prefix is dropped. */
  lemma TruncateKeepsPositions(s: Server)
    requires s.Shape()
    ensures var s' := Truncate(s);
            && s'.firstOffset + s'.commitIndex == s.firstOffset + s.commitIndex
            && s'.firstOffset + s'.lastApplied == s.firstOffset + s.lastApplied
            && s'.firstOffset + |s'.logs| == s.firstOffset + |s.logs| && s'.applied == s.applied
            && |s'.nextIndex| == |s'.matchIndex| == s.peers && forall i :: 0 <= i < s.peers ==> SamePosition(s, s', i)
  {
    hide TruncateTarget, SamePosition, DropPrefix;
    var n := TruncateTarget(s, s.LastIndex());
    if n >= 0 {
      DropKeepsPositions(s, n + 1);
    } else {
      Unmoved(s);
    }
  }

  lemma Unmoved(s: Server)
    requires s.Shape()
    ensures |s.nextIndex| == |s.matchIndex| == s.peers && forall i :: 0 <= i < s.peers ==> SamePosition(s, s, i)
  {
  }

  lemma DropKeepsPositions(s: Server, k: nat)
    requires s.Shape() && k <= |s.logs|
    ensures var s' := DropPrefix(s, k);
            && s'.firstOffset + s'.commitIndex == s.firstOffset + s.commitIndex
            && s'.firstOffset + s'.lastApplied == s.firstOffset + s.lastApplied
            && s'.firstOffset + |s'.logs| == s.firstOffset + |s.logs| && s'.applied == s.applied
            && |s'.nextIndex| == |s'.matchIndex| == s.peers && forall i :: 0 <= i < s.peers ==> SamePosition(s, s', i)
  {
  }

  /** Truncation conserves the apply stream exactly when it drops applied entries only. */
  lemma TruncateConservesIff(s: Server, full: seq<LogEntry>)
    requires Conserved(s, full)
    ensures Conserved(Truncate(s), full) <==> DropsUpTo(s) <= s.lastApplied
  {
    var n := DropsUpTo(s);
    if 0 <= n <= s.lastApplied {
      var s' := Truncate(s);
      assert s'.logs == s.logs[n + 1..] == full[s.firstOffset..][n + 1..] == full[s'.firstOffset..];
    }
  }

  /** Otherwise an entry is lost: neither applied nor any longer in the log. */
  lemma TruncateLoses(s: Server, full: seq<LogEntry>)
    requires Conserved(s, full) && DropsUpTo(s) > s.lastApplied
    ensures var s' := Truncate(s); |s'.applied| < |full| - |s'.logs|
  {
  }

  /** The code drops applied entries only, if the last entry every peer has is
      of the leader's own term: the scan just before has then committed it. */
  lemma {:induction false} OwnTermIsApplied(s: Server)
    requires s.Shape() && s.state == Leader && s.lastApplied == s.commitIndex
    requires DropsUpTo(CommitScan(s)) >= 0
    requires s.logs[DropsUpTo(CommitScan(s))].term == s.currentTerm
    ensures DropsUpTo(CommitScan(s)) <= CommitScan(s).lastApplied
  {
    var n := DropsUpTo(CommitScan(s));
    AllMatchedCounts(s.matchIndex, s.me, n, s.peers);
    TargetIsLargest(s, n, s.LastIndex());
  }

  lemma {:induction false} AllMatchedCounts(matchIndex: seq<int>, me: int, n: int, upto: nat)
    requires upto <= |matchIndex|
    requires forall i :: 0 <= i < upto && i != me ==> matchIndex[i] >= n
    ensures MatchCount(matchIndex, me, n, upto) == (if 0 <= me < upto then upto - 1 else upto)
    decreases upto
  {
    if upto > 0 {
      AllMatchedCounts(matchIndex, me, n, upto - 1);
    }
  }

  /** CheckCommit's scan stops at the largest index with a majority. */
  lemma {:induction false} TargetIsLargest(s: Server, n: int, upto: int)
    requires s.Shape() && 0 <= n <= upto < |s.logs| && CommitVotes(s, n) > s.peers / 2
    ensures CommitTarget(s, upto) >= n
    decreases upto
  {
    if upto > s.commitIndex && CommitVotes(s, upto) <= s.peers / 2 {
      TargetIsLargest(s, n, upto - 1);
    }
  }

  /** And its second loop at the largest index every peer has. */
  lemma {:induction false} TruncateIsLargest(s: Server, n: int, upto: int)
    requires s.Shape() && 0 <= n <= upto < |s.logs| && AllMatched(s, n)
    ensures TruncateTarget(s, upto) >= n
    decreases upto
  {
    if !AllMatched(s, upto) {
      TruncateIsLargest(s, n, upto - 1);
    }
  }

  /** A new leader takes every peer to have its whole log, and drops it: the
      stream is conserved exactly if it has applied all of it. */
  lemma FreshLeaderConservesIff(s: Server, full: seq<LogEntry>)
    requires Conserved(s, full) && s.state == Candidate && s.peers >= 2
    requires forall i {:trigger s.logs[i]} :: 0 <= i < |s.logs| ==> s.logs[i].term != s.currentTerm
    ensures Conserved(CheckCommit(ConvertToLeader(s)), full) <==> s.lastApplied == s.LastIndex()
  {
    var l := ConvertToLeader(s);
    NothingNewCommits(l, l.LastIndex());
    DropsAll(l);
    TruncateConservesIff(l, full);
  }

  lemma {:induction false} NothingNewCommits(s: Server, upto: int)
    requires s.Shape() && s.peers >= 2 && upto < |s.logs|
    requires forall i {:trigger s.logs[i]} :: 0 <= i < |s.logs| ==> s.logs[i].term != s.currentTerm
    ensures CommitTarget(s, upto) == s.commitIndex
    decreases upto + 1
  {
    if upto > s.commitIndex { NothingNewCommits(s, upto - 1); }
  }

  lemma DropsAll(s: Server)
    requires s.Shape() && AllMatched(s, s.LastIndex())
    ensures DropsUpTo(s) == s.LastIndex()
  {
  }

  // ---- runs of one server ----

  lemma ScanConserves(s: Server, full: seq<LogEntry>)
    requires Conserved(s, full)
    ensures Conserved(CommitScan(s), full)
  {
    var s', k := CommitScan(s), s.firstOffset;
    if s'.lastApplied > s.lastApplied {
      assert s.logs[s.lastApplied + 1..s'.lastApplied + 1] == full[k + s.lastApplied + 1..k + s'.lastApplied + 1];
      assert full[..k + s.lastApplied + 1] + full[k + s.lastApplied + 1..k + s'.lastApplied + 1] ==
             full[..k + s'.lastApplied + 1];
    }
  }

  /** Replacing the suffix of the absolute log that the server still holds. */
  lemma Rebase(full: seq<LogEntry>, k: nat, logs: seq<LogEntry>, logs': seq<LogEntry>, a: nat, b: nat)
    requires k <= |full| && full[k..] == logs && a <= |logs| && a <= b <= |logs'| && logs'[..a] == logs[..a]
    ensures var full' := full[..k] + logs';
            full'[k..] == logs' && full[..k + a] + logs'[a..b] == full'[..k + b]
  {
    var full' := full[..k] + logs';
    assert full[..k + a] == full[..k] + full[k..][..a] == full[..k] + logs'[..a] == full'[..k + a];
    assert logs'[a..b] == full'[k + a..k + b];
  }

  lemma ContinuesConserves(s0: Server, s': Server, full: seq<LogEntry>)
    requires Conserved(s0, full) && Continues(s0, s')
    requires s0.lastApplied < |s'.logs| && s'.logs[..s0.lastApplied + 1] == s0.logs[..s0.lastApplied + 1]
    ensures Conserved(s', full[..s0.firstOffset] + s'.logs) && s0.applied <= s'.applied
  {
    Rebase(full, s0.firstOffset, s0.logs, s'.logs, s0.lastApplied + 1, s'.lastApplied + 1);
  }

  lemma ReceiveConserves(s: Server, full: seq<LogEntry>, args: AppendEntriesArgs)
    requires Conserved(s, full) && CanDo(s, Receive(args)) && Careful(s, Receive(args))
    ensures Conserved(Do(s, Receive(args)), FullAfter(s, full, Receive(args)))
    ensures s.applied <= Do(s, Receive(args)).applied
  {
    var s0, s' := SkipCompacted(s, args.firstOffset), Do(s, Receive(args));
    SkipConserves(s, full, args.firstOffset);
    AppliedOnReceive(s, args);
    ContinuesConserves(s0, s', full);
    assert FullAfter(s, full, Receive(args)) == full[..s0.firstOffset] + s'.logs;
  }

  lemma SkipConserves(s: Server, full: seq<LogEntry>, offset: int)
    requires Conserved(s, full)
    requires SkipCompacted(s, offset).firstOffset - s.firstOffset <= s.lastApplied + 1
    ensures Conserved(SkipCompacted(s, offset), full)
  {
    var s0 := SkipCompacted(s, offset);
    if s0 != s {
      assert full[s.firstOffset..][offset - s.firstOffset..] == full[offset..];
    }
  }

  /** What AppendEntries enqueues comes from the log it leaves. */
  lemma AppliedOnReceive(s: Server, args: AppendEntriesArgs)
    requires CanDo(s, Receive(args)) && Careful(s, Receive(args))
    ensures Continues(SkipCompacted(s, args.firstOffset), Do(s, Receive(args)))
  {
    var s0 := SkipCompacted(s, args.firstOffset);
    if args.term >= s0.currentTerm {
      CheckedContinues(if args.term > s0.currentTerm then StepDown(s0, args.term) else s0, args);
    }
  }

  predicate Continues(s0: Server, s': Server) {
    && s'.Shape() && s'.firstOffset == s0.firstOffset && -1 <= s0.lastApplied <= s'.lastApplied
    && s'.applied == s0.applied + s'.logs[s0.lastApplied + 1..s'.lastApplied + 1]
  }

  lemma CheckedContinues(s1: Server, args: AppendEntriesArgs)
    requires s1.Shape() && -1 <= args.prevLogIndex && MergeFits(s1, args)
    requires s1.commitIndex < |AppendChecked(s1, args).0.logs|
    ensures Continues(s1, AppendChecked(s1, args).0)
  {
  }

  lemma CheckConserves(s: Server, full: seq<LogEntry>)
    requires Conserved(s, full) && DropsUpTo(CommitScan(s)) <= CommitScan(s).lastApplied
    ensures Conserved(CheckCommit(s), full) && s.applied <= CheckCommit(s).applied
  {
    ScanConserves(s, full);
    TruncateConservesIff(CommitScan(s), full);
    TruncateKeepsPositions(CommitScan(s));
  }

  lemma ReplyConserves(s: Server, full: seq<LogEntry>, server: int, args: AppendEntriesArgs, reply: AppendEntriesReply)
    requires Conserved(s, full) && 0 <= server < s.peers
    requires var (s', handled) := HandleAppendReply(s, server, args, reply);
             handled ==> DropsUpTo(CommitScan(s')) <= CommitScan(s').lastApplied
    ensures var (s', handled) := HandleAppendReply(s, server, args, reply);
            var r := if handled then CheckCommit(s') else s';
            Conserved(r, full) && s.applied <= r.applied
  {
    var (s', handled) := HandleAppendReply(s, server, args, reply);
    if handled {
      CheckConserves(s', full);
    }
  }

  lemma ActionConserves(s: Server, full: seq<LogEntry>, a: LocalAction)
    requires Conserved(s, full) && CanDo(s, a) && Careful(s, a)
    ensures Conserved(Do(s, a), FullAfter(s, full, a))
    ensures s.applied <= Do(s, a).applied
  {
    match a
    case Write(command) =>
      assert (full + [LogEntry(s.currentTerm, command)])[s.firstOffset..] == s.logs
             + [LogEntry(s.currentTerm, command)];
    case Check => CheckConserves(s, full);
    case Reply(server, args, reply) => ReplyConserves(s, full, server, args, reply);
    case Receive(args) => ReceiveConserves(s, full, args);
  }

  predicate LocalRun(s: Server, acts: seq<LocalAction>)
    decreases |acts|
  {
    acts == [] || (CanDo(s, acts[0]) && Careful(s, acts[0]) && LocalRun(Do(s, acts[0]), acts[1..]))
  }

  function Final(s: Server, acts: seq<LocalAction>): Server
    requires LocalRun(s, acts)
    decreases |acts|
  {
    if acts == [] then s else Final(Do(s, acts[0]), acts[1..])
  }

  function FinalFull(s: Server, full: seq<LogEntry>, acts: seq<LocalAction>): seq<LogEntry>
    requires LocalRun(s, acts)
    decreases |acts|
  {
    if acts == [] then full else FinalFull(Do(s, acts[0]), FullAfter(s, full, acts[0]), acts[1..])
  }

  /** Over any run ApplyQueue holds absolute positions 0..firstOffset+lastApplied,
      each once and in order, and never takes one back. */
  lemma {:induction false} ApplyStreamConserved(s: Server, full: seq<LogEntry>, acts: seq<LocalAction>)
    requires Conserved(s, full) && LocalRun(s, acts)
    ensures Conserved(Final(s, acts), FinalFull(s, full, acts))
    ensures |Final(s, acts).applied| == Final(s, acts).firstOffset + Final(s, acts).lastApplied + 1
    ensures s.applied <= Final(s, acts).applied
    decreases |acts|
  {
    if acts != [] {
      ActionConserves(s, full, acts[0]);
      ApplyStreamConserved(Do(s, acts[0]), FullAfter(s, full, acts[0]), acts[1..]);
    }
  }
}
