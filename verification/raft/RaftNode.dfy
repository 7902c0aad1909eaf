/** The Raft object: its fields, and its handlers with the loops and in-place
    updates of the source. Each is proved to compute the function of RaftState
    that the protocol argument is about. */
module RaftNode {
  import opened RaftState
  import opened Slices

  class Raft {
    const me: int
    const peers: nat
    var currentTerm: int
    var votedFor: int
    var logs: seq<LogEntry>
    var commitIndex: int
    var lastApplied: int
    var firstOffset: int
    var nextIndex: seq<int>
    var matchIndex: seq<int>
    var state: Role
    var voteCount: int
    var winElection: bool
    var applyQueue: seq<LogEntry>   // everything ever enqueued

    function View(): Server
      reads this
    {
      Server(me, peers, currentTerm, votedFor, logs, commitIndex, lastApplied, firstOffset,
             nextIndex, matchIndex, state, voteCount, winElection, applyQueue)
    }

    constructor (me: int, peers: nat)
      ensures View() == InitServer(me, peers)
    {
      this.me, this.peers := me, peers;
      state, currentTerm, votedFor, voteCount := Follower, 0, -1, 0;
      commitIndex, lastApplied, firstOffset := -1, -1, 0;
      logs, applyQueue, winElection := [], [], false;
      nextIndex := seq(peers, _ => 0);
      matchIndex := seq(peers, _ => -1);
    }

    method StepDownToFollower(term: int)
      modifies this
      ensures View() == StepDown(old(View()), term)
    {
      state := Follower;
      currentTerm := term;
      votedFor := -1;
    }

    method BecomeCandidate(from: Role)
      modifies this
      ensures View() == ConvertToCandidate(old(View()), from)
      ensures View() == if old(state) != from then old(View())
              else old(View()).(state := Candidate, currentTerm := old(currentTerm) + 1, votedFor := me, voteCount := 1)
    {
      if state != from { return; }
      state := Candidate;
      currentTerm := currentTerm + 1;
      votedFor := me;
      voteCount := 1;
    }

    method BecomeLeader()
      modifies this
      ensures View() == ConvertToLeader(old(View()))
      ensures old(state) != Candidate ==> View() == old(View())
      ensures old(state) == Candidate ==>
              && state == Leader && |nextIndex| == |matchIndex| == peers
              && (forall p :: 0 <= p < peers ==> nextIndex[p] == |logs| && matchIndex[p] == |logs| - 1)
              && View() == old(View()).(state := Leader, nextIndex := nextIndex, matchIndex := matchIndex)
    {
      if state != Candidate { return; }
      state := Leader;
      var lastIndex := |logs| - 1;
      nextIndex := seq(peers, _ => lastIndex + 1);
      matchIndex := seq(peers, _ => lastIndex);
    }

    method LogUpToDate(cLastIndex: int, cLastTerm: int) returns (r: bool)
      ensures r == IsLogUpToDate(View(), cLastIndex, cLastTerm)
    {
      var myLastIndex := |logs| - 1;
      var myLastTerm := if myLastIndex == -1 then -1 else logs[myLastIndex].term;
      if cLastTerm == myLastTerm { return cLastIndex >= myLastIndex; }
      return cLastTerm > myLastTerm;
    }

    method RequestVote(args: RequestVoteArgs) returns (reply: RequestVoteReply)
      modifies this
      ensures (View(), reply) == RaftState.RequestVote(old(View()), args)
    {
      if args.term < currentTerm {
        return RequestVoteReply(currentTerm, false);
      }
      if args.term > currentTerm {
        StepDownToFollower(args.term);
      }
      reply := RequestVoteReply(currentTerm, false);
      var upToDate := LogUpToDate(args.lastLogIndex, args.lastLogTerm);
      if (votedFor == -1 || votedFor == args.candidateId) && upToDate {
        reply := reply.(voteGranted := true);
        votedFor := args.candidateId;
      }
    }

    method SendRequestVote(args: RequestVoteArgs, reply: RequestVoteReply)
      modifies this
      ensures View() == HandleVoteReply(old(View()), args, reply)
    {
      if state != Candidate || args.term != currentTerm || reply.term < currentTerm { return; }
      if reply.term > currentTerm {
        StepDownToFollower(reply.term);
        return;
      }
      if reply.voteGranted {
        voteCount := voteCount + 1;
        if voteCount == peers / 2 + 1 {
          winElection := true;
        }
      }
    }

    /** The peers asked for their vote, in order, and the copied arguments each is sent. */
    method BroadcastRequestVote() returns (asked: seq<int>, args: RequestVoteArgs)
      requires View().Shape()
      modifies this
      ensures View() == SelfCheck(old(View()))
      ensures args == CopyVoteArgs(VoteArgs(old(View())))
      ensures args == RequestVoteArgs(currentTerm, me, |logs| - 1, |logs| - 1)
      ensures asked == if state != Candidate then []
              else Others(me, if old(voteCount) == Majority(peers) then me else peers)
      ensures state == Candidate && !winElection ==> forall p :: p in asked <==> 0 <= p < peers && p != me
    {
      args := CopyVoteArgs(VoteArgs(View()));
      asked := [];
      if state != Candidate {
        return;
      }
      var server := 0;
      while server < peers
        invariant 0 <= server <= peers
        invariant asked == Others(me, server) && View() == old(View())
        invariant server > me ==> voteCount != Majority(peers)
      {
        if server == me {
          if voteCount == peers / 2 + 1 {
            winElection := true;
            assert Others(me, server) == Others(me, me);
            return;
          }
        } else {
          asked := asked + [server];
        }
        server := server + 1;
      }
    }

    method AppendLog(command: Command)
      modifies this
      ensures View() == AddLog(old(View()), command)
      ensures logs == old(logs) + [LogEntry(currentTerm, command)] && View() == old(View()).(logs := logs)
    {
      logs := logs + [LogEntry(currentTerm, command)];
    }

    /** The AppendEntries arguments broadcastAppendEntries builds for one peer. */
    method BuildArgs(server: int) returns (args: AppendEntriesArgs)
      requires View().Shape() && 0 <= server < peers && 0 <= nextIndex[server] <= |logs|
      ensures args == AppendArgs(View(), server)
      ensures args.term == currentTerm && args.leaderId == me
      ensures args.prevLogIndex == nextIndex[server] - 1 && args.entries == logs[nextIndex[server]..]
      ensures args.prevLogTerm == if nextIndex[server] == 0 then -1 else logs[nextIndex[server] - 1].term
      ensures args.leaderCommit == commitIndex && args.firstOffset == firstOffset
    {
      var prev := nextIndex[server] - 1;
      var prevTerm := if prev == -1 then -1 else logs[prev].term;
      var entries := [];
      var i := prev + 1;
      while i < |logs|
        invariant prev + 1 <= i <= |logs| && entries == logs[prev + 1..i]
      {
        entries := entries + [logs[i]];
        i := i + 1;
      }
      args := AppendEntriesArgs(currentTerm, me, prev, prevTerm, commitIndex, firstOffset, entries);
    }

    method DoApplyLogs()
      requires -1 <= lastApplied && commitIndex < |logs|
      modifies this
      ensures View() == ApplyLogs(old(View()))
    {
      var i := lastApplied + 1;
      ghost var first := i;
      while i <= commitIndex
        invariant logs == old(logs) && commitIndex == old(commitIndex) && 0 <= first <= i
        invariant lastApplied == i - 1 && (i == first || i <= commitIndex + 1)
        invariant applyQueue == old(applyQueue) + (if i == first then [] else logs[first..i])
        invariant View() == old(View()).(lastApplied := lastApplied, applied := applyQueue)
      {
        SliceGrows(logs, first, i, old(applyQueue));
        applyQueue := applyQueue + [logs[i]];
        lastApplied := i;
        i := i + 1;
      }
    }

    /** The follower drops what the leader's offset says is compacted away. */
    method DropCompacted(offset: int)
      requires commitIndex < |logs|
      modifies this
      ensures View() == SkipCompacted(old(View()), offset)
    {
      if offset > firstOffset {
        var behind := offset - firstOffset;
        if commitIndex + 1 >= behind {
          firstOffset := offset;
          logs := logs[behind..];
          commitIndex := commitIndex - behind;
          lastApplied := lastApplied - behind;
        }
      }
    }

    method FirstOfRun(prev: int, term: int) returns (conflictIndex: int)
      requires -1 <= prev < |logs| && (prev >= 0 ==> logs[prev].term == term)
      ensures conflictIndex == ConflictStart(logs, prev)
    {
      conflictIndex := -1;
      var i := prev;
      while i >= 0 && logs[i].term == term
        invariant -1 <= i <= prev
        invariant forall j :: i < j <= prev ==> logs[j].term == term
        invariant conflictIndex == if i == prev then -1 else i + 1
      {
        conflictIndex := i;
        i := i - 1;
      }
    }

    /** Keeps what agrees in term from position `start` on, cuts the rest, appends the remainder. */
    method Merge(start: nat, entries: seq<LogEntry>)
      requires start <= |logs|
      modifies this
      ensures View() == old(View()).(logs := MergeEntries(old(logs), start, entries))
    {
      var i, j := start, 0;
      while i < |logs| && j < |entries|
        invariant start <= i <= |logs| && 0 <= j <= |entries| && i == start + j
        invariant View() == old(View())
        invariant TermMatch(logs, start, entries) == j + TermMatch(logs, i, entries[j..])
      {
        if logs[i].term != entries[j].term { break; }
        assert entries[j..][1..] == entries[j + 1..];
        i := i + 1;
        j := j + 1;
      }
      assert j == TermMatch(logs, start, entries);
      logs := logs[..i];
      AppendAll(entries[j..]);
    }

    method AppendAll(rest: seq<LogEntry>)
      modifies this
      ensures View() == old(View()).(logs := old(logs) + rest)
    {
      var k := 0;
      while k < |rest|
        invariant 0 <= k <= |rest|
        invariant View() == old(View()).(logs := old(logs) + rest[..k])
      {
        assert old(logs) + rest[..k + 1] == old(logs) + rest[..k] + [rest[k]];
        logs := logs + [rest[k]];
        k := k + 1;
      }
      assert rest[..k] == rest;
    }

    method AppendEntries(args: AppendEntriesArgs) returns (reply: AppendEntriesReply)
      requires View().Shape() && AppendFits(View(), args)
      modifies this
      ensures (View(), reply) == RaftState.AppendEntries(old(View()), args)
    {
      DropCompacted(args.firstOffset);
      if args.term < currentTerm {
        return AppendEntriesReply(currentTerm, false, -1, -1);
      }
      if args.term > currentTerm {
        StepDownToFollower(args.term);
      }
      reply := CheckAndAccept(args);
    }

    /** AppendEntries from a leader whose term is not behind. */
    method CheckAndAccept(args: AppendEntriesArgs) returns (reply: AppendEntriesReply)
      requires -1 <= lastApplied && -1 <= args.prevLogIndex && MergeFits(View(), args)
      modifies this
      ensures (View(), reply) == AppendChecked(old(View()), args)
    {
      var lastIndex := |logs| - 1;
      reply := AppendEntriesReply(currentTerm, false, -1, -1);
      if args.prevLogIndex > lastIndex {
        return reply.(conflictIndex := lastIndex + 1);
      }
      var cfTerm := if args.prevLogIndex == -1 then -1 else logs[args.prevLogIndex].term;
      if cfTerm != args.prevLogTerm {
        var first := FirstOfRun(args.prevLogIndex, cfTerm);
        return AppendEntriesReply(currentTerm, false, first, cfTerm);
      }
      AcceptEntries(args, args.firstOffset - firstOffset);
      reply := reply.(success := true);
    }

    /** The accepting end of AppendEntries. */
    method AcceptEntries(args: AppendEntriesArgs, behind: int)
      requires -1 <= lastApplied && 0 <= args.prevLogIndex + 1 + behind <= |logs|
      modifies this
      ensures View() == AdvanceCommit(
                old(View()).(logs := MergeEntries(old(logs), args.prevLogIndex + 1 + behind, args.entries)),
                args.leaderCommit + behind)
      ensures var reach := if args.leaderCommit + behind < |logs| then args.leaderCommit + behind else |logs| - 1;
              commitIndex == if args.leaderCommit + behind > old(commitIndex) then reach else old(commitIndex)
    {
      Merge(args.prevLogIndex + 1 + behind, args.entries);
      if args.leaderCommit + behind > commitIndex {
        var lastIndex := |logs| - 1;
        if args.leaderCommit + behind < lastIndex {
          commitIndex := args.leaderCommit + behind;
        } else {
          commitIndex := lastIndex;
        }
        DoApplyLogs();
      }
    }

    method LastOfTerm(term: int) returns (k: int)
      ensures k == LastWithTerm(logs, term, |logs| - 1)
    {
      k := |logs| - 1;
      while k >= 0
        invariant -1 <= k < |logs|
        invariant LastWithTerm(logs, term, |logs| - 1) == LastWithTerm(logs, term, k)
      {
        if logs[k].term == term { break; }
        k := k - 1;
      }
    }

    method SendAppendEntries(server: int, args: AppendEntriesArgs, reply: AppendEntriesReply)
      requires View().Shape() && 0 <= server < peers
      modifies this
      ensures var (s, handled) := HandleAppendReply(old(View()), server, args, reply);
              View() == if handled then CheckCommit(s) else s
    {
      if state != Leader || args.term != currentTerm || reply.term < currentTerm { return; }
      if reply.term > currentTerm {
        StepDownToFollower(reply.term);
        return;
      }
      if reply.success {
        var newMatchIndex := args.prevLogIndex + |args.entries|;
        if newMatchIndex > matchIndex[server] {
          matchIndex := matchIndex[server := newMatchIndex];
        }
        nextIndex := nextIndex[server := matchIndex[server] + 1];
      } else if reply.conflictTerm < 0 {
        nextIndex := nextIndex[server := reply.conflictIndex];
        matchIndex := matchIndex[server := nextIndex[server] - 1];
      } else {
        var newNextIndex := LastOfTerm(reply.conflictTerm);
        if newNextIndex < 0 {
          nextIndex := nextIndex[server := reply.conflictIndex];
        } else {
          nextIndex := nextIndex[server := newNextIndex];
        }
        matchIndex := matchIndex[server := nextIndex[server] - 1];
      }
      assert View() == UpdateIndices(old(View()), server, args, reply);
      DoCheckCommit();
    }

    method CountMatches(n: int) returns (count: int)
      requires View().Shape() && 0 <= n < |logs|
      ensures count == CommitVotes(View(), n)
    {
      count := 1;
      if logs[n].term == currentTerm {
        var i := 0;
        while i < peers
          invariant 0 <= i <= peers && count == 1 + MatchCount(matchIndex, me, n, i)
        {
          if i != me && matchIndex[i] >= n {
            count := count + 1;
          }
          i := i + 1;
        }
      }
    }

    method ScanCommit()
      requires View().Shape()
      modifies this
      ensures View() == CommitScan(old(View()))
    {
      hide CommitTarget, CommitVotes, CommitScan, ApplyLogs;
      CommitScanIs(View());
      var n := |logs| - 1;
      while n > commitIndex
        invariant -1 <= n < |logs| && View() == old(View())
        invariant CommitTarget(View(), |logs| - 1) == CommitTarget(View(), n)
      {
        CommitStep(View(), n);
        var count := CountMatches(n);
        if count > peers / 2 {
          commitIndex := n;
          DoApplyLogs();
          return;
        }
        n := n - 1;
      }
      CommitStop(View(), n);
    }

    lemma CommitScanIs(s: Server)
      requires s.Shape()
      ensures var n := CommitTarget(s, |s.logs| - 1);
              n >= s.commitIndex && CommitScan(s) == if n > s.commitIndex then ApplyLogs(s.(commitIndex := n)) else s
    {
    }

    lemma CommitStep(s: Server, n: int)
      requires s.Shape() && s.commitIndex < n < |s.logs|
      ensures CommitTarget(s, n) == if CommitVotes(s, n) > s.peers / 2 then n else CommitTarget(s, n - 1)
    {
    }

    lemma CommitStop(s: Server, n: int)
      requires s.Shape() && n < |s.logs| && n <= s.commitIndex
      ensures CommitTarget(s, n) == s.commitIndex
    {
    }

    method EveryoneHas(n: int) returns (allMatched: bool)
      requires View().Shape()
      ensures allMatched == AllMatched(View(), n)
    {
      allMatched := true;
      var i := 0;
      while i < peers
        invariant 0 <= i <= peers
        invariant allMatched <==> forall j :: 0 <= j < i && j != me ==> matchIndex[j] >= n
      {
        if i != me && matchIndex[i] < n {
          allMatched := false;
        }
        i := i + 1;
      }
    }

    method DoTruncate()
      requires View().Shape()
      modifies this
      ensures View() == Truncate(old(View()))
    {
      var n := |logs| - 1;
      while n > -1
        invariant -1 <= n < |logs| && View() == old(View())
        invariant TruncateTarget(View(), |logs| - 1) == TruncateTarget(View(), n)
      {
        var allMatched := EveryoneHas(n);
        if allMatched {
          DropFirst(n + 1);
          return;
        }
        n := n - 1;
      }
    }

    /** The loop that moves every peer's indices down by `k`. */
    method ShiftIndices(k: nat)
      requires |nextIndex| == |matchIndex| == peers
      modifies `nextIndex, `matchIndex
      ensures |nextIndex| == |matchIndex| == peers
      ensures forall j :: 0 <= j < peers ==>
              nextIndex[j] == old(nextIndex[j]) - k && matchIndex[j] == old(matchIndex[j]) - k
    {
      var i := 0;
      while i < |nextIndex|
        invariant 0 <= i <= |nextIndex| == |matchIndex| == peers
        invariant forall j :: 0 <= j < i ==>
                  nextIndex[j] == old(nextIndex[j]) - k && matchIndex[j] == old(matchIndex[j]) - k
        invariant forall j :: i <= j < peers ==>
                  nextIndex[j] == old(nextIndex[j]) && matchIndex[j] == old(matchIndex[j])
      {
        nextIndex := nextIndex[i := nextIndex[i] - k];
        matchIndex := matchIndex[i := matchIndex[i] - k];
        i := i + 1;
      }
    }

    method DropFirst(k: nat)
      requires View().Shape() && k <= |logs|
      modifies this
      ensures View() == DropPrefix(old(View()), k)
    {
      logs := logs[k..];
      ShiftIndices(k);
      commitIndex := commitIndex - k;
      lastApplied := lastApplied - k;
      firstOffset := firstOffset + k;
    }

    method DoCheckCommit()
      requires View().Shape()
      modifies this
      ensures View() == CheckCommit(old(View()))
    {
      ScanCommit();
      DoTruncate();
    }
  }

  /** Servers below `upto` other than `me`, in order. */
  function Others(me: int, upto: int): (s: seq<int>)
    ensures forall p :: p in s <==> 0 <= p < upto && p != me
    ensures forall i, j :: 0 <= i < j < |s| ==> s[i] < s[j]
  {
    if upto <= 0 then []
    else
      var rest := Others(me, upto - 1);
      assert forall i :: 0 <= i < |rest| ==> rest[i] in rest;
      rest + if upto - 1 == me then [] else [upto - 1]
  }
}
