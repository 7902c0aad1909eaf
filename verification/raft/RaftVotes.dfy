/** The up-to-date check of section 5.4.1 of the extended Raft paper, and what
    the copy constructor of requestVoteArgs does to it. */
module RaftVotes {
  import opened RaftState
  import opened RaftHistory

  /** Asking for a vote with a candidate's true last index and term is the
      comparison of the two logs. */
  lemma TrueArgsCompareLogs(s: Server, log: seq<LogEntry>)
    ensures IsLogUpToDate(s, |log| - 1, LastTermOf(log)) <==> UpToDate(log, s.logs)
  {
  }

  /** Terms below 0 belong to no entry, and only an empty log has last index -1. */
  predicate PossibleLast(index: int, term: int) {
    -1 <= index && -1 <= term && (index == -1 <==> term == -1)
  }

  predicate PossibleServer(s: Server) { PossibleLast(s.LastIndex(), s.LastTerm()) }

  /** A log of length `index + 1` whose entries all have `term`. */
  function Filled(index: int, term: int): (log: seq<LogEntry>)
    requires PossibleLast(index, term)
    ensures |log| == index + 1 && LastTermOf(log) == term
  {
    seq(index + 1, _ => LogEntry(term, []))
  }

  /** The copied request wins no vote the original would lose exactly when the
      candidate's last index is at most its last term. */
  lemma CopyNeverOverAsks(a: RequestVoteArgs)
    requires PossibleLast(a.lastLogIndex, a.lastLogTerm)
    ensures (forall s: Server :: PossibleServer(s)
               && IsLogUpToDate(s, CopyVoteArgs(a).lastLogIndex, CopyVoteArgs(a).lastLogTerm)
               ==> IsLogUpToDate(s, a.lastLogIndex, a.lastLogTerm))
            <==> a.lastLogIndex <= a.lastLogTerm
  {
    if a.lastLogIndex > a.lastLogTerm {
      var s := InitServer(0, 1).(logs := Filled(a.lastLogIndex + 1, a.lastLogTerm));
      assert PossibleServer(s);
      assert IsLogUpToDate(s, CopyVoteArgs(a).lastLogIndex, CopyVoteArgs(a).lastLogTerm);
      assert !IsLogUpToDate(s, a.lastLogIndex, a.lastLogTerm);
    }
  }

  /** And it loses no vote the original would win exactly when the last index is
      at least the last term: the copy is harmless only when the two are equal. */
  lemma CopyNeverUnderAsks(a: RequestVoteArgs)
    requires PossibleLast(a.lastLogIndex, a.lastLogTerm)
    ensures (forall s: Server :: PossibleServer(s)
               && IsLogUpToDate(s, a.lastLogIndex, a.lastLogTerm)
               ==> IsLogUpToDate(s, CopyVoteArgs(a).lastLogIndex, CopyVoteArgs(a).lastLogTerm))
            <==> a.lastLogIndex >= a.lastLogTerm
  {
    if a.lastLogIndex < a.lastLogTerm {
      var s := InitServer(0, 1).(logs := Filled(a.lastLogIndex, a.lastLogTerm));
      assert PossibleServer(s);
      assert IsLogUpToDate(s, a.lastLogIndex, a.lastLogTerm);
      assert !IsLogUpToDate(s, CopyVoteArgs(a).lastLogIndex, CopyVoteArgs(a).lastLogTerm);
    }
  }
}
