/** What the Raft messages look like on the wire. */
module MessageText {
  import opened Coding
  import opened RaftState
  import opened Json
  import opened JsonText
  import opened Messages

  /** Nothing in the text needs an escape. */
  predicate Unescaped(s: Bytes) { forall i {:trigger s[i]} :: 0 <= i < |s| ==> s[i] >= 32 && s[i] != 34 && s[i] != 92 }

  lemma {:induction false} EscapedIsPlain(s: Bytes, k: nat)
    requires Unescaped(s) && k <= |s|
    ensures Escaped(s, k) == s[k..]
    decreases |s| - k
  {
    if k < |s| {
      EscapedIsPlain(s, k + 1);
      assert s[k..] == [s[k]] + s[k + 1..];
    }
  }

  predicate Spells(key: Bytes, name: string) { Unescaped(key) && Chars(key) == name }

  lemma NameText(s: Bytes, name: string)
    requires Spells(s, name)
    ensures Chars(Quoted(s)) == "\"" + name + "\""
  {
    EscapedIsPlain(s, 0);
    assert s[0..] == s;
    CharsOver([QUOTE] + s, [QUOTE]);
    CharsOver([QUOTE], s);
  }

  /** The names the members go by. */
  lemma VoteNames()
    ensures Spells(TERM, "Term") && Spells(CANDIDATE_ID, "CandidateId") && Spells(LAST_LOG_TERM, "LastLogTerm")
    ensures Spells(LAST_LOG_INDEX, "LastLogIndex") && Spells(VOTE_GRANTED, "VoteGranted")
  {
  }

  lemma RequestNames()
    ensures Spells(LEADER_ID, "LeaderId") && Spells(PREV_LOG_INDEX, "PrevLogIndex")
    ensures Spells(PREV_LOG_TERM, "PrevLogTerm") && Spells(LEADER_COMMIT, "LeaderCommit")
    ensures Spells(FIRST_OFFSET, "FirstOffset")
  {
  }

  lemma ReplyNames()
    ensures Spells(ENTRIES, "Entries") && Spells(SUCCESS, "Success") && Spells(CONFLICT_INDEX, "ConflictIndex")
    ensures Spells(CONFLICT_TERM, "ConflictTerm") && Spells(COMMAND, "Command")
  {
  }

  /** A message: each member on a line of its own. */
  function Message(names: seq<string>, values: seq<string>): string
    requires |names| == |values|
  {
    "{\n" + Joined(seq(|names|, i requires 0 <= i < |names| => "\t\"" + names[i] + "\":\t" + values[i]), ",\n") + "\n}"
  }

  predicate Shows(m: Member, name: string, value: string) {
    Spells(m.key, name) && Chars(Print(m.value, 1, true)) == value
  }

  lemma MessageIs(v: Value, names: seq<string>, values: seq<string>)
    requires v.Object? && |v.members| == |names| == |values| > 0
    requires forall i {:trigger v.members[i]} :: 0 <= i < |names| ==> Shows(v.members[i], names[i], values[i])
    ensures Chars(Print(v, 0, true)) == Message(names, values)
  {
    hide Print, Quoted, Joined, Unescaped;
    ObjectText(v, 0, true);
    var lines := seq(|names|, i requires 0 <= i < |names| => "\t\"" + names[i] + "\":\t" + values[i]);
    var texts := MemberTexts(v, 1, true);
    forall i | 0 <= i < |names| ensures texts[i] == lines[i] {
      assert Shows(v.members[i], names[i], values[i]);
      NameText(v.members[i].key, names[i]);
      assert TabChars(1) == "\t";
    }
    assert texts == lines && TabChars(0) == "";
  }

  function Num(n: int): string { Chars(Integer(n)) }

  function Truth(b: bool): string { if b then "true" else "false" }

  lemma ShowsNumber(key: Bytes, name: string, n: int)
    requires Spells(key, name)
    ensures Shows(Member(key, Number(n)), name, Num(n))
  {
  }

  lemma ShowsItself(key: Bytes, name: string, v: Value)
    requires Spells(key, name)
    ensures Shows(Member(key, v), name, Chars(Print(v, 1, true)))
  {
  }

  lemma ShowsString(key: Bytes, name: string, s: Bytes)
    requires Spells(key, name)
    ensures Shows(Member(key, String(s)), name, Chars(Quoted(s)))
  {
    hide Quoted;
  }

  lemma ShowsTruth(key: Bytes, name: string, b: bool)
    requires Spells(key, name)
    ensures Shows(Member(key, Bool(b)), name, Truth(b))
  {
    WordTexts(1, true);
  }

  lemma VoteArgsText(a: RequestVoteArgs)
    ensures Chars(Print(VoteArgsTree(a), 0, true))
         == Message(["Term", "CandidateId", "LastLogTerm", "LastLogIndex"],
                    [Num(a.term), Num(a.candidateId), Num(a.lastLogTerm), Num(a.lastLogIndex)])
  {
    hide Print, Message, Num, Truth, Spells, Shows, Quoted;
    VoteNames();
    ShowsNumber(TERM, "Term", a.term);
    ShowsNumber(CANDIDATE_ID, "CandidateId", a.candidateId);
    ShowsNumber(LAST_LOG_TERM, "LastLogTerm", a.lastLogTerm);
    ShowsNumber(LAST_LOG_INDEX, "LastLogIndex", a.lastLogIndex);
    MessageIs(VoteArgsTree(a), ["Term", "CandidateId", "LastLogTerm", "LastLogIndex"],
              [Num(a.term), Num(a.candidateId), Num(a.lastLogTerm), Num(a.lastLogIndex)]);
  }

  lemma VoteReplyText(r: RequestVoteReply)
    ensures Chars(Print(VoteReplyTree(r), 0, true))
         == Message(["Term", "VoteGranted"],
                    [Num(r.term), Truth(r.voteGranted)])
  {
    hide Print, Message, Num, Truth, Spells, Shows, Quoted;
    VoteNames();
    ShowsNumber(TERM, "Term", r.term);
    ShowsTruth(VOTE_GRANTED, "VoteGranted", r.voteGranted);
    MessageIs(VoteReplyTree(r), ["Term", "VoteGranted"],
              [Num(r.term), Truth(r.voteGranted)]);
  }

  lemma AppendArgsText(a: AppendEntriesArgs)
    ensures Chars(Print(AppendArgsTree(a), 0, true))
         == Message(["Term", "LeaderId", "PrevLogIndex", "PrevLogTerm", "LeaderCommit", "FirstOffset", "Entries"],
                    [Num(a.term), Num(a.leaderId), Num(a.prevLogIndex), Num(a.prevLogTerm),
                     Num(a.leaderCommit), Num(a.firstOffset),
                     Chars(Print(Array(EntryTrees(a.entries)), 1, true))])
  {
    hide Print, Message, Num, Truth, Spells, Shows, Quoted;
    VoteNames();
    RequestNames();
    ReplyNames();
    ShowsNumber(TERM, "Term", a.term);
    ShowsNumber(LEADER_ID, "LeaderId", a.leaderId);
    ShowsNumber(PREV_LOG_INDEX, "PrevLogIndex", a.prevLogIndex);
    ShowsNumber(PREV_LOG_TERM, "PrevLogTerm", a.prevLogTerm);
    ShowsNumber(LEADER_COMMIT, "LeaderCommit", a.leaderCommit);
    ShowsNumber(FIRST_OFFSET, "FirstOffset", a.firstOffset);
    ShowsItself(ENTRIES, "Entries", Array(EntryTrees(a.entries)));
    MessageIs(AppendArgsTree(a),
              ["Term", "LeaderId", "PrevLogIndex", "PrevLogTerm", "LeaderCommit", "FirstOffset", "Entries"],
              [Num(a.term), Num(a.leaderId), Num(a.prevLogIndex), Num(a.prevLogTerm), Num(a.leaderCommit),
               Num(a.firstOffset), Chars(Print(Array(EntryTrees(a.entries)), 1, true))]);
  }

  lemma AppendReplyText(r: AppendEntriesReply)
    ensures Chars(Print(AppendReplyTree(r), 0, true))
         == Message(["Term", "Success", "ConflictIndex", "ConflictTerm"],
                    [Num(r.term), Truth(r.success), Num(r.conflictIndex), Num(r.conflictTerm)])
  {
    hide Print, Message, Num, Truth, Spells, Shows, Quoted;
    VoteNames();
    ReplyNames();
    ShowsNumber(TERM, "Term", r.term);
    ShowsTruth(SUCCESS, "Success", r.success);
    ShowsNumber(CONFLICT_INDEX, "ConflictIndex", r.conflictIndex);
    ShowsNumber(CONFLICT_TERM, "ConflictTerm", r.conflictTerm);
    MessageIs(AppendReplyTree(r), ["Term", "Success", "ConflictIndex", "ConflictTerm"],
              [Num(r.term), Truth(r.success), Num(r.conflictIndex), Num(r.conflictTerm)]);
  }

  lemma EntryText(e: LogEntry)
    ensures Chars(Print(EntryTree(e), 0, true))
         == Message(["Term", "Command"],
                    [Num(e.term), Chars(Quoted(e.command))])
  {
    hide Print, Message, Num, Truth, Spells, Shows, Quoted;
    VoteNames();
    ReplyNames();
    ShowsNumber(TERM, "Term", e.term);
    ShowsString(COMMAND, "Command", e.command);
    MessageIs(EntryTree(e), ["Term", "Command"],
              [Num(e.term), Chars(Quoted(e.command))]);
  }
}
