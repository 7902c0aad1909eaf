/** The Raft messages as the JSON text they travel in. */
module Messages {
  import opened Coding
  import opened Text
  import opened RaftState
  import opened Json
  import opened JsonRoundTrip
  import opened PrintBuffers
  import CJson

  const TERM: Bytes := [84, 101, 114, 109]                                                  // Term
  const COMMAND: Bytes := [67, 111, 109, 109, 97, 110, 100]                                 // Command
  const CANDIDATE_ID: Bytes := [67, 97, 110, 100, 105, 100, 97, 116, 101, 73, 100]          // CandidateId
  const LAST_LOG_TERM: Bytes := [76, 97, 115, 116, 76, 111, 103, 84, 101, 114, 109]         // LastLogTerm
  const LAST_LOG_INDEX: Bytes := [76, 97, 115, 116, 76, 111, 103, 73, 110, 100, 101, 120]   // LastLogIndex
  const VOTE_GRANTED: Bytes := [86, 111, 116, 101, 71, 114, 97, 110, 116, 101, 100]         // VoteGranted
  const LEADER_ID: Bytes := [76, 101, 97, 100, 101, 114, 73, 100]                           // LeaderId
  const PREV_LOG_INDEX: Bytes := [80, 114, 101, 118, 76, 111, 103, 73, 110, 100, 101, 120]  // PrevLogIndex
  const PREV_LOG_TERM: Bytes := [80, 114, 101, 118, 76, 111, 103, 84, 101, 114, 109]        // PrevLogTerm
  const LEADER_COMMIT: Bytes := [76, 101, 97, 100, 101, 114, 67, 111, 109, 109, 105, 116]   // LeaderCommit
  const FIRST_OFFSET: Bytes := [70, 105, 114, 115, 116, 79, 102, 102, 115, 101, 116]        // FirstOffset
  const ENTRIES: Bytes := [69, 110, 116, 114, 105, 101, 115]                                // Entries
  const SUCCESS: Bytes := [83, 117, 99, 99, 101, 115, 115]                                  // Success
  const CONFLICT_INDEX: Bytes := [67, 111, 110, 102, 108, 105, 99, 116, 73, 110, 100, 101, 120]  // ConflictIndex
  const CONFLICT_TERM: Bytes := [67, 111, 110, 102, 108, 105, 99, 116, 84, 101, 114, 109]        // ConflictTerm

  // ---- trees ----

  predicate Int32(n: int) { INT_MIN <= n <= INT_MAX }

  function Bool(b: bool): Value { if b then True else False }

  function EntryTree(e: LogEntry): Value { Object([Member(TERM, Number(e.term)), Member(COMMAND, String(e.command))]) }

  function EntryTrees(es: seq<LogEntry>): (vs: seq<Value>)
    ensures |vs| == |es| && forall i {:trigger vs[i]} {:trigger es[i]} :: 0 <= i < |es| ==> vs[i] == EntryTree(es[i])
  {
    seq(|es|, i requires 0 <= i < |es| => EntryTree(es[i]))
  }

  function VoteArgsTree(a: RequestVoteArgs): Value {
    Object([Member(TERM, Number(a.term)), Member(CANDIDATE_ID, Number(a.candidateId)),
            Member(LAST_LOG_TERM, Number(a.lastLogTerm)), Member(LAST_LOG_INDEX, Number(a.lastLogIndex))])
  }

  function VoteReplyTree(r: RequestVoteReply): Value {
    Object([Member(TERM, Number(r.term)), Member(VOTE_GRANTED, Bool(r.voteGranted))])
  }

  function AppendArgsTree(a: AppendEntriesArgs): Value {
    Object([Member(TERM, Number(a.term)), Member(LEADER_ID, Number(a.leaderId)),
            Member(PREV_LOG_INDEX, Number(a.prevLogIndex)), Member(PREV_LOG_TERM, Number(a.prevLogTerm)),
            Member(LEADER_COMMIT, Number(a.leaderCommit)), Member(FIRST_OFFSET, Number(a.firstOffset)),
            Member(ENTRIES, Array(EntryTrees(a.entries)))])
  }

  function AppendReplyTree(r: AppendEntriesReply): Value {
    Object([Member(TERM, Number(r.term)), Member(SUCCESS, Bool(r.success)),
            Member(CONFLICT_INDEX, Number(r.conflictIndex)), Member(CONFLICT_TERM, Number(r.conflictTerm))])
  }

  predicate EntryFits(e: LogEntry) { Int32(e.term) && NulFree(e.command) }

  predicate EntriesFit(es: seq<LogEntry>) { forall i {:trigger es[i]} :: 0 <= i < |es| ==> EntryFits(es[i]) }

  predicate AppendArgsFit(a: AppendEntriesArgs) {
    Int32(a.term) && Int32(a.leaderId) && Int32(a.prevLogIndex) && Int32(a.prevLogTerm) && Int32(a.leaderCommit)
    && Int32(a.firstOffset) && EntriesFit(a.entries)
  }

  // ---- members by name ----

  function Lower(c: byte): byte { if 65 <= c <= 90 then c + 32 else c }

  predicate SameName(a: Bytes, b: Bytes) {
    |a| == |b| && forall i {:trigger a[i]} {:trigger b[i]} :: 0 <= i < |a| ==> Lower(a[i]) == Lower(b[i])
  }

  /** case_insensitive_strcmp, on two C strings: whether it returns 0. */
  method CaseInsensitiveStrcmp(a: Bytes, b: Bytes) returns (same: bool)
    requires NulFree(a) && NulFree(b)
    ensures same <==> SameName(a, b)
  {
    var s, t, i := a + [0], b + [0], 0;
    while Lower(s[i]) == Lower(t[i])
      invariant i <= |a| && i <= |b| && forall j :: 0 <= j < i ==> Lower(a[j]) == Lower(b[j])
      decreases |a| - i
    {
      if s[i] == 0 {
        return true;
      }
      i := i + 1;
    }
    if |a| == |b| && i < |a| { assert Lower(a[i]) != Lower(b[i]); }
    return false;
  }

  /** Where the first member of that name stands. */
  function Named(ms: seq<Member>, name: Bytes, k: nat): (p: nat)
    requires k <= |ms|
    ensures k <= p <= |ms| && (p < |ms| ==> SameName(name, ms[p].key))
    ensures forall j :: k <= j < p ==> !SameName(name, ms[j].key)
    decreases |ms| - k
  {
    if k == |ms| || SameName(name, ms[k].key) then k else Named(ms, name, k + 1)
  }

  function ItemOf(v: Value, name: Bytes): Option<Value> {
    if !v.Object? then None
    else
      var p := Named(v.members, name, 0);
      if p < |v.members| then Some(v.members[p].value) else None
  }

  /** cJSON_GetObjectItem. */
  method GetObjectItem(v: Value, name: Bytes) returns (item: Option<Value>)
    requires NulFree(name) && Clean(v)
    ensures item == ItemOf(v, name)
  {
    if !v.Object? {
      return None;
    }
    var k := 0;
    while k < |v.members|
      invariant k <= |v.members| && Named(v.members, name, 0) == Named(v.members, name, k)
    {
      var same := CaseInsensitiveStrcmp(name, v.members[k].key);
      if same {
        return Some(v.members[k].value);
      }
      k := k + 1;
    }
    return None;
  }

  predicate Unlike(a: Bytes, b: Bytes) { |a| != |b| || (a != [] && Lower(a[0]) != Lower(b[0])) }

  predicate NamesApart(ms: seq<Member>) {
    forall i, j {:trigger ms[i], ms[j]} :: 0 <= i < j < |ms| ==> Unlike(ms[i].key, ms[j].key)
  }

  lemma Found(ms: seq<Member>, p: nat)
    requires NamesApart(ms) && p < |ms|
    ensures ItemOf(Object(ms), ms[p].key) == Some(ms[p].value)
  {
    assert SameName(ms[p].key, ms[p].key);
    forall j | 0 <= j < p ensures !SameName(ms[p].key, ms[j].key) {
      assert Unlike(ms[j].key, ms[p].key);
    }
  }

  /** valueint: what a node holds as an integer. */
  function IntOf(v: Value): int { match v case Number(n) => n case True => 1 case _ => 0 }

  /** valueint of a member that is there. */
  method IntField(v: Value, name: Bytes) returns (n: int)
    requires NulFree(name) && Clean(v) && ItemOf(v, name).Some?
    ensures n == IntOf(ItemOf(v, name).value)
  {
    var item := GetObjectItem(v, name);
    n := IntOf(item.value);
  }

  /** What cJSON_Print writes, cJSON_Parse gives back. */
  method Reread(text: Bytes, ghost tree: Value) returns (v: Value)
    requires Clean(tree) && Within(tree, NESTING_LIMIT) && text == Print(tree, 0, true)
    ensures v == tree
  {
    PrintNulFree(tree, 0, true);
    RoundTrip(tree, true);
    var r := CJson.Parse(text);
    v := r.value;
  }

  // ---- the messages ----

  predicate VoteArgsFit(a: RequestVoteArgs) {
    Int32(a.term) && Int32(a.candidateId) && Int32(a.lastLogIndex) && Int32(a.lastLogTerm)
  }

  predicate AppendReplyFits(r: AppendEntriesReply) { Int32(r.term) && Int32(r.conflictIndex) && Int32(r.conflictTerm) }

  /** A tree whose members can be told apart by name, and read back. */
  predicate Readable(v: Value) { v.Object? && NamesApart(v.members) && Clean(v) && Within(v, NESTING_LIMIT) }

  /** A member by its place. */
  lemma FieldHere(v: Value, p: nat)
    requires Readable(v) && p < |v.members|
    ensures ItemOf(v, v.members[p].key) == Some(v.members[p].value) && NulFree(v.members[p].key)
  {
    Found(v.members, p);
  }

  lemma VoteArgsReadable(a: RequestVoteArgs)
    requires VoteArgsFit(a)
    ensures Readable(VoteArgsTree(a))
  {
  }

  lemma VoteReplyReadable(r: RequestVoteReply)
    requires Int32(r.term)
    ensures Readable(VoteReplyTree(r))
  {
  }

  lemma AppendReplyReadable(r: AppendEntriesReply)
    requires AppendReplyFits(r)
    ensures Readable(AppendReplyTree(r))
  {
  }

  lemma EntryReadable(e: LogEntry)
    requires EntryFits(e)
    ensures Readable(EntryTree(e)) && Within(EntryTree(e), 1)
  {
  }

  /** requestVoteArgs::encode and decode: the request arrives as it was sent. */
  method EncodeVoteArgs(a: RequestVoteArgs) returns (ok: bool, text: Bytes)
    requires VoteArgsFit(a)
    ensures if ok then text == Print(VoteArgsTree(a), 0, true) else TooLong(|Print(VoteArgsTree(a), 0, true)|)
  {
    VoteArgsReadable(a);
    ok, text := PrintTree(VoteArgsTree(a), true);
  }

  method DecodeVoteArgs(text: Bytes, ghost sent: RequestVoteArgs) returns (a: RequestVoteArgs)
    requires VoteArgsFit(sent) && text == Print(VoteArgsTree(sent), 0, true)
    ensures a == sent
  {
    ghost var tree := VoteArgsTree(sent);
    VoteArgsReadable(sent);
    var v := Reread(text, tree);
    FieldHere(tree, 0);
    FieldHere(tree, 1);
    FieldHere(tree, 2);
    FieldHere(tree, 3);
    var term := IntField(v, TERM);
    var candidateId := IntField(v, CANDIDATE_ID);
    var lastLogIndex := IntField(v, LAST_LOG_INDEX);
    var lastLogTerm := IntField(v, LAST_LOG_TERM);
    a := RequestVoteArgs(term, candidateId, lastLogIndex, lastLogTerm);
  }

  /** requestVoteRely::Encode and Decode. */
  method EncodeVoteReply(r: RequestVoteReply) returns (ok: bool, text: Bytes)
    requires Int32(r.term)
    ensures if ok then text == Print(VoteReplyTree(r), 0, true) else TooLong(|Print(VoteReplyTree(r), 0, true)|)
  {
    VoteReplyReadable(r);
    ok, text := PrintTree(VoteReplyTree(r), true);
  }

  method DecodeVoteReply(text: Bytes, ghost sent: RequestVoteReply) returns (r: RequestVoteReply)
    requires Int32(sent.term) && text == Print(VoteReplyTree(sent), 0, true)
    ensures r == sent
  {
    ghost var tree := VoteReplyTree(sent);
    VoteReplyReadable(sent);
    var v := Reread(text, tree);
    FieldHere(tree, 0);
    FieldHere(tree, 1);
    var term := IntField(v, TERM);
    var granted := IntField(v, VOTE_GRANTED);
    r := RequestVoteReply(term, granted != 0);
  }

  /** appendEntriesReply::encode and decode. */
  method EncodeAppendReply(r: AppendEntriesReply) returns (ok: bool, text: Bytes)
    requires AppendReplyFits(r)
    ensures if ok then text == Print(AppendReplyTree(r), 0, true) else TooLong(|Print(AppendReplyTree(r), 0, true)|)
  {
    AppendReplyReadable(r);
    ok, text := PrintTree(AppendReplyTree(r), true);
  }

  method DecodeAppendReply(text: Bytes, ghost sent: AppendEntriesReply) returns (r: AppendEntriesReply)
    requires AppendReplyFits(sent) && text == Print(AppendReplyTree(sent), 0, true)
    ensures r == sent
  {
    ghost var tree := AppendReplyTree(sent);
    AppendReplyReadable(sent);
    var v := Reread(text, tree);
    FieldHere(tree, 0);
    FieldHere(tree, 1);
    FieldHere(tree, 2);
    FieldHere(tree, 3);
    var term := IntField(v, TERM);
    var success := IntField(v, SUCCESS);
    var conflictIndex := IntField(v, CONFLICT_INDEX);
    var conflictTerm := IntField(v, CONFLICT_TERM);
    r := AppendEntriesReply(term, success != 0, conflictIndex, conflictTerm);
  }

  /** logEntry::encode and decode. */
  method EncodeEntry(e: LogEntry) returns (ok: bool, text: Bytes)
    requires EntryFits(e)
    ensures if ok then text == Print(EntryTree(e), 0, true) else TooLong(|Print(EntryTree(e), 0, true)|)
  {
    EntryReadable(e);
    ok, text := PrintTree(EntryTree(e), true);
  }

  method DecodeEntry(text: Bytes, ghost sent: LogEntry) returns (e: LogEntry)
    requires EntryFits(sent) && text == Print(EntryTree(sent), 0, true)
    ensures e == sent
  {
    ghost var tree := EntryTree(sent);
    EntryReadable(sent);
    var v := Reread(text, tree);
    FieldHere(tree, 0);
    FieldHere(tree, 1);
    var term := IntField(v, TERM);
    var command := GetObjectItem(v, COMMAND);
    e := LogEntry(term, command.value.s);
  }

  lemma AppendArgsReadable(a: AppendEntriesArgs)
    requires AppendArgsFit(a)
    ensures Readable(AppendArgsTree(a))
    ensures forall i {:trigger a.entries[i]} :: 0 <= i < |a.entries| ==> EntryFits(a.entries[i])
  {
    hide EntryTrees, NamesApart;
    var ms := AppendArgsTree(a).members;
    EntriesReadable(a.entries);
    NumbersApart(a);
    forall i {:trigger ms[i]} | 0 <= i < |ms|
      ensures NulFree(ms[i].key) && Clean(ms[i].value) && Within(ms[i].value, NESTING_LIMIT - 1)
    {
      if i < 6 { assert ms[i].value.Number?; }
    }
  }

  lemma EntriesReadable(es: seq<LogEntry>)
    requires EntriesFit(es)
    ensures Clean(Array(EntryTrees(es))) && Within(Array(EntryTrees(es)), NESTING_LIMIT - 1)
  {
    var items := EntryTrees(es);
    forall i {:trigger items[i]} | 0 <= i < |items| ensures Clean(items[i]) && Within(items[i], NESTING_LIMIT - 2) {
      assert EntryFits(es[i]);
    }
  }

  /** An entry or the whole is too long to print. */
  predicate AppendTooLong(a: AppendEntriesArgs) {
    TooLong(|Print(AppendArgsTree(a), 0, true)|) || exists i ::
        0 <= i < |a.entries| && TooLong(|Print(EntryTree(a.entries[i]), 0, true)|)
  }

  /** appendEntriesArgs::encode: each entry is printed and parsed on its way into the array. */
  method EncodeAppendArgs(a: AppendEntriesArgs) returns (ok: bool, text: Bytes)
    requires AppendArgsFit(a)
    ensures if ok then text == Print(AppendArgsTree(a), 0, true) else AppendTooLong(a)
  {
    AppendArgsReadable(a);
    var items := [];
    while |items| < |a.entries|
      invariant |items| <= |a.entries| && forall i :: 0 <= i < |items| ==> items[i] == EntryTree(a.entries[i])
    {
      var e := a.entries[|items|];
      var bytes;
      ok, bytes := EncodeEntry(e);
      if !ok {
        return false, [];
      }
      EntryReadable(e);
      var v := Reread(bytes, EntryTree(e));
      items := items + [v];
    }
    assert items == EntryTrees(a.entries);
    ok, text := PrintTree(
      Object([Member(TERM, Number(a.term)), Member(LEADER_ID, Number(a.leaderId)),
          Member(PREV_LOG_INDEX, Number(a.prevLogIndex)),
              Member(PREV_LOG_TERM, Number(a.prevLogTerm)), Member(LEADER_COMMIT, Number(a.leaderCommit)),
              Member(FIRST_OFFSET, Number(a.firstOffset)), Member(ENTRIES, Array(items))]), true);
  }

  /** appendEntriesArgs::decode: and again on its way out. */
  method DecodeAppendArgs(text: Bytes, ghost sent: AppendEntriesArgs) returns (ok: bool, a: AppendEntriesArgs)
    requires AppendArgsFit(sent) && text == Print(AppendArgsTree(sent), 0, true)
    ensures if ok then a == sent else AppendTooLong(sent)
  {
    ghost var tree := AppendArgsTree(sent);
    AppendArgsReadable(sent);
    var v := Reread(text, tree);
    var term, leaderId, prevLogIndex, prevLogTerm, leaderCommit, firstOffset := ReadNumbers(v, sent);
    FieldHere(tree, 6);
    var items := GetObjectItem(v, ENTRIES);
    var entries := [];
    while |entries| < |items.value.items|
      invariant items == Some(Array(EntryTrees(sent.entries))) && |entries| <= |sent.entries|
                && entries == sent.entries[..|entries|]
    {
      ghost var e := sent.entries[|entries|];
      EntryReadable(e);
      var bytes;
      ok, bytes := PrintTree(items.value.items[|entries|], true);
      if !ok {
        return false, AppendEntriesArgs(term, leaderId, prevLogIndex, prevLogTerm, leaderCommit, firstOffset, entries);
      }
      var entry := DecodeEntry(bytes, e);
      entries := entries + [entry];
    }
    ok, a := true, AppendEntriesArgs(term, leaderId, prevLogIndex, prevLogTerm, leaderCommit, firstOffset, entries);
  }

  method ReadNumbers(v: Value, ghost sent: AppendEntriesArgs)
    returns (term: int, leaderId: int, prevLogIndex: int, prevLogTerm: int, leaderCommit: int, firstOffset: int)
    requires AppendArgsFit(sent) && v == AppendArgsTree(sent)
    ensures term == sent.term && leaderId == sent.leaderId && prevLogIndex == sent.prevLogIndex
    ensures prevLogTerm == sent.prevLogTerm && leaderCommit == sent.leaderCommit && firstOffset == sent.firstOffset
  {
    AppendArgsReadable(sent);
    FieldHere(v, 0);
    FieldHere(v, 1);
    FieldHere(v, 2);
    FieldHere(v, 3);
    FieldHere(v, 4);
    FieldHere(v, 5);
    term := IntField(v, TERM);
    leaderId := IntField(v, LEADER_ID);
    prevLogIndex := IntField(v, PREV_LOG_INDEX);
    prevLogTerm := IntField(v, PREV_LOG_TERM);
    leaderCommit := IntField(v, LEADER_COMMIT);
    firstOffset := IntField(v, FIRST_OFFSET);
  }

  lemma NumbersApart(a: AppendEntriesArgs)
    ensures NamesApart(AppendArgsTree(a).members)
  {
  }
}
