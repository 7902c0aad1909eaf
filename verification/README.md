# LightDB: verification model

LightDB is a Redis-like store replicated with Raft. This project models its four hardest parts in Dafny and
proves what each is for. The model keeps the state the code keeps: heap nodes linked level by level, a ring of
doubly linked nodes, files as byte sequences with rolling ids, buffers as byte arrays with moving offsets, and
servers with the calls between them in flight. Loops that update variables are methods with loops; each is proved
against a function, and the properties are proved about that function or as invariants of the class.

| directory | models | main results |
|---|---|---|
| `raft/` | `raft/raft.h`: every handler and every reply as one step of a cluster of any size | election safety, one vote per term, log matching, aligned term runs, accepted log equals sent log, back-off terminates, state machine safety, leader completeness; when an election is won, and that accepting a request catches up with its leader; apply-stream conservation under compaction; three counterexamples, and the exact condition for the copied vote request |
| `ds/` | both skip lists with all their levels, and the sorted set over them | refinement of an abstract map for any heights chosen; nested sorted levels; rank, selection and range agree; the iterator visits each key once |
| `cache/` | the LRU cache | after any run, exactly the most recently touched keys in recency order, each with its last put value |
| `storage/`, `util/` | records, files, the load loop, checksum, fixed-width integers, text | every byte of a record, header round trip, a damaged value reported, torn-tail replay and what becomes of a record stored behind a torn tail, linearity of the checksum, split and decimal round trips |
| `engine/` | the string engine over rolling files; list, set and hash commands with their log | commands refine a plain map through rolling, caching and reopening; compaction preserves the map; replay and dump rebuild lists, sets and hashes |
| `json/` | the cJSON printer and parser, with buffers, and the Raft messages written with them | the parser takes every text of the grammar for what it means, whatever its blanks and escapes, and parsing undoes printing; two-pass sizing is exact on one side and enough on the other; Unicode escapes; every Raft message arrives as sent |

## Modelling choices

**Raft.** A handler, or the part of an RPC that runs when its reply arrives, is one atomic action; there are no
crashes. A candidacy broadcasts its vote requests once. An RPC is delivered at most once; a leader has one
AppendEntries call per follower in flight, which may be lost. Entries are compared by term and command, since
`conn_fd` is not sent. `firstOffset` is 0 throughout the cluster; compaction is proved on one server, for any
`firstOffset`. Three things the code does not make sure of are conditions of the safety theorems
(`RaftCluster.Allowed`), and each is shown to be needed by a run that does without it and breaks a theorem:

- `winElection` (raft/raft.h:386, 407, 684) is never cleared, so a candidate must hold this candidacy's majority when it
  takes office. Without it two servers lead one term: `RaftGaps.StaleWinElection`.
- Only a Leader appends a client's command; the server's handler (server/cmd/RaftHandler.cpp:42-53) also lets a Candidate.
  Without it log matching fails: `RaftGaps.CandidateWriteBreaksMatching`.
- A vote request is copied when the voting thread captures it (raft/raft.h:417), and the copy constructor
  (raft/raftDataStructures.h:67-68) initialises the last term from the last index. The theorems hold when arguments
  are sent unchanged (`Faithful`), and for the code as written (`AsWritten`) when each broadcasting candidate's last
  index is at most its last term, which is exactly when a copy can win no vote the request would lose
  (`RaftVotes.CopyNeverOverAsks`). Without it two servers apply different first entries:
  `RaftGaps.CopiedVoteRequestBreaksSafety`.

The previous-entry check of AppendEntries uses an index relative to the leader, the merge one relative to the follower;
`AppendFits` is the range in which these indices are inside the log, and `RaftSafety.IndicesInRange` proves it always met
in the cluster.

**Skip lists.** `randomLevel` is any height from 1 to 32. Scores are real numbers below `INT_MAX`, the tail's score;
ranks lie below the number of entries; the string list's keys are not empty, as both its sentinels have the empty key.
Member and key order is by bytes. `std::set` members are an ascending sequence of bytes. Each model holds one key's
sorted set; the outer maps from keys are left out.

**Engine.** File ids are 0, 1, 2 and so on. Nothing expires. A header, a largest key and a largest value together are
shorter than 2^32. `pread` and `write` move any positive number of the bytes asked for; interrupted and failed calls
are left out. The string index is a map, which `StrSkiplists` refines, and the cache a map that may drop any entry at
any put, consulted only after the index. The comment on `GetSet` promises an error for a missing key; the code sets the key
in any case, and so does the model. A list or set that is there and empty counts as absent in the dump and set results.

**JSON.** Bytes are integers from 0 to 255; masks, shifts and disjoint ors are remainders, quotients and sums. Trees
are values. A number outside plain 32-bit integers ends a parse as `NotModelled`. Parser input ends with a NUL, as C
strings do.

## Model

| member | source | states |
|---|---|---|
| RaftSafety.StateMachineSafety | raft/raft.h:258-265 | at any two moments of any allowed run, the sequences any two servers have handed to ApplyQueue are prefixes of one another |
| RaftSafety.LeadersKeepApplied | raft/raft.h:321-365 | what any server has applied is a prefix of the log of every leader of a later term, then and later (leader completeness) |
| RaftSafety.ElectionSafety | raft/raft.h:279-300 | two leaders of one term, at any two moments of a run, are the same server |
| RaftSafety.OneWinnerPerTerm | raft/raft.h:382-391 | two candidates that each reach a majority count in one term, at any two moments and for any cluster size, are the same server |
| RaftSafety.OneVotePerTerm | raft/raft.h:302-363 | over a whole run, a server gives its vote of one term to one candidate only, its vote for itself at a timeout included |
| RaftSafety.LogMatching | raft/raft.h:512-548 | logs of two servers with the same term at one index agree on every entry up to it |
| RaftSafety.TermRunsAligned | raft/raft.h:656-664 | the entries of a term are one contiguous run that starts at the same index in every server's log |
| RaftSafety.AcceptedEqualsSent | raft/raft.h:530-548 | an accepted AppendEntries leaves the follower's log equal to the whole log the leader had when it built the request, at a moment of the run that is named |
| RaftSafety.AcceptedCatchesUp | raft/raft.h:440-560 | what the leader had applied when it built an accepted request, the follower has applied once it accepts, and otherwise exactly what it had applied before |
| RaftSafety.BackOffTerminates | raft/raft.h:585-606 | while one leader leads and a follower accepts nothing, rejections handled plus the present nextIndex never exceed the nextIndex at the start, and nextIndex stays at 0 or above |
| RaftSafety.StartIsAccepted | raft/raft.h:512-548 | a request from before the first entry, of a term not behind, is accepted: back-off has an end |
| RaftSafety.IndicesInRange | raft/raft.h:440-457 | in every reachable cluster every nextIndex a leader uses, and every request in flight, is inside the log it is used on |
| RaftSafety.SentWhen | raft/raft.h:440-457 | every AppendEntries in flight was built at an earlier moment of the run from the log its leader then had |
| RaftSafety.HistoryGrows | raft/raft.h:471-561 | elections, votes, leaders' logs and acceptances once recorded are never taken back by a longer run |
| RaftReplication.StepKeeps | raft/raft.h:336-664 | every allowed action of the cluster keeps the whole protocol invariant |
| RaftReplication.InitKeeps | raft/raft.h:238-256 | the cluster at the start meets it |
| RaftReplication.RejectionLowers | raft/raft.h:585-606 | each rejection handled strictly lowers nextIndex without going below 0, also where the conflicting term is found in the leader's log |
| RaftReplication.RejectReports | raft/raft.h:512-528 | what a rejection reports is the length of a short log, or the term at the previous index and the first index of its run |
| RaftReplication.AcceptIsSent | raft/raft.h:530-548 | by log matching the merge produces the sender's log, keeping what agrees and cutting the rest, conflicting or not |
| RaftReplication.MergeGivesSent | raft/raft.h:534-547 | the element-wise merge equals the log it is fed from whenever the two logs match |
| RaftReplication.AppliedSurvives | raft/raft.h:543-560 | what a follower has applied is a prefix of the log any request of its term was built from, so the cut never reaches it |
| RaftReplication.AcceptedApplies | raft/raft.h:552-560 | accepting applies exactly the newly committed entries of what was sent |
| RaftReplication.CommitVotesCommit | raft/raft.h:613-628 | an index CheckCommit commits has reached a majority in the term of its entry (current-term rule) |
| RaftReplication.CountedAcked | raft/raft.h:616-620 | no more peers are counted for an index than have accepted the leader's log past it |
| RaftHistory.QuorumsMeet | raft/raft.h:384-390 | two majorities of one cluster share a server, for any size |
| RaftHistory.UpToDateKeeps | raft/raft.h:321-328 | a log that passes the up-to-date check against another holds everything that other log shares with a committed prefix |
| RaftHistory.LeaderCompleteness | raft/raft.h:321-365 | every later leader was elected with a committed prefix already in its log |
| RaftHistory.CommittedComparable | raft/raft.h:610-629 | of the logs behind any two commits one extends the other up to the commits |
| RaftHistory.TermRun | raft/raft.h:656-664 | in a leader's log, the entries between the first of a term and a later one of that term all have it |
| RaftEvents.OneMajority | raft/raft.h:382-391 | the votes recorded for one term give a majority to one candidate at most |
| RaftSteps.GrantComparesLogs | raft/raft.h:356-358 | unless the term already has a leader, arguments that pass the check on the wire mean that the candidate's log itself is up to date against the voter's |
| RaftSteps.WinnerIsFirst | raft/raft.h:279-290 | a candidate that holds a majority is the first server to lead its term |
| RaftSteps.LeaderLog | raft/raft.h:279-300 | while a server leads, its log is the log recorded for its term |
| RaftVotes.TrueArgsCompareLogs | raft/raft.h:321-328 | asking with one's true last index and term is the comparison of the two logs |
| RaftVotes.CopyNeverOverAsks | raft/raftDataStructures.h:67-68 | the copied request wins no vote the original would lose, against any possible voter, if and only if its last index is at most its last term |
| RaftVotes.CopyNeverUnderAsks | raft/raftDataStructures.h:67-68 | and loses no vote the original would win if and only if the last index is at least the last term |
| RaftGaps.CopiedVoteRequestBreaksSafety | raft/raft.h:417-418 | a concrete run of three servers, with the copy as written and every other condition met, after which two servers have applied different first entries |
| RaftGaps.CandidateWriteBreaksMatching | raft/raft.h:656-664 | a concrete run in which two candidates of one term take a write each, after which their logs hold different entries of one term at one index |
| RaftGaps.StaleWinElection | raft/raft.h:684-685 | a concrete run of three servers after which two of them lead the same term, the flag being left over from an earlier candidacy |
| RaftCompaction.ApplyStreamConserved | raft/raft.h:258-265 | over any run of writes, commits, replies and requests on one server, ApplyQueue has received absolute positions 0 to firstOffset+lastApplied, each once and in order, and nothing is taken back |
| RaftCompaction.TruncateKeepsPositions | raft/raft.h:641-649 | truncation moves no absolute position: commit, applied, log end, and every nextIndex and matchIndex |
| RaftCompaction.TruncateConservesIff | raft/raft.h:631-652 | truncation conserves the apply stream if and only if it drops applied entries only |
| RaftCompaction.TruncateLoses | raft/raft.h:631-652 | otherwise some entry is neither applied nor any longer in the log |
| RaftCompaction.FreshLeaderConservesIff | raft/raft.h:279-291 | a candidate that takes office in a cluster of two or more, with no entry of its term yet, loses nothing in its first CheckCommit if and only if it has applied its whole log |
| RaftCompaction.OwnTermIsApplied | raft/raft.h:610-652 | truncation after a commit scan drops only applied entries if the last entry all peers have is of the leader's own term |
| RaftCompaction.ReceiveConserves | raft/raft.h:475-560 | a follower that drops its prefix and merges keeps the stream, if the request rewrites nothing applied |
| RaftProgress.WinNeedsMajority | raft/raft.h:379-411 | over every run, an action that sets winElection leaves a Candidate for which a majority of all servers have voted in its term, by the votes recorded |
| RaftProgress.MajorityWins | raft/raft.h:379-411 | over every run, a candidate past its broadcast for which the votes of a majority have been counted has winElection set |
| RaftProgress.VoteGrantedIff | raft/raft.h:336-365 | a vote is granted if and only if the term is not behind, no other candidate has this term's vote, and the log is at least as up to date; and what becomes of term, vote and role |
| RaftProgress.VoteReplyCounts | raft/raft.h:368-394 | a reply of this candidacy adds one vote if it was granted and wins at exactly the majority; any other moves nothing, but a higher term is followed |
| RaftProgress.RejectionReports | raft/raft.h:506-528 | a request is rejected if and only if the previous entry is missing or of another term, and the reply gives the end of a short log, or that term and the first index of its run |
| RaftProgress.RejectionMovesTo | raft/raft.h:585-606 | after a rejection nextIndex is the leader's last entry of the conflicting term, or the reported index if it has none; no other peer moves |
| RaftProgress.AcceptanceMovesTo | raft/raft.h:577-584 | after an acceptance matchIndex is the last entry sent unless it was further, and nextIndex follows it; no other peer moves |
| RaftProgress.StaleReplies | raft/raft.h:567-575 | a reply of another term, or to a server that leads no more, moves nothing, but a higher term is followed |
| RaftProgress.OldRequest | raft/raft.h:488-495 | a request of an older term is refused with the newer one |
| RaftProgress.RequestTerm | raft/raft.h:497-510 | a newer term makes the receiver a follower of it without a vote; at the same term role and vote stay |
| RaftProgress.SkipAligns | raft/raft.h:475-486 | a follower that has committed all the leader dropped drops it too, and no absolute position moves |
| RaftProgress.CommitMoves | raft/raft.h:610-629 | the commit index goes to the largest index of the leader's term that a majority of the servers have by its count, if that is further; stated by counting servers |
| RaftProgress.TruncateMoves | raft/raft.h:631-652 | exactly what every other peer has is dropped from the front |
| RaftNode.Raft.RequestVote | raft/raft.h:336-365 | the fields and the reply become those of the protocol function the theorems are about |
| RaftNode.Raft.SendRequestVote | raft/raft.h:368-394 | after a vote reply, the fields become those of the protocol function, of which RaftProgress.VoteReplyCounts and WinNeedsMajority say when an election is won |
| RaftNode.Raft.BroadcastRequestVote | raft/raft.h:396-425 | in order, exactly the other servers are asked, with the own term, id and last index and, as the copy has it, the last index again for the last term, up to the point where the count already wins |
| RaftNode.Raft.BecomeCandidate | raft/raft.h:302-319 | a new term, the own vote, or nothing if the state has changed |
| RaftNode.Raft.BecomeLeader | raft/raft.h:279-288 | a candidate leads with nextIndex behind its last entry for every peer; any other state stays |
| RaftNode.Raft.BuildArgs | raft/raft.h:440-457 | term, own id, previous index and its term, commit index, first offset, and exactly the suffix of the log behind the previous index |
| RaftNode.Raft.AppendEntries | raft/raft.h:471-561 | log, indices, applied stream and reply become those of the protocol function, on all of its branches |
| RaftNode.Raft.Merge | raft/raft.h:531-547 | the two loops leave the longest prefix that agrees in term, followed by the rest of the entries |
| RaftNode.Raft.FirstOfRun | raft/raft.h:522-524 | the first index of the run of the conflicting term |
| RaftNode.Raft.DoApplyLogs | raft/raft.h:258-265 | exactly the committed and not yet applied entries are enqueued, in order |
| RaftNode.Raft.SendAppendEntries | raft/raft.h:563-608 | indices, commit and truncation after a reply become those of the protocol function |
| RaftNode.Raft.ScanCommit | raft/raft.h:613-629 | commits the largest index of the current term that a majority has reached |
| RaftNode.Raft.DoTruncate | raft/raft.h:631-652 | drops everything up to the largest index all peers have reached |
| RaftCompaction.TargetIsLargest | raft/raft.h:613-629 | the commit scan finds no smaller index than any index of the log that a majority has reached in the current term |
| RaftCompaction.TruncateIsLargest | raft/raft.h:631-640 | the truncation scan finds no smaller index than any that all peers have reached |
| RaftState.LastWithTerm | raft/raft.h:593-598 | the last index of that term at or below the bound, or -1 |
| RaftState.RunStart | raft/raft.h:522-524 | everything from the index found to the bound has the term of the bound, and the entry before it has another |
| ZSkiplist.Skiplist.LevelsNest | ds/zset/skiplist.h:43-119 | following any level from head to tail gives strictly ascending scores; the next level is its sublist of taller nodes; levels from `level` up are empty; level 0 holds all `length` nodes |
| ZSkiplist.Skiplist.ChainIsThread | ds/zset/skiplist.h:43-52 | from any node, level i visits exactly the later nodes taller than i, in order |
| ZSkiplist.Skiplist.Find | ds/zset/skiplist.h:43-52 | the first node scoring at or above the target, or the tail |
| ZSkiplist.Skiplist.Add | ds/zset/skiplist.h:54-85 | for any height chosen, the list holds one more member at that score and nothing else changes; the node of that score is returned, new only if there was none |
| ZSkiplist.Skiplist.Erase | ds/zset/skiplist.h:88-119 | the member leaves its node, a node without members leaves every level, and the result says whether the member was there |
| ZSkiplist.Skiplist.Rank | ds/zset/skiplist.h:127-142 | the number of entries before the member at its score |
| ZSkiplist.Skiplist.GetByRank | ds/zset/skiplist.h:144-164 | for any rank below the number of entries, the member at that place of the sorted entries; none for a negative rank |
| ZSkiplist.Skiplist.RandomLevel | ds/zset/skiplist.h:121-125 | any height from 1 to 32 |
| ScoreGroups.RunRefines | ds/zset/skiplist.h:54-119 | after any run of add and erase from the empty list, the nodes' scores and members are the sorted form of the abstract map from score to member set |
| ScoreGroups.RepresentationUnique | ds/zset/skiplist.h:54-119 | and the map has one sorted form only, member for member |
| ScoreGroups.AddRefines | ds/zset/skiplist.h:54-85 | add keeps the form sorted and adds one member to one score's set |
| ScoreGroups.EraseRefines | ds/zset/skiplist.h:88-119 | erase keeps the form sorted, takes one member out of one score's set and drops an empty set |
| Ranking.FlatAscends | ds/zset/skiplist.h:127-164 | entries by rank ascend by score, then member |
| Members.LessByFirstDifference | ds/zset/skiplist.h:15-15 | the order of members of one score: the first different byte decides, and a proper prefix comes first |
| Ranking.FlatHolds | ds/zset/skiplist.h:127-164 | the ranked entries are exactly the members at their scores |
| Ranking.RankUnique | ds/zset/skiplist.h:127-142 | no entry has two ranks |
| Ranking.RankIsIndex | ds/zset/skiplist.h:127-142 | the number of entries before a member at its own score is the place of its entry |
| Ranking.AddAgreesIff | ds/zset/ds_zset.h:16-23 | dictionary and list still agree after ZAdd if and only if the member is new or comes with the score it has |
| Ranking.EraseAgrees | ds/zset/ds_zset.h:75-88 | they agree after ZRem |
| Ranking.CardIsIndexed | ds/zset/ds_zset.h:46-51 | as many ranks as members in the dictionary |
| SortedSets.SortedSet.DictNode | ds/zset/ds_zset.h:53-62 | a member's dictionary entry is the one live node of its score, and that node holds it |
| SortedSets.SortedSet.ZAdd | ds/zset/ds_zset.h:16-23 | the list refines one more member at the score, and the invariant survives if and only if the member is new or has that score |
| SortedSets.SortedSet.ZRem | ds/zset/ds_zset.h:75-88 | the member leaves list and dictionary together, or nothing changes |
| SortedSets.SortedSet.ZIncrBy | ds/zset/ds_zset.h:90-103 | the member's score becomes the old one, or 0, plus the increment, and no other member's changes |
| SortedSets.SortedSet.ZScore | ds/zset/ds_zset.h:33-44 | the score at which the list holds the member |
| SortedSets.SortedSet.ZCard | ds/zset/ds_zset.h:46-51 | the number of entries in the list |
| SortedSets.SortedSet.ZRank | ds/zset/ds_zset.h:53-62 | the place of the member's entry among the sorted entries, or -1 |
| SortedSets.SortedSet.ZGetByRank | ds/zset/ds_zset.h:150-155 | the member at that place |
| SortedSets.SortedSet.RankSelect | ds/zset/ds_zset.h:53-62 | the member found at a rank is a given member if and only if the rank is that member's rank |
| SortedSets.SortedSet.ZRange | ds/zset/ds_zset.h:115-148 | exactly the members of the slice from start to end of the entries sorted by score and member |
| StrSkiplists.StrSkiplist.Find | ds/str/ds_strlist.h:39-48 | the first node with a key at or below the target in descending order, or the tail |
| StrSkiplists.StrSkiplist.Get | ds/str/ds_strlist.h:50-57 | found exactly if the map has the key, and then with its value |
| StrSkiplists.StrSkiplist.Put | ds/str/ds_strlist.h:60-88 | the map with that key updated and no other, for any height chosen |
| StrSkiplists.StrSkiplist.Erase | ds/str/ds_strlist.h:90-111 | the map without the key, and whether it was there |
| StrSkiplists.StrSkiplist.LevelDescends | ds/str/ds_strlist.h:38-111 | every link of every level leads to a node with a strictly smaller key or to the tail, and from `level` up the head's lead to the tail |
| StrSkiplists.StrSkiplist.Visit | ds/str/ds_strlist.h:119-134 | Begin to End visits each entry of the map exactly once, by descending key |
| StrSkiplists.StrSkiplist.Next | ds/str/ds_strlist.h:128-130 | from one node to the node after it |
| LRUCaches.LRUCache.Get | cache/lru.h:41-49 | a hit returns the slot's value and moves it to the front, the others in their order; a miss changes nothing |
| LRUCaches.LRUCache.Put | cache/lru.h:51-69 | the key's slot, with its value, comes to the front, the others in their order; a new one takes the place of the last if there is no room; map and ring stay in bijection |
| LRUCaches.LRUCache.AddToHead | cache/lru.h:71-76 | prev and next stay mutually inverse, with the node first |
| LRUCaches.LRUCache.RemoveNode | cache/lru.h:78-81 | prev and next stay mutually inverse without the node |
| LRUCaches.LRUCache.MoveToHead | cache/lru.h:83-86 | the node comes first, the others keep their order |
| LRUCaches.LRUCache.RemoveTail | cache/lru.h:88-92 | the last node of the ring is out, and returned |
| Recency.CacheIsMostRecent | cache/lru.h:41-69 | after any run the cache is the first `capacity` slots of the list of all touched keys by recency |
| Recency.RecentIs | cache/lru.h:41-69 | that list has exactly the touched keys, each once, each with the value of its last touch |
| Recency.RecentOrder | cache/lru.h:83-86 | further back in it means touched longer ago |
| Recency.CacheValues | cache/lru.h:51-69 | every value in the cache is the one last put under its key |
| Crc.Compute | util/crc.h:9-28 | the unmasked 32-bit accumulator with sign-extended bytes ends with the 16-bit register for polynomial 0x1021 started at 0 |
| Crc.LowFeeds | util/crc.h:18-18 | sign extension only reaches bits above the register |
| Crc.LowTurn | util/crc.h:19-25 | one turn of the accumulator is one step of the register under it, whatever stands above |
| Crc.Linear | util/crc.h:9-28 | the checksum of the XOR of two inputs of one length is the XOR of their checksums |
| Crc.OneByteCaught | util/crc.h:9-28 | inputs of one length that differ in exactly one byte have different checksums, which Logs.ReadDamaged turns into a reported failure |
| Crc.CheckValue | util/crc.h:9-28 | the digits 1 to 9 have the checksum 0x31C3, the published check value of this polynomial, start and bit order |
| Coding.RoundTrip16 | util/coding.h:5-19 | decoding undoes encoding, for every 16-bit number |
| Coding.RoundTrip32 | util/coding.h:21-39 | for every 32-bit number |
| Coding.RoundTrip64 | util/coding.h:41-66 | for every 64-bit number |
| Coding.Eight | util/coding.h:55-66 | the bytes decode to the number whose digits to base 256 they are, the lowest first |
| Entries.HeaderRoundTrip | storage/entry.h:63-89 | Decode recovers checksum, sizes, state and time stamp that Encode wrote |
| Entries.EncodedBytes | storage/entry.h:63-79 | every byte of a record: the two bytes of the value's CRC, low before high, two zeros, sizes, state, time stamp and id as little-endian numbers, then key, value and extra |
| Entries.DamageChangesChecksum | storage/entry.h:63-65 | changing any one byte of a value changes the number stored as its checksum |
| Entries.TxIdMisread | storage/entry.h:71-87 | what Decode takes for the transaction id is the upper half of the time stamp and the lower half of the id |
| Entries.StateRoundTrip | storage/entry.h:92-108 | type and mark packed into the state come out again, for marks below 128 |
| DBFiles.DBFile.ReadBuf | storage/db_file.cpp:102-127 | however pread splits it, either the whole range is read or the end of the file is reported, exactly when the range reaches past it |
| DBFiles.DBFile.Read | storage/db_file.cpp:63-100 | the record, the end of the file or a checksum failure, as the bytes at the offset determine |
| Logs.ReadDamaged | storage/db_file.cpp:95-98 | a record wholly in the file, but with exactly one byte of its value changed, reads as a checksum failure that names its key |
| DBFiles.DBFile.Write | storage/db_file.cpp:129-155 | however write splits it, the file grows by exactly the encoding of the record, whose bytes Entries.EncodedBytes gives |
| Logs.ReadWhole | storage/db_file.cpp:63-100 | a record wholly in the file reads back as it was written |
| Logs.ReadTorn | storage/db_file.cpp:63-100 | a record cut anywhere reports the end of the file, except that one of a key alone, cut inside the key, reads back without its key |
| Logs.ReachedIsInside | idx.cpp:33-55 | the records the loop gets are exactly those wholly inside the prefix that start below the block size |
| Logs.LoadFile | idx.cpp:30-56 | over any byte prefix of a written file the loop applies exactly those records, in order, each with the offset it starts at, and never fails |
| StringLog.IndexIsLastSet | idx.cpp:90-101 | the index has a key exactly if the last record about it is a set, and then holds that record's file, offset and value |
| StringLog.StoreAppends | lightdb.cpp:149-163 | rolling or not, one record is added at the end of all records, at a place the active file gives |
| StringLog.ReopenRebuilds | idx.cpp:11-59 | reopening rebuilds the index if no record starts at the block size |
| StringLog.StoreReopensIff | lightdb.cpp:152-152 | one store keeps reopening faithful if and only if its record does not start at the block size, or removes a key that is not there |
| TornTails.StoredBehind | idx.cpp:33-50 | a record stored behind the first bytes of a file reads back from its place; the next open comes to it if and only if those bytes end with a whole record |
| TornTails.ArrivesAtWhole | idx.cpp:33-50 | whatever stands behind them, the load loop goes from one whole record to the next |
| TornTails.TornLength | storage/db_file.cpp:63-100 | a record cut behind its header, with anything written over the cut, still reads as long as it was, past the cut |
| StringLog.CutReloads | idx.cpp:30-56 | loading a cut file gives the records and places that loading the file of its whole records gives |
| StringLog.EdgeRecordLost | idx.cpp:33-33 | for every first record there is a block size at which the next key stored is lost at reopening |
| StringLog.ReplayIsMap | idx.cpp:90-101 | places aside, the replayed index is the plain map of the records |
| StringLog.KeptReplays | lightdb.cpp:396-441 | dropping the records the index does not point at changes neither keys nor values |
| StringLog.CompactionKeepsMap | lightdb.cpp:396-441 | replaying the kept archived records and then the active file gives the map of everything |
| StringEngine.LightDB.Open | lightdb.cpp:15-46 | on the files a database left, the last one cut anywhere, the engine starts out with the index of the records wholly inside, and can store if nothing is torn |
| StringEngine.LightDB.LoadIdx | idx.cpp:11-59 | the replay loop over all files leaves the index of all records |
| StringEngine.LightDB.Store | lightdb.cpp:149-163 | the record goes to the end of the active file, or of a new one once the active file is longer than the block size; the old one is archived |
| StringEngine.LightDB.Limits | lightdb.cpp:71-84 | a key and value are accepted exactly if the key is not empty and both are within their limits; otherwise which error it is |
| StringEngine.LightDB.StrSet | db_str.cpp:9-31 | the plain map with the key set, for keys and values within the limits; index, cache and files stay in agreement |
| StringEngine.LightDB.StrSetNx | db_str.cpp:35-49 | sets exactly if the key is not there |
| StringEngine.LightDB.SetIndexer | db_str.cpp:258-275 | the key's place is where the record just written starts |
| StringEngine.LightDB.StrExist | db_str.cpp:277-287 | whether the plain map has the key |
| StringEngine.LightDB.GetVal | db_str.cpp:291-335 | the plain map's value, wherever it comes from: index, cache, active or archived file |
| StringEngine.LightDB.Get | db_str.cpp:52-70 | answers as the plain map does |
| StringEngine.LightDB.GetSet | db_str.cpp:74-81 | the old value of the plain map, if any, and the key set in any case |
| StringEngine.LightDB.Append | db_str.cpp:166-186 | the plain map's value, or nothing, with the text behind it, unless that is too large |
| StringEngine.LightDB.Remove | db_str.cpp:189-208 | the plain map without the key, and whether it was there |
| StringEngine.LightDB.FindValidEntries | lightdb.cpp:396-441 | exactly the records of the file that the index points at, in order |
| StringEngine.OpenCut | lightdb.cpp:15-46 | after a cut of the last file anywhere the engine answers as the plain map of the records wholly inside |
| StringEngine.Reopen | lightdb.cpp:15-46 | closing and opening on the same bytes keeps the map |
| ListLog.ListStore.LPush | db_list.cpp:7-26 | the list is the value before what it was, every other list stays, one record is logged, and the log still replays to the lists |
| ListLog.ListStore.RPush | db_list.cpp:30-49 | the list is what it was and the value behind it, every other list stays, one record is logged, and the log still replays to the lists |
| ListLog.ListStore.LPop | db_list.cpp:52-67 | the first element goes and is returned, an emptied list with it; the log still replays |
| ListLog.ListStore.RPop | db_list.cpp:70-85 | the same for the last element |
| ListLog.ListStore.LInsert | db_list.cpp:132-159 | the value stands right before or right after the first pivot as asked, nothing changes without one, other lists stay; the log still replays to the lists if and only if this record replays as the insert, as it does whenever the pivot holds no separator |
| ListLog.ListStore.LSet | db_list.cpp:163-185 | one element changes, inside the list's range only; the log still replays |
| ListLog.ListStore.LClear | db_list.cpp:247-267 | the list goes; the log still replays |
| ListLog.InsertReplays | idx.cpp:145-151 | a logged insert replays as the same insert, if the pivot holds no separator |
| ListLog.InsertReplaysIff | idx.cpp:145-151 | for every key, option, pivot and value, a logged insert replays as the same insert on whatever lists if and only if the pivot holds no separator |
| ListLog.InsertDecodesIff | idx.cpp:147-149 | the first piece of what was logged is the pivot if and only if the pivot holds no separator |
| ListLog.PushThenPop | ds/list/ds_list.h:27-78 | a pop undoes the push at its own end, empty lists aside |
| ListLog.PushedFront | ds/list/ds_list.h:27-33 | after a push at the front the list is the element and what it was; every other list stays |
| ListLog.PushedBack | ds/list/ds_list.h:58-64 | after a push at the back the list is what it was and the element; every other list stays |
| ListLog.InsertedAt | ds/list/ds_list.h:182-202 | the insert puts the value next to the first pivot, on the side asked for, and nowhere else |
| ListLog.DumpList | dump.cpp:7-20 | replaying the dump gives every list back, whichever key comes first |
| SetLog.SetStore.SAdd | db_set.cpp:8-29 | the member is added, and logged exactly if it is new; replay gives the members |
| SetLog.SetStore.SPop | db_set.cpp:32-50 | any member goes; the removal logged for it replays to the same members |
| SetLog.SetStore.SRem | db_set.cpp:70-88 | the member goes if it is there; replay gives the members |
| SetLog.SetStore.SMove | db_set.cpp:91-118 | if the member is there it is then in the destination, and no longer in the source unless they are the same; all other members of all sets stay; replay gives the members |
| SetLog.SetStore.SClear | db_set.cpp:208-231 | the set goes, unlogged if it is missing; replay gives the members |
| SetLog.PopAgrees | db_set.cpp:43-45 | a removal replayed on agreeing sets is the pop of that member, empty sets aside |
| SetLog.MoveMoves | ds/set/ds_set.h:85-98 | moving takes the member out of one set and puts it into the other, and changes nothing else |
| SetLog.DumpSet | dump.cpp:37-50 | replaying the dump gives every set back, in any order |
| HashLog.HashStore.HSet | db_hash.cpp:8-36 | the field is set unless it already reads as the value, which a missing field does for the empty text; replay gives the hashes |
| HashLog.HashStore.HSetNx | db_hash.cpp:41-63 | the field is set only if it is missing; replay gives the hashes |
| HashLog.HashStore.HClear | db_hash.cpp:247-261 | the hash goes; replay gives the hashes |
| HashLog.HashStore.HGet | db_hash.cpp:67-80 | found exactly if key and field are there, and otherwise the caller's text stays |
| HashLog.DumpHash | dump.cpp:22-35 | replaying the dump gives every hash back, in any order |
| Text.DecimalRoundTrip | idx.cpp:141-153 | stoi undoes to_string on every number that is not negative |
| Text.DecimalDigits | db_list.cpp:178-178 | to_string gives the decimal digits from the most significant on, without leading zero |
| Text.SplitWithStl | util/str.h:7-30 | the loop cuts at each separator and goes on one character behind the cut, whatever the separator's length |
| Text.SplitPivot | util/str.h:7-30 | a text without separator, the separator and a digit come apart into the text and the digit behind a zero |
| Text.FirstPieceIff | util/str.h:18-24 | the first piece is the whole text if and only if the text holds no separator |
| JsonRoundTrip.RoundTrip | util/cJson/cJSON.cpp:1312-1825 | for every tree of null, booleans, 32-bit integers, NUL-free strings, arrays and objects nested at most 1000 deep, formatted or not, parsing the print gives the tree |
| JsonAccepts.AcceptsText | util/cJson/cJSON.cpp:1095-1178 | every text of the RFC 8259 grammar with 32-bit integers, in any spelling of its strings and with any blanks, parses to the value it means, or fails exactly if that is nested deeper than 1000 |
| JsonAccepts.AcceptsValue | util/cJson/cJSON.cpp:1312-1364 | the same for a value in the middle of a text, with the offset behind it |
| JsonAccepts.AcceptsElements | util/cJson/cJSON.cpp:1441-1536 | the same for the elements of an array with blanks before and behind each |
| JsonAccepts.AcceptsFields | util/cJson/cJSON.cpp:1601-1711 | the same for the members of an object with blanks around keys, colons and values |
| JsonAccepts.AcceptsString | util/cJson/cJSON.cpp:773-899 | a string spelled in any mix of plain bytes, letter escapes and code point escapes parses to the bytes it means, up to a NUL |
| JsonAccepts.AcceptsNumber | util/cJson/cJSON.cpp:305-379 | any plain integer of 32 bits parses to its value, whatever follows that cannot extend it |
| JsonAccepts.LettersDecode | util/cJson/cJSON.cpp:830-859 | exactly the eight letters of section 7 of RFC 8259 are taken, for the bytes they stand for |
| JsonRoundTrip.PrintIs | util/cJson/cJSON.cpp:1367-1438 | a print, formatted or not, is a text of the grammar that means the tree printed |
| JsonText.EscapeText | util/cJson/cJSON.cpp:972-1014 | how each byte is printed, character by character |
| JsonText.QuotedText | util/cJson/cJSON.cpp:949-1021 | a printed string is its bytes' escapes in order between quotes |
| JsonText.ArrayText | util/cJson/cJSON.cpp:1539-1598 | an array is its elements between brackets with a comma, or a comma and a space, between |
| JsonText.ObjectText | util/cJson/cJSON.cpp:1714-1825 | an object is its members each on a line, indented by depth, with colon and tab, or all on one line without blanks |
| JsonRoundTrip.TooDeep | util/cJson/cJSON.cpp:1441-1610 | a printed tree of any depth parses if and only if it is nested at most 1000 deep |
| JsonRoundTrip.StringRoundTrip | util/cJson/cJSON.cpp:773-1021 | parsing a printed string gives the string back, for every NUL-free byte string |
| JsonRoundTrip.NumberRoundTrip | util/cJson/cJSON.cpp:305-379 | parsing a printed 32-bit integer gives it back |
| JsonRoundTrip.ValueRoundTrip | util/cJson/cJSON.cpp:1312-1438 | in the middle of a text, before anything that cannot extend a number, a printed tree parses back, or fails if too deep for where it stands |
| PrintBuffers.CostIsLength | util/cJson/cJSON.cpp:923-946 | the first pass counts exactly the bytes the second pass adds |
| PrintBuffers.PrintBuffer.CountEscapes | util/cJson/cJSON.cpp:923-946 | the loop's count is the difference between the printed and the plain length |
| PrintBuffers.PrintBuffer.PrintString | util/cJson/cJSON.cpp:902-1021 | the buffer grows by the quoted text, byte for byte, inside what was reserved, or the text is longer than a buffer can be |
| PrintBuffers.PrintBuffer.Ensure | util/cJson/cJSON.cpp:439-522 | room for the bytes asked for and one more, in this buffer or a larger one with the same content |
| PrintBuffers.PrintBuffer.UpdateOffset | util/cJson/cJSON.cpp:525-535 | the offset moves exactly past what was printed, if that holds no NUL |
| PrintBuffers.PrintBuffer.PrintValue | util/cJson/cJSON.cpp:1367-1438 | behind what is there stands the text of the tree; no write leaves the buffer |
| PrintBuffers.PrintBuffer.PrintArray | util/cJson/cJSON.cpp:1539-1598 | the same for arrays |
| PrintBuffers.PrintBuffer.PrintObject | util/cJson/cJSON.cpp:1714-1825 | the same for objects, with indentation by depth |
| PrintBuffers.PrintTree | util/cJson/cJSON.cpp:1187-1250 | the whole text of the tree, unless it is as long as a buffer can be |
| ParseBuffers.RoomLeft | util/cJson/cJSON.cpp:786-822 | what has been written at any point of the second pass leaves room for the NUL in the estimated allocation |
| ParseBuffers.SkippedTwo | util/cJson/cJSON.cpp:791-805 | a counted backslash and what follows it are counted once |
| ParseBuffers.ParseBuffer.ParseString | util/cJson/cJSON.cpp:773-899 | the loops compute the string the text spells, or fail, and no write leaves the array the estimate allocates, whatever the input |
| ParseBuffers.ParseBuffer.FindEnd | util/cJson/cJSON.cpp:786-812 | the closing quote and the number of backslashes the estimate takes off |
| ParseBuffers.ParseBuffer.ParseNumber | util/cJson/cJSON.cpp:305-379 | the number the text spells, as far as plain integers go |
| ParseBuffers.ParseBuffer.ParseValue | util/cJson/cJSON.cpp:1312-1364 | value and offset are those of the grammar function on the same text |
| ParseBuffers.ParseBuffer.ParseArray | util/cJson/cJSON.cpp:1441-1536 | the same for arrays, nesting limit and failures included |
| ParseBuffers.ParseBuffer.ParseObject | util/cJson/cJSON.cpp:1601-1711 | the same for objects |
| ParseBuffers.ParseBuffer.SkipWhitespace | util/cJson/cJSON.cpp:1038-1061 | past everything up to a space, NUL included, stepping back from the very end |
| CJson.Parse | util/cJson/cJSON.cpp:1095-1178 | what a C string parses to, a byte order mark skipped |
| CJson.Send | util/cJson/cJSON.cpp:1252-1255 | a tree printed at one end and parsed at the other arrives as it was sent |
| Utf.WellFormedLiteral | util/cJson/cJSON.cpp:652-770 | every code point outside the surrogates, spelled by its own hex digits in either case as one escape or as those of its two surrogates, decodes to it with length 6 or 12 |
| Utf.HexDigitStands | util/cJson/cJSON.cpp:615-640 | a hex digit counts as its place among 0 to 9 and a to f, in either case, and nothing else does |
| Utf.UnpairedRejected | util/cJson/cJSON.cpp:670-702 | a low surrogate, or a high one without a low one behind it, is rejected |
| Utf.Utf16LiteralToUtf8 | util/cJson/cJSON.cpp:652-770 | for any input the bytes written are the UTF-8 of what the escape stands for, and the length is what was consumed; a rejected escape writes nothing |
| Utf.ParseHex4 | util/cJson/cJSON.cpp:615-648 | the number of four hex digits, the first the most significant; 0 if one of them is none |
| Utf.EmitUtf8 | util/cJson/cJSON.cpp:714-764 | continuation bytes written from the last back, and the first one, are the UTF-8 of the code point |
| Utf.Utf8RoundTrip | util/cJson/cJSON.cpp:714-764 | those bytes decode to the code point, for every one up to 0x10FFFF (section 3 of RFC 3629) |
| Utf.Utf8Shortest | util/cJson/cJSON.cpp:714-764 | and no shorter sequence does |
| Utf.PairRoundTrip | util/cJson/cJSON.cpp:704-705 | a code point above 0xFFFF split into surrogates (section 2.1 of RFC 2781) comes back |
| Utf.PairInRange | util/cJson/cJSON.cpp:704-705 | every surrogate pair stands for a code point from 0x10000 to 0x10FFFF, and that one's surrogates are the pair |
| Messages.DecodeVoteArgs | raft/raftDataStructures.h:50-65 | a vote request with 32-bit fields arrives as it was encoded |
| Messages.DecodeVoteReply | raft/raftDataStructures.h:76-87 | a vote reply arrives as it was encoded |
| Messages.DecodeAppendArgs | raft/raftDataStructures.h:121-138 | an AppendEntries request arrives as it was encoded, entry by entry, each reprinted and parsed on the way, if commands hold no NUL |
| Messages.EncodeAppendArgs | raft/raftDataStructures.h:101-119 | the text written is the print of the request's tree, unless it or an entry is as long as a buffer can be |
| Messages.DecodeAppendReply | raft/raftDataStructures.h:183-189 | an AppendEntries reply arrives as it was encoded |
| Messages.DecodeEntry | raft/raftDataStructures.h:32-36 | a log entry arrives as it was encoded |
| MessageText.VoteArgsText | raft/raftDataStructures.h:50-57 | the text of a vote request: which field stands under which name, in order, each on a line |
| MessageText.VoteReplyText | raft/raftDataStructures.h:76-81 | the same for a vote reply |
| MessageText.AppendArgsText | raft/raftDataStructures.h:101-119 | the same for an AppendEntries request, the entries as an array |
| MessageText.AppendReplyText | raft/raftDataStructures.h:174-181 | the same for an AppendEntries reply |
| MessageText.EntryText | raft/raftDataStructures.h:26-31 | the same for a log entry |
| Messages.GetObjectItem | util/cJson/cJSON.cpp:1880-1915 | the first member of that name, case aside |
| Messages.CaseInsensitiveStrcmp | util/cJson/cJSON.cpp:133-155 | two C strings compare equal exactly if they have the same length and the same letters, case aside |

## Left out

- Sockets, epoll, RPC clients, threads, timers, the command-line client, benchmarks, configuration parsing and reply formatting: input and output, which the model takes as parameters or as the order of actions.
- Crashes and restart of a Raft server, and the file `persist` writes: the accepting path of AppendEntries (raft/raft.h:543-560) does not persist, so no durability across crashes is there to prove.
- `leader`, `leaderOut`, `reelect`, the condition variables and the replication queue of `raft/raft.h`: they decide when an action runs, and the cluster allows each at any moment.
- Raft compaction across servers: the previous-entry check (raft/raft.h:513-519) and `isLogUpToDate` use indices relative to `firstOffset`, so the cluster theorems take it as 0 and leave the truncation loop out of the cluster's reply and commit actions; on one server both are in.
- Compaction right after an election: `matchIndex` starts at the last index (raft/raft.h:288), so the loop drops the whole log; `RaftCompaction.FreshLeaderConservesIff` says when that loses nothing, and the conservation theorem asks that only applied entries are dropped.
- RaftNode.Raft.RequestVote: does not model the persistence call, the wake-ups or `leader` among the fields it sets.
- RaftNode.Raft.AppendEntries: asks that the indices it uses are inside the log (`AppendFits`), which the code takes for granted; outside it the code reads past its vector.
- Messages.DecodeAppendArgs: says nothing about a text that no encode wrote, on which the code dereferences a member that is not there.
- ZSkiplist.Skiplist.Erase: the node taken out is left allocated, as in the code; the string list's `delete` is not modelled either.
- The outer maps from keys to sorted sets, and ZClear: one key at a time.
- SortedSets.SortedSet.ZAdd: states the list and the dictionary after adding a present member at another score, and that they then disagree; later calls on that state are left out.
- Sorted-set dump, replay and reverse queries: the tail has no levels (ds/zset/skiplist.h:35), so the iterator's End reads past it; ZRevRank uses the size of the outer map and ZRevRange overwrites its start first.
- Scores as floating-point numbers: they are real numbers, since the code only compares and adds them.
- LRUCache::remove (cache/lru.h:32-38): it unlinks the node but keeps the map entry and the size, so the ring and the map no longer agree.
- StringEngine.LightDB.Remove: leaves the cache's entry where it is, which no read consults while the index lacks the key.
- Expiry and time to live: wall-clock time is external, and replaying a later set does not clear an earlier deadline (idx.cpp:95-107).
- Commands that store after a torn open: the engine then only serves reads, and `TornTails.StoredBehind` says of each such record that no later open comes to it.
- TornTails.StoredBehind: asks, for a cut inside a header, that the lengths read out of it do not add up past 32 bits; ReadBuf would put that many bytes on the stack.
- StringEngine.LightDB.Open: takes the files a database left in place of the directory scan, with ids that follow one another from 0; only the last one may be cut.
- mergeString's index update and the renames of a merge (lightdb.cpp:349-359): the recorded file id is taken after its increment; what is kept and what it replays to is proved, the moving of files is not.
- dumpStore's file rolling (lightdb.cpp:278-290): the dumps are sequences of records.
- ListLog.ListStore.LInsert: with the separator in the pivot its record need not replay as the insert; it may on particular lists, and `ListLog.InsertReplaysIff` shows that on all lists it does only without one.
- ListLog.ListStore.LPop: like RPop and SPop it asks that a container that is there is not empty; the code then takes from an empty one.
- LTrim (its index never advances in one branch), LRem (it advances an iterator it has erased), HDel (its expiry test is inverted), MSet (an uninitialised flag), SUnion and SDiff.
- JsonRoundTrip.NumberRoundTrip: covers 32-bit integers; fractions, exponents and larger numbers go through floating point and the locale, and end a parse as `NotModelled`.
- JsonRoundTrip.RoundTrip: trees are values, so the linked child lists, reference items and allocation failure of the library are not captured; Minify is left out.
- Bit operations of the codec and of the Unicode escapes: written as the quotients, remainders and sums they equal on bytes that do not overlap; the checksum is on bit vectors.
- ZSkiplist.Skiplist.Find: asks for a score below the tail's; at or above it the code compares past the tail, and Add, Erase and Rank with it.
- ZSkiplist.Skiplist.GetByRank: asks for a rank below the number of entries; past it the code reads the tail's missing level, and ZGetByRank and ZRange with it.
- SortedSets.SortedSet.ZIncrBy: asks that the new score stays below the tail's.
- StrSkiplists.StrSkiplist.Get: asks for a key, as Put and Erase do; the empty one is the sentinels' own, and CheckKeyValue keeps it out.
- DBFiles.DBFile.ReadBuf: does not model interrupted and failed pread calls, nor does Read; DBFile.Write does not model such write calls.
- ParseBuffers.ParseBuffer.ParseNumber: ends as `NotModelled` on a number outside plain 32-bit integers, and CJson.Parse on a text with one.
- Messages.EncodeAppendArgs: asks for 32-bit fields and commands without NUL; `c_str` would cut a command at its NUL.
- JsonAccepts.AcceptsText: the parser also takes some texts outside the grammar, such as leading zeros and control characters between tokens; what it does outside the grammar is stated by ParseText alone.
