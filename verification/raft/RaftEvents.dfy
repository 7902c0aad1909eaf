/** The five events a step of the cluster can record, and that each keeps the
    invariant of histories and only ever adds to what was recorded. */
module RaftEvents {
  import opened RaftState
  import opened RaftHistory

  function EmptyHistory(): History { History(map[], map[], map[], map[], map[]) }

  function Vote(h: History, t: int, v: int, c: int): History {
    h.(votes := h.votes[(t, v) := c])
  }

  function Elect(h: History, t: int, c: int): History {
    var log := LogOf(h, c, t);
    h.(leaders := h.leaders[t := c], tlog := h.tlog[t := log], base := h.base[t := |log|],
       acked := h.acked[(t, c) := |log|])
  }

  function Append(h: History, t: int, e: LogEntry): History
    requires t in h.leaders && t in h.tlog
  {
    var log := h.tlog[t] + [e];
    h.(tlog := h.tlog[t := log], acked := h.acked[(t, h.leaders[t]) := |log|])
  }

  function Ack(h: History, t: int, v: int, k: nat): History {
    h.(acked := h.acked[(t, v) := k])
  }

  lemma EmptyHistoryInv(cur: seq<int>)
    ensures HistoryInv(EmptyHistory(), cur)
  {
  }

  /** A server's term only grows; nothing recorded depends on more than that. */
  lemma BumpKeeps(h: History, cur: seq<int>, cur': seq<int>)
    requires HistoryInv(h, cur) && |cur| == |cur'|
    requires forall v :: 0 <= v < |cur| ==> cur[v] <= cur'[v]
    ensures HistoryInv(h, cur')
  {
    forall t | t in h.leaders ensures LeaderOk(h, cur', t) {
      assert LeaderOk(h, cur, t);
    }
    forall t, v | (t, v) in h.votes ensures VoteOk(h, cur', t, v) {
      assert VoteOk(h, cur, t, v);
    }
  }

  /** Entries stay as they were described when logs only grow at the end. */
  lemma EntriesKeep(h: History, h': History, t: int, i: int)
    requires EntryInv(h) && Extends(h, h') && t in h.tlog && 0 <= i < |h.tlog[t]|
    ensures t in h'.tlog && i < |h'.tlog[t]| && EntryOk(h', t, i)
  {
    assert EntryOk(h, t, i);
    var u := h.tlog[t][i].term;
    assert h.tlog[t] <= h'.tlog[t] && h.tlog[u] <= h'.tlog[u];
    assert h'.tlog[t][..i + 1] == h.tlog[t][..i + 1] == h.tlog[u][..i + 1] == h'.tlog[u][..i + 1];
  }

  lemma ElectorsGrow(h: History, h': History, n: nat, t: int, c: int)
    requires Extends(h, h')
    requires LogOf(h', c, t) == LogOf(h, c, t)
    requires forall v :: 0 <= v < n && (t, v) in h.votes ==> LogOf(h', v, t) == LogOf(h, v, t)
    ensures |Electors(h, n, t, c)| <= |Electors(h', n, t, c)|
  {
    SubsetSize(Electors(h, n, t, c), Electors(h', n, t, c));
  }

  lemma ElectorsVoted(h: History, n: nat, t: int, c: int)
    ensures |Electors(h, n, t, c)| <= |Voters(h, n, t, c)|
  {
    SubsetSize(Electors(h, n, t, c), Voters(h, n, t, c));
  }

  /** The old leaders and votes stay as described, whatever event was recorded,
      when the logs they were described by are unchanged. */
  lemma OthersKeep(h: History, h': History, cur: seq<int>)
    requires HistoryInv(h, cur) && Extends(h, h') && AckInv(h', cur)
    requires forall w, u :: 0 <= w < |cur| && u <= cur[w] ==> LogOf(h', w, u) == LogOf(h, w, u)
    requires forall t :: t in h.leaders && (t, h.leaders[t]) in h.acked && t in h.tlog ==>
               h'.acked[(t, h.leaders[t])] == |h'.tlog[t]|
    ensures forall t {:trigger LeaderOk(h', cur, t)} :: t in h.leaders ==> LeaderOk(h', cur, t)
    ensures forall t, v {:trigger VoteOk(h', cur, t, v)} :: (t, v) in h.votes ==> VoteOk(h', cur, t, v)
    ensures forall t, i {:trigger EntryOk(h', t, i)} :: t in h.tlog && 0 <= i < |h.tlog[t]| ==>
            i < |h'.tlog[t]| && EntryOk(h', t, i)
  {
    forall t {:trigger LeaderOk(h', cur, t)} | t in h.leaders ensures LeaderOk(h', cur, t) {
      assert LeaderOk(h, cur, t);
      assert h.tlog[t] <= h'.tlog[t];
      forall v | 0 <= v < |cur| && (t, v) in h.votes ensures LogOf(h', v, t) == LogOf(h, v, t) {
        assert VoteOk(h, cur, t, v);
      }
      ElectorsGrow(h, h', |cur|, t, h.leaders[t]);
    }
    forall t, v {:trigger VoteOk(h', cur, t, v)} | (t, v) in h.votes ensures VoteOk(h', cur, t, v) {
      assert VoteOk(h, cur, t, v);
    }
    forall t, i {:trigger EntryOk(h', t, i)} | t in h.tlog && 0 <= i < |h.tlog[t]|
      ensures i < |h'.tlog[t]| && EntryOk(h', t, i) {
      EntriesKeep(h, h', t, i);
    }
  }

  /** A change to what `v` accepted in its current term does not reach the logs it held before. */
  lemma LogsBefore(h: History, h': History, cur: seq<int>, t: int, v: int)
    requires AckInv(h, cur) && Extends(h, h') && 0 <= v < |cur| && t == cur[v]
    requires forall k :: k in h'.acked && k != (t, v) ==> k in h.acked && h'.acked[k] == h.acked[k]
    ensures forall w, u :: 0 <= w < |cur| && (w != v || u <= t) ==> LogOf(h', w, u) == LogOf(h, w, u)
    ensures forall w, u :: 0 <= w < |cur| && u <= cur[w] ==> LogOf(h', w, u) == LogOf(h, w, u)
  {
    forall w, u | 0 <= w < |cur| && (w != v || u <= t) ensures LogOf(h', w, u) == LogOf(h, w, u) {
      LogOfStable(h, h', cur, w, u);
    }
  }

  lemma VoteKeeps(h: History, cur: seq<int>, t: int, v: int, c: int)
    requires HistoryInv(h, cur) && 0 <= v < |cur| && 0 <= c < |cur| && 1 <= t <= cur[v] && t <= cur[c]
    requires (t, v) !in h.votes
    requires t in h.leaders || UpToDate(LogOf(h, c, t), LogOf(h, v, t))
    ensures HistoryInv(Vote(h, t, v, c), cur) && Extends(h, Vote(h, t, v, c))
    ensures forall w, u :: LogOf(Vote(h, t, v, c), w, u) == LogOf(h, w, u)
  {
    var h' := Vote(h, t, v, c);
    forall w, u ensures LogOf(h', w, u) == LogOf(h, w, u) {
      LogOfStable(h, h', cur, w, u);
    }
    LeadersAcked(h, cur);
    OthersKeep(h, h', cur);
  }

  /** One majority of votes in a term leaves no room for another leader of it. */
  lemma MajorityIsExclusive(h: History, cur: seq<int>, t: int, c: int)
    requires HistoryInv(h, cur) && t in h.leaders
    requires |Voters(h, |cur|, t, c)| >= Majority(|cur|)
    ensures h.leaders[t] == c
  {
    assert LeaderOk(h, cur, t);
    ElectorsVoted(h, |cur|, t, h.leaders[t]);
    OneMajority(h, |cur|, t, c, h.leaders[t]);
  }

  /** Two candidates cannot both collect a majority of one term's votes. */
  lemma OneMajority(h: History, n: nat, t: int, a: int, b: int)
    requires |Voters(h, n, t, a)| >= Majority(n) && |Voters(h, n, t, b)| >= Majority(n)
    ensures a == b
  {
    var v := QuorumsMeet(n, Voters(h, n, t, a), Voters(h, n, t, b));
  }

  /** An entry copied from an older leader's log into a new base is described as there. */
  lemma CopiedEntry(h: History, a: int, t: int, i: int)
    requires a in h.tlog && t in h.tlog && t in h.base && a < t
    requires 0 <= i < |h.tlog[a]| && i < |h.tlog[t]| && i < h.base[t]
    requires EntryOk(h, a, i) && h.tlog[t][..i + 1] == h.tlog[a][..i + 1]
    ensures EntryOk(h, t, i)
  {
    assert h.tlog[t][i] == h.tlog[t][..i + 1][i] == h.tlog[a][..i + 1][i];
  }

  lemma ElectAcks(h: History, cur: seq<int>, t: int, c: int)
    requires HistoryInv(h, cur) && 0 <= c < |cur| && 1 <= t == cur[c] && t !in h.leaders
    ensures AckInv(Elect(h, t, c), cur) && Extends(h, Elect(h, t, c))
    ensures forall w, u :: 0 <= w < |cur| && (w != c || u <= t) ==> LogOf(Elect(h, t, c), w, u) == LogOf(h, w, u)
    ensures LogOf(Elect(h, t, c), c, t + 1) == LogOf(h, c, t) == LogOf(h, c, t + 1)
  {
    var h' := Elect(h, t, c);
    var log := LogOf(h, c, t);
    assert t !in h.tlog && t !in h.base;
    assert (t, c) !in h.acked;
    LogsBefore(h, h', cur, t, c);
    assert LogOf(h', c, t + 1) == Take(log, |log|) == log;
  }

  lemma ElectEntries(h: History, cur: seq<int>, t: int, c: int)
    requires HistoryInv(h, cur) && 1 <= t && t !in h.leaders
    requires Extends(h, Elect(h, t, c))
    ensures EntryInv(Elect(h, t, c))
  {
    var h' := Elect(h, t, c);
    var a := LogOfIsPrefix(h, cur, c, t);
    forall u, i {:trigger EntryOk(h', u, i)} | u in h'.tlog && 0 <= i < |h'.tlog[u]| ensures EntryOk(h', u, i) {
      if u == t {
        EntriesKeep(h, h', a, i);
        CopiedEntry(h', a, t, i);
      } else {
        EntriesKeep(h, h', u, i);
      }
    }
  }

  lemma ElectKeeps(h: History, cur: seq<int>, t: int, c: int)
    requires HistoryInv(h, cur) && 0 <= c < |cur| && 1 <= t == cur[c]
    requires t !in h.leaders && |Voters(h, |cur|, t, c)| >= Majority(|cur|)
    ensures HistoryInv(Elect(h, t, c), cur) && Extends(h, Elect(h, t, c))
    ensures forall w, u :: 0 <= w < |cur| && (w != c || u <= t) ==> LogOf(Elect(h, t, c), w, u) == LogOf(h, w, u)
    ensures LogOf(Elect(h, t, c), c, t + 1) == LogOf(h, c, t) == LogOf(h, c, t + 1)
  {
    var h' := Elect(h, t, c);
    ElectAcks(h, cur, t, c);
    ElectEntries(h, cur, t, c);
    LeadersAcked(h, cur);
    OthersKeep(h, h', cur);
    forall v | v in Voters(h, |cur|, t, c) ensures v in Electors(h', |cur|, t, c) {
      assert VoteOk(h, cur, t, v);
    }
    SubsetSize(Voters(h, |cur|, t, c), Electors(h', |cur|, t, c));
    assert LeaderOk(h', cur, t);
  }

  lemma AppendAcks(h: History, cur: seq<int>, t: int, e: LogEntry)
    requires HistoryInv(h, cur) && t in h.leaders && t in h.tlog
    requires 0 <= h.leaders[t] < |cur| && t == cur[h.leaders[t]]
    ensures AckInv(Append(h, t, e), cur) && Extends(h, Append(h, t, e))
    ensures forall w, u :: 0 <= w < |cur| && (w != h.leaders[t] || u <= t) ==>
            LogOf(Append(h, t, e), w, u) == LogOf(h, w, u)
    ensures LogOf(Append(h, t, e), h.leaders[t], t + 1) == LogOf(h, h.leaders[t], t + 1) + [e]
  {
    assert LeaderOk(h, cur, t);
    LogsBefore(h, Append(h, t, e), cur, t, h.leaders[t]);
  }

  lemma AppendKeeps(h: History, cur: seq<int>, t: int, e: LogEntry)
    requires HistoryInv(h, cur) && t in h.leaders && t in h.tlog && e.term == t
    requires 0 <= h.leaders[t] < |cur| && t == cur[h.leaders[t]]
    ensures HistoryInv(Append(h, t, e), cur) && Extends(h, Append(h, t, e))
    ensures forall w, u :: 0 <= w < |cur| && (w != h.leaders[t] || u <= t) ==>
            LogOf(Append(h, t, e), w, u) == LogOf(h, w, u)
    ensures LogOf(Append(h, t, e), h.leaders[t], t + 1) == LogOf(h, h.leaders[t], t + 1) + [e]
  {
    var h' := Append(h, t, e);
    AppendAcks(h, cur, t, e);
    LeadersAcked(h, cur);
    OthersKeep(h, h', cur);
    assert LeaderOk(h, cur, t);
    assert EntryOk(h', t, |h.tlog[t]|);
  }

  lemma LeadersAcked(h: History, cur: seq<int>)
    requires HistoryInv(h, cur)
    ensures forall u :: u in h.leaders ==>
            (u, h.leaders[u]) in h.acked && u in h.tlog && h.acked[(u, h.leaders[u])] == |h.tlog[u]|
  {
    forall u | u in h.leaders
      ensures (u, h.leaders[u]) in h.acked && u in h.tlog && h.acked[(u, h.leaders[u])] == |h.tlog[u]|
    {
      assert LeaderOk(h, cur, u);
    }
  }

  lemma AckKeeps(h: History, cur: seq<int>, t: int, v: int, k: nat)
    requires HistoryInv(h, cur) && 0 <= v < |cur| && t == cur[v]
    requires t in h.leaders && t in h.tlog && t in h.base && h.leaders[t] != v
    requires h.base[t] <= k <= |h.tlog[t]|
    requires (t, v) in h.acked ==> h.acked[(t, v)] <= k
    ensures HistoryInv(Ack(h, t, v, k), cur) && Extends(h, Ack(h, t, v, k))
    ensures forall w, u :: 0 <= w < |cur| && (w != v || u <= t) ==> LogOf(Ack(h, t, v, k), w, u) == LogOf(h, w, u)
    ensures LogOf(Ack(h, t, v, k), v, t + 1) == h.tlog[t][..k]
  {
    var h' := Ack(h, t, v, k);
    assert LeaderOk(h, cur, t);
    LeadersAcked(h, cur);
    LogsBefore(h, h', cur, t, v);
    OthersKeep(h, h', cur);
  }
}
