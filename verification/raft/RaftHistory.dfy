/** What a run of the cluster has done so far, independent of the current
    fields of any server: who led each term, how each leader's log grew, how
    much of it every server accepted, and who voted for whom. Server terms
    appear only as bounds. The safety argument is made here, once, over five
    abstract events; RaftInvariant.dfy shows that every handler is such events. */
module RaftHistory {
  import opened RaftState

  datatype History = History(
    leaders: map<int, int>,             // term -> the server that led it
    tlog: map<int, seq<LogEntry>>,      // term -> that leader's log, as it has grown
    base: map<int, nat>,                // term -> length of that log when it was elected
    acked: map<(int, int), nat>,        // (term, server) -> length of tlog[term] last accepted
    votes: map<(int, int), int>)        // (term, server) -> the candidate voted for

  function Take(log: seq<LogEntry>, k: nat): seq<LogEntry> {
    if k <= |log| then log[..k] else log
  }

  function TLog(h: History, t: int): seq<LogEntry> {
    if t in h.tlog then h.tlog[t] else []
  }

  /** The log server `v` holds before anything of term `t` or later reaches it. */
  function LogOf(h: History, v: int, t: int): seq<LogEntry>
    decreases t
  {
    if t <= 0 then []
    else if (t - 1, v) in h.acked then Take(TLog(h, t - 1), h.acked[(t - 1, v)])
    else LogOf(h, v, t - 1)
  }

  predicate UpToDate(a: seq<LogEntry>, b: seq<LogEntry>) {
    LastTermOf(a) > LastTermOf(b) || (LastTermOf(a) == LastTermOf(b) && |a| >= |b|)
  }

  // ---- majorities ----

  ghost function Ids(n: nat): (ids: set<int>)
    ensures forall v :: v in ids <==> 0 <= v < n
    ensures |ids| == n
  {
    if n == 0 then {} else Ids(n - 1) + {n - 1}
  }

  /** Two majorities of one cluster share a server. */
  lemma QuorumsMeet(n: nat, a: set<int>, b: set<int>) returns (v: int)
    requires a <= Ids(n) && b <= Ids(n)
    requires |a| >= Majority(n) && |b| >= Majority(n)
    ensures v in a && v in b
  {
    if a * b == {} {
      assert |a + b| == |a| + |b|;
      SubsetSize(a + b, Ids(n));
      assert false;
    }
    v :| v in a * b;
  }

  lemma {:induction false} SubsetSize(a: set<int>, b: set<int>)
    requires a <= b
    ensures |a| <= |b|
  {
    assert b == a + (b - a);
  }

  // ---- the invariant of histories ----

  ghost function Voters(h: History, n: nat, t: int, c: int): set<int> {
    set v | 0 <= v < n && (t, v) in h.votes && h.votes[(t, v)] == c
  }

  /** The voters whose own log before term `t` was no more up to date than `c`'s. */
  ghost function Electors(h: History, n: nat, t: int, c: int): set<int> {
    set v | 0 <= v < n && (t, v) in h.votes && h.votes[(t, v)] == c && UpToDate(LogOf(h, c, t), LogOf(h, v, t))
  }

  ghost function Ackers(h: History, n: nat, t: int, k: nat): set<int> {
    set v | 0 <= v < n && (t, v) in h.acked && h.acked[(t, v)] >= k
  }

  ghost predicate AckInv(h: History, cur: seq<int>) {
    forall t, v :: (t, v) in h.acked ==>
      && 0 <= v < |cur| && t <= cur[v] && t in h.leaders && t in h.tlog && t in h.base
      && h.base[t] <= h.acked[(t, v)] <= |h.tlog[t]|
  }

  ghost predicate LeaderOk(h: History, cur: seq<int>, t: int)
    requires t in h.leaders
  {
    var c := h.leaders[t];
    && t in h.tlog && t in h.base && 1 <= t && 0 <= c < |cur| && t <= cur[c]
    && (t, c) in h.acked && h.acked[(t, c)] == |h.tlog[t]|
    && h.base[t] <= |h.tlog[t]|
    && h.tlog[t][..h.base[t]] == LogOf(h, c, t)
    && |Electors(h, |cur|, t, c)| >= Majority(|cur|)
  }

  /** Entry `i` of the log of term `t`'s leader carries a term u <= t, and up to
      and including it that log is the log of term u's leader. */
  ghost predicate EntryOk(h: History, t: int, i: int)
    requires t in h.tlog && 0 <= i < |h.tlog[t]|
  {
    var u := h.tlog[t][i].term;
    && u in h.leaders && u in h.tlog && u in h.base && u <= t
    && h.base[u] <= i < |h.tlog[u]|
    && h.tlog[t][..i + 1] == h.tlog[u][..i + 1]
    && (t in h.base ==> (i >= h.base[t] <==> u == t))
  }

  ghost predicate EntryInv(h: History) {
    && h.tlog.Keys == h.leaders.Keys == h.base.Keys
    && forall t, i {:trigger EntryOk(h, t, i)} :: t in h.tlog && 0 <= i < |h.tlog[t]| ==> EntryOk(h, t, i)
  }

  ghost predicate VoteOk(h: History, cur: seq<int>, t: int, v: int)
    requires (t, v) in h.votes
  {
    var c := h.votes[(t, v)];
    && 0 <= v < |cur| && 0 <= c < |cur| && 1 <= t <= cur[v] && t <= cur[c]
    && (t in h.leaders || UpToDate(LogOf(h, c, t), LogOf(h, v, t)))
  }

  ghost predicate HistoryInv(h: History, cur: seq<int>) {
    && AckInv(h, cur)
    && EntryInv(h)
    && (forall t {:trigger LeaderOk(h, cur, t)} :: t in h.leaders ==> LeaderOk(h, cur, t))
    && (forall t, v {:trigger VoteOk(h, cur, t, v)} :: (t, v) in h.votes ==> VoteOk(h, cur, t, v))
  }

  /** Nothing recorded is ever taken back. */
  ghost predicate Extends(h: History, h': History) {
    && (forall t :: t in h.leaders ==> t in h'.leaders && h'.leaders[t] == h.leaders[t])
    && (forall t :: t in h.tlog ==> t in h'.tlog && h.tlog[t] <= h'.tlog[t])
    && (forall t :: t in h.base ==> t in h'.base && h'.base[t] == h.base[t])
    && (forall k :: k in h.acked ==> k in h'.acked && h.acked[k] <= h'.acked[k])
    && (forall k :: k in h.votes ==> k in h'.votes && h'.votes[k] == h.votes[k])
  }

  // ---- facts about logs ----

  /** A log held by some server: a prefix of the log of the term it was last accepted from. */
  lemma {:induction false} LogOfIsPrefix(h: History, cur: seq<int>, v: int, t: int) returns (u: int)
    requires AckInv(h, cur)
    ensures LogOf(h, v, t) == [] || (0 <= u < t && (u, v) in h.acked && LogOf(h, v, t) == h.tlog[u][..h.acked[(u, v)]])
    ensures LogOf(h, v, t) != [] ==> forall w :: u < w < t ==> (w, v) !in h.acked
    decreases t
  {
    if t <= 0 {
      u := 0;
    } else if (t - 1, v) in h.acked {
      u := t - 1;
    } else {
      u := LogOfIsPrefix(h, cur, v, t - 1);
    }
  }

  /** With an ack at `a`, the log before `t` is what the latest ack below `t` left. */
  lemma {:induction false} LogOfAfterAck(h: History, cur: seq<int>, v: int, t: int, a: int) returns (u: int)
    requires AckInv(h, cur) && 0 <= a < t && (a, v) in h.acked
    ensures a <= u < t && (u, v) in h.acked && LogOf(h, v, t) == h.tlog[u][..h.acked[(u, v)]]
    decreases t
  {
    if (t - 1, v) in h.acked {
      u := t - 1;
    } else {
      u := LogOfAfterAck(h, cur, v, t - 1, a);
    }
  }

  /** LogOf reads only the acks of `v` below `t` and the logs they cover. */
  lemma {:induction false} LogOfStable(h: History, h': History, cur: seq<int>, v: int, t: int)
    requires AckInv(h, cur) && Extends(h, h')
    requires forall u :: u < t && (u, v) in h'.acked ==> (u, v) in h.acked && h.acked[(u, v)] == h'.acked[(u, v)]
    ensures LogOf(h', v, t) == LogOf(h, v, t)
    decreases t
  {
    if t > 0 {
      if (t - 1, v) in h.acked {
        assert h.tlog[t - 1] <= h'.tlog[t - 1];
      } else {
        LogOfStable(h, h', cur, v, t - 1);
      }
    }
  }

  /** Terms never decrease along a leader's log. */
  lemma TermsAscend(h: History, t: int, i: int, j: int)
    requires EntryInv(h) && t in h.tlog && 0 <= i <= j < |h.tlog[t]|
    ensures h.tlog[t][i].term <= h.tlog[t][j].term
  {
    var u := h.tlog[t][j].term;
    assert EntryOk(h, t, j);
    assert h.tlog[t][..j + 1][i] == h.tlog[u][..j + 1][i];
    assert EntryOk(h, u, i);
  }

  /** Two leaders' logs with the same term at one index agree up to there. */
  lemma TLogsMatch(h: History, t1: int, t2: int, i: int)
    requires EntryInv(h) && t1 in h.tlog && t2 in h.tlog
    requires 0 <= i < |h.tlog[t1]| && i < |h.tlog[t2]| && h.tlog[t1][i].term == h.tlog[t2][i].term
    ensures h.tlog[t1][..i + 1] == h.tlog[t2][..i + 1]
  {
    assert EntryOk(h, t1, i) && EntryOk(h, t2, i);
  }

  /** The run of term u starts at base[u] in every leader's log that has it. */
  lemma TermRun(h: History, t: int, i: int, j: int)
    requires EntryInv(h) && t in h.tlog && 0 <= i < |h.tlog[t]|
    requires h.tlog[t][i].term in h.base && h.base[h.tlog[t][i].term] <= j <= i
    ensures h.tlog[t][j].term == h.tlog[t][i].term
  {
    var u := h.tlog[t][i].term;
    assert EntryOk(h, t, i);
    assert h.tlog[t][..i + 1][j] == h.tlog[u][..i + 1][j];
    assert EntryOk(h, u, j);
  }

  // ---- leader completeness ----

  /** Index `n` of the log of term `t` reached a majority while `t` led. */
  ghost predicate Committed(h: History, n: nat, t: int, i: int) {
    && t in h.leaders && t in h.tlog && t in h.base
    && h.base[t] <= i < |h.tlog[t]|
    && |Ackers(h, n, t, i + 1)| >= Majority(n)
  }

  /** The leader of term `s` was elected with entries 0..i of the log of term `t`'s leader. */
  ghost predicate Keeps(h: History, t: int, i: int, s: int) {
    && t in h.tlog && 0 <= i < |h.tlog[t]|
    && s in h.tlog && s in h.base && i < h.base[s] <= |h.tlog[s]|
    && h.tlog[s][..i + 1] == h.tlog[t][..i + 1]
  }

  /** An up-to-date log holds everything the other log shares with a committed
      prefix: the comparison of section 5.4.1 of the extended Raft paper. */
  lemma UpToDateKeeps(h: History, cur: seq<int>, t: int, i: int, t': int, a: int, ka: nat, b: int, kb: nat)
    requires HistoryInv(h, cur)
    requires t in h.tlog && t in h.base && h.base[t] <= i < |h.tlog[t]|
    requires a in h.tlog && ka <= |h.tlog[a]| && a < t'
    requires b in h.tlog && i < kb <= |h.tlog[b]|
    requires h.tlog[b][..i + 1] == h.tlog[t][..i + 1]
    requires UpToDate(h.tlog[a][..ka], h.tlog[b][..kb])
    requires forall s :: t < s < t' && s in h.leaders ==> Keeps(h, t, i, s)
    ensures ka > i && h.tlog[a][..ka][..i + 1] == h.tlog[t][..i + 1]
  {
    assert EntryOk(h, t, i);
    assert h.tlog[b][i] == h.tlog[b][..i + 1][i] == h.tlog[t][..i + 1][i] == h.tlog[t][i];
    TermsAscend(h, b, i, kb - 1);
    var last := h.tlog[b][kb - 1].term;
    assert LastTermOf(h.tlog[b][..kb]) == last >= t;
    assert ka > 0 by {
      assert EntryOk(h, b, kb - 1);
      assert LeaderOk(h, cur, last);
    }
    var s := h.tlog[a][ka - 1].term;
    assert LastTermOf(h.tlog[a][..ka]) == s;
    assert EntryOk(h, a, ka - 1);
    if s == last {
      assert ka >= kb;
      assert EntryOk(h, b, kb - 1);
      assert h.tlog[a][..ka][..i + 1] == h.tlog[s][..ka][..i + 1] == h.tlog[s][..kb][..i + 1] ==
             h.tlog[b][..kb][..i + 1] == h.tlog[b][..i + 1];
    } else {
      assert t < s < t';
      assert h.base[s] <= ka - 1;
      assert h.tlog[a][..ka][..i + 1] == h.tlog[s][..ka][..i + 1] == h.tlog[s][..i + 1];
    }
  }

  /** Leader completeness (section 5.4 of the extended Raft paper): every later
      leader was elected with the committed prefix already in its log. */
  lemma {:induction false} LeaderCompleteness(h: History, cur: seq<int>, t: int, i: int, t': int)
    requires HistoryInv(h, cur) && Committed(h, |cur|, t, i)
    requires t' in h.leaders && t < t'
    ensures Keeps(h, t, i, t')
    decreases t'
  {
    var n := |cur|;
    var c := h.leaders[t'];
    assert LeaderOk(h, cur, t') && LeaderOk(h, cur, t);
    var q, acks := Electors(h, n, t', c), Ackers(h, n, t, i + 1);
    assert q <= Ids(n) && acks <= Ids(n);
    var v := QuorumsMeet(n, q, acks);
    var b := LogOfAfterAck(h, cur, v, t', t);
    forall s | t < s < t' && s in h.leaders
      ensures Keeps(h, t, i, s)
    {
      LeaderCompleteness(h, cur, t, i, s);
    }
    var kb := h.acked[(b, v)];
    assert kb > i && h.tlog[b][..i + 1] == h.tlog[t][..i + 1];
    var a := LogOfIsPrefix(h, cur, c, t');
    var vlog, clog := LogOf(h, v, t'), LogOf(h, c, t');
    assert UpToDate(clog, vlog);
    assert vlog == h.tlog[b][..kb];
    assert clog != [] by {
      assert EntryOk(h, b, kb - 1);
      assert LeaderOk(h, cur, vlog[kb - 1].term);
    }
    UpToDateKeeps(h, cur, t, i, t', a, h.acked[(a, c)], b, kb);
    assert h.tlog[t'][..i + 1] == h.tlog[t'][..h.base[t']][..i + 1] == clog[..i + 1];
  }

  /** Whatever two committed prefixes hold, one extends the other. */
  lemma CommittedComparable(h: History, cur: seq<int>, t1: int, i1: int, t2: int, i2: int)
    requires HistoryInv(h, cur) && Committed(h, |cur|, t1, i1) && Committed(h, |cur|, t2, i2)
    requires i1 <= i2
    ensures h.tlog[t1][..i1 + 1] == h.tlog[t2][..i1 + 1]
  {
    if t1 < t2 {
      LeaderCompleteness(h, cur, t1, i1, t2);
    } else if t2 < t1 {
      LeaderCompleteness(h, cur, t2, i2, t1);
    }
  }

  /** `p` is (part of) a committed prefix, committed at `bound` or earlier. */
  ghost predicate CommittedPrefix(h: History, n: nat, bound: int, p: seq<LogEntry>) {
    p == [] || exists t, i :: t <= bound && Committed(h, n, t, i) && |p| <= i + 1 && p == h.tlog[t][..|p|]
  }

  lemma PrefixesAgree(a: seq<LogEntry>, p: seq<LogEntry>, b: seq<LogEntry>, q: seq<LogEntry>, m: nat, k: nat)
    requires p <= a && q <= b && k <= |p| && k <= |q| && k <= m <= |a| && m <= |b|
    requires a[..m] == b[..m]
    ensures p[..k] == q[..k]
  {
    assert p[..k] == a[..k] == a[..m][..k];
    assert q[..k] == b[..k] == b[..m][..k];
  }

  lemma CommittedPrefixesComparable(h: History, cur: seq<int>, b1: int, p1: seq<LogEntry>, b2: int, p2: seq<LogEntry>)
    requires HistoryInv(h, cur)
    requires CommittedPrefix(h, |cur|, b1, p1) && CommittedPrefix(h, |cur|, b2, p2)
    ensures p1 <= p2 || p2 <= p1
  {
    if p1 != [] && p2 != [] {
      var t1, i1 :| t1 <= b1 && Committed(h, |cur|, t1, i1) && |p1| <= i1 + 1 && p1 == h.tlog[t1][..|p1|];
      var t2, i2 :| t2 <= b2 && Committed(h, |cur|, t2, i2) && |p2| <= i2 + 1 && p2 == h.tlog[t2][..|p2|];
      var m := if i1 <= i2 then i1 else i2;
      if i1 <= i2 {
        CommittedComparable(h, cur, t1, i1, t2, i2);
      } else {
        CommittedComparable(h, cur, t2, i2, t1, i1);
      }
      var k := if |p1| <= |p2| then |p1| else |p2|;
      PrefixesAgree(h.tlog[t1], p1, h.tlog[t2], p2, m + 1, k);
    }
  }

  /** A committed prefix is in the log of every later leader, from its election on. */
  lemma CommittedInLater(h: History, cur: seq<int>, bound: int, p: seq<LogEntry>, t: int)
    requires HistoryInv(h, cur) && CommittedPrefix(h, |cur|, bound, p)
    requires bound < t && t in h.leaders
    ensures t in h.tlog && t in h.base && |p| <= h.base[t] <= |h.tlog[t]| && p <= h.tlog[t]
  {
    assert LeaderOk(h, cur, t);
    if p != [] {
      var u, i :| u <= bound && Committed(h, |cur|, u, i) && |p| <= i + 1 && p == h.tlog[u][..|p|];
      LeaderCompleteness(h, cur, u, i, t);
      assert p == h.tlog[u][..i + 1][..|p|] == h.tlog[t][..i + 1][..|p|];
    }
  }

  lemma CommittedStable(h: History, h': History, n: nat, t: int, i: int)
    requires Committed(h, n, t, i) && Extends(h, h')
    ensures Committed(h', n, t, i)
    ensures h'.tlog[t][..i + 1] == h.tlog[t][..i + 1]
  {
    assert h.tlog[t] <= h'.tlog[t];
    assert Ackers(h, n, t, i + 1) <= Ackers(h', n, t, i + 1);
    SubsetSize(Ackers(h, n, t, i + 1), Ackers(h', n, t, i + 1));
  }

  lemma CommittedPrefixStable(h: History, h': History, n: nat, bound: int, bound': int, p: seq<LogEntry>)
    requires CommittedPrefix(h, n, bound, p) && Extends(h, h') && bound <= bound'
    ensures CommittedPrefix(h', n, bound', p)
  {
    if p != [] {
      var t, i :| t <= bound && Committed(h, n, t, i) && |p| <= i + 1 && p == h.tlog[t][..|p|];
      CommittedStable(h, h', n, t, i);
      assert h'.tlog[t][..|p|] == h'.tlog[t][..i + 1][..|p|];
    }
  }
}
