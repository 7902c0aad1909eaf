/** Ranks in a sorted set: the groups laid end to end, ordered by score and,
    within a score, by member. */
module Ranking {
  import opened Coding
  import opened Members
  import opened ScoreGroups

  datatype Entry = Entry(score: real, member: Bytes)

  predicate Before(a: Entry, b: Entry) {
    a.score < b.score || (a.score == b.score && Less(a.member, b.member))
  }

  /** How many members the first `p` groups hold. */
  function Start(g: seq<Group>, p: nat): nat
    requires p <= |g|
  {
    if p == 0 then 0 else Start(g, p - 1) + |g[p - 1].members|
  }

  lemma {:induction false} StartGrows(g: seq<Group>, p: nat, q: nat)
    requires p <= q <= |g|
    ensures Start(g, p) <= Start(g, q)
    decreases q
  {
    if p < q { StartGrows(g, p, q - 1); }
  }

  /** A rank is a place in one group: which group, and where in it. */
  predicate Place(g: seq<Group>, r: int, p: nat, j: nat) {
    p < |g| && j < |g[p].members| && r == Start(g, p) + j
  }

  lemma {:induction false} Locate(g: seq<Group>, n: nat, r: nat) returns (p: nat, j: nat)
    requires n <= |g| && r < Start(g, n)
    ensures p < n && Place(g, r, p, j)
  {
    if r < Start(g, n - 1) { p, j := Locate(g, n - 1, r); } else { p, j := n - 1, r - Start(g, n - 1); }
  }

  lemma PlaceUnique(g: seq<Group>, r: int, p: nat, j: nat, q: nat, l: nat)
    requires Place(g, r, p, j) && Place(g, r, q, l)
    ensures p == q && j == l
  {
    if p < q { StartGrows(g, p + 1, q); }
    if q < p { StartGrows(g, q + 1, p); }
  }

  function Card(g: seq<Group>): nat { Start(g, |g|) }

  lemma PlaceInside(g: seq<Group>, r: int, p: nat, j: nat)
    requires Place(g, r, p, j)
    ensures 0 <= r < Card(g)
  {
    StartGrows(g, p + 1, |g|);
  }

  function GroupOfRank(g: seq<Group>, n: nat, r: nat): (p: nat)
    requires n <= |g| && r < Start(g, n)
    ensures p < n && Start(g, p) <= r < Start(g, p + 1)
  {
    if r >= Start(g, n - 1) then n - 1 else GroupOfRank(g, n - 1, r)
  }

  /** The entry of rank `r`. */
  function At(g: seq<Group>, r: nat): Entry
    requires r < Card(g)
  {
    var p := GroupOfRank(g, |g|, r);
    Entry(g[p].score, g[p].members[r - Start(g, p)])
  }

  /** All entries in order of rank. */
  function Flat(g: seq<Group>): (f: seq<Entry>)
    ensures |f| == Card(g) && forall r :: 0 <= r < |f| ==> f[r] == At(g, r)
  {
    seq(Card(g), r requires 0 <= r < Card(g) => At(g, r))
  }

  lemma AtPlace(g: seq<Group>, r: int, p: nat, j: nat)
    requires Place(g, r, p, j)
    ensures 0 <= r < Card(g) && At(g, r) == Entry(g[p].score, g[p].members[j])
  {
    PlaceInside(g, r, p, j);
    var q := GroupOfRank(g, |g|, r);
    PlaceUnique(g, r, p, j, q, r - Start(g, q));
  }

  /** Ranks follow the order by score, then member. */
  lemma FlatAscends(g: seq<Group>, a: nat, b: nat)
    requires Sorted(g) && a < b < Card(g)
    ensures Before(Flat(g)[a], Flat(g)[b])
  {
    var p, q := GroupOfRank(g, |g|, a), GroupOfRank(g, |g|, b);
    if q < p { StartGrows(g, q + 1, p); }
    if p == q { assert Filled(g[p]); }
  }

  lemma RankUnique(g: seq<Group>, a: nat, b: nat)
    requires Sorted(g) && a < Card(g) && b < Card(g) && Flat(g)[a] == Flat(g)[b]
    ensures a == b
  {
    if a < b {
      FlatAscends(g, a, b);
      LessTotal(At(g, a).member, At(g, b).member);
    } else if b < a {
      FlatAscends(g, b, a);
      LessTotal(At(g, a).member, At(g, b).member);
    }
  }

  // ---- members by score ----

  /** `member` is held at `score`. */
  predicate Holder(g: seq<Group>, member: Bytes, score: real) {
    HasScore(g, score) && member in g[Find0(g, score)].members
  }

  /** The entries are exactly the members at their scores. */
  lemma FlatHolds(g: seq<Group>, e: Entry)
    requires Sorted(g)
    ensures e in Flat(g) <==> Holder(g, e.member, e.score)
  {
    hide *;
    if e in Flat(g) {
      var r :| 0 <= r < |Flat(g)| && Flat(g)[r] == e;
      RankHolds(g, r);
    }
    if Holder(g, e.member, e.score) {
      RankIsIndex(g, e.member, e.score);
    }
  }

  lemma RankHolds(g: seq<Group>, r: nat)
    requires Sorted(g) && r < Card(g)
    ensures Holder(g, At(g, r).member, At(g, r).score)
  {
    Find0Of(g, GroupOfRank(g, |g|, r));
  }

  /** Where `member` first occurs, or the length of the row. */
  function IndexIn(row: seq<Bytes>, member: Bytes): (i: nat)
    ensures i <= |row| && (i < |row| ==> row[i] == member)
    ensures forall l :: 0 <= l < i ==> row[l] != member
  {
    IndexFrom(row, member, 0)
  }

  function IndexFrom(row: seq<Bytes>, member: Bytes, k: nat): (i: nat)
    requires k <= |row|
    ensures k <= i <= |row| && (i < |row| ==> row[i] == member)
    ensures forall l :: k <= l < i ==> row[l] != member
    decreases |row| - k
  {
    if k == |row| || row[k] == member then k else IndexFrom(row, member, k + 1)
  }

  lemma IndexIs(row: seq<Bytes>, member: Bytes, i: nat)
    requires i <= |row| && (i < |row| ==> row[i] == member) && forall l :: 0 <= l < i ==> row[l] != member
    ensures IndexIn(row, member) == i
  {
  }

  /** What rank computes: the members of smaller scores, and those before `member` in the next group. */
  function RankIn(g: seq<Group>, member: Bytes, target: real): nat {
    var p := Find0(g, target);
    Start(g, p) + if p < |g| then IndexIn(g[p].members, member) else 0
  }

  /** For a member at its own score that is the index of its entry. */
  lemma RankIsIndex(g: seq<Group>, member: Bytes, target: real)
    requires Sorted(g) && Holder(g, member, target)
    ensures RankIn(g, member, target) < Card(g) && Flat(g)[RankIn(g, member, target)] == Entry(target, member)
  {
    var p := Find0(g, target);
    AtPlace(g, RankIn(g, member, target), p, IndexIn(g[p].members, member));
  }

  lemma HolderInMap(m: map<real, set<Bytes>>, g: seq<Group>, member: Bytes, score: real)
    requires Represents(m, g)
    ensures Holder(g, member, score) <==> score in m && member in m[score]
  {
    PresentIff(m, g, score);
  }

  lemma AddHolds(g: seq<Group>, t: real, x: Bytes, member: Bytes, score: real)
    requires Sorted(g) && t < INT_MAX
    ensures Holder(AddTo(g, t, x), member, score) <==> Holder(g, member, score) || (member == x && score == t)
  {
    var m := MapOf(g, |g|);
    MapOfRepresents(g);
    AddRefines(m, g, t, x);
    HolderInMap(m, g, member, score);
    HolderInMap(MapAdd(m, t, x), AddTo(g, t, x), member, score);
  }

  lemma EraseHolds(g: seq<Group>, t: real, x: Bytes, member: Bytes, score: real)
    requires Sorted(g)
    ensures Holder(EraseFrom(g, t, x), member, score) <==> Holder(g, member, score) && !(member == x && score == t)
  {
    var m := MapOf(g, |g|);
    MapOfRepresents(g);
    EraseRefines(m, g, t, x);
    HolderInMap(m, g, member, score);
    HolderInMap(MapErase(m, t, x), EraseFrom(g, t, x), member, score);
    MapEraseHolds(m, t, x, member, score);
  }

  lemma MapEraseHolds(m: map<real, set<Bytes>>, t: real, x: Bytes, member: Bytes, score: real)
    ensures score in MapErase(m, t, x) && member in MapErase(m, t, x)[score]
       <==> (score in m && member in m[score] && !(member == x && score == t))
  {
    if t in m && score == t && member in m[t] && member != x { assert member in m[t] - {x}; }
  }

  // ---- the member index ----

  /** The index gives each member its one score, and nothing else. */
  ghost predicate Agreed(ix: map<Bytes, real>, g: seq<Group>) {
    forall m, t {:trigger Holder(g, m, t)} :: Holder(g, m, t) <==> m in ix && ix[m] == t
  }

  /** ZAdd's index update: an entry already there stays. */
  function IndexAdd(ix: map<Bytes, real>, t: real, x: Bytes): map<Bytes, real> {
    if x in ix then ix else ix[x := t]
  }

  /** Agreement survives ZAdd exactly when the member is new or comes with the score it has. */
  lemma AddAgreesIff(ix: map<Bytes, real>, g: seq<Group>, t: real, x: Bytes)
    requires Sorted(g) && t < INT_MAX && Agreed(ix, g)
    ensures Agreed(IndexAdd(ix, t, x), AddTo(g, t, x)) <==> x !in ix || ix[x] == t
  {
    var ix', g' := IndexAdd(ix, t, x), AddTo(g, t, x);
    AddHolds(g, t, x, x, t);
    if x !in ix || ix[x] == t {
      forall m, s {:trigger Holder(g', m, s)} ensures Holder(g', m, s) <==> m in ix' && ix'[m] == s {
        AddHolds(g, t, x, m, s);
        assert Holder(g, m, s) <==> m in ix && ix[m] == s;
      }
    } else {
      assert Holder(g', x, t);
    }
  }

  lemma EraseAgrees(ix: map<Bytes, real>, g: seq<Group>, x: Bytes)
    requires Sorted(g) && Agreed(ix, g) && x in ix
    ensures Agreed(ix - {x}, EraseFrom(g, ix[x], x))
  {
    var t := ix[x];
    forall m, s {:trigger Holder(EraseFrom(g, t, x), m, s)}
      ensures Holder(EraseFrom(g, t, x), m, s) <==> m in ix - {x} && (ix - {x})[m] == s
    {
      EraseHolds(g, t, x, m, s);
      assert Holder(g, m, s) <==> m in ix && ix[m] == s;
    }
  }

  lemma MembersDistinct(ix: map<Bytes, real>, g: seq<Group>, a: nat, b: nat)
    requires Sorted(g) && Agreed(ix, g) && a < Card(g) && b < Card(g) && Flat(g)[a].member == Flat(g)[b].member
    ensures a == b && Flat(g)[a].member in ix && ix[Flat(g)[a].member] == Flat(g)[a].score
  {
    FlatHolds(g, Flat(g)[a]);
    FlatHolds(g, Flat(g)[b]);
    RankUnique(g, a, b);
  }

  function FirstMembers(f: seq<Entry>, n: nat): (r: set<Bytes>)
    requires n <= |f|
    ensures forall x :: x in r <==> exists i :: 0 <= i < n && f[i].member == x
  {
    if n == 0 then {} else FirstMembers(f, n - 1) + {f[n - 1].member}
  }

  lemma {:induction false} FirstMembersCount(f: seq<Entry>, n: nat)
    requires n <= |f| && forall a, b :: 0 <= a < b < |f| ==> f[a].member != f[b].member
    ensures |FirstMembers(f, n)| == n
  {
    if n > 0 { FirstMembersCount(f, n - 1); }
  }

  lemma IndexedRanks(ix: map<Bytes, real>, g: seq<Group>, x: Bytes)
    requires Sorted(g) && Agreed(ix, g)
    ensures x in ix <==> exists i :: 0 <= i < |Flat(g)| && Flat(g)[i].member == x
  {
    if i :| 0 <= i < |Flat(g)| && Flat(g)[i].member == x {
      MembersDistinct(ix, g, i, i);
    }
    if x in ix {
      assert Holder(g, x, ix[x]);
      FlatHolds(g, Entry(ix[x], x));
    }
  }

  /** Ranks run up to the number of indexed members. */
  lemma CardIsIndexed(ix: map<Bytes, real>, g: seq<Group>)
    requires Sorted(g) && Agreed(ix, g)
    ensures Card(g) == |ix|
  {
    hide *;
    var f := Flat(g);
    forall a, b | 0 <= a < b < |f| ensures f[a].member != f[b].member {
      if f[a].member == f[b].member { MembersDistinct(ix, g, a, b); }
    }
    FirstMembersCount(f, |f|);
    forall x ensures x in FirstMembers(f, |f|) <==> x in ix.Keys {
      IndexedRanks(ix, g, x);
    }
    assert FirstMembers(f, |f|) == ix.Keys;
    assert |ix| == |ix.Keys|;
  }
}
