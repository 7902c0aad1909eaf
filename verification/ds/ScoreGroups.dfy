/** What a sorted set holds, as the skip list orders it: groups of members by
    ascending score. The operations here say what each list operation means. */
module ScoreGroups {
  import opened Coding
  import opened SkipLinks
  import opened Members

  const INT_MAX: real := 2147483647.0

  datatype Group = Group(score: real, members: seq<Bytes>)

  predicate ByScore(g: seq<Group>) {
    forall a, b :: 0 <= a < b < |g| ==> g[a].score < g[b].score
  }

  predicate Filled(x: Group) {
    x.members != [] && Ascending(x.members) && x.score < INT_MAX
  }

  /** Strictly ascending scores below the tail's, and no group without members. */
  predicate Sorted(g: seq<Group>) {
    ByScore(g) && forall a {:trigger g[a]} :: 0 <= a < |g| ==> Filled(g[a])
  }

  /** How many groups score below `t`. */
  function Find0(g: seq<Group>, t: real): (p: nat)
    ensures p <= |g|
    ensures forall a :: 0 <= a < p ==> g[a].score < t
    ensures p < |g| ==> g[p].score >= t
  {
    Find0From(g, 0, t)
  }

  function Find0From(g: seq<Group>, k: nat, t: real): (p: nat)
    requires k <= |g|
    ensures k <= p <= |g|
    ensures forall a :: k <= a < p ==> g[a].score < t
    ensures p < |g| ==> g[p].score >= t
    decreases |g| - k
  {
    if k == |g| || g[k].score >= t then k else Find0From(g, k + 1, t)
  }

  lemma Find0Is(g: seq<Group>, t: real, p: nat)
    requires p <= |g| && (forall a :: 0 <= a < p ==> g[a].score < t) && (p < |g| ==> g[p].score >= t)
    ensures Find0(g, t) == p
  {
  }

  predicate HasScore(g: seq<Group>, t: real) {
    Find0(g, t) < |g| && g[Find0(g, t)].score == t
  }

  function AddTo(g: seq<Group>, score: real, member: Bytes): seq<Group> {
    var p := Find0(g, score);
    if HasScore(g, score) then g[p := Group(score, Insert(g[p].members, member))]
    else InsertAt(g, p, Group(score, [member]))
  }

  /** A group that loses its last member goes away. */
  function EraseFrom(g: seq<Group>, score: real, member: Bytes): seq<Group> {
    var p := Find0(g, score);
    if HasScore(g, score) && member in g[p].members then
      var rest := Erase(g[p].members, member);
      if rest == [] then RemoveAt(g, p) else g[p := Group(score, rest)]
    else g
  }

  // ---- the abstract map from scores to member sets ----

  predicate Holds(m: map<real, set<Bytes>>, x: Group) {
    x.score in m && m[x.score] == Elems(x.members)
  }

  /** The groups are exactly the map's entries. */
  ghost predicate Represents(m: map<real, set<Bytes>>, g: seq<Group>) {
    && (forall a {:trigger g[a]} :: 0 <= a < |g| ==> Holds(m, g[a]))
    && (forall t {:trigger HasScore(g, t)} :: t in m ==> HasScore(g, t))
  }

  lemma Find0Of(g: seq<Group>, a: nat)
    requires ByScore(g) && a < |g|
    ensures Find0(g, g[a].score) == a && HasScore(g, g[a].score)
  {
    Find0Is(g, g[a].score, a);
  }

  lemma PresentIff(m: map<real, set<Bytes>>, g: seq<Group>, t: real)
    requires Represents(m, g)
    ensures t in m <==> HasScore(g, t)
    ensures t in m ==> Find0(g, t) < |g| && Holds(m, g[Find0(g, t)]) && g[Find0(g, t)].score == t
  {
    if HasScore(g, t) { assert Holds(m, g[Find0(g, t)]); }
  }

  function MapOf(g: seq<Group>, n: nat): map<real, set<Bytes>>
    requires n <= |g|
  {
    if n == 0 then map[] else MapOf(g, n - 1)[g[n - 1].score := Elems(g[n - 1].members)]
  }

  lemma {:induction false} MapOfHolds(g: seq<Group>, n: nat)
    requires ByScore(g) && n <= |g|
    ensures forall a {:trigger g[a]} :: 0 <= a < n ==> Holds(MapOf(g, n), g[a])
    ensures forall t {:trigger HasScore(g, t)} :: t in MapOf(g, n) ==> HasScore(g, t)
  {
    if n > 0 {
      MapOfHolds(g, n - 1);
      Find0Of(g, n - 1);
    }
  }

  lemma MapOfRepresents(g: seq<Group>)
    requires ByScore(g)
    ensures Represents(MapOf(g, |g|), g)
  {
    MapOfHolds(g, |g|);
  }

  function MapAdd(m: map<real, set<Bytes>>, t: real, member: Bytes): map<real, set<Bytes>> {
    m[t := (if t in m then m[t] else {}) + {member}]
  }

  function MapErase(m: map<real, set<Bytes>>, t: real, member: Bytes): map<real, set<Bytes>> {
    if t !in m then m
    else if m[t] - {member} == {} then m - {t}
    else m[t := m[t] - {member}]
  }

  /** add keeps the groups sorted and adds one member to one score's set. */
  lemma AddRefines(m: map<real, set<Bytes>>, g: seq<Group>, t: real, member: Bytes)
    requires Sorted(g) && t < INT_MAX && Represents(m, g)
    ensures Sorted(AddTo(g, t, member)) && Represents(MapAdd(m, t, member), AddTo(g, t, member))
  {
    var p := Find0(g, t);
    PresentIff(m, g, t);
    if HasScore(g, t) {
      InsertAscends(g[p].members, member);
      PutRefines(m, g, p, Group(t, Insert(g[p].members, member)));
    } else {
      var x := Group(t, [member]);
      assert Elems([member]) == {member};
      InsertSorted(g, p, x);
      InsertRefines(m, g, p, x);
    }
  }

  /** erase keeps the groups sorted, takes one member out of one score's set and drops an empty set. */
  lemma EraseRefines(m: map<real, set<Bytes>>, g: seq<Group>, t: real, member: Bytes)
    requires Sorted(g) && Represents(m, g)
    ensures Sorted(EraseFrom(g, t, member)) && Represents(MapErase(m, t, member), EraseFrom(g, t, member))
  {
    var p := Find0(g, t);
    PresentIff(m, g, t);
    if HasScore(g, t) {
      var row := g[p].members;
      EraseAscends(row, member);
      if member in row {
        EraseHeld(m, g, p, member);
      } else {
        assert row[0] in Elems(row);
        assert m[t] - {member} == m[t] && m[t := m[t]] == m;
      }
    }
  }

  lemma EraseHeld(m: map<real, set<Bytes>>, g: seq<Group>, p: nat, member: Bytes)
    requires Sorted(g) && Represents(m, g) && p < |g| && member in g[p].members
    requires Elems(Erase(g[p].members, member)) == Elems(g[p].members) - {member}
             && Ascending(Erase(g[p].members, member))
    ensures var rest := Erase(g[p].members, member);
            var g' := if rest == [] then RemoveAt(g, p) else g[p := Group(g[p].score, rest)];
            Sorted(g') && Represents(MapErase(m, g[p].score, member), g')
  {
    var rest := Erase(g[p].members, member);
    assert Holds(m, g[p]);
    if rest == [] {
      RemoveSorted(g, p);
      RemoveRefines(m, g, p);
    } else {
      assert rest[0] in Elems(rest);
      PutRefines(m, g, p, Group(g[p].score, rest));
    }
  }

  lemma PutRefines(m: map<real, set<Bytes>>, g: seq<Group>, p: nat, x: Group)
    requires Sorted(g) && Represents(m, g) && p < |g| && x.score == g[p].score && Filled(x)
    ensures Sorted(g[p := x]) && Represents(m[x.score := Elems(x.members)], g[p := x])
  {
    var g', m' := g[p := x], m[x.score := Elems(x.members)];
    forall a {:trigger g'[a]} | 0 <= a < |g'| ensures Holds(m', g'[a]) {
      if a != p { assert Holds(m, g[a]); }
    }
    forall t {:trigger HasScore(g', t)} | t in m' ensures HasScore(g', t) {
      if t != x.score { PresentIff(m, g, t); }
      Find0Of(g', if t == x.score then p else Find0(g, t));
    }
  }

  lemma PutSorted(g: seq<Group>, p: nat, x: Group)
    requires Sorted(g) && p < |g| && x.score == g[p].score && Filled(x)
    ensures Sorted(g[p := x])
  {
  }

  lemma InsertSorted(g: seq<Group>, p: nat, x: Group)
    requires Sorted(g) && p == Find0(g, x.score) && !HasScore(g, x.score) && Filled(x)
    ensures Sorted(InsertAt(g, p, x))
  {
    var g' := InsertAt(g, p, x);
    forall a, b | 0 <= a < b < |g'| ensures g'[a].score < g'[b].score {
      InsertedAt(g, p, x, a);
      InsertedAt(g, p, x, b);
    }
    forall a {:trigger g'[a]} | 0 <= a < |g'| ensures Filled(g'[a]) {
      InsertedAt(g, p, x, a);
    }
  }

  lemma InsertRefines(m: map<real, set<Bytes>>, g: seq<Group>, p: nat, x: Group)
    requires Sorted(g) && Represents(m, g) && p == Find0(g, x.score) && !HasScore(g, x.score)
             && Sorted(InsertAt(g, p, x))
    ensures Represents(m[x.score := Elems(x.members)], InsertAt(g, p, x))
  {
    var g', m' := InsertAt(g, p, x), m[x.score := Elems(x.members)];
    forall a {:trigger g'[a]} | 0 <= a < |g'| ensures Holds(m', g'[a]) {
      InsertedAt(g, p, x, a);
      if a != p {
        assert Holds(m, g[if a < p then a else a - 1]);
        Find0Of(g, if a < p then a else a - 1);
      }
    }
    forall t {:trigger HasScore(g', t)} | t in m' ensures HasScore(g', t) {
      if t != x.score { PresentIff(m, g, t); }
      var a := if t == x.score then p else if Find0(g, t) < p then Find0(g, t) else Find0(g, t) + 1;
      InsertedAt(g, p, x, a);
      Find0Of(g', a);
    }
  }

  lemma RemoveSorted(g: seq<Group>, p: nat)
    requires Sorted(g) && p < |g|
    ensures Sorted(RemoveAt(g, p))
  {
    var g' := RemoveAt(g, p);
    forall a, b | 0 <= a < b < |g'| ensures g'[a].score < g'[b].score {
      RemovedAt(g, p, a);
      RemovedAt(g, p, b);
    }
    forall a {:trigger g'[a]} | 0 <= a < |g'| ensures Filled(g'[a]) {
      RemovedAt(g, p, a);
    }
  }

  lemma RemoveRefines(m: map<real, set<Bytes>>, g: seq<Group>, p: nat)
    requires Sorted(g) && Represents(m, g) && p < |g| && Sorted(RemoveAt(g, p))
    ensures Represents(m - {g[p].score}, RemoveAt(g, p))
  {
    var g', m' := RemoveAt(g, p), m - {g[p].score};
    forall a {:trigger g'[a]} | 0 <= a < |g'| ensures Holds(m', g'[a]) {
      RemovedAt(g, p, a);
      assert Holds(m, g[if a < p then a else a + 1]);
    }
    forall t {:trigger HasScore(g', t)} | t in m' ensures HasScore(g', t) {
      PresentIff(m, g, t);
      var a := if Find0(g, t) < p then Find0(g, t) else Find0(g, t) - 1;
      RemovedAt(g, p, a);
      Find0Of(g', a);
    }
  }

  // ---- runs ----

  datatype Change = AddOne(score: real, member: Bytes) | EraseOne(score: real, member: Bytes)

  function GroupsAfter(changes: seq<Change>): seq<Group> {
    if changes == [] then []
    else
      var g := GroupsAfter(changes[..|changes| - 1]);
      match changes[|changes| - 1]
      case AddOne(t, x) => AddTo(g, t, x)
      case EraseOne(t, x) => EraseFrom(g, t, x)
  }

  function MapAfter(changes: seq<Change>): map<real, set<Bytes>> {
    if changes == [] then map[]
    else
      var m := MapAfter(changes[..|changes| - 1]);
      match changes[|changes| - 1]
      case AddOne(t, x) => MapAdd(m, t, x)
      case EraseOne(t, x) => MapErase(m, t, x)
  }

  /** After any run of add and erase, starting empty, the groups are the
      sorted form of the abstract map. */
  lemma {:induction false} RunRefines(changes: seq<Change>)
    requires forall c :: c in changes && c.AddOne? ==> c.score < INT_MAX
    ensures Sorted(GroupsAfter(changes)) && Represents(MapAfter(changes), GroupsAfter(changes))
  {
    if changes != [] {
      var before := changes[..|changes| - 1];
      RunRefines(before);
      match changes[|changes| - 1]
      case AddOne(t, x) => AddRefines(MapAfter(before), GroupsAfter(before), t, x);
      case EraseOne(t, x) => EraseRefines(MapAfter(before), GroupsAfter(before), t, x);
    }
  }

  /** The map determines its sorted form, member for member. */
  lemma {:induction false} RepresentationUnique(m: map<real, set<Bytes>>, g: seq<Group>, h: seq<Group>)
    requires Sorted(g) && Sorted(h) && Represents(m, g) && Represents(m, h)
    ensures g == h
  {
    SameFrom(m, g, h, 0);
    SameFrom(m, h, g, 0);
  }

  lemma {:induction false} SameFrom(m: map<real, set<Bytes>>, g: seq<Group>, h: seq<Group>, k: nat)
    requires Sorted(g) && Sorted(h) && Represents(m, g) && Represents(m, h)
    requires k <= |g| && k <= |h| && forall i :: 0 <= i < k ==> g[i] == h[i]
    ensures |g| <= |h| && forall i :: 0 <= i < |g| ==> g[i] == h[i]
    decreases |g| - k
  {
    if k < |g| {
      Find0Of(g, k);
      PresentIff(m, g, g[k].score);
      PresentIff(m, h, g[k].score);
      var b := Find0(h, g[k].score);
      LeastScore(g, h, k, b);
      PresentIff(m, h, h[k].score);
      Find0Of(h, k);
      PresentIff(m, g, h[k].score);
      LeastScore(h, g, k, Find0(g, h[k].score));
      AscendingUnique(g[k].members, h[k].members, 0);
      AscendingUnique(h[k].members, g[k].members, 0);
      assert g[k].members == h[k].members;
      SameFrom(m, g, h, k + 1);
    }
  }

  /** A score beyond a common prefix sits beyond that prefix in either list. */
  lemma LeastScore(g: seq<Group>, h: seq<Group>, k: nat, b: nat)
    requires ByScore(g) && k < |g| && b < |h| && h[b].score == g[k].score
    requires k <= |h| && forall i :: 0 <= i < k ==> g[i] == h[i]
    ensures b >= k
  {
  }
}
