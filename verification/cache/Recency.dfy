/** What an LRU cache is for: of the keys touched so far, the most recently
    touched ones, each with the value last put. */
module Recency {
  import opened Coding

  datatype Slot = Slot(key: Bytes, value: Bytes)

  predicate DistinctKeys(s: seq<Slot>) {
    forall a, b :: 0 <= a < b < |s| ==> s[a].key != s[b].key
  }

  function Position(s: seq<Slot>, key: Bytes): (p: nat)
    ensures p <= |s| && (p < |s| ==> s[p].key == key)
    ensures forall a :: 0 <= a < p ==> s[a].key != key
  {
    PositionFrom(s, 0, key)
  }

  function PositionFrom(s: seq<Slot>, k: nat, key: Bytes): (p: nat)
    requires k <= |s|
    ensures k <= p <= |s| && (p < |s| ==> s[p].key == key)
    ensures forall a :: k <= a < p ==> s[a].key != key
    decreases |s| - k
  {
    if k == |s| || s[k].key == key then k else PositionFrom(s, k + 1, key)
  }

  predicate Has(s: seq<Slot>, key: Bytes) { Position(s, key) < |s| }

  lemma PositionIs(s: seq<Slot>, key: Bytes, p: nat)
    requires p <= |s| && (p < |s| ==> s[p].key == key) && forall a :: 0 <= a < p ==> s[a].key != key
    ensures Position(s, key) == p
  {
  }

  function Without(s: seq<Slot>, key: Bytes): (r: seq<Slot>)
    ensures Has(s, key) ==> |r| == |s| - 1
    ensures !Has(s, key) ==> r == s
  {
    var p := Position(s, key);
    if p < |s| then s[..p] + s[p + 1..] else s
  }

  /** The slot just touched goes in front. */
  function Front(s: seq<Slot>, x: Slot): seq<Slot> { [x] + Without(s, x.key) }

  /** `r` is `s` with the slot of that key, now `x`, moved to the front, the others in their order. */
  ghost predicate MovedFront(s: seq<Slot>, x: Slot, r: seq<Slot>) {
    exists p :: 0 <= p < |s| && s[p].key == x.key && r == [x] + s[..p] + s[p + 1..]
  }

  lemma FrontMoves(s: seq<Slot>, x: Slot)
    requires Has(s, x.key)
    ensures MovedFront(s, x, Front(s, x))
  {
    var p := Position(s, x.key);
    assert [x] + (s[..p] + s[p + 1..]) == [x] + s[..p] + s[p + 1..];
  }

  function Take(s: seq<Slot>, n: nat): (r: seq<Slot>)
    ensures |r| <= n && |r| <= |s|
  {
    if |s| > n then s[..n] else s
  }

  datatype Op = Put(key: Bytes, value: Bytes) | Get(key: Bytes)

  /** One call on a cache of `n` slots. */
  function Step(s: seq<Slot>, op: Op, n: nat): seq<Slot> {
    match op
    case Put(k, v) => Take(Front(s, Slot(k, v)), n)
    case Get(k) => if Has(s, k) then Front(s, s[Position(s, k)]) else s
  }

  function CacheAfter(ops: seq<Op>, n: nat): seq<Slot> {
    if ops == [] then [] else Step(CacheAfter(ops[..|ops| - 1], n), ops[|ops| - 1], n)
  }

  // ---- against a list without a bound ----

  /** The touches of a run, oldest first: every put, and every get that hits. */
  function Touches(ops: seq<Op>, n: nat): seq<Slot> {
    if ops == [] then []
    else
      var before, s := Touches(ops[..|ops| - 1], n), CacheAfter(ops[..|ops| - 1], n);
      match ops[|ops| - 1]
      case Put(k, v) => before + [Slot(k, v)]
      case Get(k) => if Has(s, k) then before + [s[Position(s, k)]] else before
  }

  /** All keys ever touched, the most recently touched first. */
  function Recent(t: seq<Slot>): seq<Slot> {
    if t == [] then [] else Front(Recent(t[..|t| - 1]), t[|t| - 1])
  }

  /** Index of the last touch of `key`, or -1. */
  function LastTouch(t: seq<Slot>, key: Bytes): (i: int)
    ensures -1 <= i < |t| && (i >= 0 ==> t[i].key == key)
    ensures forall j :: i < j < |t| ==> t[j].key != key
  {
    if t == [] then -1 else if t[|t| - 1].key == key then |t| - 1 else LastTouch(t[..|t| - 1], key)
  }

  /** The value last put under `key` in a run. */
  function LastPut(ops: seq<Op>, key: Bytes): Bytes {
    if ops == [] then [] else
      var op := ops[|ops| - 1];
      if op.Put? && op.key == key then op.value else LastPut(ops[..|ops| - 1], key)
  }

  lemma FrontOrder(s: seq<Slot>, x: Slot)
    requires DistinctKeys(s)
    ensures DistinctKeys(Front(s, x))
    ensures forall a :: 0 < a < |Front(s, x)| ==> Front(s, x)[a].key != x.key && Front(s, x)[a] in s
  {
    var p, r := Position(s, x.key), Front(s, x);
    forall a | 0 < a < |r| ensures r[a].key != x.key && r[a] in s {
      assert r[a] == if a - 1 < p then s[a - 1] else s[a];
    }
    forall a, b | 0 <= a < b < |r| ensures r[a].key != r[b].key {
      assert r[b] == if b - 1 < p then s[b - 1] else s[b];
      if a > 0 { assert r[a] == if a - 1 < p then s[a - 1] else s[a]; }
    }
  }

  lemma FrontKeeps(s: seq<Slot>, x: Slot, y: Slot)
    requires DistinctKeys(s) && y in s && y.key != x.key
    ensures y in Front(s, x)
  {
    var i :| 0 <= i < |s| && s[i] == y;
    var p := Position(s, x.key);
    assert Front(s, x)[if i < p then i + 1 else i] == y;
  }

  /** Recent lists exactly the keys touched, each once, by last touch, with the value of that touch. */
  lemma {:induction false} RecentIs(t: seq<Slot>)
    ensures DistinctKeys(Recent(t))
    ensures forall a {:trigger Recent(t)[a]} :: 0 <= a < |Recent(t)| ==>
              LastTouch(t, Recent(t)[a].key) >= 0 && t[LastTouch(t, Recent(t)[a].key)] == Recent(t)[a]
    ensures forall k {:trigger LastTouch(t, k)} :: LastTouch(t, k) >= 0 ==> t[LastTouch(t, k)] in Recent(t)
  {
    if t != [] {
      var t', x := t[..|t| - 1], t[|t| - 1];
      RecentIs(t');
      var s, r := Recent(t'), Recent(t);
      FrontOrder(s, x);
      forall a {:trigger r[a]} | 0 <= a < |r| ensures LastTouch(t, r[a].key) >= 0 && t[LastTouch(t, r[a].key)] == r[a] {
        if a > 0 {
          var b :| 0 <= b < |s| && s[b] == r[a];
          assert LastTouch(t, r[a].key) == LastTouch(t', s[b].key);
        }
      }
      forall k {:trigger LastTouch(t, k)} | LastTouch(t, k) >= 0 ensures t[LastTouch(t, k)] in r {
        if k == x.key {
          assert r[0] == x;
        } else {
          FrontKeeps(s, x, t'[LastTouch(t', k)]);
        }
      }
    }
  }

  /** Where the slot at place `a` of Front(s, x) came from. */
  lemma FrontFrom(s: seq<Slot>, x: Slot, a: nat) returns (i: nat)
    requires DistinctKeys(s) && 0 < a < |Front(s, x)|
    ensures i < |s| && Front(s, x)[a] == s[i] && s[i].key != x.key
    ensures i == if a - 1 < Position(s, x.key) then a - 1 else a
  {
    i := if a - 1 < Position(s, x.key) then a - 1 else a;
    FrontOrder(s, x);
  }

  /** Further back in the list means touched longer ago. */
  lemma {:induction false} RecentOrder(t: seq<Slot>, a: nat, b: nat)
    requires a < b < |Recent(t)|
    ensures LastTouch(t, Recent(t)[a].key) > LastTouch(t, Recent(t)[b].key)
  {
    var t', x := t[..|t| - 1], t[|t| - 1];
    var s := Recent(t');
    RecentIs(t');
    var j := FrontFrom(s, x, b);
    assert LastTouch(t, s[j].key) == LastTouch(t', s[j].key);
    if a > 0 {
      var i := FrontFrom(s, x, a);
      assert LastTouch(t, s[i].key) == LastTouch(t', s[i].key);
      RecentOrder(t', i, j);
    }
  }

  /** Cutting the list before a touch or after it comes to the same. */
  lemma TakeFront(u: seq<Slot>, x: Slot, n: nat)
    ensures Take(Front(Take(u, n), x), n) == Take(Front(u, x), n)
    ensures Has(Take(u, n), x.key) ==> Front(Take(u, n), x) == Take(Front(u, x), n)
  {
    var c, p := Take(u, n), Position(u, x.key);
    if p < |c| {
      PositionIs(c, x.key, p);
      assert c[..p] + c[p + 1..] == (u[..p] + u[p + 1..])[..|c| - 1];
    } else {
      PositionIs(c, x.key, |c|);
      if |u| >= n > 0 {
        assert Without(u, x.key)[..n - 1] == u[..n - 1];
      }
    }
  }

  /** After any run the cache holds the `n` most recently touched keys, in that order. */
  lemma {:induction false} CacheIsMostRecent(ops: seq<Op>, n: nat)
    ensures CacheAfter(ops, n) == Take(Recent(Touches(ops, n)), n)
  {
    if ops != [] {
      var before := ops[..|ops| - 1];
      CacheIsMostRecent(before, n);
      var t, s, u := Touches(before, n), CacheAfter(before, n), Recent(Touches(before, n));
      match ops[|ops| - 1]
      case Put(k, v) =>
        assert (t + [Slot(k, v)])[..|t|] == t;
        TakeFront(u, Slot(k, v), n);
      case Get(k) =>
        if Has(s, k) {
          var x := s[Position(s, k)];
          assert (t + [x])[..|t|] == t;
          TakeFront(u, x, n);
        }
    }
  }

  /** Each touch carries the value last put under its key. */
  lemma {:induction false} TouchValue(ops: seq<Op>, n: nat, key: Bytes)
    requires LastTouch(Touches(ops, n), key) >= 0
    ensures Touches(ops, n)[LastTouch(Touches(ops, n), key)].value == LastPut(ops, key)
  {
    var before := ops[..|ops| - 1];
    var t, s := Touches(before, n), CacheAfter(before, n);
    match ops[|ops| - 1]
    case Put(k, v) =>
      assert (t + [Slot(k, v)])[..|t|] == t;
      if k != key { TouchValue(before, n, key); }
    case Get(k) =>
      if Has(s, k) {
        var x := s[Position(s, k)];
        assert (t + [x])[..|t|] == t;
        CacheIsMostRecent(before, n);
        RecentIs(t);
        assert x == Recent(t)[Position(s, k)];
      }
      TouchValue(before, n, key);
  }

  /** Every value in the cache is the one last put under its key. */
  lemma CacheValues(ops: seq<Op>, n: nat, a: nat)
    requires a < |CacheAfter(ops, n)|
    ensures CacheAfter(ops, n)[a].value == LastPut(ops, CacheAfter(ops, n)[a].key)
  {
    var t := Touches(ops, n);
    CacheIsMostRecent(ops, n);
    RecentIs(t);
    assert CacheAfter(ops, n)[a] == Recent(t)[a];
    TouchValue(ops, n, Recent(t)[a].key);
  }
}
