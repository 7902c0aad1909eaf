/** Strings in the order of std::string, and std::set<std::string> as the
    strictly ascending sequence its iterator visits. */
module Members {
  import opened Coding

  predicate Less(a: Bytes, b: Bytes) {
    b != [] && (a == [] || a[0] < b[0] || (a[0] == b[0] && Less(a[1..], b[1..])))
  }

  /** `a` and `b` agree before place `k`, where `a` has ended or has the smaller byte. */
  ghost predicate SmallerAt(a: Bytes, b: Bytes, k: nat) {
    k <= |a| && k < |b| && (forall i :: 0 <= i < k ==> a[i] == b[i]) && (k == |a| || a[k] < b[k])
  }

  /** The first difference decides, and a proper prefix is smaller. */
  lemma {:induction false} LessByFirstDifference(a: Bytes, b: Bytes)
    ensures Less(a, b) <==> exists k: nat :: SmallerAt(a, b, k)
  {
    if a != [] && b != [] && a[0] == b[0] {
      LessByFirstDifference(a[1..], b[1..]);
      forall k: nat ensures SmallerAt(a[1..], b[1..], k) <==> SmallerAt(a, b, k + 1) {
        assert SmallerAt(a[1..], b[1..], k) ==> forall i :: 0 < i < k + 1 ==> a[i] == a[1..][i - 1] == b[i];
        assert SmallerAt(a, b, k + 1) ==> forall i :: 0 <= i < k ==> a[1..][i] == a[i + 1] == b[1..][i];
      }
      assert !SmallerAt(a, b, 0);
      if k: nat :| SmallerAt(a, b, k) { assert SmallerAt(a[1..], b[1..], k - 1); }
    } else {
      assert Less(a, b) ==> SmallerAt(a, b, 0);
    }
  }

  lemma {:induction false} LessTransitive(a: Bytes, b: Bytes, c: Bytes)
    requires Less(a, b) && Less(b, c)
    ensures Less(a, c)
  {
    if a != [] && a[0] == b[0] && b[0] == c[0] {
      LessTransitive(a[1..], b[1..], c[1..]);
    }
  }

  lemma {:induction false} LessTotal(a: Bytes, b: Bytes)
    ensures Less(a, b) || Less(b, a) || a == b
    ensures !(Less(a, b) && Less(b, a)) && (a == b ==> !Less(a, b))
  {
    if a != [] && b != [] && a[0] == b[0] {
      LessTotal(a[1..], b[1..]);
      assert a == [a[0]] + a[1..] && b == [b[0]] + b[1..];
    }
  }

  predicate Ascending(s: seq<Bytes>) {
    forall i, j :: 0 <= i < j < |s| ==> Less(s[i], s[j])
  }

  /** The position of `m`, or where it would go: how many members are smaller. */
  function Position(s: seq<Bytes>, m: Bytes): (k: nat)
    ensures k <= |s|
    ensures forall i :: 0 <= i < k ==> Less(s[i], m)
    ensures k < |s| ==> !Less(s[k], m)
  {
    if s == [] || !Less(s[0], m) then 0 else 1 + Position(s[1..], m)
  }

  /** std::set::insert. */
  function Insert(s: seq<Bytes>, m: Bytes): seq<Bytes> {
    var k := Position(s, m);
    if k < |s| && s[k] == m then s else s[..k] + [m] + s[k..]
  }

  /** std::set::erase. */
  function Erase(s: seq<Bytes>, m: Bytes): seq<Bytes> {
    var k := Position(s, m);
    if k < |s| && s[k] == m then s[..k] + s[k + 1..] else s
  }

  function Elems(s: seq<Bytes>): set<Bytes> { set m | m in s }

  lemma PositionOfMember(s: seq<Bytes>, m: Bytes, i: nat)
    requires Ascending(s) && i < |s| && s[i] == m
    ensures Position(s, m) == i
  {
    var k := Position(s, m);
    LessTotal(m, m);
    assert forall j :: 0 <= j < i ==> Less(s[j], m);
  }

  lemma InsertAscends(s: seq<Bytes>, m: Bytes)
    requires Ascending(s)
    ensures Ascending(Insert(s, m)) && Elems(Insert(s, m)) == Elems(s) + {m}
  {
    hide Less;
    var k, s' := Position(s, m), Insert(s, m);
    if s' != s {
      forall i, j | 0 <= i < j < |s'| ensures Less(s'[i], s'[j]) {
        if i == k { AfterPosition(s, m, j - 1); }
      }
      forall x ensures x in Elems(s') <==> x in Elems(s) + {m} {
        if x in s { var i :| 0 <= i < |s| && s[i] == x; assert s'[if i < k then i else i + 1] == x; }
        assert s'[k] == m;
      }
    } else {
      assert s[k] == m;
    }
  }

  /** Members from the position of an absent `m` on are larger. */
  lemma AfterPosition(s: seq<Bytes>, m: Bytes, j: nat)
    requires Ascending(s) && Position(s, m) <= j < |s| && s[Position(s, m)] != m
    ensures Less(m, s[j])
  {
    var k := Position(s, m);
    LessTotal(s[k], m);
    if j > k { LessTransitive(m, s[k], s[j]); }
  }

  lemma EraseAscends(s: seq<Bytes>, m: Bytes)
    requires Ascending(s)
    ensures Ascending(Erase(s, m)) && Elems(Erase(s, m)) == Elems(s) - {m}
    ensures m in s ==> |Erase(s, m)| == |s| - 1
  {
    if m in s {
      var i :| 0 <= i < |s| && s[i] == m;
      PositionOfMember(s, m, i);
      EraseElems(s, i);
    }
  }

  lemma EraseElems(s: seq<Bytes>, k: nat)
    requires Ascending(s) && k < |s|
    ensures Elems(s[..k] + s[k + 1..]) == Elems(s) - {s[k]}
  {
    var s' := s[..k] + s[k + 1..];
    forall x ensures x in Elems(s') <==> x in Elems(s) - {s[k]} {
      if x in s' { DistinctFrom(s, k, x); }
      if x in s && x != s[k] { var j :| 0 <= j < |s| && s[j] == x; assert s'[if j < k then j else j - 1] == x; }
    }
  }

  lemma DistinctFrom(s: seq<Bytes>, k: nat, x: Bytes)
    requires Ascending(s) && k < |s| && x in s[..k] + s[k + 1..]
    ensures x != s[k] && x in s
  {
    var rest := s[..k] + s[k + 1..];
    var i :| 0 <= i < |rest| && rest[i] == x;
    var j := if i < k then i else i + 1;
    assert s[j] == x;
    LessTotal(s[j], s[k]);
  }

  /** A set has one ascending enumeration. */
  lemma {:induction false} AscendingUnique(s: seq<Bytes>, t: seq<Bytes>, k: nat)
    requires Ascending(s) && Ascending(t) && Elems(s) == Elems(t)
    requires k <= |s| && k <= |t| && (forall i :: 0 <= i < k ==> s[i] == t[i])
    ensures |s| <= |t| && forall i :: 0 <= i < |s| ==> s[i] == t[i]
    decreases |s| - k
  {
    if k < |s| {
      NextIn(s, t, k);
      NextIn(t, s, k);
      LessTotal(s[k], t[k]);
      AscendingUnique(s, t, k + 1);
    }
  }

  /** The next member of `s` is in `t` beyond the common prefix. */
  lemma NextIn(s: seq<Bytes>, t: seq<Bytes>, k: nat)
    requires Ascending(s) && Ascending(t) && Elems(s) == Elems(t)
    requires k < |s| && k <= |t| && (forall i :: 0 <= i < k ==> s[i] == t[i])
    ensures k < |t| && (t[k] == s[k] || Less(t[k], s[k]))
  {
    assert s[k] in Elems(s);
    var j :| 0 <= j < |t| && t[j] == s[k];
    if j < k { LessTotal(s[j], s[k]); }
  }
}
