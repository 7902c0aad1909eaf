/** Text in the log's `extra` field: decimal numbers, and pieces between separators. */
module Text {
  import opened Coding

  datatype Option<T> = None | Some(value: T)

  // ---- decimal numbers ----

  predicate IsDigit(c: byte) { 48 <= c <= 57 }

  /** to_string of a number that is not negative. */
  function Decimal(n: nat): (s: Bytes)
    ensures s != [] && forall i :: 0 <= i < |s| ==> IsDigit(s[i])
  {
    if n < 10 then [48 + n] else Decimal(n / 10) + [48 + n % 10]
  }

  /** `n` without its last `k` digits. */
  function Dropped(n: nat, k: nat): nat { if k == 0 then n else Dropped(n / 10, k - 1) }

  /** The digits of a number, the last one first, and no leading zero. */
  lemma {:induction false} DecimalDigits(n: nat, k: nat)
    ensures k < |Decimal(n)| ==> Decimal(n)[|Decimal(n)| - 1 - k] == 48 + Dropped(n, k) % 10
    ensures k >= |Decimal(n)| ==> Dropped(n, k) == 0
    ensures n >= 10 ==> Decimal(n)[0] != 48
  {
    if n >= 10 {
      DecimalDigits(n / 10, if k > 0 then k - 1 else 0);
    } else if k > 1 {
      DecimalDigits(0, k - 1);
    }
  }

  /** The number the first `k` characters spell. */
  function ValueOf(s: Bytes, k: nat): nat
    requires k <= |s| && forall i :: 0 <= i < k ==> IsDigit(s[i])
  {
    if k == 0 then 0
    else
      assert IsDigit(s[k - 1]);
      10 * ValueOf(s, k - 1) + (s[k - 1] as int - 48)
  }

  function LeadingDigits(s: Bytes): (k: nat)
    ensures k <= |s| && (forall i :: 0 <= i < k ==> IsDigit(s[i])) && (k < |s| ==> !IsDigit(s[k]))
  {
    DigitsFrom(s, 0)
  }

  function DigitsFrom(s: Bytes, k: nat): (r: nat)
    requires k <= |s|
    ensures k <= r <= |s| && (forall i :: k <= i < r ==> IsDigit(s[i])) && (r < |s| ==> !IsDigit(s[r]))
    decreases |s| - k
  {
    if k < |s| && IsDigit(s[k]) then DigitsFrom(s, k + 1) else k
  }

  /** stoi, on a text that starts with a digit; without one it throws. */
  function Stoi(s: Bytes): Option<nat> {
    if LeadingDigits(s) == 0 then None else Some(ValueOf(s, LeadingDigits(s)))
  }

  lemma {:induction false} ValuePrefix(s: Bytes, t: Bytes, k: nat)
    requires k <= |s| && k <= |t| && (forall i :: 0 <= i < k ==> s[i] == t[i] && IsDigit(s[i]))
    ensures ValueOf(s, k) == ValueOf(t, k)
  {
    if k > 0 { ValuePrefix(s, t, k - 1); }
  }

  /** stoi undoes to_string. */
  lemma {:induction false} DecimalRoundTrip(n: nat)
    ensures Stoi(Decimal(n)) == Some(n)
  {
    var s := Decimal(n);
    assert LeadingDigits(s) == |s|;
    if n < 10 {
      assert ValueOf(s, 1) == 10 * ValueOf(s, 0) + (s[0] as int - 48);
    } else {
      DecimalRoundTrip(n / 10);
      var t := Decimal(n / 10);
      assert LeadingDigits(t) == |t|;
      ValuePrefix(s, t, |t|);
    }
  }

  // ---- splitWithStl ----

  predicate Matches(s: Bytes, pattern: Bytes, i: nat) {
    i + |pattern| <= |s| && s[i..i + |pattern|] == pattern
  }

  /** std::string::find, with -1 for npos. */
  function Find(s: Bytes, pattern: Bytes): (i: int)
    ensures -1 <= i && (i >= 0 ==> i + |pattern| <= |s| && Matches(s, pattern, i))
    ensures forall j: nat {:trigger Matches(s, pattern, j)} :: (j < i || i < 0) ==> !Matches(s, pattern, j)
  {
    FindFrom(s, pattern, 0)
  }

  function FindFrom(s: Bytes, pattern: Bytes, k: nat): (i: int)
    ensures -1 <= i && (i >= 0 ==> i >= k && i + |pattern| <= |s| && Matches(s, pattern, i))
    ensures forall j: nat {:trigger Matches(s, pattern, j)} :: k <= j && (j < i || i < 0) ==> !Matches(s, pattern, j)
    decreases |s| - k
  {
    if k + |pattern| > |s| then -1 else if Matches(s, pattern, k) then k else FindFrom(s, pattern, k + 1)
  }

  lemma FindIs(s: Bytes, pattern: Bytes, i: nat)
    requires Matches(s, pattern, i) && forall j: nat {:trigger Matches(s, pattern, j)} :: j < i ==>
             !Matches(s, pattern, j)
    ensures Find(s, pattern) == i
  {
  }

  /** The pieces of a text that ends with the separator; after a match the search goes on one character further. */
  function Pieces(strs: Bytes, pattern: Bytes): seq<Bytes>
    requires pattern != []
    decreases |strs|
  {
    var pos := Find(strs, pattern);
    if pos < 0 then [] else [strs[..pos]] + Pieces(strs[pos + 1..], pattern)
  }

  function Split(str: Bytes, pattern: Bytes): seq<Bytes>
    requires pattern != []
  {
    if str == [] then [] else Pieces(str + pattern, pattern)
  }

  /** splitWithStl. */
  method SplitWithStl(str: Bytes, pattern: Bytes) returns (resVec: seq<Bytes>)
    requires pattern != []
    ensures resVec == Split(str, pattern)
  {
    resVec := [];
    if str == [] {
      return;
    }
    var strs := str + pattern;
    var pos := Find(strs, pattern);
    while pos >= 0
      invariant pos == Find(strs, pattern)
      invariant resVec + Pieces(strs, pattern) == Pieces(str + pattern, pattern)
      decreases |strs|
    {
      var x := strs[..pos];
      assert Pieces(strs, pattern) == [x] + Pieces(strs[pos + 1..], pattern);
      resVec := resVec + [x];
      strs := strs[pos + 1..];
      pos := Find(strs, pattern);
    }
  }

  /** ExtraSeparator: a backslash and a zero. */
  const SEPARATOR: Bytes := [92, 48]

  lemma MatchesPair(s: Bytes, i: nat)
    ensures Matches(s, SEPARATOR, i) <==> i + 1 < |s| && s[i] == 92 && s[i + 1] == 48
  {
    if i + 1 < |s| { assert s[i..i + 2] == [s[i], s[i + 1]]; }
  }

  /** A text, the separator and one more digit come apart into the text and the digit behind a zero. */
  lemma SplitPivot(pivot: Bytes, digit: byte)
    requires Find(pivot, SEPARATOR) < 0 && digit != 92
    ensures Split(pivot + SEPARATOR + [digit], SEPARATOR) == [pivot, [48, digit]]
  {
    var strs := pivot + SEPARATOR + [digit] + SEPARATOR;
    FirstSeparator(pivot, [digit] + SEPARATOR);
    assert strs == pivot + SEPARATOR + ([digit] + SEPARATOR);
    assert strs[..|pivot|] == pivot;
    var rest := strs[|pivot| + 1..];
    assert rest == [48, digit, 92, 48];
    MatchesPair(rest, 0);
    MatchesPair(rest, 1);
    MatchesPair(rest, 2);
    FindIs(rest, SEPARATOR, 2);
    assert rest[..2] == [48, digit] && rest[3..] == [48];
    forall j: nat {:trigger Matches([48], SEPARATOR, j)} ensures !Matches([48], SEPARATOR, j) {
      MatchesPair([48], j);
    }
    assert Pieces([48], SEPARATOR) == [];
    assert Pieces(rest, SEPARATOR) == [[48, digit]];
    assert Pieces(strs, SEPARATOR) == [pivot] + Pieces(rest, SEPARATOR);
  }

  /** The first separator after a text without one is the one put there. */
  lemma FirstSeparator(pivot: Bytes, rest: Bytes)
    ensures Find(pivot + SEPARATOR + rest, SEPARATOR) ==
            if Find(pivot, SEPARATOR) < 0 then |pivot| else Find(pivot, SEPARATOR)
  {
    var s := pivot + SEPARATOR + rest;
    var i := if Find(pivot, SEPARATOR) < 0 then |pivot| else Find(pivot, SEPARATOR);
    MatchesPair(s, i);
    MatchesPair(pivot, i);
    forall j: nat {:trigger Matches(s, SEPARATOR, j)} | j < i ensures !Matches(s, SEPARATOR, j) {
      MatchesPair(s, j);
      MatchesPair(pivot, j);
    }
    FindIs(s, SEPARATOR, i);
  }

  /** The first piece is the text itself exactly when the text holds no separator. */
  lemma FirstPieceIff(pivot: Bytes, digit: byte)
    ensures var pieces := Split(pivot + SEPARATOR + [digit], SEPARATOR);
            pieces != [] && (pieces[0] == pivot <==> Find(pivot, SEPARATOR) < 0)
  {
    var strs := pivot + SEPARATOR + [digit] + SEPARATOR;
    FirstSeparator(pivot, [digit] + SEPARATOR);
    assert strs == pivot + SEPARATOR + ([digit] + SEPARATOR);
    assert strs[..|pivot|] == pivot;
  }
}
