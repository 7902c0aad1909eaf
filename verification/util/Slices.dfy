/** Slices of sequences. */
module Slices {
  lemma SliceOfSlice<T>(s: seq<T>, a: nat, b: nat, i: nat, j: nat)
    requires a <= b <= |s| && i <= j <= b - a
    ensures s[a..b][i..j] == s[a + i..a + j]
  {
    var x, y := s[a..b][i..j], s[a + i..a + j];
    forall k | 0 <= k < j - i ensures x[k] == y[k] {
      assert x[k] == s[a..b][i + k] == s[a + i + k] == y[k];
    }
  }

  lemma SliceGrows<T>(s: seq<T>, a: nat, b: nat, before: seq<T>)
    requires a <= b < |s|
    ensures before + s[a..b] + [s[b]] == before + s[a..b + 1]
  {
    assert s[a..b + 1] == s[a..b] + [s[b]];
  }
}
