/** Facts about slices of sequences. */
module Slices {

  lemma SubSlice<T>(s: seq<T>, i: nat, n: nat, lo: nat, hi: nat)
    requires lo <= hi <= n && i + n <= |s|
    ensures s[i..i + n][lo..hi] == s[i + lo..i + hi]
  {
    var part, a, b := s[i..i + n], s[i..i + n][lo..hi], s[i + lo..i + hi];
    assert |a| == |b|;
    forall x | 0 <= x < |a| ensures a[x] == b[x] {
      assert a[x] == part[lo + x] && b[x] == s[i + lo + x];
    }
  }

  lemma SplitPrefix<T>(s: seq<T>, i: nat, j: nat)
    requires i <= j <= |s|
    ensures s[..j] == s[..i] + s[i..j]
  {
  }

  lemma SameSlice<T>(a: seq<T>, b: seq<T>, lo: nat, hi: nat)
    requires lo <= hi <= |a| == |b| && forall x | lo <= x < hi :: a[x] == b[x]
    ensures a[lo..hi] == b[lo..hi]
  {
  }
}
