/**
 * The LRU order of one cache set: a permutation of the way indices
 * [0, assoc), least recently used first.  These are the value-level
 * definitions that the in-place swap loops of `CacheSet::update_lru` and
 * `PrivateCache::update_lru` are proved against.
 */
module Lru {

  /** The order a fresh set starts with: [0, 1, ..., n - 1]. */
  function Identity(n: nat): (s: seq<nat>)
    ensures |s| == n
    ensures forall i :: 0 <= i < n ==> s[i] == i
  {
    seq(n, i => i)
  }

  /** s holds every way index below n exactly once. */
  ghost predicate IsPermutation(s: seq<nat>, n: nat)
  {
    multiset(s) == multiset(Identity(n))
  }

  /** `way` moved from position p to the most-recently-used end, the later
      entries shifted one step toward the front. */
  function MoveToEnd(s: seq<nat>, p: nat): (r: seq<nat>)
    requires p < |s|
    ensures |r| == |s| && r[|s| - 1] == s[p]
    ensures forall k :: 0 <= k < p ==> r[k] == s[k]
    ensures forall k :: p <= k < |s| - 1 ==> r[k] == s[k + 1]
  {
    s[..p] + s[p + 1..] + [s[p]]
  }

  /** The entry at position p moved to the least-recently-used end, the
      earlier entries shifted one step toward the back. */
  function MoveToFront(s: seq<nat>, p: nat): (r: seq<nat>)
    requires p < |s|
    ensures |r| == |s| && r[0] == s[p]
    ensures forall k :: 0 < k <= p ==> r[k] == s[k - 1]
    ensures forall k :: p < k < |s| ==> r[k] == s[k]
  {
    [s[p]] + s[..p] + s[p + 1..]
  }

  /** Position of the first occurrence of w in s. */
  function IndexOf(s: seq<nat>, w: nat): (p: nat)
    requires w in s
    ensures p < |s| && s[p] == w
    ensures forall k :: 0 <= k < p ==> s[k] != w
  {
    if s[0] == w then 0 else 1 + IndexOf(s[1..], w)
  }

  // ---------------------------------------------------------------------------

  lemma IdentityIsPermutation(n: nat)
    ensures IsPermutation(Identity(n), n)
  {
  }

  lemma PermutationLength(s: seq<nat>, n: nat)
    requires IsPermutation(s, n)
    ensures |s| == n
  {
    assert |multiset(s)| == |s|;
    assert |multiset(Identity(n))| == n;
  }

  /** Every entry of a permutation of [0, n) is a way index below n. */
  lemma PermutationBound(s: seq<nat>, n: nat, i: nat)
    requires IsPermutation(s, n) && i < |s|
    ensures s[i] < n
  {
    assert s[i] in multiset(s);
    assert s[i] in multiset(Identity(n));
  }

  /** Every way index below n occurs in a permutation of [0, n). */
  lemma PermutationHas(s: seq<nat>, n: nat, w: nat)
    requires IsPermutation(s, n) && w < n
    ensures w in s
  {
    assert Identity(n)[w] == w;
    assert w in multiset(Identity(n));
    assert w in multiset(s);
  }

  lemma {:induction false} IdentityCount(n: nat, v: nat)
    ensures multiset(Identity(n))[v] <= 1
    ensures v < n ==> multiset(Identity(n))[v] == 1
  {
    if n > 0 {
      IdentityCount(n - 1, v);
      assert Identity(n) == Identity(n - 1) + [n - 1];
      assert multiset(Identity(n)) == multiset(Identity(n - 1)) + multiset{(n - 1) as nat};
      if v == n - 1 {
        assert v !in Identity(n - 1);
      }
    }
  }

  /** No way index occurs twice in a permutation. */
  lemma PermutationDistinct(s: seq<nat>, n: nat, i: nat, j: nat)
    requires IsPermutation(s, n) && i < j < |s|
    ensures s[i] != s[j]
  {
    if s[i] == s[j] {
      var v := s[i];
      assert s == s[..i] + [s[i]] + s[i + 1..j] + [s[j]] + s[j + 1..];
      assert multiset(s)[v] >= 2;
      IdentityCount(n, v);
      assert false;
    }
  }

  /** The positions of a permutation are determined by their entries. */
  lemma PermutationIndexOf(s: seq<nat>, n: nat, p: nat)
    requires IsPermutation(s, n) && p < |s|
    ensures s[p] in s && IndexOf(s, s[p]) == p
  {
    var q := IndexOf(s, s[p]);
    if q < p {
      PermutationDistinct(s, n, q, p);
    }
  }

  /** Moving one entry to the back keeps the order a permutation. */
  lemma MoveToEndPermutation(s: seq<nat>, n: nat, p: nat)
    requires IsPermutation(s, n) && p < |s|
    ensures IsPermutation(MoveToEnd(s, p), n)
  {
    assert s == s[..p] + [s[p]] + s[p + 1..];
    assert multiset(MoveToEnd(s, p)) == multiset(s[..p]) + multiset(s[p + 1..]) + multiset{s[p]};
  }

  /** Moving one entry to the front keeps the order a permutation. */
  lemma MoveToFrontPermutation(s: seq<nat>, n: nat, p: nat)
    requires IsPermutation(s, n) && p < |s|
    ensures IsPermutation(MoveToFront(s, p), n)
  {
    assert s == s[..p] + [s[p]] + s[p + 1..];
    assert multiset(MoveToFront(s, p)) == multiset{s[p]} + multiset(s[..p]) + multiset(s[p + 1..]);
  }

  /** In a permutation, a way index sits at exactly one position. */
  lemma PermutationUnique(s: seq<nat>, n: nat, w: nat)
    requires IsPermutation(s, n) && w in s
    ensures forall k :: 0 <= k < |s| && k != IndexOf(s, w) ==> s[k] != w
  {
    var p := IndexOf(s, w);
    forall k | 0 <= k < |s| && k != p
      ensures s[k] != w
    {
      if k > p {
        PermutationDistinct(s, n, p, k);
      }
    }
  }

  /** The entry already at the front stays put: `evict` does not change the order. */
  lemma MoveToFrontOfFirst(s: seq<nat>)
    requires |s| > 0
    ensures MoveToFront(s, 0) == s
  {
  }
}
