/** Pruning the MTR sets to a finite associativity. */
module MtrPrune {
  import opened Wrappers
  import opened MtrRecords

  // ---------------------------------------------------------------------------
  // Pruning to an associativity
  // ---------------------------------------------------------------------------

  predicate SortedAsc(s: seq<nat>)
  {
    forall i, j :: 0 <= i < j < |s| ==> s[i] <= s[j]
  }

  /** x inserted before the first element not smaller than it. */
  function InsertSorted(x: nat, s: seq<nat>): seq<nat>
  {
    if |s| == 0 then [x]
    else if x <= s[0] then [x] + s
    else [s[0]] + InsertSorted(x, s[1..])
  }

  /** Inserting into an ascending sequence keeps it ascending and adds exactly x. */
  lemma {:induction false} InsertSortedSpec(x: nat, s: seq<nat>)
    requires SortedAsc(s)
    ensures var r := InsertSorted(x, s);
            |r| == |s| + 1 && (r[0] == x || (|s| > 0 && r[0] == s[0]))
            && SortedAsc(r) && multiset(r) == multiset(s) + multiset{x}
  {
    if |s| > 0 && x > s[0] {
      InsertSortedSpec(x, s[1..]);
      var tail := InsertSorted(x, s[1..]);
      ConsSorted(s[0], tail);
      assert s == [s[0]] + s[1..];
      assert multiset([s[0]] + tail) == multiset{s[0]} + multiset(tail);
    } else {
      ConsSorted(x, s);
    }
  }

  /** An element no larger than the head of an ascending sequence extends it at the front. */
  lemma ConsSorted(h: nat, t: seq<nat>)
    requires SortedAsc(t) && (|t| == 0 || h <= t[0])
    ensures SortedAsc([h] + t)
  {
    var r := [h] + t;
    forall i, j | 0 <= i < j < |r|
      ensures r[i] <= r[j]
    {
      if i > 0 {
        assert r[i] == t[i - 1] && r[j] == t[j - 1];
      } else {
        assert r[j] == t[j - 1];
      }
    }
  }

  /** `sort_unstable` on timestamps, as an insertion sort. */
  function SortAscending(s: seq<nat>): seq<nat>
  {
    if |s| == 0 then [] else InsertSorted(s[0], SortAscending(s[1..]))
  }

  /** The sort returns an ascending arrangement of the same elements. */
  lemma {:induction false} SortAscendingSpec(s: seq<nat>)
    ensures var r := SortAscending(s);
            |r| == |s| && SortedAsc(r) && multiset(r) == multiset(s)
  {
    if |s| > 0 {
      SortAscendingSpec(s[1..]);
      InsertSortedSpec(s[0], SortAscending(s[1..]));
      assert s == [s[0]] + s[1..];
    }
  }

  /** Two ascending sequences with the same elements are equal: the sort's result does not depend on the input order. */
  lemma {:induction false} SortedUnique(a: seq<nat>, b: seq<nat>)
    requires SortedAsc(a) && SortedAsc(b) && multiset(a) == multiset(b)
    ensures a == b
    decreases |a|
  {
    assert |a| == |multiset(a)| == |multiset(b)| == |b|;
    if |a| > 0 {
      SortedHeads(a, b);
      SortedUnique(a[1..], b[1..]);
    }
  }

  /** Same first elements, and the same multisets after them. */
  lemma SortedHeads(a: seq<nat>, b: seq<nat>)
    requires SortedAsc(a) && SortedAsc(b) && multiset(a) == multiset(b) && |a| > 0 && |b| > 0
    ensures a[0] == b[0] && multiset(a[1..]) == multiset(b[1..])
    ensures SortedAsc(a[1..]) && SortedAsc(b[1..])
  {
    SortedHeadIsMin(a, b[0]);
    SortedHeadIsMin(b, a[0]);
    DropHead(a);
    DropHead(b);
  }

  /** The first element of an ascending sequence is at most any of its elements. */
  lemma SortedHeadIsMin(a: seq<nat>, x: nat)
    requires SortedAsc(a) && |a| > 0 && x in multiset(a)
    ensures a[0] <= x
  {
    var i :| 0 <= i < |a| && a[i] == x;
  }

  lemma DropHead(a: seq<nat>)
    requires |a| > 0
    ensures multiset(a[1..]) == multiset(a) - multiset{a[0]}
  {
    assert a == [a[0]] + a[1..];
  }

  /** Removing a key removes one record. */
  lemma MapRemoveCard(m: map<nat, MtrRecord>, k: nat)
    requires k in m
    ensures (m - {k}).Keys == m.Keys - {k} && |m - {k}| == |m| - 1
  {
    assert (m - {k}).Keys == m.Keys - {k};
    assert |m.Keys - {k}| == |m.Keys| - 1;
  }

  /** Some key of a non-empty map. */
  ghost function Pick(m: map<nat, MtrRecord>): (k: nat)
    requires |m| > 0
    ensures k in m
  {
    assert m.Keys != {} by {
      assert |m.Keys| == |m|;
    }
    var k :| k in m.Keys;
    k
  }

  /** The timestamps of a set's records, in some order: `set.iter().map(ts)`. */
  ghost function TsList(m: map<nat, MtrRecord>): (t: seq<nat>)
    ensures |t| == |m|
    decreases |m|
  {
    if |m| == 0 then []
    else
      var k := Pick(m);
      MapRemoveCard(m, k);
      TsList(m - {k}) + [m[k].ts]
  }

  /** Whichever key is taken out first, the timestamps are the same multiset. */
  lemma {:induction false} TsListRemove(m: map<nat, MtrRecord>, k: nat)
    requires k in m
    ensures multiset(TsList(m)) == multiset(TsList(m - {k})) + multiset{m[k].ts}
    decreases |m|
  {
    var p: nat := Pick(m);
    MapRemoveCard(m, p);
    if p != k {
      MapRemoveCard(m, k);
      var mp: map<nat, MtrRecord> := m - {p};
      var mk: map<nat, MtrRecord> := m - {k};
      TsListRemove(mp, k);
      TsListRemove(mk, p);
      TsListSwap(m, p, k);
    }
  }

  /** The two orders of taking out p and k meet. */
  lemma TsListSwap(m: map<nat, MtrRecord>, p: nat, k: nat)
    requires p in m && k in m && p != k && |m| > 0 && p == Pick(m)
    requires multiset(TsList(m - {p})) == multiset(TsList(m - {p} - {k})) + multiset{m[k].ts}
    requires multiset(TsList(m - {k})) == multiset(TsList(m - {k} - {p})) + multiset{m[p].ts}
    ensures multiset(TsList(m)) == multiset(TsList(m - {k})) + multiset{m[k].ts}
  {
    RemoveCommutes(m, p, k);
    assert TsList(m) == TsList(m - {p}) + [m[p].ts];
    BagSwap(multiset(TsList(m - {p} - {k})), m[k].ts, m[p].ts,
            multiset(TsList(m)), multiset(TsList(m - {p})), multiset(TsList(m - {k})));
  }

  lemma RemoveCommutes(m: map<nat, MtrRecord>, p: nat, k: nat)
    ensures m - {p} - {k} == m - {k} - {p}
  {
  }

  lemma BagSwap(common: multiset<nat>, x: nat, y: nat, whole: multiset<nat>, withX: multiset<nat>, withY: multiset<nat>)
    requires whole == withX + multiset{y} && withX == common + multiset{x} && withY == common + multiset{y}
    ensures whole == withY + multiset{x}
  {
  }

  /** The number of elements at least c. */
  function CountAtLeast(s: seq<nat>, c: nat): (n: nat)
    ensures n <= |s|
  {
    if |s| == 0 then 0 else CountAtLeast(s[..|s| - 1], c) + (if s[|s| - 1] >= c then 1 else 0)
  }

  lemma {:induction false} CountAppend(a: seq<nat>, b: seq<nat>, c: nat)
    ensures CountAtLeast(a + b, c) == CountAtLeast(a, c) + CountAtLeast(b, c)
    decreases |b|
  {
    if |b| == 0 {
      assert a + b == a;
    } else {
      assert (a + b)[..|a + b| - 1] == a + b[..|b| - 1];
      CountAppend(a, b[..|b| - 1], c);
    }
  }

  /** The count depends only on the multiset of elements. */
  lemma {:induction false} CountPermutation(a: seq<nat>, b: seq<nat>, c: nat)
    requires multiset(a) == multiset(b)
    ensures CountAtLeast(a, c) == CountAtLeast(b, c)
    decreases |a|
  {
    assert |a| == |multiset(a)| == |multiset(b)| == |b|;
    if |a| > 0 {
      var x := a[|a| - 1];
      var init := a[..|a| - 1];
      assert a == init + [x];
      assert x in multiset(b);
      var j :| 0 <= j < |b| && b[j] == x;
      var rest := b[..j] + b[j + 1..];
      assert b == b[..j] + [x] + b[j + 1..];
      assert multiset(rest) == multiset(b) - multiset{x};
      assert multiset(init) == multiset(a) - multiset{x};
      CountPermutation(init, rest, c);
      CountAppend(b[..j], [x], c);
      CountAppend(b[..j] + [x], b[j + 1..], c);
      CountAppend(b[..j], b[j + 1..], c);
      assert [x][..0] == [];
    }
  }

  /** In an ascending sequence, everything from index i on is at least s[i]. */
  lemma {:induction false} CountSortedSuffix(s: seq<nat>, i: nat)
    requires SortedAsc(s) && i < |s|
    ensures CountAtLeast(s, s[i]) >= |s| - i
    decreases |s|
  {
    if i < |s| - 1 {
      CountSortedSuffix(s[..|s| - 1], i);
    }
  }

  /** In an ascending sequence, only elements after index i can exceed s[i]. */
  lemma {:induction false} CountSortedNewer(s: seq<nat>, i: nat)
    requires SortedAsc(s) && i < |s|
    ensures CountAtLeast(s, s[i] + 1) <= |s| - i - 1
    decreases |s|
  {
    if i < |s| - 1 {
      CountSortedNewer(s[..|s| - 1], i);
    } else {
      CountBelow(s[..|s| - 1], s[i] + 1);
    }
  }

  lemma {:induction false} CountBelow(s: seq<nat>, c: nat)
    requires forall j :: 0 <= j < |s| ==> s[j] < c
    ensures CountAtLeast(s, c) == 0
    decreases |s|
  {
    if |s| > 0 {
      CountBelow(s[..|s| - 1], c);
    }
  }

  /** The keys whose records have a timestamp at least c. */
  function KeysAtLeast(m: map<nat, MtrRecord>, c: nat): set<nat>
  {
    set k | k in m && m[k].ts >= c
  }

  /** Counting records by key and counting timestamps agree. */
  lemma {:induction false} KeysAtLeastCount(m: map<nat, MtrRecord>, c: nat)
    ensures |KeysAtLeast(m, c)| == CountAtLeast(TsList(m), c)
    decreases |m|
  {
    if |m| > 0 {
      var k := Pick(m);
      MapRemoveCard(m, k);
      var rest: map<nat, MtrRecord> := m - {k};
      KeysAtLeastCount(rest, c);
      var t := TsList(rest);
      assert TsList(m) == t + [m[k].ts];
      assert (t + [m[k].ts])[..|t|] == t;
      assert CountAtLeast(TsList(m), c) == CountAtLeast(t, c) + (if m[k].ts >= c then 1 else 0);
      KeysAtLeastRemove(m, c, k);
    }
  }

  lemma KeysAtLeastRemove(m: map<nat, MtrRecord>, c: nat, k: nat)
    requires k in m
    ensures |KeysAtLeast(m, c)| == |KeysAtLeast(m - {k}, c)| + (if m[k].ts >= c then 1 else 0)
  {
    var rest: map<nat, MtrRecord> := m - {k};
    assert k !in KeysAtLeast(rest, c);
    if m[k].ts >= c {
      assert KeysAtLeast(m, c) == KeysAtLeast(rest, c) + {k};
    } else {
      assert KeysAtLeast(m, c) == KeysAtLeast(rest, c);
    }
  }

  /** The boundary timestamp of `prune_by_associativity`: the assoc-th newest. */
  ghost function Cutoff(m: map<nat, MtrRecord>, assoc: nat): nat
    requires 0 < assoc < |m|
  {
    SortAscendingSpec(TsList(m));
    SortAscending(TsList(m))[|m| - assoc]
  }

  /** `retain(ts >= c)`: the records at least as new as c. */
  function Retain(m: map<nat, MtrRecord>, c: nat): (r: map<nat, MtrRecord>)
    ensures r.Keys == KeysAtLeast(m, c)
    ensures forall k :: k in r ==> r[k] == m[k]
  {
    map k | k in KeysAtLeast(m, c) :: m[k]
  }

  datatype PruneFault = ZeroAssociativity

  /**
   * One set of `prune_by_associativity`: kept as is when it has at most
   * assoc records, otherwise only the records at least as new as the
   * cutoff. With no ways, a non-empty set indexes past the end.
   */
  ghost function PruneSetOn(m: map<nat, MtrRecord>, assoc: nat): Result<map<nat, MtrRecord>, PruneFault>
  {
    if |m| <= assoc then Ok(m)
    else if assoc == 0 then Err(ZeroAssociativity)
    else Ok(Retain(m, Cutoff(m, assoc)))
  }

  /** At least assoc records are as new as the cutoff, and fewer than assoc are strictly newer. */
  lemma PruneCounts(m: map<nat, MtrRecord>, assoc: nat)
    requires 0 < assoc < |m|
    ensures |KeysAtLeast(m, Cutoff(m, assoc))| >= assoc
    ensures |KeysAtLeast(m, Cutoff(m, assoc) + 1)| < assoc
  {
    var sorted := SortAscending(TsList(m));
    SortAscendingSpec(TsList(m));
    var i := |m| - assoc;
    var c := sorted[i];
    assert c == Cutoff(m, assoc);
    CountSortedSuffix(sorted, i);
    CountSortedNewer(sorted, i);
    CountPermutation(sorted, TsList(m), c);
    CountPermutation(sorted, TsList(m), c + 1);
    KeysAtLeastCount(m, c);
    KeysAtLeastCount(m, c + 1);
  }

  /**
   * Pruning keeps a sub-map of the set. A set within the associativity is
   * kept whole; otherwise at least assoc records survive, exactly those no
   * older than a cutoff, and fewer than assoc records are strictly newer
   * than it, so the survivors are the assoc newest plus any ties.
   */
  lemma PruneSetSpec(m: map<nat, MtrRecord>, assoc: nat)
    ensures var r := PruneSetOn(m, assoc);
            (r.Err? <==> assoc == 0 && |m| > 0)
            && (|m| <= assoc ==> r == Ok(m))
            && (r.Ok? ==> r.value.Keys <= m.Keys && forall k :: k in r.value ==> r.value[k] == m[k])
            && (r.Ok? && |m| > assoc ==>
                  |r.value| >= assoc
                  && (forall k :: k in m ==> (k in r.value <==> m[k].ts >= Cutoff(m, assoc)))
                  && |KeysAtLeast(m, Cutoff(m, assoc) + 1)| < assoc)
  {
    if 0 < assoc < |m| {
      PruneCounts(m, assoc);
      assert |Retain(m, Cutoff(m, assoc))| == |KeysAtLeast(m, Cutoff(m, assoc))|;
    }
  }

  /** Any ascending arrangement of the set's timestamps has the cutoff at the same place. */
  lemma CutoffOfSorted(m: map<nat, MtrRecord>, assoc: nat, sorted: seq<nat>)
    requires 0 < assoc < |m| && SortedAsc(sorted) && multiset(sorted) == multiset(TsList(m))
    ensures |sorted| == |m| && sorted[|m| - assoc] == Cutoff(m, assoc)
  {
    assert |sorted| == |m| by {
      assert |multiset(sorted)| == |multiset(TsList(m))|;
    }
    var reference := SortAscending(TsList(m));
    SortAscendingSpec(TsList(m));
    SortedUnique(sorted, reference);
  }

  /** `prune_by_associativity` on one set. */
  method PruneSet(m: map<nat, MtrRecord>, assoc: nat) returns (r: Result<map<nat, MtrRecord>, PruneFault>)
    ensures r == PruneSetOn(m, assoc)
  {
    var timestamps := CollectTimestamps(m);
    if |timestamps| <= assoc {
      return Ok(m);
    }
    if assoc == 0 {
      return Err(ZeroAssociativity);
    }
    var sorted := SortAscending(timestamps);
    SortAscendingSpec(timestamps);
    CutoffOfSorted(m, assoc, sorted);
    var minimum := sorted[|sorted| - assoc];
    return Ok(Retain(m, minimum));
  }

  /** The loop gathering the set's timestamps in the order its iterator yields them. */
  method CollectTimestamps(m: map<nat, MtrRecord>) returns (timestamps: seq<nat>)
    ensures |timestamps| == |m| && multiset(timestamps) == multiset(TsList(m))
  {
    timestamps := [];
    var rest := m;
    while |rest| > 0
      invariant multiset(timestamps) + multiset(TsList(rest)) == multiset(TsList(m))
      decreases |rest|
    {
      var k := PickKey(rest);
      TsListRemove(rest, k);
      MapRemoveCard(rest, k);
      timestamps := timestamps + [rest[k].ts];
      rest := rest - {k};
    }
    assert |timestamps| == |m| by {
      assert |multiset(timestamps)| == |multiset(TsList(m))|;
    }
  }

  /** Any key of a non-empty map, in the order the map's iterator yields them. */
  method PickKey(m: map<nat, MtrRecord>) returns (k: nat)
    requires |m| > 0
    ensures k in m
  {
    assert |m.Keys| == |m|;
    k :| k in m.Keys;
  }
}
