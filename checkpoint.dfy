/**
 * The checkpoint types (a MESI-style block state, cache and directory
 * blocks, the private-cache geometry) and the timestamped wrappers whose
 * max-heaps keep the most recently used blocks.
 */
module Checkpoints {
  import opened Wrappers

  /** The sets and associativities of the private caches to rebuild. */
  datatype PrivateCacheParameters = PrivateCacheParameters(
    l1iSets: nat, l1iAssociativity: nat,
    l1dSets: nat, l1dAssociativity: nat,
    l2Sets: nat, l2Associativity: nat,
    directoryAssociativity: nat)

  datatype CacheBlockState = Invalid | CleanShared | CleanExclusive | ModifiedExclusive | ModifiedOwned

  /** The discriminants 0 to 4. */
  function StateCode(s: CacheBlockState): (n: nat)
    ensures n < 5
  {
    match s
    case Invalid => 0
    case CleanShared => 1
    case CleanExclusive => 2
    case ModifiedExclusive => 3
    case ModifiedOwned => 4
  }

  datatype CacheBlock = CacheBlock(blockId: nat, state: CacheBlockState, inInstructionCache: bool, inDataCache: bool)

  /** A directory entry; the replicas are the set of core ids holding the block. */
  datatype DirectoryBlock = DirectoryBlock(blockId: nat, replicas: set<nat>, lastWriter: Option<nat>)

  /** The serialized checkpoint: per-core L1i, L1d and L2 keyed by core id, the directory and the shared cache. */
  datatype MemoryHierarchyCheckPoint = MemoryHierarchyCheckPoint(
    l1i: map<nat, seq<seq<CacheBlock>>>,
    l1d: map<nat, seq<seq<CacheBlock>>>,
    l2: map<nat, seq<seq<CacheBlock>>>,
    directory: seq<seq<DirectoryBlock>>,
    sharedCache: seq<seq<CacheBlock>>)

  datatype TsCacheBlock = TsCacheBlock(d: CacheBlock, ts: nat)

  datatype TsDirectoryBlock = TsDirectoryBlock(d: DirectoryBlock, ts: nat)

  datatype Ordering = Less | Equal | Greater

  /** `usize::cmp`. */
  function CompareTs(a: nat, b: nat): Ordering
  {
    if a < b then Less else if a == b then Equal else Greater
  }

  /** `Ord for TsCacheBlock`: the timestamps alone are compared. */
  function CompareCacheBlocks(a: TsCacheBlock, b: TsCacheBlock): Ordering
  {
    CompareTs(a.ts, b.ts)
  }

  /** `Ord for TsDirectoryBlock`. */
  function CompareDirectoryBlocks(a: TsDirectoryBlock, b: TsDirectoryBlock): Ordering
  {
    CompareTs(a.ts, b.ts)
  }

  /** A sequence in non-increasing order of key. */
  predicate NonIncreasing<T>(s: seq<T>, key: T -> nat)
  {
    forall i, j :: 0 <= i < j < |s| ==> key(s[j]) <= key(s[i])
  }

  /** x is an element of h with the largest key. */
  predicate IsMax<T>(h: multiset<T>, x: T, key: T -> nat)
  {
    x in h && forall y :: y in h ==> key(y) <= key(x)
  }

  /** Every element already taken has a key at least that of every element left. */
  ghost predicate Dominates<T>(taken: seq<T>, left: multiset<T>, key: T -> nat)
  {
    forall x, y :: x in taken && y in left ==> key(y) <= key(x)
  }

  function TsOf(b: TsCacheBlock): nat
  {
    b.ts
  }

  function DirectoryTsOf(b: TsDirectoryBlock): nat
  {
    b.ts
  }

  // ---------------------------------------------------------------------------
  // Ordering
  // ---------------------------------------------------------------------------

  /**
   * The comparison is a total preorder on timestamps: antisymmetric,
   * transitive, and Equal exactly when the timestamps are.
   */
  lemma CompareIsByTs(a: TsCacheBlock, b: TsCacheBlock, c: TsCacheBlock)
    ensures CompareCacheBlocks(a, b) == Less <==> CompareCacheBlocks(b, a) == Greater
    ensures CompareCacheBlocks(a, b) == Equal <==> a.ts == b.ts
    ensures CompareCacheBlocks(a, b) != Greater && CompareCacheBlocks(b, c) != Greater ==> CompareCacheBlocks(a, c) != Greater
  {
  }

  /** The same holds for directory blocks. */
  lemma CompareDirectoryIsByTs(a: TsDirectoryBlock, b: TsDirectoryBlock)
    ensures CompareDirectoryBlocks(a, b) == Less <==> CompareDirectoryBlocks(b, a) == Greater
    ensures CompareDirectoryBlocks(a, b) == Equal <==> a.ts == b.ts
  {
  }

  /** Two different blocks with the same timestamp compare Equal, although they are not equal values. */
  lemma EqualOrderingIsNotEquality()
    ensures var a := TsCacheBlock(CacheBlock(1, Invalid, false, true), 7);
            var b := TsCacheBlock(CacheBlock(2, CleanShared, false, true), 7);
            CompareCacheBlocks(a, b) == Equal && a != b
  {
  }

  // ---------------------------------------------------------------------------
  // Heaps as multisets
  // ---------------------------------------------------------------------------

  /** A non-empty bag has an element of largest key. */
  lemma {:induction false} MaxExists<T>(h: multiset<T>, key: T -> nat)
    requires |h| > 0
    ensures exists x :: IsMax(h, x, key)
    decreases |h|
  {
    var x :| x in h;
    var rest := h - multiset{x};
    if |rest| == 0 {
      assert h == multiset{x};
      assert IsMax(h, x, key);
    } else {
      MaxExists(rest, key);
      var m :| IsMax(rest, m, key);
      if key(x) <= key(m) {
        assert IsMax(h, m, key);
      } else {
        assert IsMax(h, x, key);
      }
    }
  }

  /** Taking a largest element of what is left keeps the taken sequence ordered and dominant. */
  lemma DrainStep<T>(taken: seq<T>, left: multiset<T>, top: T, key: T -> nat)
    requires NonIncreasing(taken, key) && Dominates(taken, left, key) && IsMax(left, top, key)
    ensures NonIncreasing(taken + [top], key) && Dominates(taken + [top], left - multiset{top}, key)
  {
    assert forall x :: x in taken ==> key(top) <= key(x);
  }

  /** `BinaryHeap::pop` on a non-empty heap: some element of largest key; which one among equals is left open. */
  method Pop<T>(h: multiset<T>, key: T -> nat) returns (top: T, rest: multiset<T>)
    requires |h| > 0
    ensures IsMax(h, top, key) && rest == h - multiset{top}
  {
    MaxExists(h, key);
    top :| IsMax(h, top, key);
    rest := h - multiset{top};
  }

  /** No block left out is newer than a block taken. */
  ghost predicate NoneNewerLeft(taken: multiset<TsCacheBlock>, left: multiset<TsCacheBlock>)
  {
    forall x, y :: x in taken && y in left ==> y.ts <= x.ts
  }

  /**
   * res is what `get_top_k` may return: the heap itself when k is at least
   * its size, otherwise k of its elements, none older than any element left
   * out.
   */
  ghost predicate IsTopK(heap: multiset<TsCacheBlock>, k: nat, res: multiset<TsCacheBlock>)
  {
    (k >= |heap| ==> res == heap)
    && (k < |heap| ==> |res| == k && res <= heap)
    && NoneNewerLeft(res, heap - res)
  }

  /** Taking a newest block of what is left keeps the taken blocks dominant. */
  lemma TakeStep(taken: multiset<TsCacheBlock>, left: multiset<TsCacheBlock>, top: TsCacheBlock)
    requires NoneNewerLeft(taken, left) && IsMax(left, top, TsOf)
    ensures NoneNewerLeft(taken + multiset{top}, left - multiset{top})
  {
  }

  /** A top-k selection holds at most k blocks, all taken from the heap. */
  lemma TopKBounded(heap: multiset<TsCacheBlock>, k: nat, res: multiset<TsCacheBlock>)
    requires IsTopK(heap, k, res)
    ensures |res| <= k && res <= heap && |res| <= |heap|
  {
    if k >= |heap| {
      assert res == heap;
    } else {
      assert res <= heap;
    }
  }

  /** `get_top_k`: pop the k newest blocks off a copy of the heap. */
  method GetTopK(heap: multiset<TsCacheBlock>, k: nat) returns (res: multiset<TsCacheBlock>)
    ensures IsTopK(heap, k, res)
  {
    if k >= |heap| {
      return heap;
    }
    var copy := heap;
    res := multiset{};
    for i := 0 to k
      invariant |res| == i && res + copy == heap
      invariant NoneNewerLeft(res, copy)
    {
      var top;
      ghost var before := copy;
      top, copy := Pop(copy, TsOf);
      TakeStep(res, before, top);
      res := res + multiset{top};
    }
    assert heap - res == copy;
  }

  /** The `d` fields of a sequence of timestamped blocks. */
  function Ds(s: seq<TsCacheBlock>): (ds: seq<CacheBlock>)
    ensures |ds| == |s| && forall i :: 0 <= i < |s| ==> ds[i] == s[i].d
  {
    seq(|s|, i requires 0 <= i < |s| => s[i].d)
  }

  /** out lists the heap's blocks newest first, ties in any order. */
  ghost predicate IsExportOf(heap: multiset<TsCacheBlock>, out: seq<CacheBlock>)
  {
    exists s :: multiset(s) == heap && NonIncreasing(s, TsOf) && out == Ds(s)
  }

  /** `export`: the heap popped empty, each block's `d` in pop order, so newest first. */
  method Export(heap: multiset<TsCacheBlock>) returns (out: seq<CacheBlock>)
    ensures |out| == |heap| && IsExportOf(heap, out)
  {
    var copy := heap;
    out := [];
    ghost var popped: seq<TsCacheBlock> := [];
    var n := |copy|;
    for i := 0 to n
      invariant |popped| == i && multiset(popped) + copy == heap && out == Ds(popped)
      invariant NonIncreasing(popped, TsOf) && Dominates(popped, copy, TsOf)
    {
      var top;
      ghost var before := copy;
      top, copy := Pop(copy, TsOf);
      DrainStep(popped, before, top, TsOf);
      DsAppend(popped, top);
      popped := popped + [top];
      out := out + [top.d];
    }
    assert multiset(popped) == heap && NonIncreasing(popped, TsOf) && out == Ds(popped);
  }

  /** Appending a block appends its `d`. */
  lemma DsAppend(s: seq<TsCacheBlock>, x: TsCacheBlock)
    ensures Ds(s + [x]) == Ds(s) + [x.d]
  {
    assert forall i :: 0 <= i < |s| + 1 ==> Ds(s + [x])[i] == (Ds(s) + [x.d])[i];
  }

  /** `sort_unstable_by` on descending timestamps: a permutation, newest first; ties in any order. */
  method SortByTsDescending(xs: seq<TsDirectoryBlock>) returns (ys: seq<TsDirectoryBlock>)
    ensures multiset(ys) == multiset(xs) && NonIncreasing(ys, DirectoryTsOf)
  {
    var rest := multiset(xs);
    ys := [];
    while |rest| > 0
      invariant multiset(ys) + rest == multiset(xs)
      invariant NonIncreasing(ys, DirectoryTsOf) && Dominates(ys, rest, DirectoryTsOf)
      decreases |rest|
    {
      var top;
      ghost var before := rest;
      top, rest := Pop(rest, DirectoryTsOf);
      DrainStep(ys, before, top, DirectoryTsOf);
      ys := ys + [top];
    }
  }
}
