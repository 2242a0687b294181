/**
 * Segmentation of a sequence of block ids into fetch blocks: maximal runs of
 * equal consecutive ids, reported as a map from each run's first index to its
 * length.
 */
module FetchBlocks {
  import opened Wrappers

  /** Index k starts a run: the first index, or one whose id differs from its predecessor's. */
  predicate IsRunStart(ids: seq<nat>, k: nat)
  {
    k == 0 || (k < |ids| && ids[k] != ids[k - 1])
  }

  /** The run starts of ids; index 0 counts even for an empty sequence. */
  function RunStarts(ids: seq<nat>): (s: set<nat>)
    ensures forall k :: k in s <==> IsRunStart(ids, k)
  {
    set k | 0 <= k <= |ids| && IsRunStart(ids, k)
  }

  /** The number of consecutive positions from k on that carry the id at k. */
  function RunLength(ids: seq<nat>, k: nat): (n: nat)
    requires k <= |ids|
    ensures k + n <= |ids|
    ensures k < |ids| ==> n >= 1
    ensures forall j :: k <= j < k + n ==> ids[j] == ids[k]
    ensures k + n == |ids| || ids[k + n] != ids[k]
    decreases |ids| - k
  {
    if k == |ids| then 0
    else if k + 1 < |ids| && ids[k + 1] == ids[k] then 1 + RunLength(ids, k + 1)
    else 1
  }

  /** The map `find_fetch_block_from_block_id_sequence` returns. */
  function FetchBlockMap(ids: seq<nat>): map<nat, nat>
  {
    map k | k in RunStarts(ids) :: RunLength(ids, k)
  }

  /** A run whose ids all equal its first one and that stops at a change has that length. */
  lemma {:induction false} RunLengthOfRun(ids: seq<nat>, k: nat, end: nat)
    requires k < end <= |ids|
    requires forall j :: k <= j < end ==> ids[j] == ids[k]
    requires end == |ids| || ids[end] != ids[end - 1]
    ensures RunLength(ids, k) == end - k
    decreases end - k
  {
    if k + 1 < end {
      RunLengthOfRun(ids, k + 1, end);
    }
  }

  /**
   * `find_fetch_block_from_block_id_sequence`: one pass that records a run
   * when the id changes, then records the last run (of length 0 on an empty
   * input).
   */
  method FindFetchBlocks(ids: seq<nat>) returns (res: map<nat, nat>)
    ensures res == FetchBlockMap(ids)
  {
    res := map[];
    var lastId: Option<nat> := None;
    var lastFirst: nat := 0;
    var total := |ids|;
    for idx := 0 to |ids|
      invariant lastFirst <= idx
      invariant idx == 0 <==> lastId.None?
      invariant lastId.Some? ==> lastFirst < idx && lastId.value == ids[lastFirst]
      invariant lastId.Some? ==> IsRunStart(ids, lastFirst)
      invariant forall j :: lastFirst <= j < idx ==> ids[j] == ids[lastFirst]
      invariant RecordedBefore(ids, res, lastFirst)
    {
      var blockId := ids[idx];
      match lastId {
        case Some(lastFbId) =>
          if blockId != lastFbId {
            RecordRun(ids, res, lastFirst, idx);
            var lastFbSize := idx - lastFirst;
            res := res[lastFirst := lastFbSize];
            lastFirst := idx;
            lastId := Some(blockId);
          }
        case None =>
          lastId := Some(blockId);
      }
    }
    if lastFirst < total {
      RecordRun(ids, res, lastFirst, total);
    }
    res := res[lastFirst := total - lastFirst];
    MapOfRuns(ids, res);
  }

  /** res holds exactly the runs that start before first, each with its length. */
  ghost predicate RecordedBefore(ids: seq<nat>, res: map<nat, nat>, first: nat)
  {
    (forall k: nat :: k in res <==> IsRunStart(ids, k) && k < first)
    && (forall k :: k in res ==> k <= |ids| && res[k] == RunLength(ids, k))
  }

  /** Recording the run [first, next) extends the recorded runs up to next. */
  lemma RecordRun(ids: seq<nat>, res: map<nat, nat>, first: nat, next: nat)
    requires RecordedBefore(ids, res, first)
    requires first < next <= |ids| && IsRunStart(ids, first)
    requires forall j :: first <= j < next ==> ids[j] == ids[first]
    requires next == |ids| || ids[next] != ids[next - 1]
    ensures RecordedBefore(ids, res[first := next - first], next)
  {
    RunLengthOfRun(ids, first, next);
  }

  /** A map whose keys are the run starts and whose values are their run lengths is the fetch-block map. */
  lemma MapOfRuns(ids: seq<nat>, m: map<nat, nat>)
    requires forall k: nat :: k in m <==> IsRunStart(ids, k) && k <= |ids|
    requires forall k :: k in m ==> m[k] == RunLength(ids, k)
    ensures m == FetchBlockMap(ids)
  {
  }

  // ---------------------------------------------------------------------------
  // Properties of the segmentation
  // ---------------------------------------------------------------------------

  /** An empty sequence gives the single entry 0 -> 0. */
  lemma EmptyInput()
    ensures FetchBlockMap([]) == map[0 := 0]
  {
    assert RunStarts([]) == {0};
  }

  /** The positions whose id differs from the predecessor's. */
  function Changes(ids: seq<nat>): set<nat>
  {
    set k: nat | 1 <= k < |ids| && IsRunStart(ids, k)
  }

  /** One entry for the first run plus one per change of id. */
  lemma EntryCount(ids: seq<nat>)
    ensures |FetchBlockMap(ids)| == 1 + |Changes(ids)|
  {
    var keys := FetchBlockMap(ids).Keys;
    assert keys == {0} + Changes(ids);
    assert 0 !in Changes(ids);
  }

  /** Position j lies in the run that starts at k. */
  predicate InRun(m: map<nat, nat>, k: nat, j: nat)
  {
    k in m && k <= j < k + m[k]
  }

  /** Every position lies in exactly one run: the runs partition [0, |ids|). */
  lemma RunsPartition(ids: seq<nat>, j: nat)
    requires j < |ids|
    ensures exists k :: InRun(FetchBlockMap(ids), k, j)
    ensures forall k :: InRun(FetchBlockMap(ids), k, j) ==> k == LastRunStart(ids, j)
  {
    var m := FetchBlockMap(ids);
    var s := LastRunStart(ids, j);
    RunLengthCovers(ids, s, j);
    assert InRun(m, s, j);
    forall k | InRun(m, k, j)
      ensures k == s
    {
      if s < k {
        LastRunStartIsLast(ids, j, k);
      }
    }
  }

  /** The start of the run containing j. */
  function LastRunStart(ids: seq<nat>, j: nat): (s: nat)
    requires j < |ids|
    ensures s <= j && IsRunStart(ids, s)
    ensures forall i :: s <= i <= j ==> ids[i] == ids[s]
  {
    if j == 0 || ids[j] != ids[j - 1] then j else LastRunStart(ids, j - 1)
  }

  lemma {:induction false} LastRunStartIsLast(ids: seq<nat>, j: nat, k: nat)
    requires k <= j < |ids| && IsRunStart(ids, k)
    ensures k <= LastRunStart(ids, j)
  {
    if j > 0 && ids[j] == ids[j - 1] && k < j {
      LastRunStartIsLast(ids, j - 1, k);
    }
  }

  /** The run that starts at s reaches every later position with the same id and no change in between. */
  lemma {:induction false} RunLengthCovers(ids: seq<nat>, s: nat, j: nat)
    requires s <= j < |ids|
    requires forall i :: s <= i <= j ==> ids[i] == ids[s]
    ensures j < s + RunLength(ids, s)
    decreases j - s
  {
    if s < j {
      RunLengthCovers(ids, s + 1, j);
    }
  }

  /** The examples of the unit tests in util.rs (util.rs:41-64). */
  lemma ExampleEvenRuns()
    ensures FetchBlockMap([0, 0, 1, 1, 2, 2, 3, 3, 3]) == map[0 := 2, 2 := 2, 4 := 2, 6 := 3]
  {
    var ids: seq<nat> := [0, 0, 1, 1, 2, 2, 3, 3, 3];
    var m := map[0 := 2, 2 := 2, 4 := 2, 6 := 3];
    forall k: nat
      ensures k in m <==> IsRunStart(ids, k) && k <= |ids|
    {
      if k == 1 || k == 3 || k == 5 || k == 7 || k == 8 {
        assert ids[k] == ids[k - 1];
      }
    }
    assert RunLength(ids, 6) == 3;
    MapOfRuns(ids, m);
  }

  lemma ExampleSingleton()
    ensures FetchBlockMap([0]) == map[0 := 1]
  {
    MapOfRuns([0], map[0 := 1]);
  }

  lemma ExampleUnevenRuns()
    ensures FetchBlockMap([1, 2, 2, 10, 10]) == map[0 := 1, 1 := 2, 3 := 2]
  {
    var ids: seq<nat> := [1, 2, 2, 10, 10];
    var m := map[0 := 1, 1 := 2, 3 := 2];
    forall k: nat
      ensures k in m <==> IsRunStart(ids, k) && k <= |ids|
    {
      if k == 2 || k == 4 {
        assert ids[k] == ids[k - 1];
      }
    }
    MapOfRuns(ids, m);
  }
}
