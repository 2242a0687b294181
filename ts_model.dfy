/**
 * The whole recording model: one recording hierarchy per core, and the
 * checkpoint rebuilt from them: the MTR from the private caches, each
 * core's private caches and the directory from the MTR, and the shared
 * last-level cache from the local shared caches, holding only the blocks
 * no private cache holds.
 */
module TsModels {
  import opened Wrappers
  import TsSets
  import TsCaches
  import PerCoreRecords
  import opened Parameters
  import opened Checkpoints
  import opened MtrRecords
  import opened MtrDirectory
  import opened MtrRender
  import opened Mtrs

  /** `core_id as u8`. */
  function CoreIdOf(c: nat): (id: nat)
    ensures id < 256 && (c < 256 ==> id == c)
  {
    c % 256
  }

  // ---------------------------------------------------------------------------
  // The MTR of all cores
  // ---------------------------------------------------------------------------

  /** The sets of a new MTR. */
  function NoRecords(numSets: nat): (sets: seq<map<nat, MtrRecord>>)
    ensures |sets| == numSets && Placed(sets) && forall j :: 0 <= j < numSets ==> sets[j] == map[]
  {
    seq(numSets, _ => map[])
  }

  /** Each core's private-cache entries absorbed in core order, core c under the id `c as u8`. */
  function AbsorbCores(sets: seq<map<nat, MtrRecord>>, lists: seq<seq<TsSets.Entry>>, c: nat): (r: Result<seq<map<nat, MtrRecord>>, AbsorbFault>)
    requires |sets| >= 1 && c <= |lists|
    ensures r.Ok? ==> |r.value| == |sets|
    decreases |lists| - c
  {
    if c == |lists| then Ok(sets)
    else
      match AbsorbAll(sets, CoreIdOf(c), lists[c])
      case Err(f) => Err(f)
      case Ok(next) => AbsorbCores(next, lists, c + 1)
  }

  /**
   * Absorbing the cores keeps every record in the set its block id selects
   * and every block already tracked, and leaves every entry of every core
   * from c on tracked.
   */
  lemma {:induction false} AbsorbCoresSpec(sets: seq<map<nat, MtrRecord>>, lists: seq<seq<TsSets.Entry>>, c: nat)
    requires |sets| >= 1 && Placed(sets) && c <= |lists|
    ensures var r := AbsorbCores(sets, lists, c);
            r.Ok? ==>
              Placed(r.value)
              && (forall b :: Tracked(sets, b) ==> Tracked(r.value, b))
              && (forall k, i :: c <= k < |lists| && 0 <= i < |lists[k]| ==> Tracked(r.value, lists[k][i].blockId))
    decreases |lists| - c
  {
    if c < |lists| {
      AbsorbAllSpec(sets, CoreIdOf(c), lists[c]);
      var step := AbsorbAll(sets, CoreIdOf(c), lists[c]);
      if step.Ok? {
        AbsorbCoresSpec(step.value, lists, c + 1);
        var r := AbsorbCores(step.value, lists, c + 1);
        if r.Ok? {
          forall b | Tracked(sets, b)
            ensures Tracked(r.value, b)
          {
            var j :| 0 <= j < |sets| && b in sets[j];
            assert b in step.value[j];
          }
          forall k, i | c <= k < |lists| && 0 <= i < |lists[k]|
            ensures Tracked(r.value, lists[k][i].blockId)
          {
            if k == c {
              var b := lists[k][i].blockId;
              assert b in step.value[b % |sets|];
              assert Tracked(step.value, b);
            }
          }
        }
      }
    }
  }

  // ---------------------------------------------------------------------------
  // The shared last-level cache
  // ---------------------------------------------------------------------------

  /** An entry of a local shared cache with the index of the set it came from. */
  datatype Located = Located(idx: nat, e: TsSets.Entry)

  function Locate(idx: nat, es: seq<TsSets.Entry>): (ls: seq<Located>)
    ensures |ls| == |es| && forall j :: 0 <= j < |es| ==> ls[j] == Located(idx, es[j])
  {
    seq(|es|, j requires 0 <= j < |es| => Located(idx, es[j]))
  }

  /** The entries of the sets from index i on, set by set, in the order their iterators yield them. */
  function SharedCacheEntries(sets: seq<TsSets.SetState>, assoc: nat, i: nat): seq<Located>
    requires i <= |sets|
    requires forall j :: 0 <= j < |sets| ==> TsSets.WellFormed(sets[j], assoc)
    decreases |sets| - i
  {
    if i == |sets| then []
    else
      assert TsSets.WellFormed(sets[i], assoc);
      Locate(i, TsSets.LiveEntries(sets[i])) + SharedCacheEntries(sets, assoc, i + 1)
  }

  /**
   * Every entry a well-formed cache yields is in use and comes from one of
   * its sets.
   */
  lemma {:induction false} SharedCacheEntriesLive(sets: seq<TsSets.SetState>, assoc: nat, i: nat)
    requires i <= |sets|
    requires forall j :: 0 <= j < |sets| ==> TsSets.WellFormed(sets[j], assoc)
    ensures var ls := SharedCacheEntries(sets, assoc, i);
            forall j :: 0 <= j < |ls| ==> ls[j].e.status != TsSets.Invalid && i <= ls[j].idx < |sets|
    decreases |sets| - i
  {
    if i < |sets| {
      SharedCacheEntriesLive(sets, assoc, i + 1);
      assert TsSets.WellFormed(sets[i], assoc);
      var head := Locate(i, TsSets.LiveEntries(sets[i]));
      var ls := SharedCacheEntries(sets, assoc, i);
      forall j | 0 <= j < |ls|
        ensures ls[j].e.status != TsSets.Invalid && i <= ls[j].idx < |sets|
      {
        if j < |head| {
          assert ls[j] == head[j];
        } else {
          assert ls[j] == SharedCacheEntries(sets, assoc, i + 1)[j - |head|];
        }
      }
    }
  }

  /** The chunks from index c on, concatenated. */
  function Flatten(chunks: seq<seq<Located>>, c: nat): seq<Located>
    decreases |chunks| - c
  {
    if c >= |chunks| then [] else chunks[c] + Flatten(chunks, c + 1)
  }

  /** l is an entry of one of the chunks from index c on. */
  ghost predicate InChunks(l: Located, chunks: seq<seq<Located>>, c: nat)
  {
    exists k, m :: c <= k < |chunks| && 0 <= m < |chunks[k]| && l == chunks[k][m]
  }

  /** Every entry of the concatenation comes from one of the chunks from index c on. */
  lemma {:induction false} FlattenFrom(chunks: seq<seq<Located>>, c: nat)
    ensures forall j :: 0 <= j < |Flatten(chunks, c)| ==> InChunks(Flatten(chunks, c)[j], chunks, c)
    decreases |chunks| - c
  {
    if c < |chunks| {
      FlattenFrom(chunks, c + 1);
      var ls := Flatten(chunks, c);
      forall j | 0 <= j < |ls|
        ensures InChunks(ls[j], chunks, c)
      {
        if j < |chunks[c]| {
          assert ls[j] == chunks[c][j];
        } else {
          assert ls[j] == Flatten(chunks, c + 1)[j - |chunks[c]|];
          assert InChunks(ls[j], chunks, c + 1);
        }
      }
    }
  }

  /** The panics of `render_llc`. */
  datatype LlcFault =
    | SetIndexOutOfRange     // a local shared cache has more sets than the shared cache
    | InvalidLine            // the `unreachable!` for an Invalid line
    | DirtyOutsideDataCache  // the `assert!` that a block made dirty is in the data cache

  /** The shared cache's sets as they are merged, each keyed by block id. */
  type Merging = seq<map<nat, TsCacheBlock>>

  /** SHARED_CACHE_SET empty sets. */
  function EmptyMerging(): (m: Merging)
    ensures |m| == SharedCacheSets && forall i :: 0 <= i < |m| ==> m[i] == map[]
  {
    seq(SharedCacheSets, _ => map[])
  }

  /** The block the first copy of an entry contributes: exclusive, modified when dirty. */
  function FirstBlock(e: TsSets.Entry): TsCacheBlock
  {
    var state := if TsSets.IsDirty(e.status) then ModifiedExclusive else CleanExclusive;
    TsCacheBlock(CacheBlock(e.blockId, state, TsSets.IsInstruction(e.status), TsSets.IsData(e.status)), e.ts)
  }

  /**
   * One entry of a local shared cache merged: skipped when the MTR tracks
   * the block; a later dirty copy marks the block modified, which must then
   * be in the data cache; the first copy fixes the timestamp and the flags.
   */
  function MergeLlcEntry(merging: Merging, mtrSets: seq<map<nat, MtrRecord>>, l: Located): (r: Result<Merging, LlcFault>)
    requires |mtrSets| >= 1
    ensures r.Ok? ==> |r.value| == |merging|
  {
    var b := l.e.blockId;
    if b in mtrSets[b % |mtrSets|] then Ok(merging)
    else if l.idx >= |merging| then Err(SetIndexOutOfRange)
    else if b in merging[l.idx] then
      if TsSets.IsDirty(l.e.status) then
        var prior := merging[l.idx][b];
        if !prior.d.inDataCache then Err(DirtyOutsideDataCache)
        else
          var updated: map<nat, TsCacheBlock> := merging[l.idx][b := prior.(d := prior.d.(state := ModifiedExclusive))];
          Ok(merging[l.idx := updated])
      else Ok(merging)
    else if l.e.status == TsSets.Invalid then Err(InvalidLine)
    else
      var inserted: map<nat, TsCacheBlock> := merging[l.idx][b := FirstBlock(l.e)];
      Ok(merging[l.idx := inserted])
  }

  /** The entries merged in order; the first panic stops it. */
  function MergeLlcAll(merging: Merging, mtrSets: seq<map<nat, MtrRecord>>, ls: seq<Located>): (r: Result<Merging, LlcFault>)
    requires |mtrSets| >= 1
    ensures r.Ok? ==> |r.value| == |merging|
    decreases |ls|
  {
    if |ls| == 0 then Ok(merging)
    else
      match MergeLlcEntry(merging, mtrSets, ls[0])
      case Err(f) => Err(f)
      case Ok(next) => MergeLlcAll(next, mtrSets, ls[1..])
  }

  /** Block b occurs in set i of the entries. */
  predicate Occurs(ls: seq<Located>, i: nat, b: nat)
  {
    exists j :: 0 <= j < |ls| && ls[j].idx == i && ls[j].e.blockId == b
  }

  /** Block b occurs dirty in set i of the entries. */
  predicate OccursDirty(ls: seq<Located>, i: nat, b: nat)
  {
    exists j :: 0 <= j < |ls| && ls[j].idx == i && ls[j].e.blockId == b && TsSets.IsDirty(ls[j].e.status)
  }

  /**
   * merged holds, in each set, exactly the blocks the MTR does not track
   * that occur in that set of the entries, each under its own id, exclusive,
   * and modified exactly when some copy of it is dirty, in which case it is
   * in the data cache.
   */
  ghost predicate Summarizes(merged: Merging, mtrSets: seq<map<nat, MtrRecord>>, ls: seq<Located>)
    requires |mtrSets| >= 1
  {
    forall i: nat, b: nat :: i < |merged| ==>
      (b in merged[i] <==> b !in mtrSets[b % |mtrSets|] && Occurs(ls, i, b))
      && (b in merged[i] ==>
            merged[i][b].d.blockId == b
            && (merged[i][b].d.state == ModifiedExclusive || merged[i][b].d.state == CleanExclusive)
            && (merged[i][b].d.state == ModifiedExclusive <==> OccursDirty(ls, i, b))
            && (merged[i][b].d.state == ModifiedExclusive ==> merged[i][b].d.inDataCache))
  }

  /** What a summary says of one block of one set. */
  lemma SummarizedBlock(merged: Merging, mtrSets: seq<map<nat, MtrRecord>>, ls: seq<Located>, i: nat, b: nat)
    requires |mtrSets| >= 1 && Summarizes(merged, mtrSets, ls) && i < |merged| && b in merged[i]
    ensures b !in mtrSets[b % |mtrSets|] && Occurs(ls, i, b)
    ensures merged[i][b].d.blockId == b
    ensures merged[i][b].d.state == ModifiedExclusive || merged[i][b].d.state == CleanExclusive
    ensures merged[i][b].d.state == ModifiedExclusive <==> OccursDirty(ls, i, b)
    ensures merged[i][b].d.state == ModifiedExclusive ==> merged[i][b].d.inDataCache
  {
  }

  /** A summarized set stores every block under its own id. */
  lemma SummarizedWellKeyed(merged: Merging, mtrSets: seq<map<nat, MtrRecord>>, ls: seq<Located>)
    requires |mtrSets| >= 1 && Summarizes(merged, mtrSets, ls)
    ensures forall i :: 0 <= i < |merged| ==> WellKeyed(merged[i])
  {
    forall i, b | 0 <= i < |merged| && b in merged[i]
      ensures merged[i][b].d.blockId == b
    {
      SummarizedBlock(merged, mtrSets, ls, i, b);
    }
  }

  lemma EmptySummarizes(mtrSets: seq<map<nat, MtrRecord>>)
    requires |mtrSets| >= 1
    ensures Summarizes(EmptyMerging(), mtrSets, [])
  {
  }

  /** Merging one more entry keeps the summary. */
  lemma MergeLlcStep(merging: Merging, mtrSets: seq<map<nat, MtrRecord>>, ls: seq<Located>, l: Located)
    requires |mtrSets| >= 1 && Summarizes(merging, mtrSets, ls)
    requires MergeLlcEntry(merging, mtrSets, l).Ok?
    ensures Summarizes(MergeLlcEntry(merging, mtrSets, l).value, mtrSets, ls + [l])
  {
    var next: Merging := MergeLlcEntry(merging, mtrSets, l).value;
    var ls' := ls + [l];
    forall i: nat, b: nat | i < |next|
      ensures (b in next[i] <==> b !in mtrSets[b % |mtrSets|] && Occurs(ls', i, b))
      ensures b in next[i] ==>
                next[i][b].d.blockId == b
                && (next[i][b].d.state == ModifiedExclusive || next[i][b].d.state == CleanExclusive)
                && (next[i][b].d.state == ModifiedExclusive <==> OccursDirty(ls', i, b))
                && (next[i][b].d.state == ModifiedExclusive ==> next[i][b].d.inDataCache)
    {
      if Occurs(ls, i, b) {
        var j :| 0 <= j < |ls| && ls[j].idx == i && ls[j].e.blockId == b;
        assert ls'[j] == ls[j];
      }
      if OccursDirty(ls, i, b) {
        var j :| 0 <= j < |ls| && ls[j].idx == i && ls[j].e.blockId == b && TsSets.IsDirty(ls[j].e.status);
        assert ls'[j] == ls[j];
      }
      if Occurs(ls', i, b) && !Occurs(ls, i, b) {
        var j :| 0 <= j < |ls'| && ls'[j].idx == i && ls'[j].e.blockId == b;
        assert j == |ls|;
      }
      if OccursDirty(ls', i, b) && !OccursDirty(ls, i, b) {
        var j :| 0 <= j < |ls'| && ls'[j].idx == i && ls'[j].e.blockId == b && TsSets.IsDirty(ls'[j].e.status);
        assert j == |ls|;
      }
      assert ls'[|ls|] == l;
      if l.idx == i && l.e.blockId == b {
        assert Occurs(ls', i, b);
        if TsSets.IsDirty(l.e.status) {
          assert OccursDirty(ls', i, b);
        }
      }
    }
  }

  /** Merging a run of entries from a summary of those before them extends the summary to all of them. */
  lemma {:induction false} MergeLlcAllSpec(merging: Merging, mtrSets: seq<map<nat, MtrRecord>>, done: seq<Located>, ls: seq<Located>)
    requires |mtrSets| >= 1 && Summarizes(merging, mtrSets, done)
    ensures MergeLlcAll(merging, mtrSets, ls).Ok? ==> Summarizes(MergeLlcAll(merging, mtrSets, ls).value, mtrSets, done + ls)
    decreases |ls|
  {
    if |ls| == 0 {
      assert done + ls == done;
    } else {
      var step := MergeLlcEntry(merging, mtrSets, ls[0]);
      if step.Ok? {
        MergeLlcStep(merging, mtrSets, done, ls[0]);
        MergeLlcAllSpec(step.value, mtrSets, done + [ls[0]], ls[1..]);
        assert (done + [ls[0]]) + ls[1..] == done + ls;
      }
    }
  }

  /**
   * Entries that are all in use never reach the `unreachable!`, and the
   * set index is out of range only for an entry from a set the merging
   * does not have.
   */
  lemma {:induction false} MergeLlcFaults(merging: Merging, mtrSets: seq<map<nat, MtrRecord>>, ls: seq<Located>)
    requires |mtrSets| >= 1
    requires forall j :: 0 <= j < |ls| ==> ls[j].e.status != TsSets.Invalid
    ensures var r := MergeLlcAll(merging, mtrSets, ls);
            r.Err? ==>
              r.error != InvalidLine
              && (r.error == SetIndexOutOfRange ==> exists j :: 0 <= j < |ls| && ls[j].idx >= |merging|)
    decreases |ls|
  {
    if |ls| > 0 {
      var step := MergeLlcEntry(merging, mtrSets, ls[0]);
      if step.Ok? {
        MergeLlcFaults(step.value, mtrSets, ls[1..]);
        var r := MergeLlcAll(step.value, mtrSets, ls[1..]);
        if r.Err? && r.error == SetIndexOutOfRange {
          var j :| 0 <= j < |ls[1..]| && ls[1..][j].idx >= |step.value|;
          assert ls[j + 1].idx >= |merging|;
        }
      }
    }
  }

  /**
   * out is the shared cache rendered from the merged sets: each set's
   * SHARED_CACHE_ASSO newest blocks, exported newest first.
   */
  ghost predicate IsLlcRendering(merged: Merging, heaps: seq<multiset<TsCacheBlock>>, out: seq<seq<CacheBlock>>)
  {
    |heaps| == |merged|
    && (forall i :: 0 <= i < |merged| ==> IsTopK(multiset(merged[i].Values), SharedCacheAssoc, heaps[i]))
    && ExportsOf(heaps, out)
  }

  /**
   * The rendered shared cache has SHARED_CACHE_SET sets of at most
   * SHARED_CACHE_ASSO blocks; every block in set i occurs in set i of some
   * local shared cache, is tracked by no MTR set, and is exclusive:
   * modified exactly when some copy of it is dirty, and then in the data
   * cache.
   */
  lemma LlcRenderingSpec(mtrSets: seq<map<nat, MtrRecord>>, ls: seq<Located>, merged: Merging,
                         heaps: seq<multiset<TsCacheBlock>>, out: seq<seq<CacheBlock>>)
    requires |mtrSets| >= 1 && Placed(mtrSets)
    requires MergeLlcAll(EmptyMerging(), mtrSets, ls) == Ok(merged) && IsLlcRendering(merged, heaps, out)
    ensures |out| == SharedCacheSets
    ensures forall i :: 0 <= i < |out| ==> |out[i]| <= SharedCacheAssoc
    ensures forall i, x :: 0 <= i < |heaps| && x in heaps[i] ==>
              Occurs(ls, i, x.d.blockId) && !Tracked(mtrSets, x.d.blockId)
              && (x.d.state == ModifiedExclusive || x.d.state == CleanExclusive)
              && (x.d.state == ModifiedExclusive <==> OccursDirty(ls, i, x.d.blockId))
              && (x.d.state == ModifiedExclusive ==> x.d.inDataCache)
  {
    EmptySummarizes(mtrSets);
    MergeLlcAllSpec(EmptyMerging(), mtrSets, [], ls);
    assert [] + ls == ls;
    forall i | 0 <= i < |out|
      ensures |out[i]| <= SharedCacheAssoc
    {
      TopKBounded(multiset(merged[i].Values), SharedCacheAssoc, heaps[i]);
      ExportSize(heaps[i], out[i]);
    }
    forall i, x | 0 <= i < |heaps| && x in heaps[i]
      ensures Occurs(ls, i, x.d.blockId) && !Tracked(mtrSets, x.d.blockId)
              && (x.d.state == ModifiedExclusive || x.d.state == CleanExclusive)
              && (x.d.state == ModifiedExclusive <==> OccursDirty(ls, i, x.d.blockId))
              && (x.d.state == ModifiedExclusive ==> x.d.inDataCache)
    {
      TopKBounded(multiset(merged[i].Values), SharedCacheAssoc, heaps[i]);
      assert x in merged[i].Values;
      var b :| b in merged[i] && merged[i][b] == x;
      SummarizedBlock(merged, mtrSets, ls, i, b);
    }
  }

  /** The values of m under the keys in keys. */
  function ValuesOver(m: map<nat, TsCacheBlock>, keys: set<nat>): set<TsCacheBlock>
  {
    set b | b in keys && b in m :: m[b]
  }

  /** Every block is stored under its own id. */
  predicate WellKeyed(m: map<nat, TsCacheBlock>)
  {
    forall b :: b in m ==> m[b].d.blockId == b
  }

  lemma ValuesOverAdd(m: map<nat, TsCacheBlock>, keys: set<nat>, b: nat)
    requires WellKeyed(m) && b in m && b !in keys
    ensures multiset(ValuesOver(m, keys + {b})) == multiset(ValuesOver(m, keys)) + multiset{m[b]}
  {
    assert m[b] !in ValuesOver(m, keys);
    assert ValuesOver(m, keys + {b}) == ValuesOver(m, keys) + {m[b]};
  }

  /** The loop pushing one merged set's blocks on a heap. */
  method CollectBlocks(m: map<nat, TsCacheBlock>) returns (bag: multiset<TsCacheBlock>)
    requires WellKeyed(m)
    ensures bag == multiset(m.Values)
  {
    bag := multiset{};
    var rest := m.Keys;
    while rest != {}
      invariant rest <= m.Keys
      invariant bag == multiset(ValuesOver(m, m.Keys - rest))
      decreases |rest|
    {
      var b :| b in rest;
      ValuesOverAdd(m, m.Keys - rest, b);
      assert m.Keys - (rest - {b}) == (m.Keys - rest) + {b};
      bag := bag + multiset{m[b]};
      rest := rest - {b};
    }
    assert m.Keys - rest == m.Keys;
    assert ValuesOver(m, m.Keys) == m.Values;
  }

  // ---------------------------------------------------------------------------
  // The checkpoint
  // ---------------------------------------------------------------------------

  /** out renders the core's private caches from the MTR sets through some choice of heaps. */
  ghost predicate IsRenderingOf(sets: seq<map<nat, MtrRecord>>, core: nat, param: PrivateCacheParameters, out: PrivateCaches)
  {
    RenderCheck(|sets|, param).None?
    && exists l2, l1i, l1d :: IsRendering(sets, core, param, l2, l1i, l1d, out)
  }

  /** The three maps hold, under core ids 0 to cores - 1, renderings of those cores' private caches. */
  ghost predicate PrivateRenderings(mtrSets: seq<map<nat, MtrRecord>>, cores: nat, param: PrivateCacheParameters,
                                    l1i: map<nat, seq<seq<CacheBlock>>>, l1d: map<nat, seq<seq<CacheBlock>>>,
                                    l2: map<nat, seq<seq<CacheBlock>>>)
  {
    l1i.Keys == l2.Keys && l1d.Keys == l2.Keys
    && (forall c: nat :: c in l2 <==> c < cores)
    && (forall c :: c in l2 ==> IsRenderingOf(mtrSets, c, param, PrivateCaches(l1i[c], l1d[c], l2[c])))
  }

  /** The loop of `render_cache_hierarchy` over the cores: each one's private caches rendered from the MTR. */
  method RenderPrivateAll(mtr: MemoryTimestampRecordCollection, param: PrivateCacheParameters, cores: nat)
    returns (r: Result<(map<nat, seq<seq<CacheBlock>>>, map<nat, seq<seq<CacheBlock>>>, map<nat, seq<seq<CacheBlock>>>), RenderFault>)
    requires mtr.Valid()
    ensures var check := RenderCheck(mtr.numSets, param);
            (cores > 0 && check.Some? ==> r == Err(check.value))
            && (cores == 0 || check.None? ==> r.Ok? && PrivateRenderings(mtr.sets, cores, param, r.value.0, r.value.1, r.value.2))
  {
    var l1i: map<nat, seq<seq<CacheBlock>>> := map[];
    var l1d: map<nat, seq<seq<CacheBlock>>> := map[];
    var l2: map<nat, seq<seq<CacheBlock>>> := map[];
    for c := 0 to cores
      invariant PrivateRenderings(mtr.sets, c, param, l1i, l1d, l2)
      invariant c > 0 ==> RenderCheck(mtr.numSets, param).None?
    {
      var rendered, l2h, l1ih, l1dh := mtr.RenderPrivateCaches(c, param);
      if rendered.Err? {
        return Err(rendered.error);
      }
      assert IsRendering(mtr.sets, c, param, l2h, l1ih, l1dh, rendered.value);
      l1i := l1i[c := rendered.value.l1i];
      l1d := l1d[c := rendered.value.l1d];
      l2 := l2[c := rendered.value.l2];
    }
    r := Ok((l1i, l1d, l2));
  }

  /** out is one merged set's SHARED_CACHE_ASSO newest blocks, exported through heap. */
  ghost predicate RendersSet(m: map<nat, TsCacheBlock>, heap: multiset<TsCacheBlock>, out: seq<CacheBlock>)
  {
    IsTopK(multiset(m.Values), SharedCacheAssoc, heap) && IsExportOf(heap, out)
  }

  /** The heaps of `render_llc`: each merged set's blocks on a heap, its SHARED_CACHE_ASSO newest exported. */
  method RenderMerged(merged: Merging) returns (out: seq<seq<CacheBlock>>, ghost heaps: seq<multiset<TsCacheBlock>>)
    requires forall i :: 0 <= i < |merged| ==> WellKeyed(merged[i])
    ensures IsLlcRendering(merged, heaps, out)
  {
    out := [];
    heaps := [];
    for i := 0 to |merged|
      invariant |heaps| == i && |out| == i
      invariant forall j :: 0 <= j < i ==> RendersSet(merged[j], heaps[j], out[j])
    {
      var top, exported := RenderMergedSet(merged[i]);
      heaps := heaps + [top];
      out := out + [exported];
    }
  }

  method RenderMergedSet(m: map<nat, TsCacheBlock>) returns (heap: multiset<TsCacheBlock>, out: seq<CacheBlock>)
    requires WellKeyed(m)
    ensures RendersSet(m, heap, out)
  {
    var bag := CollectBlocks(m);
    heap := GetTopK(bag, SharedCacheAssoc);
    out := Export(heap);
  }

  /** The loop of `render_llc` over the sets of one local shared cache. */
  method MergeCache(merging: Merging, mtr: MemoryTimestampRecordCollection, cache: TsCaches.TimestampCache, ghost later: seq<Located>)
    returns (r: Result<Merging, LlcFault>)
    requires mtr.Valid() && cache.Valid()
    ensures var spec := MergeLlcAll(merging, mtr.sets, SharedCacheEntries(cache.model, cache.assoc, 0) + later);
            (r.Ok? ==> |r.value| == |merging| && spec == MergeLlcAll(r.value, mtr.sets, later))
            && (r.Err? ==> spec == r)
  {
    ghost var spec := MergeLlcAll(merging, mtr.sets, SharedCacheEntries(cache.model, cache.assoc, 0) + later);
    var current := merging;
    for idx := 0 to cache.numSets
      invariant |current| == |merging|
      invariant spec == MergeLlcAll(current, mtr.sets, SharedCacheEntries(cache.model, cache.assoc, idx) + later)
    {
      assert cache.sets[idx].State() == cache.model[idx];
      ghost var rest := SharedCacheEntries(cache.model, cache.assoc, idx + 1) + later;
      assert SharedCacheEntries(cache.model, cache.assoc, idx) + later
             == Locate(idx, TsSets.LiveEntries(cache.model[idx])) + rest;
      var res := MergeSharedSet(current, mtr, idx, cache.sets[idx], rest);
      if res.Err? {
        return res;
      }
      current := res.value;
    }
    assert SharedCacheEntries(cache.model, cache.assoc, cache.numSets) + later == later;
    r := Ok(current);
  }

  /** The body of the loop over one local shared set: its iterator drained into the merging sets. */
  method MergeSharedSet(merging: Merging, mtr: MemoryTimestampRecordCollection, idx: nat,
                        target: TsSets.TimestampCacheSet, ghost later: seq<Located>)
    returns (r: Result<Merging, LlcFault>)
    requires mtr.Valid() && target.Valid()
    ensures var spec := MergeLlcAll(merging, mtr.sets, Locate(idx, TsSets.LiveEntries(target.State())) + later);
            (r.Ok? ==> |r.value| == |merging| && spec == MergeLlcAll(r.value, mtr.sets, later))
            && (r.Err? ==> spec == r)
  {
    ghost var s := target.State();
    ghost var ls := Locate(idx, TsSets.LiveEntries(s));
    ghost var spec := MergeLlcAll(merging, mtr.sets, ls + later);
    var current := merging;
    var it := new TsSets.TimestampCacheSetIterator(target);
    while true
      invariant fresh(it) && it.Valid() && it.base == target && it.currentIdx <= s.cold
      invariant |current| == |merging|
      invariant spec == MergeLlcAll(current, mtr.sets, ls[it.currentIdx..] + later)
      decreases s.cold - it.currentIdx
    {
      TsSets.NextYieldsLiveEntries(s, it.currentIdx);
      ghost var rest := ls[it.currentIdx..] + later;
      var item := it.Next();
      if item.None? {
        assert ls[it.currentIdx..] == [] && rest == later;
        return Ok(current);
      }
      var e := item.value;
      assert rest[0] == Located(idx, e) && rest[1..] == ls[it.currentIdx..] + later;
      if !mtr.LookUp(e.blockId) {
        var step := MergeBlock(current, idx, e);
        assert step == MergeLlcEntry(current, mtr.sets, Located(idx, e));
        if step.Err? {
          return step;
        }
        current := step.value;
      }
    }
  }

  /** The innermost body for a block the MTR does not track. */
  method MergeBlock(merging: Merging, idx: nat, e: TsSets.Entry) returns (r: Result<Merging, LlcFault>)
    ensures forall mtrSets: seq<map<nat, MtrRecord>> ::
              |mtrSets| >= 1 && e.blockId !in mtrSets[e.blockId % |mtrSets|] ==>
                r == MergeLlcEntry(merging, mtrSets, Located(idx, e))
  {
    if idx >= |merging| {
      return Err(SetIndexOutOfRange);
    }
    var set_ := merging[idx];
    if e.blockId in set_ {
      if TsSets.IsDirty(e.status) {
        var existing := set_[e.blockId];
        existing := existing.(d := existing.d.(state := ModifiedExclusive));
        if !existing.d.inDataCache {
          return Err(DirtyOutsideDataCache);
        }
        var m: map<nat, TsCacheBlock> := set_[e.blockId := existing];
        return Ok(merging[idx := m]);
      }
      return Ok(merging);
    }
    if e.status == TsSets.Invalid {
      return Err(InvalidLine);
    }
    var state := if TsSets.IsDirty(e.status) then ModifiedExclusive else CleanExclusive;
    var block := TsCacheBlock(CacheBlock(e.blockId, state, TsSets.IsInstruction(e.status), TsSets.IsData(e.status)), e.ts);
    var m: map<nat, TsCacheBlock> := set_[e.blockId := block];
    r := Ok(merging[idx := m]);
  }

  /** The panics of `render_cache_hierarchy`. */
  datatype HierarchyFault = PrivateFault(private: RenderFault) | SharedFault(shared: LlcFault)

  /**
   * cp is the checkpoint of the MTR sets and of the local shared caches'
   * entries ls for `cores` cores: their private caches under ids 0 to
   * cores - 1, the directory, and the shared cache.
   */
  ghost predicate IsCheckpoint(mtrSets: seq<map<nat, MtrRecord>>, ls: seq<Located>, cores: nat,
                               param: PrivateCacheParameters, cp: MemoryHierarchyCheckPoint)
    requires |mtrSets| >= 1
  {
    PrivateRenderings(mtrSets, cores, param, cp.l1i, cp.l1d, cp.l2)
    && |cp.directory| == |mtrSets|
    && (forall i :: 0 <= i < |mtrSets| ==> IsDirectoryExport(mtrSets[i], cp.directory[i]))
    && MergeLlcAll(EmptyMerging(), mtrSets, ls).Ok?
    && exists heaps :: IsLlcRendering(MergeLlcAll(EmptyMerging(), mtrSets, ls).value, heaps, cp.sharedCache)
  }

  // ---------------------------------------------------------------------------
  // The caches of all cores
  // ---------------------------------------------------------------------------

  /** Every set of every cache's model is well formed. */
  ghost predicate ModelsWellFormed(caches: seq<TsCaches.TimestampCache>)
    reads caches
  {
    forall i, j :: 0 <= i < |caches| && 0 <= j < |caches[i].model| ==> TsSets.WellFormed(caches[i].model[j], caches[i].assoc)
  }

  lemma ValidModels(caches: seq<TsCaches.TimestampCache>)
    requires forall i :: 0 <= i < |caches| ==> caches[i].Valid()
    ensures ModelsWellFormed(caches)
  {
    forall i, j | 0 <= i < |caches| && 0 <= j < |caches[i].model|
      ensures TsSets.WellFormed(caches[i].model[j], caches[i].assoc)
    {
      assert caches[i].Valid();
      assert caches[i].Abs().sets == caches[i].model;
    }
  }

  /** Each cache's entries in the order its set iterators yield them. */
  ghost function PrivateLists(caches: seq<TsCaches.TimestampCache>): (lists: seq<seq<TsSets.Entry>>)
    requires ModelsWellFormed(caches)
    reads caches
    ensures |lists| == |caches|
    ensures forall k :: 0 <= k < |caches| ==> lists[k] == CacheEntries(caches[k].model, caches[k].assoc, 0)
  {
    seq(|caches|, k requires 0 <= k < |caches| && ModelsWellFormed(caches) reads caches =>
                    CacheEntries(caches[k].model, caches[k].assoc, 0))
  }

  /** Each cache's entries with the index of the set they come from. */
  ghost function SharedChunks(caches: seq<TsCaches.TimestampCache>): (chunks: seq<seq<Located>>)
    requires ModelsWellFormed(caches)
    reads caches
    ensures |chunks| == |caches|
    ensures forall k :: 0 <= k < |caches| ==> chunks[k] == SharedCacheEntries(caches[k].model, caches[k].assoc, 0)
  {
    seq(|caches|, k requires 0 <= k < |caches| && ModelsWellFormed(caches) reads caches =>
                    SharedCacheEntries(caches[k].model, caches[k].assoc, 0))
  }

  /**
   * The loop of `render_mtr`: a new MTR with numSets sets absorbing each
   * cache in order, cache c under the id `c as u8`; a fault is the panic
   * that stops it.
   */
  method AbsorbCaches(numSets: nat, caches: seq<TsCaches.TimestampCache>) returns (r: Result<MemoryTimestampRecordCollection, AbsorbFault>)
    requires numSets >= 1 && (forall i :: 0 <= i < |caches| ==> caches[i].Valid()) && ModelsWellFormed(caches)
    ensures var spec := AbsorbCores(NoRecords(numSets), PrivateLists(caches), 0);
            (spec.Err? ==> r == Err(spec.error))
            && (spec.Ok? ==> r.Ok? && fresh(r.value) && r.value.Valid() && r.value.numSets == numSets
                             && r.value.sets == spec.value)
  {
    var res := new MemoryTimestampRecordCollection(numSets);
    ghost var lists := PrivateLists(caches);
    ghost var spec := AbsorbCores(NoRecords(numSets), lists, 0);
    assert res.sets == NoRecords(numSets);
    for c := 0 to |caches|
      invariant fresh(res) && res.Valid() && res.numSets == numSets
      invariant spec == AbsorbCores(res.sets, lists, c)
    {
      var fault := res.AbsorbTsCache(CoreIdOf(c), caches[c]);
      if fault.Some? {
        return Err(fault.value);
      }
    }
    r := Ok(res);
  }

  /** The loops of `render_llc` over the caches and their sets: every block the MTR does not track, merged. */
  method MergeCaches(mtr: MemoryTimestampRecordCollection, caches: seq<TsCaches.TimestampCache>) returns (r: Result<Merging, LlcFault>)
    requires mtr.Valid() && (forall i :: 0 <= i < |caches| ==> caches[i].Valid()) && ModelsWellFormed(caches)
    ensures r == MergeLlcAll(EmptyMerging(), mtr.sets, Flatten(SharedChunks(caches), 0))
  {
    ghost var chunks := SharedChunks(caches);
    ghost var spec := MergeLlcAll(EmptyMerging(), mtr.sets, Flatten(chunks, 0));
    var merging := EmptyMerging();
    for c := 0 to |caches|
      invariant spec == MergeLlcAll(merging, mtr.sets, Flatten(chunks, c))
    {
      var res := MergeCache(merging, mtr, caches[c], Flatten(chunks, c + 1));
      if res.Err? {
        return res;
      }
      merging := res.value;
    }
    r := Ok(merging);
  }

  /**
   * The caches' entries, merged against any MTR, never reach the
   * `unreachable!`; the set index is out of range only when some cache has
   * more sets than the shared cache.
   */
  lemma LlcFaults(caches: seq<TsCaches.TimestampCache>, mtrSets: seq<map<nat, MtrRecord>>)
    requires |mtrSets| >= 1 && ModelsWellFormed(caches)
    ensures var r := MergeLlcAll(EmptyMerging(), mtrSets, Flatten(SharedChunks(caches), 0));
            r.Err? ==>
              r.error != InvalidLine
              && (r.error == SetIndexOutOfRange ==> exists k :: 0 <= k < |caches| && |caches[k].model| > SharedCacheSets)
  {
    var chunks := SharedChunks(caches);
    var ls := Flatten(chunks, 0);
    FlattenFrom(chunks, 0);
    forall k | 0 <= k < |chunks|
      ensures forall m :: 0 <= m < |chunks[k]| ==>
                chunks[k][m].e.status != TsSets.Invalid && chunks[k][m].idx < |caches[k].model|
    {
      assert chunks[k] == SharedCacheEntries(caches[k].model, caches[k].assoc, 0);
      SharedCacheEntriesLive(caches[k].model, caches[k].assoc, 0);
    }
    MergeLlcFaults(EmptyMerging(), mtrSets, ls);
    var r := MergeLlcAll(EmptyMerging(), mtrSets, ls);
    if r.Err? && r.error == SetIndexOutOfRange {
      var j :| 0 <= j < |ls| && ls[j].idx >= SharedCacheSets;
      assert InChunks(ls[j], chunks, 0);
      var k, m :| 0 <= k < |chunks| && 0 <= m < |chunks[k]| && ls[j] == chunks[k][m];
      assert |caches[k].model| > SharedCacheSets;
    }
  }

  /**
   * `render_llc`: every cache's blocks that the MTR does not track, merged
   * set by set, then each set's SHARED_CACHE_ASSO newest blocks exported; a
   * fault is the panic that stops it.
   */
  method RenderLlcOf(mtr: MemoryTimestampRecordCollection, caches: seq<TsCaches.TimestampCache>)
    returns (r: Result<seq<seq<CacheBlock>>, LlcFault>, ghost heaps: seq<multiset<TsCacheBlock>>)
    requires mtr.Valid() && (forall i :: 0 <= i < |caches| ==> caches[i].Valid()) && ModelsWellFormed(caches)
    ensures var spec := MergeLlcAll(EmptyMerging(), mtr.sets, Flatten(SharedChunks(caches), 0));
            (spec.Err? ==> r == Err(spec.error))
            && (spec.Ok? ==> r.Ok? && IsLlcRendering(spec.value, heaps, r.value))
  {
    ghost var ls := Flatten(SharedChunks(caches), 0);
    var merged := MergeCaches(mtr, caches);
    if merged.Err? {
      return Err(merged.error), [];
    }
    EmptySummarizes(mtr.sets);
    MergeLlcAllSpec(EmptyMerging(), mtr.sets, [], ls);
    assert [] + ls == ls;
    SummarizedWellKeyed(merged.value, mtr.sets, ls);
    var out;
    out, heaps := RenderMerged(merged.value);
    r := Ok(out);
  }

  /** `new`'s loop: coreCount fresh, valid, empty hierarchies with disjoint footprints. */
  method BuildHierarchies(coreCount: nat, g: PerCoreRecords.Geometry)
    returns (built: seq<PerCoreRecords.TimestampSingleCoreMemoryHierarchy>, ghost objs: set<object>)
    requires PerCoreRecords.GeometryOk(g)
    ensures |built| == coreCount && fresh(objs)
    ensures forall i :: 0 <= i < coreCount ==>
              built[i] in objs && built[i].Repr <= objs && built[i].Valid()
              && built[i].Geom() == g && built[i].Abs() == PerCoreRecords.NewHierarchy(g)
    ensures forall i, j :: 0 <= i < coreCount && 0 <= j < coreCount && i != j ==>
              built[i] != built[j] && built[i] !in built[j].Repr && built[i].Repr !! built[j].Repr
  {
    built := [];
    objs := {};
    for k := 0 to coreCount
      invariant |built| == k && fresh(objs)
      invariant forall i :: 0 <= i < k ==>
                  built[i] in objs && built[i].Repr <= objs && built[i].Valid()
                  && built[i].Geom() == g && built[i].Abs() == PerCoreRecords.NewHierarchy(g)
      invariant forall i, j :: 0 <= i < k && 0 <= j < k && i != j ==>
                  built[i] != built[j] && built[i] !in built[j].Repr && built[i].Repr !! built[j].Repr
    {
      built, objs := AddHierarchy(built, objs, g);
    }
  }

  /** The body of `new`'s loop: one more fresh, valid, empty hierarchy, disjoint from those before it. */
  method AddHierarchy(built: seq<PerCoreRecords.TimestampSingleCoreMemoryHierarchy>, ghost objs: set<object>, g: PerCoreRecords.Geometry)
    returns (next: seq<PerCoreRecords.TimestampSingleCoreMemoryHierarchy>, ghost objs': set<object>)
    requires PerCoreRecords.GeometryOk(g)
    requires forall i :: 0 <= i < |built| ==>
               built[i] in objs && built[i].Repr <= objs && built[i].Valid()
               && built[i].Geom() == g && built[i].Abs() == PerCoreRecords.NewHierarchy(g)
    requires forall i, j :: 0 <= i < |built| && 0 <= j < |built| && i != j ==>
               built[i] != built[j] && built[i] !in built[j].Repr && built[i].Repr !! built[j].Repr
    ensures |next| == |built| + 1 && next[..|built|] == built && objs <= objs' && fresh(objs' - objs)
    ensures forall i :: 0 <= i < |next| ==>
              next[i] in objs' && next[i].Repr <= objs' && next[i].Valid()
              && next[i].Geom() == g && next[i].Abs() == PerCoreRecords.NewHierarchy(g)
    ensures forall i, j :: 0 <= i < |next| && 0 <= j < |next| && i != j ==>
              next[i] != next[j] && next[i] !in next[j].Repr && next[i].Repr !! next[j].Repr
  {
    var h := new PerCoreRecords.TimestampSingleCoreMemoryHierarchy(g);
    next := built + [h];
    objs' := objs + {h} + h.Repr;
  }

  // ---------------------------------------------------------------------------
  // The model, in place
  // ---------------------------------------------------------------------------

  class TimestampMemoryHierarchy {
    const hierarchies: seq<PerCoreRecords.TimestampSingleCoreMemoryHierarchy>
    ghost const Repr: set<object>

    /** The heap-independent part of the invariant: each core's hierarchy owns its own objects, all with one geometry. */
    ghost predicate Owned()
    {
      this !in Repr
      && (forall i :: 0 <= i < |hierarchies| ==>
            hierarchies[i] in Repr && hierarchies[i].Repr <= Repr && hierarchies[i].Geom() == hierarchies[0].Geom())
      && (forall i, j :: 0 <= i < |hierarchies| && 0 <= j < |hierarchies| && i != j ==>
            hierarchies[i] != hierarchies[j] && hierarchies[i] !in hierarchies[j].Repr
            && hierarchies[i].Repr !! hierarchies[j].Repr)
    }

    /** Each core's hierarchy is valid as well. */
    ghost predicate Valid()
      reads this, Repr
    {
      Owned() && forall i :: 0 <= i < |hierarchies| ==> hierarchies[i].Valid()
    }

    /** `new`: core_count empty hierarchies. */
    constructor (coreCount: nat, g: PerCoreRecords.Geometry)
      requires PerCoreRecords.GeometryOk(g)
      ensures Valid() && fresh(Repr) && |hierarchies| == coreCount
      ensures forall i :: 0 <= i < coreCount ==>
                hierarchies[i].Geom() == g && hierarchies[i].Abs() == PerCoreRecords.NewHierarchy(g)
    {
      var built, objs := BuildHierarchies(coreCount, g);
      hierarchies := built;
      Repr := objs;
    }

    /** `hierarchies`: the core's hierarchy; None is the failed `assert!`, which compares against the count as a u8. */
    method Hierarchy(coreId: nat) returns (r: Option<PerCoreRecords.TimestampSingleCoreMemoryHierarchy>)
      requires Valid() && coreId < 256
      ensures r.Some? <==> coreId < |hierarchies| % 256
      ensures r.Some? ==> r.value == hierarchies[coreId] && r.value.Valid()
    {
      if coreId < |hierarchies| % 256 {
        return Some(hierarchies[coreId]);
      }
      return None;
    }

    /** Each core's private cache. */
    function PrivateTsCaches(): (caches: seq<TsCaches.TimestampCache>)
      ensures |caches| == |hierarchies|
      ensures forall i :: 0 <= i < |hierarchies| ==> caches[i] == hierarchies[i].privateCache
    {
      seq(|hierarchies|, i requires 0 <= i < |hierarchies| => hierarchies[i].privateCache)
    }

    /** Each core's local shared cache. */
    function LocalSharedTsCaches(): (caches: seq<TsCaches.TimestampCache>)
      ensures |caches| == |hierarchies|
      ensures forall i :: 0 <= i < |hierarchies| ==> caches[i] == hierarchies[i].localSharedCache
    {
      seq(|hierarchies|, i requires 0 <= i < |hierarchies| => hierarchies[i].localSharedCache)
    }

    /** Both lists of caches are valid, owned by this model and well formed. */
    lemma CachesValid()
      requires Valid()
      ensures forall i :: 0 <= i < |hierarchies| ==>
                PrivateTsCaches()[i].Valid() && LocalSharedTsCaches()[i].Valid()
                && PrivateTsCaches()[i] in Repr && LocalSharedTsCaches()[i] in Repr
      ensures ModelsWellFormed(PrivateTsCaches()) && ModelsWellFormed(LocalSharedTsCaches())
    {
      forall i | 0 <= i < |hierarchies|
        ensures PrivateTsCaches()[i].Valid() && LocalSharedTsCaches()[i].Valid()
                && PrivateTsCaches()[i] in Repr && LocalSharedTsCaches()[i] in Repr
      {
        assert hierarchies[i].Valid();
      }
      ValidModels(PrivateTsCaches());
      ValidModels(LocalSharedTsCaches());
    }

    /** Each core's private-cache entries. */
    ghost function PrivateEntries(): seq<seq<TsSets.Entry>>
      requires Valid()
      reads this, Repr
    {
      CachesValid();
      PrivateLists(PrivateTsCaches())
    }

    /** Every local shared cache's entries, core by core. */
    ghost function SharedEntries(): seq<Located>
      requires Valid()
      reads this, Repr
    {
      CachesValid();
      Flatten(SharedChunks(LocalSharedTsCaches()), 0)
    }

    /**
     * `render_mtr`: a new MTR with numSets sets absorbing each core's
     * private cache in core order; a fault is the panic that stops it.
     */
    method RenderMtr(numSets: nat) returns (r: Result<MemoryTimestampRecordCollection, AbsorbFault>)
      requires Valid() && numSets >= 1
      ensures var spec := AbsorbCores(NoRecords(numSets), PrivateEntries(), 0);
              (spec.Err? ==> r == Err(spec.error))
              && (spec.Ok? ==> r.Ok? && fresh(r.value) && r.value.Valid() && r.value.numSets == numSets
                               && r.value.sets == spec.value)
    {
      CachesValid();
      r := AbsorbCaches(numSets, PrivateTsCaches());
    }

    /** `render_llc` on the local shared caches. */
    method RenderLlc(mtr: MemoryTimestampRecordCollection) returns (r: Result<seq<seq<CacheBlock>>, LlcFault>, ghost heaps: seq<multiset<TsCacheBlock>>)
      requires Valid() && mtr.Valid()
      ensures var spec := MergeLlcAll(EmptyMerging(), mtr.sets, SharedEntries());
              (spec.Err? ==> r == Err(spec.error))
              && (spec.Ok? ==> r.Ok? && IsLlcRendering(spec.value, heaps, r.value))
    {
      CachesValid();
      r, heaps := RenderLlcOf(mtr, LocalSharedTsCaches());
    }

    /**
     * `render_cache_hierarchy`: the private caches of cores 0 to `len as u8`
     * - 1, the directory and the shared cache, all from the MTR.
     */
    method RenderCacheHierarchy(mtr: MemoryTimestampRecordCollection, param: PrivateCacheParameters)
      returns (r: Result<MemoryHierarchyCheckPoint, HierarchyFault>)
      requires Valid() && mtr.Valid()
      ensures var cores := |hierarchies| % 256;
              var check := RenderCheck(mtr.numSets, param);
              var llc := MergeLlcAll(EmptyMerging(), mtr.sets, SharedEntries());
              (cores > 0 && check.Some? ==> r == Err(PrivateFault(check.value)))
              && (cores == 0 || check.None? ==>
                    (llc.Err? ==> r == Err(SharedFault(llc.error)))
                    && (llc.Ok? ==> r.Ok? && IsCheckpoint(mtr.sets, SharedEntries(), cores, param, r.value)))
    {
      var privates := RenderPrivateAll(mtr, param, |hierarchies| % 256);
      if privates.Err? {
        return Err(PrivateFault(privates.error));
      }
      var directory := mtr.ExportDirectory();
      var shared, heaps := RenderLlc(mtr);
      if shared.Err? {
        return Err(SharedFault(shared.error));
      }
      var (l1i, l1d, l2) := privates.value;
      r := Ok(MemoryHierarchyCheckPoint(l1i, l1d, l2, directory, shared.value));
    }
  }

  // ---------------------------------------------------------------------------
  // Properties of the whole model
  // ---------------------------------------------------------------------------

  /**
   * The MTR rendered from the cores tracks every block any private cache
   * holds, so the shared cache rendered against it holds none of them: the
   * last-level cache is exclusive of the private caches.
   */
  lemma LlcExcludesPrivateBlocks(lists: seq<seq<TsSets.Entry>>, numSets: nat, ls: seq<Located>, mtrSets: seq<map<nat, MtrRecord>>,
                                 merged: Merging, heaps: seq<multiset<TsCacheBlock>>, out: seq<seq<CacheBlock>>)
    requires numSets >= 1
    requires AbsorbCores(NoRecords(numSets), lists, 0) == Ok(mtrSets)
    requires MergeLlcAll(EmptyMerging(), mtrSets, ls) == Ok(merged) && IsLlcRendering(merged, heaps, out)
    ensures forall i, x, k, j :: 0 <= i < |heaps| && x in heaps[i] && 0 <= k < |lists| && 0 <= j < |lists[k]| ==>
              x.d.blockId != lists[k][j].blockId
  {
    AbsorbCoresSpec(NoRecords(numSets), lists, 0);
    LlcRenderingSpec(mtrSets, ls, merged, heaps, out);
  }
}
