/** The MTR collection: the sets of records, updated in place. */
module Mtrs {
  import opened Wrappers
  import TsSets
  import TsCaches
  import opened Checkpoints
  import opened MtrRecords
  import opened MtrPrune
  import opened MtrDirectory
  import opened MtrRender

  // ---------------------------------------------------------------------------
  // The collection
  // ---------------------------------------------------------------------------

  class MemoryTimestampRecordCollection {
    const numSets: nat
    var sets: seq<map<nat, MtrRecord>>

    ghost predicate Valid()
      reads this
    {
      numSets >= 1 && |sets| == numSets && Placed(sets)
    }

    /** `new`: S empty sets. */
    constructor (numSets: nat)
      requires numSets >= 1
      ensures Valid() && this.numSets == numSets
      ensures |sets| == numSets && forall j :: 0 <= j < numSets ==> sets[j] == map[]
    {
      this.numSets := numSets;
      sets := seq(numSets, _ => map[]);
    }

    /** `look_up`: whether the set the block id selects has a record for it. */
    function LookUp(blockId: nat): (found: bool)
      requires Valid()
      reads this
      ensures found <==> Tracked(sets, blockId)
    {
      blockId in sets[blockId % numSets]
    }

    /**
     * `absorb_ts_cache`: every entry the private cache's set iterators yield,
     * set by set, merged in; a fault is the panic that stops it.
     */
    method AbsorbTsCache(coreId: nat, other: TsCaches.TimestampCache) returns (fault: Option<AbsorbFault>)
      requires Valid() && other.Valid()
      modifies this
      ensures var spec := AbsorbAll(old(sets), coreId, CacheEntries(other.model, other.assoc, 0));
              (spec.Ok? ==> fault.None? && sets == spec.value && Valid())
              && (spec.Err? ==> fault == Some(spec.error))
    {
      fault := AbsorbSets(coreId, other.sets, other.model, other.assoc);
      AbsorbAllSpec(old(sets), coreId, CacheEntries(other.model, other.assoc, 0));
    }

    /** The outer loop of `absorb_ts_cache`: the sets of the private cache in order, stopping at the first fault. */
    method AbsorbSets(coreId: nat, targets: seq<TsSets.TimestampCacheSet>, ghost model: seq<TsSets.SetState>, ghost assoc: nat)
      returns (fault: Option<AbsorbFault>)
      requires numSets >= 1 && |sets| == numSets && |targets| == |model|
      requires forall j :: 0 <= j < |model| ==> TsSets.WellFormed(model[j], assoc)
      requires forall j :: 0 <= j < |targets| ==> targets[j].Valid() && targets[j].State() == model[j]
      modifies this
      ensures |sets| == numSets
      ensures var spec := AbsorbAll(old(sets), coreId, CacheEntries(model, assoc, 0));
              (spec.Ok? ==> fault.None? && sets == spec.value)
              && (spec.Err? ==> fault == Some(spec.error))
    {
      for i := 0 to |targets|
        invariant |sets| == numSets
        invariant AbsorbAll(old(sets), coreId, CacheEntries(model, assoc, 0)) == AbsorbAll(sets, coreId, CacheEntries(model, assoc, i))
      {
        assert CacheEntries(model, assoc, i) == TsSets.LiveEntries(targets[i].State()) + CacheEntries(model, assoc, i + 1);
        fault := AbsorbSet(coreId, targets[i], CacheEntries(model, assoc, i + 1));
        if fault.Some? {
          return;
        }
      }
      fault := None;
    }

    /** The body of the outer loop of `absorb_ts_cache`: one set's iterator drained into the collection. */
    method AbsorbSet(coreId: nat, target: TsSets.TimestampCacheSet, ghost later: seq<TsSets.Entry>) returns (fault: Option<AbsorbFault>)
      requires numSets >= 1 && |sets| == numSets && target.Valid()
      modifies this
      ensures |sets| == numSets
      ensures var spec := AbsorbAll(old(sets), coreId, TsSets.LiveEntries(target.State()) + later);
              (fault.None? ==> spec == AbsorbAll(sets, coreId, later))
              && (fault.Some? ==> spec == Err(fault.value))
    {
      ghost var s := target.State();
      var it := new TsSets.TimestampCacheSetIterator(target);
      while true
        invariant fresh(it) && it.Valid() && it.base == target && it.currentIdx <= s.cold
        invariant |sets| == numSets
        invariant AbsorbAll(old(sets), coreId, TsSets.LiveEntries(s) + later)
                  == AbsorbAll(sets, coreId, TsSets.LiveEntries(s)[it.currentIdx..] + later)
        decreases s.cold - it.currentIdx
      {
        TsSets.NextYieldsLiveEntries(s, it.currentIdx);
        ghost var idx := it.currentIdx;
        ghost var rest := TsSets.LiveEntries(s)[idx..] + later;
        assert AbsorbAll(old(sets), coreId, TsSets.LiveEntries(s) + later) == AbsorbAll(sets, coreId, rest);
        var item := it.Next();
        if item.None? {
          assert TsSets.LiveEntries(s)[idx..] == [] && rest == later;
          return None;
        }
        var e := item.value;
        assert rest[0] == e && rest[1..] == TsSets.LiveEntries(s)[it.currentIdx..] + later;
        ghost var before := sets;
        fault := AbsorbEntry(coreId, e);
        if fault.Some? {
          assert AbsorbEntryInto(before, coreId, e).Err?;
          assert AbsorbAll(before, coreId, rest) == Err(fault.value);
          return;
        }
      }
    }

    /** The body of the inner loop: one entry merged into its block's record, or a new record made. */
    method AbsorbEntry(coreId: nat, e: TsSets.Entry) returns (fault: Option<AbsorbFault>)
      requires numSets >= 1 && |sets| == numSets
      modifies this
      ensures |sets| == numSets
      ensures var spec := AbsorbEntryInto(old(sets), coreId, e);
              (spec.Ok? ==> fault.None? && sets == spec.value)
              && (spec.Err? ==> fault == Some(spec.error))
    {
      var k := e.blockId % numSets;
      var updated;
      if e.blockId in sets[k] {
        updated := MergeEntry(sets[k][e.blockId], coreId, e);
      } else {
        updated := NewRecord(coreId, e);
      }
      if updated.Err? {
        return Some(updated.error);
      }
      var m: map<nat, MtrRecord> := sets[k][e.blockId := updated.value];
      sets := sets[k := m];
      fault := None;
    }

    /** `prune_by_associativity`: every set pruned; a fault is the out-of-bounds panic. */
    method PruneByAssociativity(assoc: nat) returns (fault: Option<PruneFault>)
      requires Valid()
      modifies this
      ensures fault.None? <==> forall i :: 0 <= i < |old(sets)| ==> PruneSetOn(old(sets)[i], assoc).Ok?
      ensures fault.None? ==>
                Valid() && |sets| == |old(sets)|
                && forall i :: 0 <= i < |sets| ==> PruneSetOn(old(sets)[i], assoc) == Ok(sets[i])
    {
      var pruned: seq<map<nat, MtrRecord>> := [];
      for i := 0 to numSets
        invariant sets == old(sets) && Valid()
        invariant |pruned| == i
        invariant forall j :: 0 <= j < i ==> PruneSetOn(sets[j], assoc) == Ok(pruned[j])
        invariant forall j, b :: 0 <= j < i && b in pruned[j] ==> b % numSets == j
      {
        var r := PruneSet(sets[i], assoc);
        if r.Err? {
          return Some(r.error);
        }
        PruneSetSpec(sets[i], assoc);
        pruned := pruned + [r.value];
      }
      sets := pruned;
      fault := None;
    }

    /** `export_directory`: each set's directory blocks, newest first. */
    method ExportDirectory() returns (dir: seq<seq<DirectoryBlock>>)
      requires Valid()
      ensures |dir| == numSets && forall i :: 0 <= i < numSets ==> IsDirectoryExport(sets[i], dir[i])
    {
      dir := [];
      for i := 0 to numSets
        invariant |dir| == i && forall j :: 0 <= j < i ==> IsDirectoryExport(sets[j], dir[j])
      {
        var out := ExportDirectorySet(sets[i]);
        dir := dir + [out];
      }
    }

    /**
     * `render_private_caches`: the core's L2 from the MTR sets, then its L1i
     * and L1d from the L2, each exported newest first; a fault is the first
     * set count that does not divide the next.
     */
    method RenderPrivateCaches(core: nat, param: PrivateCacheParameters)
      returns (r: Result<PrivateCaches, RenderFault>, ghost l2: seq<multiset<TsCacheBlock>>,
               ghost l1i: seq<multiset<TsCacheBlock>>, ghost l1d: seq<multiset<TsCacheBlock>>)
      requires Valid()
      ensures RenderCheck(numSets, param).Some? ==> r == Err(RenderCheck(numSets, param).value)
      ensures RenderCheck(numSets, param).None? ==> r.Ok? && IsRendering(sets, core, param, l2, l1i, l1d, r.value)
    {
      if !Divides(param.l2Sets, numSets) {
        return Err(L2SetsNotDivisor), [], [], [];
      }
      var l2Heaps := RenderL2(sets, core, param.l2Sets, param.l2Associativity);
      l2 := l2Heaps;
      if !Divides(param.l1iSets, param.l2Sets) {
        return Err(L1iSetsNotDivisor), l2, [], [];
      }
      var l1iHeaps := RenderL1(l2Heaps, param.l1iSets, param.l1iAssociativity, true);
      if !Divides(param.l1dSets, param.l2Sets) {
        return Err(L1dSetsNotDivisor), l2, l1iHeaps, [];
      }
      var l1dHeaps := RenderL1(l2Heaps, param.l1dSets, param.l1dAssociativity, false);
      l1i, l1d := l1iHeaps, l1dHeaps;
      var outI := ExportAll(l1iHeaps);
      var outD := ExportAll(l1dHeaps);
      var outL2 := ExportAll(l2Heaps);
      r := Ok(PrivateCaches(outI, outD, outL2));
    }
  }
}
