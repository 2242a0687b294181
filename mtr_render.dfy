/** Rebuilding one core's private caches (L1i, L1d, L2) from the MTR sets. */
module MtrRender {
  import opened Bits
  import opened Wrappers
  import opened Checkpoints
  import opened MtrRecords

  // ---------------------------------------------------------------------------
  // Rebuilding one core's private caches
  // ---------------------------------------------------------------------------

  /** What the core's caches hold of the records whose keys are in `keys`. */
  function ViewsOver(m: map<nat, MtrRecord>, keys: set<nat>, core: nat): set<TsCacheBlock>
  {
    set b | b in keys && b in m && CoreView(m[b], b, core).Some? :: CoreView(m[b], b, core).value
  }

  lemma ViewsOverAdd(m: map<nat, MtrRecord>, keys: set<nat>, b: nat, core: nat)
    requires b in m && b !in keys
    ensures var v := CoreView(m[b], b, core);
            multiset(ViewsOver(m, keys + {b}, core))
            == multiset(ViewsOver(m, keys, core)) + (if v.Some? then multiset{v.value} else multiset{})
  {
    var v := CoreView(m[b], b, core);
    if v.Some? {
      assert v.value !in ViewsOver(m, keys, core);
      assert ViewsOver(m, keys + {b}, core) == ViewsOver(m, keys, core) + {v.value};
    } else {
      assert ViewsOver(m, keys + {b}, core) == ViewsOver(m, keys, core);
    }
  }

  /** The inner loop over one MTR set: every record's classification for the core, pushed on the heap. */
  method CollectViews(m: map<nat, MtrRecord>, core: nat) returns (bag: multiset<TsCacheBlock>)
    ensures bag == multiset(ViewsOver(m, m.Keys, core))
  {
    bag := multiset{};
    var rest := m.Keys;
    while rest != {}
      invariant rest <= m.Keys
      invariant bag == multiset(ViewsOver(m, m.Keys - rest, core))
      decreases |rest|
    {
      var b :| b in rest;
      ViewsOverAdd(m, m.Keys - rest, b, core);
      assert m.Keys - (rest - {b}) == (m.Keys - rest) + {b};
      var v := CoreView(m[b], b, core);
      if v.Some? {
        bag := bag + multiset{v.value};
      }
      rest := rest - {b};
    }
  }

  /** d > 0 divides n. */
  predicate Divides(d: nat, n: nat)
  {
    d > 0 && n % d == 0
  }

  lemma SlotInRange(grp: nat, n: nat, width: nat, g: nat)
    requires grp < n && g < width
    ensures grp * width + g < n * width
  {
    assert n * width == (grp + 1) * width + (n - grp - 1) * width;
  }

  lemma MulMonotone(a: nat, b: nat, width: nat)
    requires a <= b
    ensures a * width <= b * width
  {
    assert b * width == a * width + (b - a) * width;
  }

  lemma FitsWhole(k: nat, width: nat, total: nat)
    requires width > 0 && k <= total / width
    ensures k * width <= total
  {
    assert total == (total / width) * width + total % width;
    assert (total / width) * width == k * width + (total / width - k) * width;
  }

  /** A slot grp*width + g of a total that width divides keeps the residue g modulo width. */
  lemma ResidueOfSlot(b: nat, total: nat, width: nat, slot: nat)
    requires Divides(width, total) && total > 0 && b % total == slot
    ensures b % width == slot % width
  {
    var q := total / width;
    DivModUnique(total, width, q, 0);
    assert width * q == total;
    assert q >= 1;
    ModMod(b, width, q);
  }

  /** The blocks the core's L2 set g gathers from the first n groups of MTR sets. */
  function L2Candidates(sets: seq<map<nat, MtrRecord>>, core: nat, width: nat, g: nat, n: nat): multiset<TsCacheBlock>
    requires g < width && n * width <= |sets|
    decreases n
  {
    if n == 0 then multiset{}
    else
      SlotInRange(n - 1, n, width, g);
      L2Candidates(sets, core, width, g, n - 1) + multiset(ViewsOver(sets[(n - 1) * width + g], sets[(n - 1) * width + g].Keys, core))
  }

  /** Whether an L1 cache takes a block: the instruction cache takes instruction blocks, the data cache data blocks. */
  predicate Relevant(x: TsCacheBlock, isInstruction: bool)
  {
    if isInstruction then x.d.inInstructionCache else x.d.inDataCache
  }

  /** f holds every copy of each block of h the L1 cache takes, and nothing else. */
  ghost predicate IsFilterOf(h: multiset<TsCacheBlock>, isInstruction: bool, f: multiset<TsCacheBlock>)
  {
    forall y :: f[y] == if Relevant(y, isInstruction) then h[y] else 0
  }

  /** Every heap has a filtered part. */
  lemma {:induction false} FilterExists(h: multiset<TsCacheBlock>, isInstruction: bool)
    ensures exists f :: IsFilterOf(h, isInstruction, f)
    decreases |h|
  {
    if |h| == 0 {
      assert IsFilterOf(h, isInstruction, multiset{});
    } else {
      var x :| x in h;
      FilterExists(h - multiset{x}, isInstruction);
      var f :| IsFilterOf(h - multiset{x}, isInstruction, f);
      var g := f + (if Relevant(x, isInstruction) then multiset{x} else multiset{});
      assert IsFilterOf(h, isInstruction, g);
    }
  }

  /** The blocks of h an L1 cache takes. */
  ghost function FilterBag(h: multiset<TsCacheBlock>, isInstruction: bool): (f: multiset<TsCacheBlock>)
    ensures IsFilterOf(h, isInstruction, f)
  {
    FilterExists(h, isInstruction);
    var f :| IsFilterOf(h, isInstruction, f);
    f
  }

  /** The loop over one L2 heap: its relevant blocks. */
  method FilterRelevant(h: multiset<TsCacheBlock>, isInstruction: bool) returns (f: multiset<TsCacheBlock>)
    ensures f == FilterBag(h, isInstruction)
  {
    f := multiset{};
    var rest := h;
    while |rest| > 0
      invariant rest <= h
      invariant forall y :: f[y] == if Relevant(y, isInstruction) then (h - rest)[y] else 0
      decreases |rest|
    {
      var x :| x in rest;
      if Relevant(x, isInstruction) {
        f := f + multiset{x};
      }
      rest := rest - multiset{x};
    }
    assert forall y :: f[y] == FilterBag(h, isInstruction)[y];
  }

  /** The blocks an L1 set s gathers from the first n of its affiliated L2 sets. */
  ghost function L1Candidates(l2: seq<multiset<TsCacheBlock>>, isInstruction: bool, width: nat, s: nat, n: nat): multiset<TsCacheBlock>
    requires s < width && n * width <= |l2|
    decreases n
  {
    if n == 0 then multiset{}
    else
      SlotInRange(n - 1, n, width, s);
      L1Candidates(l2, isInstruction, width, s, n - 1) + FilterBag(l2[(n - 1) * width + s], isInstruction)
  }

  /** The L2 heaps of the core: each set the top `assoc` of what its group of MTR sets gathers. */
  ghost predicate IsL2Rendering(sets: seq<map<nat, MtrRecord>>, core: nat, width: nat, assoc: nat, heaps: seq<multiset<TsCacheBlock>>)
    requires Divides(width, |sets|)
  {
    FitsWhole(|sets| / width, width, |sets|);
    |heaps| == width
    && forall g :: 0 <= g < width ==> IsTopK(L2Candidates(sets, core, width, g, |sets| / width), assoc, heaps[g])
  }

  /** The heaps of one L1 cache: each set the top `assoc` of the relevant blocks of its affiliated L2 sets. */
  ghost predicate IsL1Rendering(l2: seq<multiset<TsCacheBlock>>, width: nat, assoc: nat, isInstruction: bool, heaps: seq<multiset<TsCacheBlock>>)
    requires Divides(width, |l2|)
  {
    FitsWhole(|l2| / width, width, |l2|);
    |heaps| == width
    && forall s :: 0 <= s < width ==> IsTopK(L1Candidates(l2, isInstruction, width, s, |l2| / width), assoc, heaps[s])
  }

  /** Each heap exported newest first. */
  ghost predicate ExportsOf(heaps: seq<multiset<TsCacheBlock>>, out: seq<seq<CacheBlock>>)
  {
    |out| == |heaps| && forall i :: 0 <= i < |heaps| ==> IsExportOf(heaps[i], out[i])
  }

  /** The three serialized caches, in the order `render_private_caches` returns them. */
  datatype PrivateCaches = PrivateCaches(l1i: seq<seq<CacheBlock>>, l1d: seq<seq<CacheBlock>>, l2: seq<seq<CacheBlock>>)

  /** The `assert!`s of `render_private_caches`, and the division by zero they imply. */
  datatype RenderFault = L2SetsNotDivisor | L1iSetsNotDivisor | L1dSetsNotDivisor

  /** The first check that fails, in the order the source makes them: none
      fails exactly when the L2 set count divides the MTR set count and both
      L1 set counts divide the L2 set count. */
  function RenderCheck(numSets: nat, param: PrivateCacheParameters): (r: Option<RenderFault>)
    ensures r.None? <==> Divides(param.l2Sets, numSets) && Divides(param.l1iSets, param.l2Sets)
                         && Divides(param.l1dSets, param.l2Sets)
    ensures r == Some(L2SetsNotDivisor) <==> !Divides(param.l2Sets, numSets)
  {
    if !Divides(param.l2Sets, numSets) then Some(L2SetsNotDivisor)
    else if !Divides(param.l1iSets, param.l2Sets) then Some(L1iSetsNotDivisor)
    else if !Divides(param.l1dSets, param.l2Sets) then Some(L1dSetsNotDivisor)
    else None
  }

  /** out is a rendering of the core's private caches from the MTR sets, through the given heaps. */
  ghost predicate IsRendering(sets: seq<map<nat, MtrRecord>>, core: nat, param: PrivateCacheParameters,
                              l2: seq<multiset<TsCacheBlock>>, l1i: seq<multiset<TsCacheBlock>>, l1d: seq<multiset<TsCacheBlock>>,
                              out: PrivateCaches)
    requires RenderCheck(|sets|, param).None?
  {
    IsL2Rendering(sets, core, param.l2Sets, param.l2Associativity, l2)
    && IsL1Rendering(l2, param.l1iSets, param.l1iAssociativity, true, l1i)
    && IsL1Rendering(l2, param.l1dSets, param.l1dAssociativity, false, l1d)
    && ExportsOf(l1i, out.l1i) && ExportsOf(l1d, out.l1d) && ExportsOf(l2, out.l2)
  }

  /** The L2 heaps of `render_private_caches`. */
  method RenderL2(sets: seq<map<nat, MtrRecord>>, core: nat, width: nat, assoc: nat) returns (heaps: seq<multiset<TsCacheBlock>>)
    requires Divides(width, |sets|)
    ensures IsL2Rendering(sets, core, width, assoc, heaps)
  {
    var groups := |sets| / width;
    FitsWhole(groups, width, |sets|);
    heaps := [];
    for g := 0 to width
      invariant |heaps| == g
      invariant forall j :: 0 <= j < g ==> IsTopK(L2Candidates(sets, core, width, j, groups), assoc, heaps[j])
    {
      var collected := GatherL2(sets, core, width, g, groups);
      var top := GetTopK(collected, assoc);
      heaps := heaps + [top];
    }
  }

  /** The loop over the MTR sets affiliated with L2 set g: the core's views of their records. */
  method GatherL2(sets: seq<map<nat, MtrRecord>>, core: nat, width: nat, g: nat, groups: nat) returns (collected: multiset<TsCacheBlock>)
    requires g < width && groups * width <= |sets|
    ensures collected == L2Candidates(sets, core, width, g, groups)
  {
    collected := multiset{};
    for grp := 0 to groups
      invariant collected == L2Candidates(sets, core, width, g, grp)
    {
      SlotInRange(grp, groups, width, g);
      MulMonotone(grp + 1, groups, width);
      var bag := CollectViews(sets[grp * width + g], core);
      assert L2Candidates(sets, core, width, g, grp + 1) == L2Candidates(sets, core, width, g, grp) + bag;
      collected := collected + bag;
    }
  }

  /** The heaps of one L1 cache, from the L2 heaps. */
  method RenderL1(l2: seq<multiset<TsCacheBlock>>, width: nat, assoc: nat, isInstruction: bool) returns (heaps: seq<multiset<TsCacheBlock>>)
    requires Divides(width, |l2|)
    ensures IsL1Rendering(l2, width, assoc, isInstruction, heaps)
  {
    var groups := |l2| / width;
    FitsWhole(groups, width, |l2|);
    heaps := [];
    for s := 0 to width
      invariant |heaps| == s
      invariant forall j :: 0 <= j < s ==> IsTopK(L1Candidates(l2, isInstruction, width, j, groups), assoc, heaps[j])
    {
      var related := GatherL1(l2, isInstruction, width, s, groups);
      var top := GetTopK(related, assoc);
      heaps := heaps + [top];
    }
  }

  /** The loop over the L2 sets affiliated with L1 set s: their relevant blocks. */
  method GatherL1(l2: seq<multiset<TsCacheBlock>>, isInstruction: bool, width: nat, s: nat, groups: nat) returns (related: multiset<TsCacheBlock>)
    requires s < width && groups * width <= |l2|
    ensures related == L1Candidates(l2, isInstruction, width, s, groups)
  {
    related := multiset{};
    for affiliated := 0 to groups
      invariant related == L1Candidates(l2, isInstruction, width, s, affiliated)
    {
      SlotInRange(affiliated, groups, width, s);
      MulMonotone(affiliated + 1, groups, width);
      var relevant := FilterRelevant(l2[affiliated * width + s], isInstruction);
      assert L1Candidates(l2, isInstruction, width, s, affiliated + 1)
             == L1Candidates(l2, isInstruction, width, s, affiliated) + relevant;
      related := related + relevant;
    }
  }

  /** Every heap exported. */
  method ExportAll(heaps: seq<multiset<TsCacheBlock>>) returns (out: seq<seq<CacheBlock>>)
    ensures ExportsOf(heaps, out)
  {
    out := [];
    for i := 0 to |heaps|
      invariant |out| == i && forall j :: 0 <= j < i ==> IsExportOf(heaps[j], out[j])
    {
      var e := Export(heaps[i]);
      out := out + [e];
    }
  }

  // ---------------------------------------------------------------------------
  // Properties of the rebuilt caches
  // ---------------------------------------------------------------------------

  /** An exported heap lists as many blocks as the heap holds. */
  lemma ExportSize(h: multiset<TsCacheBlock>, out: seq<CacheBlock>)
    requires IsExportOf(h, out)
    ensures |out| == |h|
  {
    var s :| multiset(s) == h && NonIncreasing(s, TsOf) && out == Ds(s);
    assert |out| == |s| == |multiset(s)|;
  }

  /** No rebuilt set holds more blocks than its associativity. */
  lemma RenderedSetsBounded(sets: seq<map<nat, MtrRecord>>, core: nat, param: PrivateCacheParameters,
                            l2: seq<multiset<TsCacheBlock>>, l1i: seq<multiset<TsCacheBlock>>, l1d: seq<multiset<TsCacheBlock>>,
                            out: PrivateCaches)
    requires RenderCheck(|sets|, param).None? && IsRendering(sets, core, param, l2, l1i, l1d, out)
    ensures |out.l2| == param.l2Sets && |out.l1i| == param.l1iSets && |out.l1d| == param.l1dSets
    ensures forall g :: 0 <= g < |out.l2| ==> |out.l2[g]| <= param.l2Associativity
    ensures forall s :: 0 <= s < |out.l1i| ==> |out.l1i[s]| <= param.l1iAssociativity
    ensures forall s :: 0 <= s < |out.l1d| ==> |out.l1d[s]| <= param.l1dAssociativity
  {
    var groups := |sets| / param.l2Sets;
    FitsWhole(groups, param.l2Sets, |sets|);
    forall g | 0 <= g < |out.l2|
      ensures |out.l2[g]| <= param.l2Associativity
    {
      TopKBounded(L2Candidates(sets, core, param.l2Sets, g, groups), param.l2Associativity, l2[g]);
      ExportSize(l2[g], out.l2[g]);
    }
    L1SetsBounded(l2, param.l1iSets, param.l1iAssociativity, true, l1i, out.l1i);
    L1SetsBounded(l2, param.l1dSets, param.l1dAssociativity, false, l1d, out.l1d);
  }

  lemma L1SetsBounded(l2: seq<multiset<TsCacheBlock>>, width: nat, assoc: nat, isInstruction: bool,
                      heaps: seq<multiset<TsCacheBlock>>, out: seq<seq<CacheBlock>>)
    requires Divides(width, |l2|) && IsL1Rendering(l2, width, assoc, isInstruction, heaps) && ExportsOf(heaps, out)
    ensures forall s :: 0 <= s < |out| ==> |out[s]| <= assoc
  {
    var groups := |l2| / width;
    FitsWhole(groups, width, |l2|);
    forall s | 0 <= s < |out|
      ensures |out[s]| <= assoc
    {
      TopKBounded(L1Candidates(l2, isInstruction, width, s, groups), assoc, heaps[s]);
      ExportSize(heaps[s], out[s]);
    }
  }

  /** x is the core's classification of a record tracked in the MTR sets. */
  predicate ViewOfTracked(sets: seq<map<nat, MtrRecord>>, core: nat, x: TsCacheBlock)
    requires |sets| >= 1
  {
    var b := x.d.blockId;
    b in sets[b % |sets|] && CoreView(sets[b % |sets|][b], b, core) == Some(x)
  }

  /** Every block L2 set g gathers is the core's view of a tracked record whose id is g modulo the L2 set count. */
  lemma {:induction false} L2CandidatesPlaced(sets: seq<map<nat, MtrRecord>>, core: nat, width: nat, g: nat, n: nat, x: TsCacheBlock)
    requires |sets| >= 1 && Placed(sets) && Divides(width, |sets|) && g < width && n * width <= |sets|
    requires x in L2Candidates(sets, core, width, g, n)
    ensures x.d.blockId % width == g && ViewOfTracked(sets, core, x)
    decreases n
  {
    SlotInRange(n - 1, n, width, g);
    var slot := (n - 1) * width + g;
    if x in L2Candidates(sets, core, width, g, n - 1) {
      L2CandidatesPlaced(sets, core, width, g, n - 1, x);
    } else {
      assert (n - 1) * width == width * (n - 1);
      DivModUnique(slot, width, n - 1, g);
      SlotCandidatePlaced(sets, core, width, slot, x);
    }
  }

  /** A block gathered from MTR set slot is the core's view of a record tracked there, with the slot's residue. */
  lemma SlotCandidatePlaced(sets: seq<map<nat, MtrRecord>>, core: nat, width: nat, slot: nat, x: TsCacheBlock)
    requires |sets| >= 1 && Placed(sets) && Divides(width, |sets|) && slot < |sets|
    requires x in ViewsOver(sets[slot], sets[slot].Keys, core)
    ensures x.d.blockId % width == slot % width && ViewOfTracked(sets, core, x)
  {
    var b :| b in sets[slot] && CoreView(sets[slot][b], b, core) == Some(x);
    assert b % |sets| == slot;
    ResidueOfSlot(b, |sets|, width, slot);
  }

  /** Every block of the core's rebuilt L2 set g is the core's view of a tracked record placed in g. */
  lemma L2Placed(sets: seq<map<nat, MtrRecord>>, core: nat, width: nat, assoc: nat, heaps: seq<multiset<TsCacheBlock>>)
    requires |sets| >= 1 && Placed(sets) && Divides(width, |sets|) && IsL2Rendering(sets, core, width, assoc, heaps)
    ensures forall g, x :: 0 <= g < width && x in heaps[g] ==> x.d.blockId % width == g && ViewOfTracked(sets, core, x)
  {
    var groups := |sets| / width;
    FitsWhole(groups, width, |sets|);
    forall g, x | 0 <= g < width && x in heaps[g]
      ensures x.d.blockId % width == g && ViewOfTracked(sets, core, x)
    {
      TopKBounded(L2Candidates(sets, core, width, g, groups), assoc, heaps[g]);
      L2CandidatesPlaced(sets, core, width, g, groups, x);
    }
  }

  /** Every block L1 set s gathers is relevant to the L1 cache and sits in an affiliated L2 set. */
  lemma {:induction false} L1CandidatesIncluded(l2: seq<multiset<TsCacheBlock>>, isInstruction: bool, width: nat, s: nat, n: nat, x: TsCacheBlock)
    requires s < width && n * width <= |l2| && x in L1Candidates(l2, isInstruction, width, s, n)
    ensures Relevant(x, isInstruction)
    ensures exists t :: 0 <= t < |l2| && t % width == s && x in l2[t]
    decreases n
  {
    SlotInRange(n - 1, n, width, s);
    var slot := (n - 1) * width + s;
    var earlier := L1Candidates(l2, isInstruction, width, s, n - 1);
    assert L1Candidates(l2, isInstruction, width, s, n) == earlier + FilterBag(l2[slot], isInstruction);
    if x in earlier {
      L1CandidatesIncluded(l2, isInstruction, width, s, n - 1, x);
    } else {
      assert x in FilterBag(l2[slot], isInstruction);
      DivModUnique(slot, width, n - 1, s);
      assert slot < |l2| && slot % width == s && x in l2[slot];
    }
  }

  /**
   * Inclusion: every block of an L1 set is relevant to that cache (an
   * instruction block in L1i, a data block in L1d) and is held by one of
   * the L2 sets affiliated with it.
   */
  lemma L1Included(l2: seq<multiset<TsCacheBlock>>, width: nat, assoc: nat, isInstruction: bool, heaps: seq<multiset<TsCacheBlock>>)
    requires Divides(width, |l2|) && IsL1Rendering(l2, width, assoc, isInstruction, heaps)
    ensures forall s, x :: 0 <= s < width && x in heaps[s] ==>
              Relevant(x, isInstruction) && exists t :: 0 <= t < |l2| && t % width == s && x in l2[t]
  {
    var groups := |l2| / width;
    FitsWhole(groups, width, |l2|);
    forall s, x | 0 <= s < width && x in heaps[s]
      ensures Relevant(x, isInstruction) && exists t :: 0 <= t < |l2| && t % width == s && x in l2[t]
    {
      TopKBounded(L1Candidates(l2, isInstruction, width, s, groups), assoc, heaps[s]);
      L1CandidatesIncluded(l2, isInstruction, width, s, groups, x);
    }
  }
}
