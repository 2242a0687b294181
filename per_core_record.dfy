/**
 * The per-core recording hierarchy: a private timestamp cache backed by a
 * local shared timestamp cache that only sees the private cache's misses
 * and victims.
 */
module PerCoreRecords {
  import opened Bits
  import opened Wrappers
  import opened TsSets
  import opened TsCaches
  import opened Parameters

  /** The four generic parameters P_A, P_S, S_A and S_S. */
  datatype Geometry = Geometry(privateAssoc: nat, privateSets: nat, sharedAssoc: nat, sharedSets: nat)

  predicate GeometryOk(g: Geometry)
  {
    GenericsOk(g.privateAssoc, g.privateSets) && GenericsOk(g.sharedAssoc, g.sharedSets)
  }

  /** The geometry the plugin is built with. */
  const Configured: Geometry := Geometry(PrivateCacheAssoc, PrivateCacheSets, SharedCacheAssoc, SharedCacheSets)

  /** The contents of both caches. */
  datatype HierarchyValue = HierarchyValue(privateCache: CacheValue, sharedCache: CacheValue)

  predicate HierarchyWellFormed(h: HierarchyValue, g: Geometry)
  {
    GeometryOk(g)
    && CacheWellFormed(h.privateCache, g.privateAssoc, g.privateSets)
    && CacheWellFormed(h.sharedCache, g.sharedAssoc, g.sharedSets)
  }

  /** `paddr >> CACHE_LINE_SIZE.trailing_zeros()`. */
  function BlockOf(paddr: nat): (b: nat)
    ensures b == paddr / CacheLineSize
  {
    assert Pow2(LineShift) == CacheLineSize;
    Shr(paddr, LineShift)
  }

  /** `new`: two empty caches. */
  function NewHierarchy(g: Geometry): (h: HierarchyValue)
    requires GeometryOk(g)
    ensures HierarchyWellFormed(h, g) && h.privateCache.warmed == 0 && h.sharedCache.warmed == 0
  {
    HierarchyValue(NewCache(g.privateAssoc, g.privateSets), NewCache(g.sharedAssoc, g.sharedSets))
  }

  /**
   * `access_memory`: record the access in the private cache; on a plain miss
   * peek the shared cache, on an eviction record the victim there as a read
   * (keeping its instruction flag), on a write-back record it as a data
   * write. A panic of either cache is the error.
   */
  function AccessMemoryOn(h: HierarchyValue, g: Geometry, ts: nat, paddr: nat, isInstruction: bool, isStore: bool): Result<HierarchyValue, SetFault>
    requires HierarchyWellFormed(h, g)
  {
    var blockId := BlockOf(paddr);
    match RecordOn(h.privateCache, g.privateAssoc, blockId, isInstruction, isStore, ts)
    case Err(e) => Err(e)
    case Ok(rec) =>
      var h' := h.(privateCache := rec.next);
      match rec.result
      case Miss =>
        Ok(h'.(sharedCache := PeekCacheOn(h.sharedCache, g.sharedAssoc, blockId, isInstruction, isStore, ts).1))
      case Hit => Ok(h')
      case MissWithEviction(blk, instr) =>
        (match RecordOn(h.sharedCache, g.sharedAssoc, blk, instr, false, ts)
         case Err(e) => Err(e)
         case Ok(s) => Ok(h'.(sharedCache := s.next)))
      case MissWithWriteBack(blk) =>
        (match RecordOn(h.sharedCache, g.sharedAssoc, blk, false, true, ts)
         case Err(e) => Err(e)
         case Ok(s) => Ok(h'.(sharedCache := s.next)))
  }

  // ---------------------------------------------------------------------------
  // Properties
  // ---------------------------------------------------------------------------

  /** The plugin's own geometry passes the generic checks. */
  lemma ConfiguredGeometryOk()
    ensures GeometryOk(Configured)
  {
    ParametersArePowersOfTwo();
  }

  /**
   * An access fails only for an instruction store that misses the private
   * cache; otherwise both caches stay well formed, the block is resident in
   * the private cache, and the shared cache is touched only on a miss: left
   * alone on a hit, peeked without any fill on a plain miss, and made to
   * hold the private cache's victim on an eviction or a write-back.
   */
  lemma AccessMemorySpec(h: HierarchyValue, g: Geometry, ts: nat, paddr: nat, isInstruction: bool, isStore: bool)
    requires HierarchyWellFormed(h, g)
    ensures var r := AccessMemoryOn(h, g, ts, paddr, isInstruction, isStore);
            var b := BlockOf(paddr);
            var rec := RecordOn(h.privateCache, g.privateAssoc, b, isInstruction, isStore, ts);
            (r.Err? <==> isInstruction && isStore && !Resident(h.privateCache, g.privateAssoc, b))
            && (r.Ok? ==>
                  HierarchyWellFormed(r.value, g)
                  && r.value.privateCache == rec.value.next
                  && Resident(r.value.privateCache, g.privateAssoc, b)
                  && (rec.value.result == Hit ==> r.value.sharedCache == h.sharedCache)
                  && (rec.value.result == Miss ==>
                        r.value.sharedCache == PeekCacheOn(h.sharedCache, g.sharedAssoc, b, isInstruction, isStore, ts).1
                        && r.value.sharedCache.warmed == h.sharedCache.warmed)
                  && (rec.value.result.MissWithEviction? || rec.value.result.MissWithWriteBack? ==>
                        Resident(r.value.sharedCache, g.sharedAssoc, rec.value.result.blockId)))
  {
    var b := BlockOf(paddr);
    RecordSpec(h.privateCache, g.privateAssoc, b, isInstruction, isStore, ts);
    var rec := RecordOn(h.privateCache, g.privateAssoc, b, isInstruction, isStore, ts);
    if rec.Ok? {
      match rec.value.result
      case Miss =>
        PeekCacheSpec(h.sharedCache, g.sharedAssoc, b, isInstruction, isStore, ts);
      case Hit =>
      case MissWithEviction(blk, instr) =>
        RecordSpec(h.sharedCache, g.sharedAssoc, blk, instr, false, ts);
      case MissWithWriteBack(blk) =>
        RecordSpec(h.sharedCache, g.sharedAssoc, blk, false, true, ts);
    }
  }

  /** What the shared cache goes through for one result of the private
      cache: a peek on a plain miss, nothing on a hit, the victim recorded as
      a read on an eviction and as a data write on a write-back. */
  ghost predicate SharedStep(c: CacheValue, a: nat, res: AccessResult, blockId: nat,
                             isInstruction: bool, isStore: bool, ts: nat, c': CacheValue)
    requires GenericsOk(a, |c.sets|) && CacheWellFormed(c, a, |c.sets|)
  {
    match res
    case Miss => c' == PeekCacheOn(c, a, blockId, isInstruction, isStore, ts).1
    case Hit => c' == c
    case MissWithEviction(blk, instr) =>
      RecordOn(c, a, blk, instr, false, ts).Ok? && c' == RecordOn(c, a, blk, instr, false, ts).value.next
    case MissWithWriteBack(blk) =>
      RecordOn(c, a, blk, false, true, ts).Ok? && c' == RecordOn(c, a, blk, false, true, ts).value.next
  }

  /** A private-cache record followed by the matching shared-cache step is
      the whole access. */
  lemma AccessMemoryOk(h: HierarchyValue, g: Geometry, ts: nat, paddr: nat, isInstruction: bool, isStore: bool,
                       rec: Recorded, s: CacheValue)
    requires HierarchyWellFormed(h, g)
    requires RecordOn(h.privateCache, g.privateAssoc, BlockOf(paddr), isInstruction, isStore, ts) == Ok(rec)
    requires SharedStep(h.sharedCache, g.sharedAssoc, rec.result, BlockOf(paddr), isInstruction, isStore, ts, s)
    ensures AccessMemoryOn(h, g, ts, paddr, isInstruction, isStore) == Ok(HierarchyValue(rec.next, s))
  {
  }

  // ---------------------------------------------------------------------------
  // The hierarchy, in place
  // ---------------------------------------------------------------------------

  class TimestampSingleCoreMemoryHierarchy {
    const privateCache: TimestampCache
    const localSharedCache: TimestampCache
    ghost const Repr: set<object>

    ghost predicate Valid()
      reads this, Repr
    {
      privateCache in Repr && localSharedCache in Repr
      && privateCache.Repr <= Repr && localSharedCache.Repr <= Repr
      && privateCache != localSharedCache
      && privateCache !in localSharedCache.Repr && localSharedCache !in privateCache.Repr
      && privateCache.Repr !! localSharedCache.Repr
      && this !in Repr
      && privateCache.Valid() && localSharedCache.Valid()
    }

    function Geom(): Geometry
    {
      Geometry(privateCache.assoc, privateCache.numSets, localSharedCache.assoc, localSharedCache.numSets)
    }

    ghost function Abs(): HierarchyValue
      reads this, privateCache, localSharedCache
    {
      HierarchyValue(privateCache.Abs(), localSharedCache.Abs())
    }

    /** `new`. */
    constructor (g: Geometry)
      requires GeometryOk(g)
      ensures Valid() && fresh(Repr) && Geom() == g
      ensures Abs() == NewHierarchy(g)
    {
      var p := new TimestampCache(g.privateAssoc, g.privateSets);
      var s := new TimestampCache(g.sharedAssoc, g.sharedSets);
      privateCache := p;
      localSharedCache := s;
      Repr := {p, s} + p.Repr + s.Repr;
    }

    /** `access_memory`; the fault is the panic of a cache. */
    method AccessMemory(ts: nat, paddr: nat, isInstruction: bool, isStore: bool) returns (fault: Option<SetFault>)
      requires Valid()
      modifies Repr
      ensures Valid()
      ensures var spec := AccessMemoryOn(old(Abs()), Geom(), ts, paddr, isInstruction, isStore);
              (spec.Ok? ==> fault == None && Abs() == spec.value)
              && (spec.Err? ==> fault == Some(spec.error) && Abs() == old(Abs()))
    {
      ghost var h := Abs();
      var blockId := BlockOf(paddr);
      var res := privateCache.Record(blockId, isInstruction, isStore, ts);
      if res.Err? {
        return Some(res.error);
      }
      ghost var rec := RecordOn(h.privateCache, privateCache.assoc, blockId, isInstruction, isStore, ts).value;
      ForwardToShared(res.value, blockId, isInstruction, isStore, ts);
      AccessMemoryOk(h, Geom(), ts, paddr, isInstruction, isStore, rec, localSharedCache.Abs());
      fault := None;
    }

    /** The `match` of `access_memory`: what the shared cache sees of the private cache's result. */
    method ForwardToShared(res: AccessResult, blockId: nat, isInstruction: bool, isStore: bool, ts: nat)
      requires localSharedCache.Valid()
      modifies localSharedCache, localSharedCache.Repr
      ensures localSharedCache.Valid()
      ensures SharedStep(old(localSharedCache.Abs()), localSharedCache.assoc, res, blockId, isInstruction, isStore, ts,
                         localSharedCache.Abs())
    {
      match res {
        case Miss =>
          var _ := localSharedCache.Peek(blockId, isInstruction, isStore, ts);
        case Hit =>
        case MissWithEviction(blk, instr) =>
          RecordSpec(localSharedCache.Abs(), localSharedCache.assoc, blk, instr, false, ts);
          var _ := localSharedCache.Record(blk, instr, false, ts);
        case MissWithWriteBack(blk) =>
          RecordSpec(localSharedCache.Abs(), localSharedCache.assoc, blk, false, true, ts);
          var _ := localSharedCache.Record(blk, false, true, ts);
      }
    }
  }
}
