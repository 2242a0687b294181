/**
 * The set-associative cache of the trace analyzer: `sets` cache sets of
 * `assoc` ways each, global hit and miss counters, and the access that
 * looks a location up in its set, evicts the least recently used way on a
 * miss and makes the accessed way the most recently used one.
 *
 * `CacheAccessAsWritten` is the value-level meaning of one access as
 * `Cache::access` is written (its lookup only finds VALID lines); the `Cache`
 * class keeps its sets in place and its `Access` method is proved against
 * it.  `CacheAccess` is the corrected access, whose lookup also finds DIRTY
 * lines.
 */
module Caches {
  import opened Bits
  import opened Lru
  import opened Address
  import opened CacheSets
  import opened Wrappers

  /** The contents of a whole cache: every set, and the two uint32 counters. */
  datatype CacheState = CacheState(sets: seq<SetState>, hits: nat, misses: nat)

  ghost predicate CacheWellFormed(c: CacheState)
  {
    |c.sets| >= 1 && forall i :: 0 <= i < |c.sets| ==> WellFormed(c.sets[i])
  }

  /** One access: the addressed set changes as `SetAccessWith` says, and
      exactly one of the two counters advances (with uint32 wrap-around). */
  function CacheAccessWith(c: CacheState, loc: LocationInfo, write: bool, matchDirty: bool): CacheState
    requires CacheWellFormed(c) && loc.setIndex < |c.sets|
  {
    var o := SetAccessWith(c.sets[loc.setIndex], loc.tag, write, matchDirty);
    CacheState(c.sets[loc.setIndex := o.next],
               if o.hit then Inc32(c.hits) else c.hits,
               if o.hit then c.misses else Inc32(c.misses))
  }

  /** `Cache::access` as written: only a VALID line is found, so a hit is
      counted exactly when a VALID line of the addressed set carries the
      tag, and a miss otherwise. */
  function CacheAccessAsWritten(c: CacheState, loc: LocationInfo, write: bool): (r: CacheState)
    requires CacheWellFormed(c) && loc.setIndex < |c.sets|
    ensures var s := c.sets[loc.setIndex];
            var present := exists k :: 0 <= k < |s.lines| && s.lines[k].tag == loc.tag && s.lines[k].state == VALID;
            (present ==> r.hits == Inc32(c.hits) && r.misses == c.misses)
            && (!present ==> r.misses == Inc32(c.misses) && r.hits == c.hits)
  {
    CacheAccessCounts(c, loc, write, false);
    CacheAccessWith(c, loc, write, false)
  }

  /** The corrected access: a DIRTY line is found as well, so a hit is
      counted exactly when a VALID or DIRTY line carries the tag. */
  function CacheAccess(c: CacheState, loc: LocationInfo, write: bool): (r: CacheState)
    requires CacheWellFormed(c) && loc.setIndex < |c.sets|
    ensures var s := c.sets[loc.setIndex];
            var present := exists k :: 0 <= k < |s.lines| && s.lines[k].tag == loc.tag && s.lines[k].state != INVALID;
            (present ==> r.hits == Inc32(c.hits) && r.misses == c.misses)
            && (!present ==> r.misses == Inc32(c.misses) && r.hits == c.hits)
  {
    CacheAccessCounts(c, loc, write, true);
    CacheAccessWith(c, loc, write, true)
  }

  /** `Cache::compute_sets`: the capacity counted in lines of block_size plus
      tag_size bytes, truncated to uint32, divided by the associativity.  The
      sets never need more bytes than the cache has. */
  function ComputeSets(cacheSize: nat, blockSize: nat, tagSize: nat, assoc: nat): (sets: nat)
    requires blockSize + tagSize >= 1 && assoc >= 1
    ensures sets * assoc * (blockSize + tagSize) <= cacheSize
  {
    var lineBytes := blockSize + tagSize;
    var lines := cacheSize / lineBytes;
    var sets := lines % U32 / assoc;
    assert sets * assoc <= lines % U32;
    MulLe(sets * assoc, lineBytes, lines, lineBytes);
    assert lines * lineBytes <= cacheSize;
    sets
  }

  /** The geometry the three-argument constructor accepts: it rejects a cache
      too small for one set of blocks and a size that is not a whole number
      of sets; the results must fit the uint32 fields. */
  predicate ValidGeometry(cacheSize: nat, assoc: nat, blockSize: nat)
  {
    assoc >= 1 && blockSize >= 1 && cacheSize < U64 && blockSize < U32
    && blockSize * assoc <= cacheSize && cacheSize % (blockSize * assoc) == 0
    && cacheSize / (blockSize * assoc) < U32
  }

  /** The set count of the three-argument constructor, cache_size divided
      by the bytes of one set: at least one set, and the sets fill the cache
      exactly. */
  function GeometrySets(cacheSize: nat, assoc: nat, blockSize: nat): (n: nat)
    requires ValidGeometry(cacheSize, assoc, blockSize)
    ensures n >= 1 && n * (blockSize * assoc) == cacheSize && n * blockSize < U64
  {
    var n := cacheSize / (blockSize * assoc);
    assert n >= 1 by {
      MulAtLeast(blockSize, assoc);
      DivAtLeastOne(cacheSize, blockSize * assoc);
    }
    assert n * blockSize < U64 by {
      MulLe(n, blockSize, n, blockSize * assoc);
      assert n * (blockSize * assoc) <= cacheSize;
    }
    n
  }

  /** Width of the tag for the three-argument constructor: the address bits
      above the set index and the block offset.  Offset, set index and tag
      together cover the 64-bit address, and at least one bit is left for
      the tag. */
  function TagBitsFor(sets: nat, blockSize: nat): (bits: nat)
    requires sets >= 1 && blockSize >= 1 && sets * blockSize < U64
    ensures bits >= 1 && FloorLog2(blockSize) + FloorLog2(sets) + bits == 64
  {
    TagBitsFit(sets, blockSize);
    64 - FloorLog2(sets) - FloorLog2(blockSize)
  }

  // ---------------------------------------------------------------------------
  // Properties of the geometry
  // ---------------------------------------------------------------------------

  lemma MulLe(a: nat, b: nat, c: nat, d: nat)
    requires a <= c && b <= d
    ensures a * b <= c * d
  {
    assert a * b <= c * b;
    assert c * b <= c * d;
  }

  lemma TagBitsFit(sets: nat, blockSize: nat)
    requires sets >= 1 && blockSize >= 1 && sets * blockSize < U64
    ensures FloorLog2(sets) + FloorLog2(blockSize) < 64
  {
    var s, b := FloorLog2(sets), FloorLog2(blockSize);
    Pow2Add(s, b);
    MulLe(Pow2(s), Pow2(b), sets, blockSize);
    Pow2Is32();
    Pow2Add(32, 32);
    if s + b >= 64 {
      Pow2Monotone(64, s + b);
      assert false;
    }
  }

  lemma DivAtLeastOne(x: nat, d: nat)
    requires 1 <= d <= x
    ensures x / d >= 1
  {
    assert x == d * (x / d) + x % d;
  }

  /** Without tag storage and without truncation, the set count is the
      capacity divided by the bytes of one set. */
  lemma ComputeSetsWithoutTags(cacheSize: nat, blockSize: nat, assoc: nat)
    requires blockSize >= 1 && assoc >= 1 && cacheSize / blockSize < U32
    ensures ComputeSets(cacheSize, blockSize, 0, assoc) == cacheSize / (blockSize * assoc)
  {
    DivDiv(cacheSize, blockSize, assoc);
  }

  /** The geometries of the construction tests: 1024 bytes of 8-byte blocks,
      2 ways, give 64 sets; 320 bytes of 16-byte blocks, direct mapped, give
      20 sets; 16 ways of 128 bytes do not fit 1024 bytes; 176 bytes are not a
      whole number of 2-way sets of 16-byte blocks. */
  lemma ConstructionExamples()
    ensures ValidGeometry(1024, 2, 8) && 1024 / (8 * 2) == 64
    ensures ValidGeometry(320, 1, 16) && 320 / (16 * 1) == 20
    ensures !ValidGeometry(1024, 16, 128)
    ensures !ValidGeometry(176, 2, 16)
  {
  }

  /** The slices of the way-partitioning input test, 32 bytes of 16-byte
      blocks with one and with two ways, are whole numbers of sets (two and
      one), so the geometry the cache tests fix accepts them, although that
      test expects the construction to be rejected. */
  lemma WayPartitioningTestGeometries()
    ensures ValidGeometry(32, 1, 16) && GeometrySets(32, 1, 16) == 2
    ensures ValidGeometry(32, 2, 16) && GeometrySets(32, 2, 16) == 1
  {
  }

  // ---------------------------------------------------------------------------
  // Properties of one access
  // ---------------------------------------------------------------------------

  /** An access keeps the cache well formed and touches only the addressed set. */
  lemma CacheAccessFrame(c: CacheState, loc: LocationInfo, write: bool, matchDirty: bool)
    requires CacheWellFormed(c) && loc.setIndex < |c.sets|
    ensures var c2 := CacheAccessWith(c, loc, write, matchDirty);
            CacheWellFormed(c2) && |c2.sets| == |c.sets|
            && forall j :: 0 <= j < |c.sets| && j != loc.setIndex ==> c2.sets[j] == c.sets[j]
  {
    AccessWellFormed(c.sets[loc.setIndex], loc.tag, write, matchDirty);
  }

  /** Exactly one counter advances: the hit counter when the set already held
      the tag (in a VALID line as written, in a VALID or DIRTY one when
      corrected), the miss counter otherwise. */
  lemma CacheAccessCounts(c: CacheState, loc: LocationInfo, write: bool, matchDirty: bool)
    requires CacheWellFormed(c) && loc.setIndex < |c.sets|
    ensures var c2 := CacheAccessWith(c, loc, write, matchDirty);
            var s := c.sets[loc.setIndex];
            var present := exists k :: 0 <= k < |s.lines| && Holds(s.lines[k], loc.tag, matchDirty);
            (present ==> c2.hits == Inc32(c.hits) && c2.misses == c.misses)
            && (!present ==> c2.misses == Inc32(c.misses) && c2.hits == c.hits)
  {
    AccessHitIffPresent(c.sets[loc.setIndex], loc.tag, write, matchDirty);
  }

  /** As written, a location accessed twice in a row is a hit the second
      time only when the first access was a read: a write leaves the line
      DIRTY, which the lookup no longer finds, so (in a set whose tags are
      unique) the second access counts a miss. */
  lemma CacheRepeatedAccessAsWritten(c: CacheState, loc: LocationInfo, write1: bool, write2: bool)
    requires CacheWellFormed(c) && loc.setIndex < |c.sets| && loc.tag < U32
    ensures var c1 := CacheAccessAsWritten(c, loc, write1);
            CacheWellFormed(c1) &&
            var c2 := CacheAccessAsWritten(c1, loc, write2);
            (!write1 ==> c2.hits == Inc32(c1.hits) && c2.misses == c1.misses)
            && (write1 && UniqueTags(c.sets[loc.setIndex]) ==> c2.misses == Inc32(c1.misses) && c2.hits == c1.hits)
  {
    CacheAccessFrame(c, loc, write1, false);
    var c1 := CacheAccessAsWritten(c, loc, write1);
    RepeatedAccessAsWritten(c.sets[loc.setIndex], loc.tag, write1, write2);
    assert c1.sets[loc.setIndex] == SetAccessAsWritten(c.sets[loc.setIndex], loc.tag, write1).next;
  }

  /** A cache of `sets` fresh sets with both counters zero, as the
      constructors build it. */
  function FreshCache(sets: nat, assoc: nat): CacheState
  {
    CacheState(seq(sets, _ => FreshSet(assoc)), 0, 0)
  }

  /** The discrepancy on the smallest input: a fresh cache written twice at
      one location counts two misses and no hit as written, where the
      corrected access counts one miss and one hit. */
  lemma FreshCacheWrittenTwice(sets: nat, assoc: nat, loc: LocationInfo)
    requires sets >= 1 && assoc >= 1 && loc.setIndex < sets && loc.tag < U32
    ensures var c := CacheState(seq(sets, _ => FreshSet(assoc)), 0, 0);
            CacheWellFormed(c)
            && CacheWellFormed(CacheAccessAsWritten(c, loc, true))
            && var w := CacheAccessAsWritten(CacheAccessAsWritten(c, loc, true), loc, true);
               w.misses == 2 && w.hits == 0
    ensures var c := CacheState(seq(sets, _ => FreshSet(assoc)), 0, 0);
            CacheWellFormed(c)
            && CacheWellFormed(CacheAccess(c, loc, true))
            && var f := CacheAccess(CacheAccess(c, loc, true), loc, true);
               f.misses == 1 && f.hits == 1
  {
    var c := CacheState(seq(sets, _ => FreshSet(assoc)), 0, 0);
    FreshSetWellFormed(assoc);
    var s := c.sets[loc.setIndex];
    assert !Holds(s.lines[0], loc.tag, false) && !Holds(s.lines[0], loc.tag, true);
    CacheAccessCounts(c, loc, true, false);
    CacheAccessCounts(c, loc, true, true);
    CacheRepeatedAccessAsWritten(c, loc, true, true);
    CacheRepeatedAccessHits(c, loc, true, true);
  }

  /** Corrected: accessing a location twice in a row, the second access hits
      and leaves the miss counter alone. */
  lemma CacheRepeatedAccessHits(c: CacheState, loc: LocationInfo, write1: bool, write2: bool)
    requires CacheWellFormed(c) && loc.setIndex < |c.sets| && loc.tag < U32
    ensures var c1 := CacheAccess(c, loc, write1);
            CacheWellFormed(c1) &&
            var c2 := CacheAccess(c1, loc, write2);
            c2.hits == Inc32(c1.hits) && c2.misses == c1.misses
  {
    CacheAccessFrame(c, loc, write1, true);
    RepeatedAccessHits(c.sets[loc.setIndex], loc.tag, write1, write2);
  }

  // ---------------------------------------------------------------------------
  // The cache object
  // ---------------------------------------------------------------------------

  /** `n` fresh sets of `assoc` ways, each with its own arrays. */
  method NewSets(n: nat, assoc: nat) returns (cs: seq<CacheSet>, ghost repr: set<object>)
    ensures |cs| == n && fresh(repr)
    ensures forall i :: 0 <= i < n ==> cs[i].lru in repr && cs[i].lines in repr
    ensures forall i :: 0 <= i < n ==> cs[i].assoc == assoc && cs[i].Valid() && cs[i].State() == FreshSet(assoc)
    ensures forall i, j :: 0 <= i < n && 0 <= j < n && i != j ==> cs[i].lru != cs[j].lru && cs[i].lines != cs[j].lines
  {
    cs, repr := [], {};
    while |cs| < n
      invariant |cs| <= n && fresh(repr)
      invariant forall i :: 0 <= i < |cs| ==> cs[i].lru in repr && cs[i].lines in repr
      invariant forall i :: 0 <= i < |cs| ==> cs[i].assoc == assoc && cs[i].Valid() && cs[i].State() == FreshSet(assoc)
      invariant forall i, j :: 0 <= i < |cs| && 0 <= j < |cs| && i != j ==> cs[i].lru != cs[j].lru && cs[i].lines != cs[j].lines
    {
      var s := new CacheSet(assoc);
      cs, repr := cs + [s], repr + {s.lru, s.lines};
    }
  }

  /** The lookup loop of `Cache::access`: the first way whose line is VALID
      and carries the tag, or -1. */
  method LookupWay(target: CacheSet, tag: nat) returns (way: int)
    requires target.lines.Length == target.assoc
    ensures way == -1 <==> FindWay(target.lines[..], tag, false).None?
    ensures way != -1 ==> FindWay(target.lines[..], tag, false) == Some(way)
  {
    way := -1;
    var i := 0;
    while i < target.assoc
      invariant 0 <= i <= target.assoc && way == -1
      invariant forall k :: 0 <= k < i ==> !Holds(target.lines[k], tag, false)
    {
      if target.lines[i].tag == tag && target.lines[i].state == VALID {
        way := i;
        break;
      }
      i := i + 1;
    }
  }

  /** The set-level steps of `Cache::access`: look the tag up, call `evict`
      when it is absent, install the tag in the now INVALID line (a miss) or
      keep the line (a hit), mark it DIRTY on a write and make the way the
      most recently used one.  Returns whether the access was a hit. */
  method AccessSet(target: CacheSet, tag: nat, write: bool) returns (hit: bool)
    requires target.Valid() && target.assoc >= 1
    modifies target.lru, target.lines
    ensures target.Valid() && WellFormed(old(target.State()))
    ensures Outcome(target.State(), hit) == SetAccessAsWritten(old(target.State()), tag, write)
  {
    ghost var s := target.State();
    var way := LookupWay(target, tag);
    if way == -1 {
      way := target.Evict();
    }
    ghost var w: nat := way;
    assert w == AccessWay(s, tag, false);
    var line := target.lines[way];
    if line.state == INVALID {
      target.lines[way] := CacheLine(VALID, tag % U32);
      hit := false;
    } else {
      hit := true;
    }
    assert hit == FindWay(s.lines, tag, false).Some?;
    if write {
      target.lines[way] := target.lines[way].(state := DIRTY);
    }
    assert target.lines[..] == s.lines[w := Filled(s.lines[w], hit, tag, write)];
    target.UpdateLru(way, true);
  }

  class Cache {
    const cacheSize: nat
    const blockSize: nat
    const assoc: nat
    const sets: nat
    /** Tag width handed to `mask` when splitting an address. */
    const tagBits: nat
    var hits: nat
    var misses: nat
    const cacheSets: seq<CacheSet>
    ghost const Repr: set<object>
    ghost var model: seq<SetState>

    ghost predicate Valid()
      reads this`model, Repr
    {
      this !in Repr && sets >= 1 && assoc >= 1 && blockSize >= 1 && |cacheSets| == sets && |model| == sets
      && (forall i :: 0 <= i < sets ==> cacheSets[i].lru in Repr && cacheSets[i].lines in Repr)
      && (forall i :: 0 <= i < sets ==>
            cacheSets[i].assoc == assoc && cacheSets[i].Valid() && cacheSets[i].State() == model[i])
      && (forall i, j :: 0 <= i < sets && 0 <= j < sets && i != j ==>
            cacheSets[i].lru != cacheSets[j].lru && cacheSets[i].lines != cacheSets[j].lines)
    }

    /** The abstract contents: the sets and the counters. */
    ghost function Abs(): CacheState
      reads this
    {
      CacheState(model, hits, misses)
    }

    lemma AbsWellFormed()
      requires Valid()
      ensures CacheWellFormed(Abs()) && |Abs().sets| == sets
    {
      forall i | 0 <= i < sets
        ensures WellFormed(model[i])
      {
        PermutationLength(cacheSets[i].lru[..], assoc);
      }
    }

    /** The constructor of cache.cpp: set count from `compute_sets` with tag
        storage per line, every set fresh, both counters zero.  The tag width
        is log2(tag_size), as `compute_location_info` takes it.  A cache too
        small for one set is built too, with no sets at all; only a cache with
        at least one set can be accessed. */
    constructor WithTagSize(cacheSize: nat, assoc: nat, blockSize: nat, tagSize: nat)
      requires assoc >= 1 && blockSize >= 1 && tagSize >= 1
      ensures (sets >= 1 ==> Valid()) && fresh(Repr)
      ensures this.cacheSize == cacheSize && this.blockSize == blockSize && this.assoc == assoc
      ensures sets == ComputeSets(cacheSize, blockSize, tagSize, assoc) && tagBits == FloorLog2(tagSize)
      ensures Abs() == CacheState(seq(sets, _ => FreshSet(assoc)), 0, 0)
    {
      var n := ComputeSets(cacheSize, blockSize, tagSize, assoc);
      var cs, repr := NewSets(n, assoc);
      this.cacheSize, this.blockSize, this.assoc := cacheSize, blockSize, assoc;
      sets, tagBits := n, FloorLog2(tagSize);
      hits, misses := 0, 0;
      cacheSets, Repr := cs, repr;
      model := seq(n, _ => FreshSet(assoc));
      new;
      FreshSetWellFormed(assoc);
    }

    /** The three-argument constructor: sets = cache_size / (block_size *
        assoc), the tag takes every address bit above set index and offset. */
    constructor (cacheSize: nat, assoc: nat, blockSize: nat)
      requires ValidGeometry(cacheSize, assoc, blockSize)
      ensures Valid() && fresh(Repr)
      ensures this.cacheSize == cacheSize && this.blockSize == blockSize && this.assoc == assoc
      ensures sets == GeometrySets(cacheSize, assoc, blockSize)
      ensures sets * blockSize < U64 && tagBits == TagBitsFor(sets, blockSize)
      ensures Abs() == CacheState(seq(sets, _ => FreshSet(assoc)), 0, 0)
    {
      var n := GeometrySets(cacheSize, assoc, blockSize);
      var cs, repr := NewSets(n, assoc);
      this.cacheSize, this.blockSize, this.assoc := cacheSize, blockSize, assoc;
      sets, tagBits := n, TagBitsFor(n, blockSize);
      hits, misses := 0, 0;
      cacheSets, Repr := cs, repr;
      model := seq(n, _ => FreshSet(assoc));
      new;
      FreshSetWellFormed(assoc);
    }

    /** `Cache::compute_location_info(addr)`: the address split with this
        cache's block size, set count and tag width. */
    function LocationInfoOf(addr: nat): (loc: LocationInfo)
      requires blockSize >= 1 && sets >= 1
      ensures loc.setIndex < sets && loc.tag < U32
    {
      LocationOf(addr, blockSize, sets, tagBits)
    }

    /** The set-level half of `Cache::access`: set `idx` changes as
        `SetAccessAsWritten` says, every other set and both counters stay as
        they were. */
    method AccessInSet(idx: nat, tag: nat, write: bool) returns (hit: bool)
      requires Valid() && idx < sets
      modifies this, cacheSets[idx].lru, cacheSets[idx].lines
      ensures Valid() && hits == old(hits) && misses == old(misses)
      ensures WellFormed(old(model[idx]))
      ensures Outcome(model[idx], hit) == SetAccessAsWritten(old(model[idx]), tag, write)
      ensures model == old(model)[idx := model[idx]]
    {
      var target := cacheSets[idx];
      hit := AccessSet(target, tag, write);
      model := model[idx := target.State()];
      forall j | 0 <= j < sets && j != idx
        ensures cacheSets[j].State() == model[j] && cacheSets[j].Valid()
      {
        assert cacheSets[j].lru != target.lru && cacheSets[j].lines != target.lines;
      }
    }

    /** `Cache::access(loc, write)`: the set-level steps (see `AccessSet`),
        then the hit or the miss is counted. */
    method Access(loc: LocationInfo, write: bool)
      requires Valid() && loc.setIndex < sets
      modifies this, cacheSets[loc.setIndex].lru, cacheSets[loc.setIndex].lines
      ensures Valid() && CacheWellFormed(old(Abs()))
      ensures Abs() == CacheAccessAsWritten(old(Abs()), loc, write)
    {
      AbsWellFormed();
      ghost var o := SetAccessAsWritten(model[loc.setIndex], loc.tag, write);
      var hit := AccessInSet(loc.setIndex, loc.tag, write);
      assert hit == o.hit && model == old(model)[loc.setIndex := o.next];
      assert CacheAccessAsWritten(old(Abs()), loc, write)
          == CacheState(model, if hit then Inc32(old(hits)) else old(hits), if hit then old(misses) else Inc32(old(misses)));
      Count(hit);
    }

    /** The counting half of `Cache::access`: one more hit or one more miss,
        each counter wrapping at 2^32 like the source's `uint32_t`. */
    method Count(hit: bool)
      modifies this`hits, this`misses
      ensures hits == (if hit then Inc32(old(hits)) else old(hits))
      ensures misses == (if hit then old(misses) else Inc32(old(misses)))
    {
      if hit {
        hits := Inc32(hits);
      } else {
        misses := Inc32(misses);
      }
    }

    /** `Cache::read(addr)`: an access that does not write. */
    method Read(addr: nat)
      requires Valid()
      modifies this, Repr
      ensures Valid()
      ensures CacheWellFormed(old(Abs())) && LocationInfoOf(addr).setIndex < |old(Abs()).sets|
      ensures Abs() == CacheAccessAsWritten(old(Abs()), LocationInfoOf(addr), false)
    {
      Access(LocationInfoOf(addr), false);
    }

    /** `Cache::write(addr)`: as written it passes write = false as well, so a
        write is counted exactly like a read. */
    method Write(addr: nat)
      requires Valid()
      modifies this, Repr
      ensures Valid()
      ensures CacheWellFormed(old(Abs())) && LocationInfoOf(addr).setIndex < |old(Abs()).sets|
      ensures Abs() == CacheAccessAsWritten(old(Abs()), LocationInfoOf(addr), false)
    {
      Access(LocationInfoOf(addr), false);
    }
  }
}
