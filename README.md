# Cache models of the asgard trace analyzer and WormCache recorder

This project models two cache simulators from the asgard repository and
proves properties of the models in Dafny.

**The C++ trace analyzer.** `Cache` is a set-associative cache. Each set
keeps:

- its lines (a state and a 32-bit tag);
- an LRU vector, a permutation of its ways with the least recently used
  way first.

An access does the following:

1. It splits the address into a set index and a tag.
2. It looks the tag up among the set's VALID lines only, so a DIRTY line
   holding the tag is not found (see "## Findings").
3. On a miss, it evicts the way at the front of the LRU vector.
4. It fills the line, counting a hit or a miss in 32-bit counters.
5. It marks the line DIRTY on a write.
6. It moves the way to the back of the LRU vector.

`PrivateCache` does the same over two grids of rows. Three last-level-cache
partitionings are built on `Cache`:

- **way partitioning:** one cache per client;
- **inter-node partitioning:** each client owns a node of cache slices, and
  address bits choose the slice;
- **intra-node partitioning:** one shared cache, where each client's
  addresses are forced into a subset of the sets.

**The Rust WormCache timestamp model.**

- **Timestamp cache.** A `TimestampCacheSet` keeps a block id, a timestamp
  and a line status per way. Ways fill from a cold pointer; once the set is
  full, the way with the oldest timestamp is replaced. A `TimestampCache`
  is S such sets, chosen by `block_id & (S - 1)`, and counts the sets it
  has filled.
- **Per-core hierarchy.** Each core records its accesses in a private
  timestamp cache. The private cache's misses and victims go to a local
  shared one.
- **Checkpoint rendering.** The memory timestamp record (MTR) collection
  absorbs every core's private cache, keyed by block. From it the model
  renders:
  - the private L2, L1i and L1d of each core;
  - the coherence directory;
  - the shared last-level cache.

  Each of these is a max-heap by timestamp, cut to the associativity and
  exported newest first.
- **Codecs and helpers.** Also modelled are:
  - the 18-byte trace record codec;
  - the partial-basic-block metadata word;
  - the fetch-block segmentation.

**How the model is built.**

- Code that updates state in place is modelled as classes:
  - cache sets over arrays;
  - caches holding sequences of set objects;
  - the MTR collection.
- Each method is proved against a value-level function of the old state:
  - `CacheAccessAsWritten`, `SetAccessAsWritten`, `IntraAccessAsWritten`;
  - `AccessOn`, `RecordOn`, `AbsorbAll`, `PruneSetOn` and `MergeLlcAll`.
- The classes do what the C++ code does, including its defects. Where a
  defect is recorded under "## Findings", a corrected value-level model
  stands beside the as-written one: `SetAccess`, `CacheAccess`,
  `FixedAddress`, `ClientLocation`, `Tally`, `IntraStep` and
  `IntraAccess`. Rows of the table that describe it start with
  "corrected".
- The lemmas about those functions state what the source promises.
- Some value-level functions carry no contract of their own; the lemmas
  listed after them in the table state their properties:
  - `SetAccessWith`, `CacheAccessWith`: shared by the as-written and
    corrected accesses, stated by `AccessHitIffPresent`,
    `CacheAccessFrame` and `CacheAccessCounts`;
  - `AddNewOn`, `PeekOn`, `AccessOn`, `NextOn`: `AddNewCold`,
    `AddNewFull`, `AddNewFaults`, `PeekSpec`, `AccessSpec`,
    `AccessFaults`, `NextYieldsLiveEntries`;
  - `PeekStatus`, `IsDirty`, `IsData`, `IsInstruction`:
    `PeekStatusRoles`, `StatusRoles`;
  - `RecordOn`, `PeekCacheOn`, `AccessMemoryOn`: `RecordSpec`,
    `PeekCacheSpec`, `AccessMemorySpec`;
  - `NewRecord`, `MergeEntry`, `PruneSetOn`, `Cutoff`: `NewRecordSpec`,
    `MergeEntrySpec`, `PruneSetSpec`, `CutoffOfSorted`, `PruneCounts`;
  - `CompareCacheBlocks`, `CompareDirectoryBlocks`: `CompareIsByTs`,
    `CompareDirectoryIsByTs`;
  - `FetchBlockMap`: `FindFetchBlocks`, `EntryCount`, `RunsPartition`.
- Panics, failed `assert!`s and `unreachable!()`s become `Err` values of a
  `Result`.
- C++ `uint32_t` counters wrap modulo 2^32; bit masks are built in 32 bits.

## Model

| member | source | states |
|---|---|---|
| Address.Mask | cpp_trace_analyzer/cache.hpp:51-57 | the mask loop yields 2^min(bits,32) - 1 (all ones in the low bits, the 32-bit value losing the ones above bit 31), always below 2^32 |
| Address.LocationOf | cpp_trace_analyzer/cache.hpp:60-68 | `compute_location_info`: the set index of any address names an existing set (below `sets`); the tag fits in tag_bits bits and in a uint32 |
| Address.SameBlockSameLocation | cpp_trace_analyzer/cache.hpp:60-68 | two addresses in the same block (equal after the block-offset shift) get the same set index and tag |
| Address.LocationDecompose | cpp_trace_analyzer/cache.hpp:60-68 | for an address that fits the offset, index and tag fields, the block number is tag * 2^set_bits + set index, and the address is recovered from tag, set index and block offset |
| Address.DistinctBlocksDistinctLocations | cpp_trace_analyzer/cache.hpp:60-68 | two addresses in different blocks that fit the three fields never share both set index and tag |
| Address.IsPowerOf2 | cpp_trace_analyzer/cache.hpp:70-72 | for a 64-bit x, `x & (x - 1) == 0` holds exactly when x is 0 (through the unsigned wrap of x - 1) or a power of two |
| Lru.Identity | cpp_trace_analyzer/cache.cpp:50-54 | the initial LRU vector holds way i at position i |
| Lru.IdentityIsPermutation | cpp_trace_analyzer/cache.cpp:50-54 | the initial LRU vector is a permutation of the ways |
| Lru.MoveToEnd | cpp_trace_analyzer/cache.cpp:82-87 | the swap loop that walks down from the back moves the accessed way to the last (most recent) slot; entries before it stay, entries after it shift one place forward |
| Lru.MoveToFront | cpp_trace_analyzer/cache.cpp:88-94 | the swap loop that walks up from the front moves the way to slot 0; entries before it shift one place back, entries after it stay |
| Lru.IndexOf | cpp_trace_analyzer/cache.cpp:82-94 | the position where the swap loop stops is the first slot holding the way |
| Lru.MoveToEndPermutation | cpp_trace_analyzer/cache.cpp:82-87 | moving a way to the back keeps the LRU vector a permutation of the ways |
| Lru.MoveToFrontPermutation | cpp_trace_analyzer/cache.cpp:88-94 | moving a way to the front keeps the LRU vector a permutation of the ways |
| Lru.MoveToFrontOfFirst | cpp_trace_analyzer/cache.cpp:60-68 | `evict` takes the way at slot 0, so its `update_lru(way, false)` leaves the LRU vector unchanged |
| CacheSets.FindWay | cpp_trace_analyzer/cache.cpp:129-135 | the lookup finds the first line that matches the tag and state, and finds none exactly when no line matches |
| CacheSets.AccessWay | cpp_trace_analyzer/cache.cpp:128-139 | the way an access uses is a way of the set and appears in the LRU vector |
| CacheSets.SetAccessAsWritten | cpp_trace_analyzer/cache.cpp:124-159 | the access as written: it hits exactly when a VALID line carries the tag (a DIRTY one is not found), and the set stays well formed with its number of lines |
| CacheSets.SetAccess | cpp_trace_analyzer/cache.cpp:124-159 | corrected: it hits exactly when a VALID or DIRTY line carries the tag, and the set stays well formed with its number of lines |
| CacheSets.FreshSetWellFormed | cpp_trace_analyzer/cache.cpp:50-54 | a new set is well formed: assoc INVALID lines, a permutation LRU, no duplicate valid tags, nothing dirty |
| CacheSets.AccessWellFormed | cpp_trace_analyzer/cache.cpp:124-159 | an access keeps the set well formed (the LRU vector stays a permutation) and keeps its number of lines |
| CacheSets.AccessHitIffPresent | cpp_trace_analyzer/cache.cpp:128-148 | an access hits exactly when some line holds the tag; on a miss the victim is the LRU front; every other line is unchanged |
| CacheSets.AccessInstallsMostRecent | cpp_trace_analyzer/cache.cpp:137-154 | under either lookup, after an access the way it used is the most recently used one: it holds the tag in a non-INVALID state, DIRTY after a write, and after a read the same lookup finds it (with DIRTY lines matched, after a write too) |
| CacheSets.AccessKeepsUniqueTags | cpp_trace_analyzer/cache.cpp:137-148 | with DIRTY lines matched as present, an access never creates a second valid copy of a tag |
| CacheSets.RepeatedAccessHits | cpp_trace_analyzer/cache.cpp:124-159 | corrected lookup: a second access to the same tag always hits, whether either access writes |
| CacheSets.RepeatedReadIsIdempotent | cpp_trace_analyzer/cache.cpp:124-159 | under either lookup, with unique tags beforehand, reading the same tag twice leaves the set exactly as the first read left it |
| CacheSets.ReadLeavesOneMatch | cpp_trace_analyzer/cache.cpp:124-159 | under either lookup, with unique tags beforehand, after a read the lookup finds the way just used and no other |
| CacheSets.ReadsAgreeWithAsWritten | cpp_trace_analyzer/cache.cpp:129-135 | on a set with no DIRTY line, a read behaves the same under the VALID-only lookup and the corrected one, and still leaves no DIRTY line |
| CacheSets.SecondWriteMissesAsWritten | cpp_trace_analyzer/cache.cpp:150-152 | as written, a write to a tag followed by a second write to it misses (the DIRTY line is not matched); with the corrected lookup the second write hits |
| CacheSets.RepeatedAccessAsWritten | cpp_trace_analyzer/cache.cpp:124-159 | as written, a second access to a tag hits when the first access was a read, and misses when the first was a write (in a set without duplicate tags) |
| CacheSets.MostRecentSurvivesMiss | cpp_trace_analyzer/test_catch.cpp:140-166 | in a set of two or more ways, one miss to another block does not evict the block just accessed: reading it again hits as written when that access was a read (as in the test), and after a read or a write with DIRTY lines matched |
| CacheSets.CacheSet.constructor | cpp_trace_analyzer/cache.cpp:50-54 | a new set object holds assoc INVALID lines and the identity LRU vector |
| CacheSets.CacheSet.Evict | cpp_trace_analyzer/cache.cpp:60-68 | evict returns the LRU front way, marks only that line INVALID and leaves the LRU vector unchanged |
| CacheSets.CacheSet.UpdateLru | cpp_trace_analyzer/cache.cpp:70-98 | update_lru moves the way to the back when is_valid and to the front otherwise, keeping a permutation |
| Caches.GeometrySets | cpp_trace_analyzer/cache.hpp:47 | the set count the three-argument constructor computes: at least one set, and the sets times the bytes per set fill the cache exactly |
| Caches.ComputeSets | cpp_trace_analyzer/cache.cpp:45-48 | compute_sets never gives more lines than fit: sets * assoc * (block + tag bytes) <= cache size |
| Caches.TagBitsFor | cpp_trace_analyzer/cache.hpp:47 | the tag width the three-argument constructor is modelled with: block-offset bits, set-index bits and tag bits cover the 64-bit address, with at least one tag bit |
| Caches.ComputeSetsWithoutTags | cpp_trace_analyzer/cache.cpp:45-48 | with no tag bytes, compute_sets is cache_size / (block_size * assoc) |
| Caches.WayPartitioningTestGeometries | cpp_trace_analyzer/test_catch.cpp:168-173 | the slices of the way-partitioning input test, (32, 1, 16) and (32, 2, 16), are accepted geometries with 2 and 1 sets |
| Caches.ConstructionExamples | cpp_trace_analyzer/test_catch.cpp:17-34 | (1024, 2, 8) gives 64 sets and (320, 1, 16) gives 20; (1024, 16, 128) and (176, 2, 16) are rejected geometries |
| Caches.CacheAccessAsWritten | cpp_trace_analyzer/cache.cpp:124-159 | `Cache::access` as written: a hit is counted (mod 2^32) exactly when a VALID line of the addressed set holds the tag, otherwise a miss |
| Caches.CacheAccess | cpp_trace_analyzer/cache.cpp:124-159 | corrected: a hit is counted exactly when a VALID or DIRTY line holds the tag, otherwise a miss |
| Caches.CacheAccessFrame | cpp_trace_analyzer/cache.cpp:124-159 | under either lookup (VALID-only as written, or also DIRTY when corrected), an access keeps the cache well formed and changes no set other than the addressed one |
| Caches.CacheAccessCounts | cpp_trace_analyzer/cache.cpp:141-148 | under either lookup, an access increments (mod 2^32) hits exactly when a line the lookup matches holds the tag, and misses exactly when none does, never both |
| Caches.CacheRepeatedAccessAsWritten | cpp_trace_analyzer/cache.cpp:124-159 | as written, the second of two accesses to one location counts a hit after a read, and a miss after a write (set without duplicate tags) |
| Caches.FreshCacheWrittenTwice | cpp_trace_analyzer/cache.cpp:124-159 | a fresh cache written twice at one location counts 2 misses and 0 hits as written, and 1 miss and 1 hit with the corrected lookup |
| Caches.CacheRepeatedAccessHits | cpp_trace_analyzer/cache.cpp:124-159 | corrected lookup: accessing the same location twice counts the second access as a hit, whether either access writes |
| Caches.NewSets | cpp_trace_analyzer/cache.cpp:10 | the cache's sets are n fresh, distinct set objects, each a new set of assoc ways |
| Caches.LookupWay | cpp_trace_analyzer/cache.cpp:128-135 | the search loop, which tests `state == VALID`, returns -1 exactly when no VALID line carries the tag, otherwise the first such way |
| Caches.AccessSet | cpp_trace_analyzer/cache.cpp:127-154 | the in-place access of one set object produces exactly the hit flag and set state of `SetAccessAsWritten` (the VALID-only lookup) |
| Caches.Cache.WithTagSize | cpp_trace_analyzer/cache.cpp:6-11 | the four-argument constructor: sets = compute_sets(assoc), every set fresh, both counters zero; a cache too small for one set is built with no sets, and a cache with at least one set is valid for access |
| Caches.Cache.constructor | cpp_trace_analyzer/cache.hpp:47 | the three-argument constructor: sets from the geometry, tag bits from the remaining address bits, every set fresh, counters zero |
| Caches.Cache.LocationInfoOf | cpp_trace_analyzer/cache.cpp:113-122 | the location of any address has a set index below `sets` and a tag that fits a uint32 |
| Caches.Cache.AccessInSet | cpp_trace_analyzer/cache.cpp:127-154 | the addressed set changes as `SetAccessAsWritten` says; the counters and the other sets do not |
| Caches.Cache.Access | cpp_trace_analyzer/cache.cpp:124-159 | the cache's new contents and counters are `CacheAccessAsWritten` of the old ones: a hit is counted exactly when a VALID line holds the tag |
| Caches.Cache.Read | cpp_trace_analyzer/cache.cpp:104-106 | a read is an access without write to the address's location |
| Caches.Cache.Write | cpp_trace_analyzer/cache.cpp:108-110 | as written, a write also passes write = false, so it changes the cache exactly as a read does |
| PrivateCaches.PrivateCache.constructor | cpp_trace_analyzer/private_cache.h:9-21 | sets = compute_sets without tag bytes, every row INVALID with the identity LRU row; the counters keep their initial values |
| PrivateCaches.PrivateCache.LocationInfoOf | cpp_trace_analyzer/private_cache.cpp:66-76 | the set index of any address is below `sets` and the tag fits a uint32 |
| PrivateCaches.PrivateCache.UpdateLru | cpp_trace_analyzer/private_cache.cpp:78-99 | the row's LRU order moves the way to the back (is_valid) or front, stays a permutation, other rows untouched |
| PrivateCaches.PrivateCache.SwapToBack | cpp_trace_analyzer/private_cache.cpp:83-88 | the backward swap loop equals `MoveToEnd` on the row and touches no other row |
| PrivateCaches.PrivateCache.SwapToFront | cpp_trace_analyzer/private_cache.cpp:89-95 | the forward swap loop equals `MoveToFront` on the row and touches no other row |
| PrivateCaches.PrivateCache.Evict | cpp_trace_analyzer/private_cache.cpp:15-23 | for a valid set index it returns the LRU front way and invalidates only that line; an out-of-range index (the `at()` throw) changes nothing |
| PrivateCaches.PrivateCache.LookupWay | cpp_trace_analyzer/private_cache.cpp:105-112 | the loop, which tests `state == VALID`, returns -1 exactly when no VALID line of the row carries the tag, otherwise the first such way |
| PrivateCaches.PrivateCache.FillLine | cpp_trace_analyzer/private_cache.cpp:118-130 | hit exactly when the chosen line was not INVALID; the line gets the tag on a miss and DIRTY on a write; other rows unchanged |
| PrivateCaches.PrivateCache.Install | cpp_trace_analyzer/private_cache.cpp:118-132 | fills the way and moves it to the back of the row's LRU order, as one set update |
| PrivateCaches.PrivateCache.AccessRow | cpp_trace_analyzer/private_cache.cpp:104-133 | the row changes exactly as `SetAccessAsWritten` says and no other row changes |
| PrivateCaches.PrivateCache.Access | cpp_trace_analyzer/private_cache.cpp:101-137 | the private cache's access means the same `CacheAccessAsWritten` as `Cache::access` |
| PrivateCaches.PrivateCache.Read | cpp_trace_analyzer/private_cache.cpp:6-8 | a read is an access without write |
| PrivateCaches.PrivateCache.Write | cpp_trace_analyzer/private_cache.cpp:10-12 | as written, a write is an access without write too |
| Partitioning.NewCaches | cpp_trace_analyzer/llc_partitioning.cpp:8-10 | n fresh caches, pairwise separate, each with the geometry's sets and zero counters |
| Partitioning.WayPartitioning.constructor | cpp_trace_analyzer/llc_partitioning.cpp:7-11 | one fresh cache per client with that client's number of ways |
| Partitioning.WayPartitioning.Read | cpp_trace_analyzer/llc_partitioning.cpp:13-15 | only the client's cache changes, by a read access |
| Partitioning.WayPartitioning.Write | cpp_trace_analyzer/llc_partitioning.cpp:17-19 | only the client's cache changes, by `Cache::write` (which reads) |
| Partitioning.WayPartitioning.Misses | cpp_trace_analyzer/llc_partitioning.cpp:21-23 | the client's cache's miss counter |
| Partitioning.WayPartitioning.Hits | cpp_trace_analyzer/llc_partitioning.cpp:25-27 | the client's cache's hit counter |
| Partitioning.CacheAccessCountsOnce | cpp_trace_analyzer/cache.cpp:141-148 | one access with the as-written lookup adds exactly one (mod 2^32) to the cache's hits + misses |
| Partitioning.WayAccessCountsOnce | cpp_trace_analyzer/llc_partitioning.cpp:13-19 | an access, with the as-written lookup, adds exactly one (mod 2^32) to the client's hits + misses and leaves other clients' caches alone |
| Partitioning.BitsToRepresent | cpp_trace_analyzer/llc_partitioning.cpp:80-83 | the number of bits of n: n < 2^r, and 2^(r-1) <= n when n > 0 |
| Partitioning.SliceIndex | cpp_trace_analyzer/llc_partitioning.cpp:91-95 | the chosen slice is always one of the node's slices |
| Partitioning.SliceChosenBySelectionBits | cpp_trace_analyzer/llc_partitioning.cpp:91-95 | the slice is the block number's low bits_to_represent(clients) bits mod the slice count, so addresses that agree on those bits share a slice |
| Partitioning.NodeAccessCountsOnce | cpp_trace_analyzer/llc_partitioning.cpp:47-71 | an as-written access to one slice adds exactly one (mod 2^32) to the node's summed misses + hits |
| Partitioning.NodeSlices | cpp_trace_analyzer/llc_partitioning.cpp:29-36 | the slices per node the constructor builds: `clients` entries, n_slices[i] for each client that has a count and 0 for the rest |
| Partitioning.MissingNodeAcceptedAsWritten | cpp_trace_analyzer/llc_partitioning.cpp:29-36 | as written, four clients with three slice counts give the fourth client a node with no slice |
| Partitioning.CheckedNodeSlices | cpp_trace_analyzer/test_catch.cpp:407-413 | corrected: construction succeeds exactly when there is one slice count per client, and then every client's node has its own count |
| Partitioning.CheckedNodeSlicesExamples | cpp_trace_analyzer/test_catch.cpp:407-413 | corrected: two or four clients for three slice counts are rejected, three are accepted |
| Partitioning.InterNodePartitioning.constructor | cpp_trace_analyzer/llc_partitioning.cpp:29-36 | `clients` nodes, node i with n_slices[i] fresh slices (none beyond the list) |
| Partitioning.InterNodePartitioning.Access | cpp_trace_analyzer/llc_partitioning.cpp:85-102 | only the slice `SliceIndex` selects changes, by a `Cache::read`/`write` access (both read) |
| Partitioning.InterNodePartitioning.AccessSlice | cpp_trace_analyzer/llc_partitioning.cpp:97-101 | the selected slice is accessed and nothing else in the partitioning changes |
| Partitioning.InterNodePartitioning.SelectSlice | cpp_trace_analyzer/llc_partitioning.cpp:91-95 | computes `SliceIndex` from the block-offset bits and bits_to_represent(clients) |
| Partitioning.InterNodePartitioning.Read | cpp_trace_analyzer/llc_partitioning.cpp:39-41 | a read access on the selected slice |
| Partitioning.InterNodePartitioning.Write | cpp_trace_analyzer/llc_partitioning.cpp:43-45 | a write access on the selected slice, which reads through `Cache::write` |
| Partitioning.InterNodePartitioning.Misses | cpp_trace_analyzer/llc_partitioning.cpp:47-58 | the sum of the node's slice miss counters, wrapped to 32 bits |
| Partitioning.InterNodePartitioning.Hits | cpp_trace_analyzer/llc_partitioning.cpp:60-71 | the sum of the node's slice hit counters, wrapped to 32 bits |
| IntraPartitioning.Splice | cpp_trace_analyzer/llc_partitioning.cpp:127-129 | overwrites exactly positions [at, at+n) of the bitset with the source bits and keeps every other position |
| IntraPartitioning.FixedAddressAsWritten | cpp_trace_analyzer/llc_partitioning.cpp:125-129 | as written: a 64-bit address equal to addr below bit set_bits and from bit set_bits + n_bits on, whose bits [set_bits, set_bits + n_bits) are the bitset's bits at the same positions |
| IntraPartitioning.FixedAddress | cpp_trace_analyzer/llc_partitioning.cpp:125-129 | corrected: a 64-bit address equal to addr outside the top n_bits of the set-index field, which hold the client's pattern |
| IntraPartitioning.TagExtendsSetIndex | cpp_trace_analyzer/llc_partitioning.cpp:131-136 | the tag and the set index mask the same shifted address, so the tag's low set_bits bits (within the 32-bit mask) are the set index |
| IntraPartitioning.IntraLocationInRange | cpp_trace_analyzer/llc_partitioning.cpp:133-136 | with set_bits = floor(log2(sets)), the location `access` builds has a set index below `sets` and a tag that fits a uint32 |
| IntraPartitioning.FixedBitsIgnoredAsWritten | cpp_trace_analyzer/llc_partitioning.cpp:126-136 | as written, when set_bits + n_bits <= block_bits the rewritten address has the original address's location |
| IntraPartitioning.ClientsShareSetsAsWritten | cpp_trace_analyzer/llc_partitioning.cpp:126-136 | as written, with 7 block bits and 2 set bits, two clients with any table entries map an address to the same set and tag |
| IntraPartitioning.FixedAddressInPartition | cpp_trace_analyzer/llc_partitioning.cpp:125-129 | corrected: every address of a client lands in a set whose top n index bits are the client's pattern |
| IntraPartitioning.ClientsNeverShareASet | cpp_trace_analyzer/llc_partitioning.cpp:125-138 | corrected: clients whose patterns differ (on the shorter prefix) never reach the same set |
| IntraPartitioning.Tally | cpp_trace_analyzer/llc_partitioning.cpp:141-146 | corrected (the source never tallies): a hit increments the client's hit counter and a miss its miss counter (mod 2^32), nothing else |
| IntraPartitioning.StatsFrozenAsWritten | cpp_trace_analyzer/llc_partitioning.cpp:138-146 | as written, a client's counters stay (0, 0) after its access and no longer account for the cache's counters |
| IntraPartitioning.IntraAccessAsWritten | cpp_trace_analyzer/llc_partitioning.cpp:118-139 | `access` as written: `stats` is unchanged, the shared cache stays well formed with its set count and counts the access once (mod 2^32) |
| IntraPartitioning.ClientLocation | cpp_trace_analyzer/llc_partitioning.cpp:131-136 | corrected (built on `FixedAddress`): a client's location names an existing set and a uint32 tag |
| IntraPartitioning.IntraAccess | cpp_trace_analyzer/llc_partitioning.cpp:118-146 | corrected: the cache stays well formed with its set count and no other client's counters change |
| IntraPartitioning.IntraStep | cpp_trace_analyzer/llc_partitioning.cpp:138-146 | corrected: one shared-cache access at a location keeps the cache well formed and changes only the accessing client's counters |
| IntraPartitioning.IntraAccessAccounts | cpp_trace_analyzer/llc_partitioning.cpp:118-146 | corrected: the per-client counters keep summing to the cache's counters, only the accessing client's change, by exactly one access |
| IntraPartitioning.ZeroStatsAccount | cpp_trace_analyzer/llc_partitioning.cpp:104-108 | the constructor's all-zero per-client counters account for a new cache (the base case of the corrected accounting) |
| IntraPartitioning.TallyCountsOnce | cpp_trace_analyzer/llc_partitioning.cpp:141-146 | corrected: a tally adds exactly one (mod 2^32) to the client's hits + misses |
| IntraPartitioning.IntraNodePartitioning.constructor | cpp_trace_analyzer/llc_partitioning.cpp:104-108 | one fresh shared cache, the auxiliary table, every client's counters (0, 0) |
| IntraPartitioning.IntraNodePartitioning.FixAddress | cpp_trace_analyzer/llc_partitioning.cpp:123-129 | as written: the bit loop from set_bits to set_bits + n_bits copies the same positions of the bitset, giving `FixedAddressAsWritten` |
| IntraPartitioning.IntraNodePartitioning.Access | cpp_trace_analyzer/llc_partitioning.cpp:118-139 | as written: the new cache and counters are `IntraAccessAsWritten` of the old ones, so the counters stay (0, 0) |
| IntraPartitioning.IntraNodePartitioning.Read | cpp_trace_analyzer/llc_partitioning.cpp:110-112 | as written: an access without write |
| IntraPartitioning.IntraNodePartitioning.Write | cpp_trace_analyzer/llc_partitioning.cpp:114-116 | as written: an access with write (the line is left DIRTY) |
| IntraPartitioning.IntraNodePartitioning.Misses | cpp_trace_analyzer/llc_partitioning.cpp:141-143 | the client's miss counter, which stays 0 in a valid object |
| IntraPartitioning.IntraNodePartitioning.Hits | cpp_trace_analyzer/llc_partitioning.cpp:145-147 | the client's hit counter, which stays 0 in a valid object |
| TsSets.Empty | qemu-tracer/WormCache-model_calibration/src/components/memory/ts_set.rs:69-76 | a new set is well formed, with cold pointer 0 and every block id and timestamp 0 |
| TsSets.LookupFrom | qemu-tracer/WormCache-model_calibration/src/components/memory/ts_set.rs:78-90 | finds the first way holding the block in a non-Invalid line, or A when none does |
| TsSets.Lookup | qemu-tracer/WormCache-model_calibration/src/components/memory/ts_set.rs:78-90 | the first way holding the block in a non-Invalid line, or A exactly when no way holds it |
| TsSets.StatusFor | qemu-tracer/WormCache-model_calibration/src/components/memory/ts_set.rs:103-108 | an instruction write is the one fault; otherwise the status is valid, instruction iff instruction, dirty iff write |
| TsSets.FirstInvalid | qemu-tracer/WormCache-model_calibration/src/components/memory/ts_set.rs:121-123 | the first Invalid way, or A when none is |
| TsSets.MinTsFrom | qemu-tracer/WormCache-model_calibration/src/components/memory/ts_set.rs:133-138 | the first way with the smallest timestamp (`min_by_key` keeps the first minimum) |
| TsSets.StatusRoles | qemu-tracer/WormCache-model_calibration/src/components/memory/ts_set.rs:21-33 | a status is in use iff data or instruction; dirty implies data only; both roles exactly for CleanInstructionAndData |
| TsSets.PeekStatusRoles | qemu-tracer/WormCache-model_calibration/src/components/memory/ts_set.rs:163-191 | a hit upgrades the status: it becomes dirty only from CleanData on a write, gains the data role on a data access and the instruction role on a CleanData instruction read |
| TsSets.PeekSpec | qemu-tracer/WormCache-model_calibration/src/components/memory/ts_set.rs:150-193 | peek hits iff the block is held; a miss changes nothing; a hit sets only that way's timestamp and status; ids and cold pointer never change |
| TsSets.AddNewCold | qemu-tracer/WormCache-model_calibration/src/components/memory/ts_set.rs:111-118 | while not full, add_new fills the way at the cold pointer, advances it and evicts nothing |
| TsSets.AddNewFull | qemu-tracer/WormCache-model_calibration/src/components/memory/ts_set.rs:120-147 | once full, the victim is the oldest way, its id and status are returned, only it is overwritten |
| TsSets.AddNewFaults | qemu-tracer/WormCache-model_calibration/src/components/memory/ts_set.rs:103-108 | add_new fails exactly for an instruction write |
| TsSets.AccessSpec | qemu-tracer/WormCache-model_calibration/src/components/memory/ts_set.rs:195-215 | Hit iff held; Miss iff not held with a cold way left; otherwise the oldest way is the victim, a write-back exactly when it was dirty; the block is held afterwards |
| TsSets.AccessFaults | qemu-tracer/WormCache-model_calibration/src/components/memory/ts_set.rs:195-215 | an instruction write panics exactly when it misses |
| TsSets.LiveEntries | qemu-tracer/WormCache-model_calibration/src/components/memory/ts_set.rs:239-256 | the iterator's items are the ways below the cold pointer, in index order, as (id, ts, status) |
| TsSets.FirstInUse | qemu-tracer/WormCache-model_calibration/src/components/memory/ts_set.rs:248-254 | the first non-Invalid way from the current index, or A |
| TsSets.NextYieldsLiveEntries | qemu-tracer/WormCache-model_calibration/src/components/memory/ts_set.rs:239-256 | `next` ends exactly at the cold pointer and otherwise yields the next live entry and advances by one |
| TsSets.TimestampCacheSet.constructor | qemu-tracer/WormCache-model_calibration/src/components/memory/ts_set.rs:69-76 | the new set's state is `Empty` |
| TsSets.TimestampCacheSet.WarmChunkCount | qemu-tracer/WormCache-model_calibration/src/components/memory/ts_set.rs:221-223 | the cold pointer |
| TsSets.TimestampCacheSet.Overwrite | qemu-tracer/WormCache-model_calibration/src/components/memory/ts_set.rs:112-114 | one way's id, timestamp and status replaced, nothing else |
| TsSets.TimestampCacheSet.AddNew | qemu-tracer/WormCache-model_calibration/src/components/memory/ts_set.rs:92-148 | the in-place add_new returns the victim and new state of `AddNewOn`, or the fault with the set unchanged |
| TsSets.TimestampCacheSet.Peek | qemu-tracer/WormCache-model_calibration/src/components/memory/ts_set.rs:150-193 | the in-place peek gives the hit flag and state of `PeekOn` |
| TsSets.TimestampCacheSet.Access | qemu-tracer/WormCache-model_calibration/src/components/memory/ts_set.rs:195-215 | the in-place access gives the result and state of `AccessOn`, or the fault with the set unchanged |
| TsSets.TimestampCacheSetIterator.constructor | qemu-tracer/WormCache-model_calibration/src/components/memory/ts_set.rs:260-262 | the iterator starts at index 0 of its set |
| TsSets.TimestampCacheSetIterator.Next | qemu-tracer/WormCache-model_calibration/src/components/memory/ts_set.rs:239-256 | the item and new index are `NextOn` of the set and the old index |
| TsCaches.NewCache | qemu-tracer/WormCache-model_calibration/src/components/memory/ts_cache.rs:37-46 | S empty sets, well formed, warmed_count 0 |
| TsCaches.SetNumber | qemu-tracer/WormCache-model_calibration/src/components/memory/ts_cache.rs:55 | with S a power of two, `block_id & (S - 1)` is block_id mod S |
| TsCaches.WarmedAtMostSets | qemu-tracer/WormCache-model_calibration/src/components/memory/ts_cache.rs:62-65 | warmed_count never exceeds the number of sets |
| TsCaches.RecordSpec | qemu-tracer/WormCache-model_calibration/src/components/memory/ts_cache.rs:48-68 | record panics exactly for a missing instruction write; otherwise it returns the set's access result, changes only that set, keeps warmed_count equal to the number of full sets and leaves the block resident |
| TsCaches.PeekCacheSpec | qemu-tracer/WormCache-model_calibration/src/components/memory/ts_cache.rs:70-79 | peek hits iff the block is resident, changes nothing on a miss, touches only the block's set and never a fill count or warmed_count |
| TsCaches.SetNumberAsWritten | qemu-tracer/WormCache-model_calibration/src/components/memory/ts_cache.rs:55 | for any S (the generic check is never evaluated) the set number is below S |
| TsCaches.ThreeSetsSkipSetOne | qemu-tracer/WormCache-model_calibration/src/components/memory/ts_cache.rs:20-35 | with S = 3 the mask sends every block to set 0 or 2, which is why S must be a power of two |
| TsCaches.EverySetUsed | qemu-tracer/WormCache-model_calibration/src/components/memory/ts_cache.rs:55 | with S a power of two, block i < S goes to set i under both readings |
| TsCaches.TimestampCache.constructor | qemu-tracer/WormCache-model_calibration/src/components/memory/ts_cache.rs:37-46 | the new cache's contents are `NewCache` |
| TsCaches.TimestampCache.Record | qemu-tracer/WormCache-model_calibration/src/components/memory/ts_cache.rs:48-68 | the in-place record returns the result and contents of `RecordOn`, or the fault with the cache unchanged |
| TsCaches.TimestampCache.Peek | qemu-tracer/WormCache-model_calibration/src/components/memory/ts_cache.rs:70-79 | the in-place peek gives the hit flag and contents of `PeekCacheOn` |
| PerCoreRecords.BlockOf | qemu-tracer/WormCache-model_calibration/src/components/memory/per_core_record.rs:26 | the block id is paddr / CACHE_LINE_SIZE |
| PerCoreRecords.NewHierarchy | qemu-tracer/WormCache-model_calibration/src/components/memory/per_core_record.rs:18-23 | both caches empty and well formed |
| PerCoreRecords.ConfiguredGeometryOk | qemu-tracer/WormCache-model_calibration/src/parameter.rs:25-49 | the plugin's geometry (16 x 2048 private, 16 x 2^20 shared) passes the generic checks |
| PerCoreRecords.AccessMemorySpec | qemu-tracer/WormCache-model_calibration/src/components/memory/per_core_record.rs:25-44 | access_memory panics only for a missing instruction store; otherwise the block is resident in the private cache, the shared cache is untouched on a hit, on a miss it is exactly the shared cache's `peek` of the block (warmed count kept), and it holds the victim after an eviction or write-back |
| PerCoreRecords.TimestampSingleCoreMemoryHierarchy.constructor | qemu-tracer/WormCache-model_calibration/src/components/memory/per_core_record.rs:18-23 | two fresh separate caches whose contents are `NewHierarchy` |
| PerCoreRecords.TimestampSingleCoreMemoryHierarchy.AccessMemory | qemu-tracer/WormCache-model_calibration/src/components/memory/per_core_record.rs:25-44 | the new contents of both caches are `AccessMemoryOn` of the old ones, or the fault with nothing changed |
| PerCoreRecords.TimestampSingleCoreMemoryHierarchy.ForwardToShared | qemu-tracer/WormCache-model_calibration/src/components/memory/per_core_record.rs:30-43 | the shared cache is peeked on Miss, untouched on Hit, and records the victim as a read (eviction) or a data write (write-back) |
| Checkpoints.StateCode | qemu-tracer/WormCache-model_calibration/src/components/memory/checkpoint/checkpoint.rs:22-28 | the discriminants 0 to 4 |
| Checkpoints.CompareIsByTs | qemu-tracer/WormCache-model_calibration/src/components/memory/checkpoint/ts_checkpoint.rs:34-44 | the ordering of timestamped blocks is antisymmetric and transitive, and Equal exactly on equal timestamps |
| Checkpoints.CompareDirectoryIsByTs | qemu-tracer/WormCache-model_calibration/src/components/memory/checkpoint/ts_checkpoint.rs:65-75 | the same for directory blocks |
| Checkpoints.EqualOrderingIsNotEquality | qemu-tracer/WormCache-model_calibration/src/components/memory/checkpoint/ts_checkpoint.rs:14-38 | `Ord` and the derived `PartialEq` disagree: two different blocks with one timestamp compare Equal |
| Checkpoints.Pop | qemu-tracer/WormCache-model_calibration/src/components/memory/checkpoint/ts_checkpoint.rs:96 | `pop` on a non-empty heap removes one element with the largest timestamp |
| Checkpoints.GetTopK | qemu-tracer/WormCache-model_calibration/src/components/memory/checkpoint/ts_checkpoint.rs:88-100 | the heap itself when k >= its size; otherwise k of its blocks, none older than any block left out |
| Checkpoints.TopKBounded | qemu-tracer/WormCache-model_calibration/src/components/memory/checkpoint/ts_checkpoint.rs:88-100 | a top-k selection holds at most k blocks, all from the heap |
| Checkpoints.Export | qemu-tracer/WormCache-model_calibration/src/components/memory/checkpoint/ts_checkpoint.rs:103-110 | the output lists every block of the heap once, newest first |
| Checkpoints.SortByTsDescending | qemu-tracer/WormCache-model_calibration/src/components/memory/mtr.rs:252-254 | a permutation of the input in non-increasing timestamp order |
| MtrRecords.GenerateDirectoryBlock | qemu-tracer/WormCache-model_calibration/src/components/memory/mtr.rs:45-67 | the record's timestamp; replicas are all readers without a writer and the readers not older than the write with one; last_writer is the writer's core |
| MtrRecords.AbsorbEntryInto | qemu-tracer/WormCache-model_calibration/src/components/memory/mtr.rs:96-194 | absorbing one entry keeps the number of MTR sets |
| MtrRecords.AbsorbAll | qemu-tracer/WormCache-model_calibration/src/components/memory/mtr.rs:94-196 | absorbing a sequence of entries keeps the number of MTR sets |
| MtrRecords.NewRecordSpec | qemu-tracer/WormCache-model_calibration/src/components/memory/mtr.rs:143-192 | a new record fails only for an Invalid entry; it takes the entry's timestamp, the core as writer when dirty and as reader otherwise, instruction permission only for Instruction |
| MtrRecords.NoInstructionAndCleanData | qemu-tracer/WormCache-model_calibration/src/components/memory/mtr.rs:169-181 | no record is created with InstructionAndCleanData, and merging never changes a permission |
| MtrRecords.PermissionOf | qemu-tracer/WormCache-model_calibration/src/components/memory/mtr.rs:169-181 | the permission of a new record: never InstructionAndCleanData, DirtyData exactly for a dirty line, Instruction exactly for an instruction-only line |
| MtrRecords.MergeEntrySpec | qemu-tracer/WormCache-model_calibration/src/components/memory/mtr.rs:99-142 | merging never lowers the timestamp (raised exactly by a newer non-Invalid entry) and keeps the permission; the writer changes only to a newer write by another core; it fails on a write by the writer core, a second read by a reader core, an instruction fetch of a block without instruction permission, and a dirty write of an executable block |
| MtrRecords.AbsorbEntrySpec | qemu-tracer/WormCache-model_calibration/src/components/memory/mtr.rs:96-194 | absorbing keeps every record in set id mod S, adds the entry's block, loses no block and lowers no timestamp |
| MtrRecords.AbsorbAllSpec | qemu-tracer/WormCache-model_calibration/src/components/memory/mtr.rs:94-196 | after absorbing a list, every earlier block is kept (timestamp not lowered) and every listed block is tracked, all in their sets |
| MtrRecords.CoreView | qemu-tracer/WormCache-model_calibration/src/components/memory/mtr.rs:283-363 | the block a core's L2 gets from a record carries that record's block id |
| MtrRecords.CoreViewCoherence | qemu-tracer/WormCache-model_calibration/src/components/memory/mtr.rs:294-313 | a Modified copy belongs to the writer core, at most one core holds a Modified copy, and ModifiedExclusive exactly when the writer's write is the latest access |
| MtrRecords.ExclusiveCopyIsOnlyCopy | qemu-tracer/WormCache-model_calibration/src/components/memory/mtr.rs:346-362 | a CleanExclusive copy in one core means no other core holds a valid copy |
| MtrRecords.CoreViewMatchesDirectory | qemu-tracer/WormCache-model_calibration/src/components/memory/mtr.rs:283-363 | a core not marked invalid has a valid copy exactly when the directory lists it as replica or last writer |
| MtrRecords.StaleReaderInvalid | qemu-tracer/WormCache-model_calibration/src/components/memory/mtr.rs:316-343 | a reader older than another core's write gets an Invalid copy with its read timestamp |
| MtrRecords.ScenarioInvalidToExclusive | qemu-tracer/WormCache-model_calibration/tests/coherence.rs:48-66 | two cores reading different blocks each see CleanExclusive |
| MtrRecords.ScenarioExclusiveToShared | qemu-tracer/WormCache-model_calibration/tests/coherence.rs:69-86 | two cores reading one block both see CleanShared |
| MtrRecords.ScenarioExclusiveToModified | qemu-tracer/WormCache-model_calibration/tests/coherence.rs:89-108 | a lone read is CleanExclusive; a later write by the same core is ModifiedExclusive |
| MtrRecords.ScenarioExclusiveToOwned | qemu-tracer/WormCache-model_calibration/tests/coherence.rs:111-128 | a write followed by another core's read: ModifiedOwned for the writer, CleanShared for the reader |
| MtrRecords.ScenarioSharedToInvalidAndModified | qemu-tracer/WormCache-model_calibration/tests/coherence.rs:131-150 | a read followed by another core's write: ModifiedExclusive for the writer, Invalid for the reader |
| MtrRecords.ScenarioSharedToOwned | qemu-tracer/WormCache-model_calibration/tests/coherence.rs:153-174 | a read re-done after the write: ModifiedOwned for the writer, CleanShared for the reader |
| MtrPrune.InsertSortedSpec | qemu-tracer/WormCache-model_calibration/src/components/memory/mtr.rs:227 | inserting into a sorted list keeps it sorted and adds exactly the element |
| MtrPrune.SortAscendingSpec | qemu-tracer/WormCache-model_calibration/src/components/memory/mtr.rs:227 | `sort_unstable`: an ascending permutation of the timestamps |
| MtrPrune.CutoffOfSorted | qemu-tracer/WormCache-model_calibration/src/components/memory/mtr.rs:227-228 | whatever sort is used, timestamps[len - associativity] is the same cutoff |
| MtrPrune.PruneCounts | qemu-tracer/WormCache-model_calibration/src/components/memory/mtr.rs:222-232 | at least `associativity` records are at or above the cutoff, fewer than that strictly above it |
| MtrPrune.PruneSetSpec | qemu-tracer/WormCache-model_calibration/src/components/memory/mtr.rs:218-234 | fails only for associativity 0 on a non-empty set; a set within the associativity is kept whole; otherwise exactly the records at or above the cutoff survive, unchanged, and at least `associativity` of them |
| MtrPrune.PruneSet | qemu-tracer/WormCache-model_calibration/src/components/memory/mtr.rs:218-234 | the pruning of one set computes `PruneSetOn` |
| MtrPrune.CollectTimestamps | qemu-tracer/WormCache-model_calibration/src/components/memory/mtr.rs:219 | the collected vector holds every record's timestamp, once per record |
| MtrPrune.Retain | qemu-tracer/WormCache-model_calibration/src/components/memory/mtr.rs:230-232 | `retain` keeps exactly the records with timestamp >= the cutoff, unchanged |
| MtrDirectory.DirectoryExportContents | qemu-tracer/WormCache-model_calibration/src/components/memory/mtr.rs:246-257 | a set's directory export has one entry per record, each the record's directory block, and covers every block |
| MtrDirectory.ExportDirectorySet | qemu-tracer/WormCache-model_calibration/src/components/memory/mtr.rs:246-257 | the directory blocks of one set, sorted newest first |
| MtrRender.CollectViews | qemu-tracer/WormCache-model_calibration/src/components/memory/mtr.rs:282-364 | the heap gets exactly the core's view of every record of the MTR set |
| MtrRender.FilterRelevant | qemu-tracer/WormCache-model_calibration/src/components/memory/mtr.rs:388-396 | the L1 instruction cache takes every instruction block of the L2 heap, the data cache every data block, nothing else |
| MtrRender.RenderL2 | qemu-tracer/WormCache-model_calibration/src/components/memory/mtr.rs:276-368 | each L2 set g is the top l2_associativity of the core's views of MTR sets g, g + l2_sets, ... |
| MtrRender.GatherL2 | qemu-tracer/WormCache-model_calibration/src/components/memory/mtr.rs:280-365 | the loop over groups gathers exactly the candidates of the L2 set |
| MtrRender.RenderL1 | qemu-tracer/WormCache-model_calibration/src/components/memory/mtr.rs:376-400 | each L1 set s is the top associativity of the relevant blocks of L2 sets s, s + sets, ... |
| MtrRender.GatherL1 | qemu-tracer/WormCache-model_calibration/src/components/memory/mtr.rs:385-397 | the loop gathers exactly the relevant blocks of the affiliated L2 sets |
| MtrRender.ExportAll | qemu-tracer/WormCache-model_calibration/src/components/memory/mtr.rs:406-420 | every heap exported newest first |
| MtrRender.ExportSize | qemu-tracer/WormCache-model_calibration/src/components/memory/checkpoint/ts_checkpoint.rs:103-110 | an export has as many blocks as its heap |
| MtrRender.RenderedSetsBounded | qemu-tracer/WormCache-model_calibration/src/components/memory/mtr.rs:267-421 | the rendered caches have the requested set counts, and no set holds more blocks than its associativity |
| MtrRender.RenderCheck | qemu-tracer/WormCache-model_calibration/src/components/memory/mtr.rs:274-380 | no assertion fails exactly when the L2 set count divides S and both L1 set counts divide it; the L2 check is the one reported whenever it fails |
| MtrRender.L1SetsBounded | qemu-tracer/WormCache-model_calibration/src/components/memory/mtr.rs:382-399 | no exported L1 set holds more than its associativity |
| MtrRender.L2Placed | qemu-tracer/WormCache-model_calibration/src/components/memory/mtr.rs:276-366 | every block in L2 set g has id = g mod l2_sets and is the core's view of a tracked record |
| MtrRender.L1Included | qemu-tracer/WormCache-model_calibration/src/components/memory/mtr.rs:382-399 | every block of L1 set s is relevant to that L1 and sits in an L2 set congruent to s |
| Mtrs.MemoryTimestampRecordCollection.constructor | qemu-tracer/WormCache-model_calibration/src/components/memory/mtr.rs:77-81 | S empty sets |
| Mtrs.MemoryTimestampRecordCollection.LookUp | qemu-tracer/WormCache-model_calibration/src/components/memory/mtr.rs:423-426 | true exactly when the block is tracked |
| Mtrs.MemoryTimestampRecordCollection.AbsorbTsCache | qemu-tracer/WormCache-model_calibration/src/components/memory/mtr.rs:87-197 | the new sets are `AbsorbAll` of the old ones over the cache's entries in iterator order, or the first fault |
| Mtrs.MemoryTimestampRecordCollection.AbsorbSets | qemu-tracer/WormCache-model_calibration/src/components/memory/mtr.rs:94-196 | the outer loop absorbs set after set and stops at the first fault |
| Mtrs.MemoryTimestampRecordCollection.AbsorbSet | qemu-tracer/WormCache-model_calibration/src/components/memory/mtr.rs:95-195 | the inner loop absorbs the set's live entries in order |
| Mtrs.MemoryTimestampRecordCollection.AbsorbEntry | qemu-tracer/WormCache-model_calibration/src/components/memory/mtr.rs:96-194 | one entry merged into its record or a new record inserted, as `AbsorbEntryInto` |
| Mtrs.MemoryTimestampRecordCollection.PruneByAssociativity | qemu-tracer/WormCache-model_calibration/src/components/memory/mtr.rs:213-240 | fails exactly when some set fails; otherwise every set is pruned as `PruneSetOn` says, records stay in place |
| Mtrs.MemoryTimestampRecordCollection.ExportDirectory | qemu-tracer/WormCache-model_calibration/src/components/memory/mtr.rs:242-259 | one directory export per MTR set |
| Mtrs.MemoryTimestampRecordCollection.RenderPrivateCaches | qemu-tracer/WormCache-model_calibration/src/components/memory/mtr.rs:267-421 | the first failing divisibility check is the fault; otherwise L1i, L1d and L2 are a rendering of the MTR for the core |
| TsModels.CoreIdOf | qemu-tracer/WormCache-model_calibration/src/components/memory/ts_model.rs:57 | `core_id as u8`: below 256, the identity below 256 |
| TsModels.NoRecords | qemu-tracer/WormCache-model_calibration/src/components/memory/mtr.rs:77-81 | S empty MTR sets |
| TsModels.AbsorbCores | qemu-tracer/WormCache-model_calibration/src/components/memory/ts_model.rs:56-58 | absorbing the cores in order keeps the number of MTR sets |
| TsModels.AbsorbCoresSpec | qemu-tracer/WormCache-model_calibration/src/components/memory/ts_model.rs:54-60 | after absorbing every core, each earlier block and each block of any core's private cache is tracked, all in their sets |
| TsModels.SharedCacheEntriesLive | qemu-tracer/WormCache-model_calibration/src/components/memory/ts_model.rs:71-72 | every entry read from a shared cache is non-Invalid and tagged with its set index |
| TsModels.FlattenFrom | qemu-tracer/WormCache-model_calibration/src/components/memory/ts_model.rs:69-72 | every flattened entry comes from one of the cores' chunks |
| TsModels.EmptyMerging | qemu-tracer/WormCache-model_calibration/src/components/memory/ts_model.rs:66-67 | SHARED_CACHE_SET empty merging sets |
| TsModels.MergeLlcEntry | qemu-tracer/WormCache-model_calibration/src/components/memory/ts_model.rs:73-102 | merging one entry keeps the number of merging sets |
| TsModels.MergeLlcAll | qemu-tracer/WormCache-model_calibration/src/components/memory/ts_model.rs:69-105 | merging a sequence keeps the number of merging sets |
| TsModels.SummarizedBlock | qemu-tracer/WormCache-model_calibration/src/components/memory/ts_model.rs:76-101 | a merged block is untracked in the MTR, occurs in its shared set, is ModifiedExclusive exactly when some copy was dirty and CleanExclusive otherwise |
| TsModels.MergeLlcStep | qemu-tracer/WormCache-model_calibration/src/components/memory/ts_model.rs:73-102 | one merge step keeps the merging sets a summary of the entries seen |
| TsModels.MergeLlcAllSpec | qemu-tracer/WormCache-model_calibration/src/components/memory/ts_model.rs:69-105 | a merge that succeeds summarizes all the entries |
| TsModels.MergeLlcFaults | qemu-tracer/WormCache-model_calibration/src/components/memory/ts_model.rs:76-91 | with only live entries the `unreachable!()` never fires, and the out-of-range set index fault needs an entry whose set index the merging sets do not have |
| TsModels.LlcRenderingSpec | qemu-tracer/WormCache-model_calibration/src/components/memory/ts_model.rs:62-120 | the LLC has SHARED_CACHE_SET sets of at most SHARED_CACHE_ASSO blocks, each an untracked block from its own set of some shared cache, in an exclusive state |
| TsModels.LlcExcludesPrivateBlocks | qemu-tracer/WormCache-model_calibration/src/components/memory/ts_model.rs:73-75 | no block in the rendered LLC is in any core's private cache |
| TsModels.CollectBlocks | qemu-tracer/WormCache-model_calibration/src/components/memory/ts_model.rs:110-116 | the heap holds exactly the merging set's blocks |
| TsModels.RenderMerged | qemu-tracer/WormCache-model_calibration/src/components/memory/ts_model.rs:108-119 | each merging set becomes a heap, cut to SHARED_CACHE_ASSO and exported newest first |
| TsModels.RenderMergedSet | qemu-tracer/WormCache-model_calibration/src/components/memory/ts_model.rs:110-119 | one merging set rendered as `RendersSet` says |
| TsModels.RenderPrivateAll | qemu-tracer/WormCache-model_calibration/src/components/memory/ts_model.rs:127-135 | with cores present, the render check's fault; otherwise every core's L1i, L1d and L2 are renderings keyed by core id |
| TsModels.MergeCache | qemu-tracer/WormCache-model_calibration/src/components/memory/ts_model.rs:71-104 | merging one core's shared cache is the `MergeLlcAll` of its entries, in order |
| TsModels.MergeSharedSet | qemu-tracer/WormCache-model_calibration/src/components/memory/ts_model.rs:71-104 | merging one shared set's live entries, in order |
| TsModels.MergeBlock | qemu-tracer/WormCache-model_calibration/src/components/memory/ts_model.rs:76-101 | for an untracked block, one merge step as `MergeLlcEntry` |
| TsModels.AbsorbCaches | qemu-tracer/WormCache-model_calibration/src/components/memory/ts_model.rs:54-60 | a fresh collection whose sets are `AbsorbCores` of the private caches, or its fault |
| TsModels.MergeCaches | qemu-tracer/WormCache-model_calibration/src/components/memory/ts_model.rs:69-105 | the merge over every core's shared cache, in core order |
| TsModels.LlcFaults | qemu-tracer/WormCache-model_calibration/src/components/memory/ts_model.rs:66-105 | the LLC merge never hits the `unreachable!()`; it can index out of range only when a shared cache has more than SHARED_CACHE_SET sets |
| TsModels.RenderLlcOf | qemu-tracer/WormCache-model_calibration/src/components/memory/ts_model.rs:62-120 | the merge's fault, or the LLC rendering of its result |
| TsModels.BuildHierarchies | qemu-tracer/WormCache-model_calibration/src/components/memory/ts_model.rs:28-35 | core_count fresh, separate per-core hierarchies, all empty |
| TsModels.AddHierarchy | qemu-tracer/WormCache-model_calibration/src/components/memory/ts_model.rs:32 | appends one fresh empty hierarchy, separate from the others |
| TsModels.TimestampMemoryHierarchy.constructor | qemu-tracer/WormCache-model_calibration/src/components/memory/ts_model.rs:28-35 | core_count empty per-core hierarchies |
| TsModels.TimestampMemoryHierarchy.Hierarchy | qemu-tracer/WormCache-model_calibration/src/components/memory/ts_model.rs:37-52 | the core's hierarchy exactly when core_id < len as u8; otherwise the assertion's fault |
| TsModels.TimestampMemoryHierarchy.RenderMtr | qemu-tracer/WormCache-model_calibration/src/components/memory/ts_model.rs:54-60 | a fresh collection, `AbsorbCores` of every core's private cache from empty, or its fault |
| TsModels.TimestampMemoryHierarchy.RenderLlc | qemu-tracer/WormCache-model_calibration/src/components/memory/ts_model.rs:62-120 | the merge's fault, or the LLC rendering of every core's shared cache |
| TsModels.TimestampMemoryHierarchy.RenderCacheHierarchy | qemu-tracer/WormCache-model_calibration/src/components/memory/ts_model.rs:122-144 | the private render fault first (when there are cores), then the LLC fault; otherwise a checkpoint of all private caches, the directory and the LLC |
| FetchBlocks.RunStarts | qemu-tracer/WormCache-model_calibration/src/util.rs:11-27 | exactly the indices that start a run of equal ids |
| FetchBlocks.RunLength | qemu-tracer/WormCache-model_calibration/src/util.rs:17 | the length of the maximal run of equal ids starting at k |
| FetchBlocks.FindFetchBlocks | qemu-tracer/WormCache-model_calibration/src/util.rs:4-37 | the result is the map from every run start to its run's length (with 0 mapped to the length of the first run) |
| FetchBlocks.EmptyInput | qemu-tracer/WormCache-model_calibration/src/util.rs:31-34 | an empty input gives {0: 0} |
| FetchBlocks.EntryCount | qemu-tracer/WormCache-model_calibration/src/util.rs:4-37 | the map has one entry more than the number of id changes |
| FetchBlocks.RunsPartition | qemu-tracer/WormCache-model_calibration/src/util.rs:4-37 | every index lies in exactly one fetch block: the one starting at its last run start |
| FetchBlocks.ExampleEvenRuns | qemu-tracer/WormCache-model_calibration/src/util.rs:41-47 | [0,0,1,1,2,2,3,3,3] gives {0: 2, 2: 2, 4: 2, 6: 3} |
| FetchBlocks.ExampleSingleton | qemu-tracer/WormCache-model_calibration/src/util.rs:49-52 | [0] gives {0: 1} |
| FetchBlocks.ExampleUnevenRuns | qemu-tracer/WormCache-model_calibration/src/util.rs:59-64 | [1,2,2,10,10] gives {0: 1, 1: 2, 3: 2} |
| TraceEntries.LeBytes | qemu-tracer/WormCache-model_calibration/src/main.rs:36-37 | `to_le_bytes`: n byte values |
| TraceEntries.FromLeBytes | qemu-tracer/WormCache-model_calibration/src/main.rs:23-24 | `from_le_bytes`: the value of n bytes is below 256^n |
| TraceEntries.FromLeBytesOfLeBytes | qemu-tracer/WormCache-model_calibration/src/main.rs:23-24 | `from_le_bytes(to_le_bytes(x)) == x` for x that fits |
| TraceEntries.LeBytesOfFromLeBytes | qemu-tracer/WormCache-model_calibration/src/main.rs:23-24 | `to_le_bytes(from_le_bytes(b)) == b` |
| TraceEntries.Encoding | qemu-tracer/WormCache-model_calibration/src/main.rs:34-41 | an 18-byte record |
| TraceEntries.Serialize | qemu-tracer/WormCache-model_calibration/src/main.rs:34-41 | the bytes written are the record's 18-byte encoding, which `Decode` reads back to the same entry |
| TraceEntries.Decode | qemu-tracer/WormCache-model_calibration/src/main.rs:19-32 | an entry exactly when 18 bytes were read; is_read exactly when byte 16 is 1 |
| TraceEntries.DecodeSerialized | qemu-tracer/WormCache-model_calibration/src/main.rs:19-41 | reading back a serialized entry gives the entry |
| TraceEntries.SerializeDecoded | qemu-tracer/WormCache-model_calibration/src/main.rs:19-41 | serializing a decoded record whose flag byte is 0 or 1 gives the record back |
| TraceEntries.StoreRecordDecodesAsNotRead | qemu-tracer/WormCache-model_calibration/src/main.rs:25 | a flag byte of 2 decodes as not-read and does not round-trip |
| PbbMetadatas.GetPa | qemu-tracer/WormCache-model_calibration/src/mh/pbb_metadata.rs:9-13 | the low 60 bits |
| PbbMetadatas.GetInstructionCount | qemu-tracer/WormCache-model_calibration/src/mh/pbb_metadata.rs:15-18 | the top nibble plus one, between 1 and 16 |
| PbbMetadatas.From | qemu-tracer/WormCache-model_calibration/src/mh/pbb_metadata.rs:20-25 | any 64-bit word decodes to an address below 2^60 and a count in 1..16 |
| PbbMetadatas.Encode | qemu-tracer/WormCache-model_calibration/src/mh/pbb_metadata.rs:27-33 | fails on a count above 16 (first assert) or an address of 60 bits or more (second); otherwise a 64-bit word |
| PbbMetadatas.NibbleField | qemu-tracer/WormCache-model_calibration/src/mh/pbb_metadata.rs:29 | `((count - 1) & 0xf) << 60` holds count - 1 in the top nibble; a count of 0 wraps to 15 |
| PbbMetadatas.EncodeFields | qemu-tracer/WormCache-model_calibration/src/mh/pbb_metadata.rs:27-33 | for valid metadata the word is (count - 1) * 2^60 + address |
| PbbMetadatas.DecodeEncode | qemu-tracer/WormCache-model_calibration/src/mh/pbb_metadata.rs:20-33 | `from(encode(m)) == m` for a count in 1..16 and an address below 2^60 |
| PbbMetadatas.EncodeDecode | qemu-tracer/WormCache-model_calibration/src/mh/pbb_metadata.rs:20-33 | `encode(from(w)) == w` for every 64-bit word |
| PbbMetadatas.ZeroCountDecodesAsSixteen | qemu-tracer/WormCache-model_calibration/src/mh/pbb_metadata.rs:29 | a count of 0 encodes without error and decodes as 16 |
| Parameters.ParametersArePowersOfTwo | qemu-tracer/WormCache-model_calibration/src/parameter.rs:17-49 | the line size is 2^6 and both set counts are powers of two |

## Left out

- Console output (`std::cerr`, `println!`) is not modelled. The fault
  printed by a C++ `catch` becomes a precondition: a set index below `sets`
  and an LRU vector that is a permutation.
- File I/O and argument parsing in `main.rs` are not modelled. `Decode`
  takes the outcome of the read as a parameter.
- serde serialization and the commented-out plugin code are not modelled,
  nor is `remove_invalid_reader` (commented out).
- `rayon` parallelism in `render_private_caches` is modelled as a
  sequential loop, since the sets are independent.
- The unsafe `&self` to `&mut` cast in `hierarchies` is not modelled.
  `Hierarchy` returns the object itself.
- The order of HashMap iteration is not modelled: MTR sets and merging sets
  are maps, and their renderings are stated up to permutation.
- `debug_assert!` in `peek` is not modelled (release semantics). The
  `assert!`s that stay in release builds are modelled as faults.
- `TimestampCacheSet::invalid` and `len` are `todo!()` and are not
  modelled.
- The program state after a panic is not modelled: each faulting
  operation returns the fault, and no further state is promised.
- Cluster partitioning is not modelled: `ClusterPartitioning` in
  llc_partitioning.hpp is a declaration without a body.
- `Cache::exists`, `access(addr)` and `access(client, addr)` are declared
  in cache.hpp without a definition here, so they are not modelled.
- The three-argument constructor (cache.hpp:47) has no definition in the
  files modelled, so its geometry is taken from the cache tests.
- cache.hpp and cache.cpp disagree, and the model follows cache.cpp:
  - cache.hpp:10-13 declares a line state of VALID or INVALID only, while
    cache.cpp:151 and private_cache.cpp:129 set `CacheLineState::DIRTY`.
    The model has the DIRTY state, so the first row of "## Findings"
    assumes a header that declares it.
  - cache.hpp:46 declares `Cache(cache_size, sets, assoc, block_size)`,
    which has no definition and is not modelled. `Cache.WithTagSize`
    models the definition at cache.cpp:6-11,
    `Cache(cache_size, assoc, block_size, tag_size)`.
  - cache.hpp:88 and :100 declare `tag_bits()` and `tag_bits_`, which
    llc_partitioning.cpp:135 calls, while cache.cpp:24-26 defines
    `tag_size()`. The model keeps one field, `tagBits`. `WithTagSize` sets
    it to `floor(log2(tag_size))`, as `compute_location_info` does
    (cache.cpp:116). The three-argument constructor sets it to the address
    bits above the set index and the offset (`TagBitsFor`). The intra-node
    partitioning builds its cache with that constructor and reads this
    field as `tag_bits()`.
- Caches.Cache.constructor: its precondition `ValidGeometry` follows the
  cache tests (test_catch.cpp:17-34). It excludes (1024, 16, 128) and
  (176, 2, 16), which those tests expect to throw, instead of modelling the
  exception. The partitioning tests disagree with that geometry, and the
  model does not follow them. `WayPartitioning({1,2,1}, 32, 16)`
  (test_catch.cpp:172) is expected to throw, but its slices (32, 1, 16) and
  (32, 2, 16) are accepted, with 2 and 1 sets (WayPartitioningTestGeometries).
  test_catch.cpp:419-424 expects 4 sets for a 1024-byte, 2-way slice of
  16-byte blocks, where the model gives 32.
- Partitioning.InterNodePartitioning.constructor: requires
  |n_slices| <= clients. With more slice counts than clients the loop writes
  `memory_nodes_[i]` past the end, which is undefined behaviour, where
  test_catch.cpp:411 expects an exception. Fewer slice counts than clients
  are accepted, as written (see "## Findings").
- PrivateCaches.PrivateCache.constructor: `hits_` and `misses_` are never
  initialised in the source. Their first values are parameters, not zero.
- Partitioning.InterNodePartitioning.Access: requires the client's node to
  have at least one slice. With none, `memory_node[0]` and the modulo by
  zero have undefined behaviour.
- Partitioning.WayPartitioning.Read: requires a client id within range.
  Indexing past the vector is undefined behaviour (so for `Write` too).
- TsCaches.TimestampCache.constructor: requires S to be a power of two,
  although the source's check (`_CHECK_PARAM`) is never evaluated.
  `SetNumberAsWritten` and `ThreeSetsSkipSetOne` show what happens
  otherwise.
- IntraPartitioning.IntraNodePartitioning.Access: requires
  set_bits + n_bits <= 32 (so for `Read` and `Write` too). Past that the
  loop reads the 32-bit bitset out of range, which `std::bitset` leaves
  undefined.
- IntraPartitioning.Tally: counts accesses the source never counts. It
  belongs to the corrected model of the third finding, not to the class.
  The same holds for IntraPartitioning.TallyCountsOnce, IntraStep,
  IntraAccess and IntraAccessAccounts.
- IntraPartitioning.ClientLocation: built on the corrected `FixedAddress`.
  The class uses `FixedAddressAsWritten`, whose locations
  `FixedBitsIgnoredAsWritten` and `ClientsShareSetsAsWritten` describe.
- Caches.CacheRepeatedAccessHits: holds for the corrected lookup only. As
  written, `CacheRepeatedAccessAsWritten` applies: a second write misses.
  The same holds for CacheSets.RepeatedAccessHits.
- Checkpoints.GetTopK: which of several blocks with equal timestamps is
  kept is left open, as `BinaryHeap` leaves it. Export and the directory
  sort likewise fix the order only up to ties.
- Mtrs.MemoryTimestampRecordCollection.AbsorbTsCache: after a fault the
  collection's sets are not stated, because the source panics there.
  The same holds for AbsorbSets, AbsorbSet and PruneByAssociativity.
- TsModels.AbsorbCaches: validity of the new collection is stated only on
  success. On a fault the source panics. The same holds for
  TsModels.TimestampMemoryHierarchy.RenderMtr.
- TsModels.CoreIdOf: core ids are reduced mod 256 where the source casts
  to `u8`. The model does not say which of two cores with equal u8 ids wins
  in the per-core maps.
- PbbMetadatas.Encode: a count of 0 follows the release build's u8
  wrap-around. A debug build panics at the subtraction instead.

## Findings

| source | as written | input that shows it | evidently intended | confidence | as-written member | corrected member |
|---|---|---|---|---|---|---|
| cpp_trace_analyzer/cache.cpp:131 | the lookup matches only VALID lines, but a write leaves the line DIRTY (cache.cpp:150-152) | two `access(loc, true)` calls on one location (for example two `IntraNodePartitioning::write` calls to one address): the second misses, evicts the LRU way and installs a second copy of the tag | a DIRTY line is present, so the second access hits | high, not executed | CacheSets.SecondWriteMissesAsWritten | CacheSets.RepeatedAccessHits |
| cpp_trace_analyzer/llc_partitioning.cpp:127-128 | address bits [set_bits, set_bits + n_bits) take bitset bits of the same positions; with the usual geometries these are bits of the block offset | 2048-byte cache, 4 ways, 128-byte blocks (7 block bits, 2 set bits): clients with any 2-bit patterns map an address to the same set and tag | the top n_bits of the set-index field take the client's n_bits pattern, confining each client to its sets | high, not executed | IntraPartitioning.ClientsShareSetsAsWritten | IntraPartitioning.ClientsNeverShareASet |
| cpp_trace_analyzer/llc_partitioning.cpp:138-146 | `access` never updates `stats`, so `misses(c)` and `hits(c)` always return 0 | any access by client c: it misses in the shared cache, yet `misses(c)` stays 0 | each access adds a hit or a miss to the accessing client's counters | high, not executed | IntraPartitioning.StatsFrozenAsWritten | IntraPartitioning.IntraAccessAccounts |
| cpp_trace_analyzer/llc_partitioning.cpp:29-36 | the constructor resizes to `clients` nodes and never checks the length of `n_slices` | `InterNodePartitioning(4, {2, 1, 1}, 1024, 2, 16)` (test_catch.cpp:412): accepted, and client 3 gets a node with no slice, so its accesses are undefined | one slice count per client, as the test's `REQUIRE_THROWS` expects | medium, not executed | Partitioning.MissingNodeAcceptedAsWritten | Partitioning.CheckedNodeSlices |
