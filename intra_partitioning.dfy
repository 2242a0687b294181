/**
 * Intra-node partitioning: all clients share one cache, and each client is
 * confined to a slice of its sets by forcing some bits of the set index to
 * a per-client pattern (`fixed_bits_t`, an entry of the auxiliary table).
 *
 * Two things in `IntraNodePartitioning::access` are not what the class
 * promises, and both are modelled twice here: once as written, which is
 * what the class below does, with lemmas that exhibit the discrepancy, and
 * once corrected (`IntraAccess`), with the intended properties proved.
 *  - The fixed bits are written at address bits [set_bits, set_bits + n)
 *    from bitset positions of the same index, instead of over the top n
 *    bits of the set-index field; with the usual geometries those bits lie
 *    inside the block offset, so partitioning has no effect.
 *  - The per-client counters are never updated.
 */
module IntraPartitioning {
  import opened Bits
  import opened Address
  import opened CacheSets
  import opened Caches
  import opened Partitioning

  /** `fixed_bits_t`: a 32-bit bitset (least significant bit first) and the
      number of its low bits that are used. */
  datatype FixedBits = FixedBits(bits: seq<bool>, nBits: nat)

  predicate FixedBitsWellFormed(fb: FixedBits)
  {
    |fb.bits| == 32 && fb.nBits <= 32
  }

  /** The pattern a client's set indices start with: the value of the used
      bits of its table entry. */
  function Pattern(fb: FixedBits): nat
    requires FixedBitsWellFormed(fb)
  {
    FromBits(fb.bits[..fb.nBits])
  }

  /** `bs` with positions [at, at + n) overwritten by src[from .. from + n). */
  function Splice(bs: seq<bool>, at: nat, src: seq<bool>, from: nat, n: nat): (r: seq<bool>)
    requires at + n <= |bs| && from + n <= |src|
    ensures |r| == |bs|
    ensures forall i :: 0 <= i < |bs| ==> r[i] == if at <= i < at + n then src[from + i - at] else bs[i]
  {
    bs[..at] + src[from..from + n] + bs[at + n..]
  }

  /** The address as `access` rewrites it: bits [setBits, setBits + n) of
      the 64-bit address take bitset positions [setBits, setBits + n).  The
      bitset has 32 positions, so the loop is only defined while
      setBits + n <= 32.  The result is a 64-bit address that agrees with
      addr below bit setBits and from bit setBits + n on. */
  function FixedAddressAsWritten(addr: nat, fb: FixedBits, setBits: nat): (v: nat)
    requires FixedBitsWellFormed(fb) && setBits + fb.nBits <= 32
    ensures v < U64 && v % Pow2(setBits) == addr % Pow2(setBits)
    ensures Shr(v, setBits) % Pow2(fb.nBits) == FromBits(fb.bits[setBits..setBits + fb.nBits])
    ensures Shr(v, setBits + fb.nBits) == Shr(addr % U64, setBits + fb.nBits)
  {
    SpliceValue(addr, setBits, fb.bits, setBits, fb.nBits);
    FromBits(Splice(ToBits(addr, 64), setBits, fb.bits, setBits, fb.nBits))
  }

  /** The address rewritten as intended: the n most significant bits of
      the set-index field, address bits [blockBits + setBits - n,
      blockBits + setBits), take the n used bits of the bitset; every other
      bit of the 64-bit address is kept. */
  function FixedAddress(addr: nat, fb: FixedBits, blockBits: nat, setBits: nat): (v: nat)
    requires FixedBitsWellFormed(fb) && fb.nBits <= setBits && blockBits + setBits <= 64
    ensures var lo := blockBits + setBits - fb.nBits;
            v < U64 && v % Pow2(lo) == addr % Pow2(lo)
            && Shr(v, lo) % Pow2(fb.nBits) == Pattern(fb)
            && Shr(v, blockBits + setBits) == Shr(addr % U64, blockBits + setBits)
  {
    SpliceValue(addr, blockBits + setBits - fb.nBits, fb.bits, 0, fb.nBits);
    assert fb.bits[0..fb.nBits] == fb.bits[..fb.nBits];
    FromBits(Splice(ToBits(addr, 64), blockBits + setBits - fb.nBits, fb.bits, 0, fb.nBits))
  }

  /** The location `access` builds: the set index is the setBits bits above
      the block offset; the tag is taken from the same position and is
      tagBits + setBits wide, so it includes the set index.  Both go
      through the 32-bit `Cache::mask`. */
  function IntraLocation(v: nat, blockBits: nat, setBits: nat, tagBits: nat): (loc: LocationInfo)
  {
    LocationInfo(BitAnd(Shr(v, blockBits), AllOnes(setBits)),
                 BitAnd(Shr(v, blockBits), AllOnes(tagBits + setBits)))
  }

  /** The value of a 64-bit address with positions [at, at + n) replaced by
      src[from .. from + n): the bits below and above the window are the
      address's, the window holds the value of the source slice. */
  lemma SpliceValue(addr: nat, at: nat, src: seq<bool>, from: nat, n: nat)
    requires at + n <= 64 && from + n <= |src|
    ensures var v := FromBits(Splice(ToBits(addr, 64), at, src, from, n));
            v < U64 && v % Pow2(at) == addr % Pow2(at)
            && Shr(v, at) % Pow2(n) == FromBits(src[from..from + n])
            && Shr(v, at + n) == Shr(addr % U64, at + n)
  {
    var bs := ToBits(addr, 64);
    var sp := Splice(bs, at, src, from, n);
    Pow2Is64();
    FromBitsBound(sp);
    FromToBits(addr, 64);
    SpliceLow(bs, sp, at);
    LowBitsOf64(addr, at);
    FromBitsField(sp, at, n);
    assert sp[at..at + n] == src[from..from + n];
    SpliceHigh(bs, sp, at + n);
  }

  /** Bitsets that agree below position k have values that agree modulo 2^k. */
  lemma SpliceLow(bs: seq<bool>, sp: seq<bool>, k: nat)
    requires k <= |bs| && k <= |sp| && bs[..k] == sp[..k]
    ensures FromBits(sp) % Pow2(k) == FromBits(bs) % Pow2(k)
  {
    FromBitsMod(sp, k);
    FromBitsMod(bs, k);
  }

  /** Bitsets that agree from position k on have the same value shifted by k. */
  lemma SpliceHigh(bs: seq<bool>, sp: seq<bool>, k: nat)
    requires k <= |bs| && k <= |sp| && bs[k..] == sp[k..]
    ensures Shr(FromBits(sp), k) == Shr(FromBits(bs), k)
  {
    FromBitsShr(sp, k);
    FromBitsShr(bs, k);
  }

  /** Truncating to 64 bits keeps the low k <= 64 bits. */
  lemma LowBitsOf64(addr: nat, k: nat)
    requires k <= 64
    ensures addr % U64 % Pow2(k) == addr % Pow2(k)
  {
    Pow2Is64();
    Pow2Add(k, 64 - k);
    ModMod(addr, Pow2(k), Pow2(64 - k));
  }

  /** The set index fits the setBits-bit field and the tag a uint32, so with
      setBits = floor(log2(sets)) the index names an existing set. */
  lemma IntraLocationInRange(v: nat, blockBits: nat, sets: nat, tagBits: nat)
    requires sets >= 1
    ensures IntraLocation(v, blockBits, FloorLog2(sets), tagBits).setIndex < sets
    ensures IntraLocation(v, blockBits, FloorLog2(sets), tagBits).tag < U32
  {
    var s := FloorLog2(sets);
    MaskedBelow(Shr(v, blockBits), s);
    Pow2Monotone(Min(s, 32), s);
    MaskedBelow(Shr(v, blockBits), tagBits + s);
  }

  /** The tag `access` builds extends its set index: both mask the same
      shifted address, so the low set_bits bits of the tag (within the
      32-bit mask) are the set index. */
  lemma TagExtendsSetIndex(v: nat, blockBits: nat, setBits: nat, tagBits: nat)
    ensures var loc := IntraLocation(v, blockBits, setBits, tagBits);
            loc.tag % Pow2(Min(setBits, 32)) == loc.setIndex
  {
    var x := Shr(v, blockBits);
    var a, c := Min(setBits, 32), Min(tagBits + setBits, 32);
    BitAndAllOnes(x, setBits);
    BitAndAllOnes(x, tagBits + setBits);
    Pow2Add(a, c - a);
    ModMod(x, Pow2(a), Pow2(c - a));
  }

  /** As written, when the fixed bits end below the block offset (set bits
      plus fixed bits at most the block bits) the rewritten address has the
      same location as the original one: the table entry is ignored. */
  lemma FixedBitsIgnoredAsWritten(addr: nat, fb: FixedBits, blockBits: nat, setBits: nat, tagBits: nat)
    requires FixedBitsWellFormed(fb) && setBits + fb.nBits <= 32
    requires addr < U64 && setBits + fb.nBits <= blockBits <= 64
    ensures IntraLocation(FixedAddressAsWritten(addr, fb, setBits), blockBits, setBits, tagBits)
            == IntraLocation(addr, blockBits, setBits, tagBits)
  {
    var orig := ToBits(addr, 64);
    var sp := Splice(orig, setBits, fb.bits, setBits, fb.nBits);
    assert sp[blockBits..] == orig[blockBits..];
    FromBitsShr(sp, blockBits);
    FromBitsShr(orig, blockBits);
    AddressBits(addr);
    assert Shr(FromBits(sp), blockBits) == Shr(addr, blockBits);
  }

  /** `std::bitset<64>(addr).to_ulong()` gives back a 64-bit address. */
  lemma AddressBits(addr: nat)
    requires addr < U64
    ensures FromBits(ToBits(addr, 64)) == addr
  {
    FromToBits(addr, 64);
    Pow2Is64();
  }

  /** The geometry of the shared cache in the partitioning tests (2048
      bytes, 4 ways, 128-byte blocks: 7 block bits, 2 set bits): as written,
      any two table entries of at most two bits send an address to the same
      set with the same tag, so no client is confined to its sets. */
  lemma ClientsShareSetsAsWritten(addr: nat, fb1: FixedBits, fb2: FixedBits, tagBits: nat)
    requires FixedBitsWellFormed(fb1) && FixedBitsWellFormed(fb2)
    requires fb1.nBits <= 2 && fb2.nBits <= 2 && addr < U64
    ensures IntraLocation(FixedAddressAsWritten(addr, fb1, 2), 7, 2, tagBits)
            == IntraLocation(FixedAddressAsWritten(addr, fb2, 2), 7, 2, tagBits)
  {
    FixedBitsIgnoredAsWritten(addr, fb1, 7, 2, tagBits);
    FixedBitsIgnoredAsWritten(addr, fb2, 7, 2, tagBits);
  }

  /** Corrected: every address a client touches lands in a set whose index
      starts (in its top n bits) with the client's pattern. */
  lemma FixedAddressInPartition(addr: nat, fb: FixedBits, blockBits: nat, setBits: nat, tagBits: nat)
    requires FixedBitsWellFormed(fb) && fb.nBits <= setBits <= 32 && blockBits + setBits <= 64
    ensures IntraLocation(FixedAddress(addr, fb, blockBits, setBits), blockBits, setBits, tagBits).setIndex
              / Pow2(setBits - fb.nBits) == Pattern(fb)
  {
    var n := fb.nBits;
    var lo := blockBits + setBits - n;
    var sp := Splice(ToBits(addr, 64), lo, fb.bits, 0, n);
    var v := FromBits(sp);
    var field := sp[blockBits..blockBits + setBits];
    BitAndAllOnes(Shr(v, blockBits), setBits);
    FromBitsField(sp, blockBits, setBits);
    assert IntraLocation(v, blockBits, setBits, tagBits).setIndex == FromBits(field);
    FromBitsShr(field, setBits - n);
    assert field[setBits - n..] == fb.bits[..n];
  }

  /** Corrected: two clients whose patterns are not prefixes of one another
      never share a set, whatever addresses they use.  With n1 <= n2 bits,
      the first n1 bits of the longer pattern (its top bits) are
      Pattern(fb2) / 2^(n2 - n1). */
  lemma ClientsNeverShareASet(a1: nat, a2: nat, fb1: FixedBits, fb2: FixedBits,
                              blockBits: nat, setBits: nat, tagBits: nat)
    requires FixedBitsWellFormed(fb1) && FixedBitsWellFormed(fb2)
    requires fb1.nBits <= fb2.nBits <= setBits <= 32 && blockBits + setBits <= 64
    requires Pattern(fb1) != Pattern(fb2) / Pow2(fb2.nBits - fb1.nBits)
    ensures IntraLocation(FixedAddress(a1, fb1, blockBits, setBits), blockBits, setBits, tagBits).setIndex
            != IntraLocation(FixedAddress(a2, fb2, blockBits, setBits), blockBits, setBits, tagBits).setIndex
  {
    var i1 := ClientIndexPrefix(a1, fb1, blockBits, setBits, tagBits);
    var i2 := ClientIndexPrefix(a2, fb2, blockBits, setBits, tagBits);
    PrefixesDiffer(i1, i2, setBits, fb1.nBits, fb2.nBits, Pattern(fb1), Pattern(fb2));
  }

  /** The set index a client's address lands in, named, with the pattern it
      starts with. */
  lemma ClientIndexPrefix(addr: nat, fb: FixedBits, blockBits: nat, setBits: nat, tagBits: nat) returns (i: nat)
    requires FixedBitsWellFormed(fb) && fb.nBits <= setBits <= 32 && blockBits + setBits <= 64
    ensures i == IntraLocation(FixedAddress(addr, fb, blockBits, setBits), blockBits, setBits, tagBits).setIndex
    ensures i / Pow2(setBits - fb.nBits) == Pattern(fb)
  {
    FixedAddressInPartition(addr, fb, blockBits, setBits, tagBits);
    i := IntraLocation(FixedAddress(addr, fb, blockBits, setBits), blockBits, setBits, tagBits).setIndex;
  }

  /** Two indices that start with patterns p1 (n1 bits) and p2 (n2 >= n1
      bits) are different when p1 is not the top n1 bits of p2: the top n1
      bits of an index are the top n1 bits of its top n2 bits. */
  lemma PrefixesDiffer(i1: nat, i2: nat, s: nat, n1: nat, n2: nat, p1: nat, p2: nat)
    requires n1 <= n2 <= s
    requires i1 / Pow2(s - n1) == p1 && i2 / Pow2(s - n2) == p2 && p1 != p2 / Pow2(n2 - n1)
    ensures i1 != i2
  {
    DivDiv(i2, Pow2(s - n2), Pow2(n2 - n1));
    Pow2Add(s - n2, n2 - n1);
    assert s - n2 + (n2 - n1) == s - n1;
  }

  // ---------------------------------------------------------------------------
  // Per-client counters
  // ---------------------------------------------------------------------------

  /** One entry of `stats`: (misses, hits), both uint32. */
  datatype ClientStats = ClientStats(misses: nat, hits: nat)

  /** One access counted for a client. */
  function Tally(s: ClientStats, hit: bool): (r: ClientStats)
    ensures hit ==> r == ClientStats(s.misses, Inc32(s.hits))
    ensures !hit ==> r == ClientStats(Inc32(s.misses), s.hits)
  {
    if hit then s.(hits := Inc32(s.hits)) else s.(misses := Inc32(s.misses))
  }

  function StatMisses(stats: seq<ClientStats>): (r: seq<nat>)
    ensures |r| == |stats| && forall k :: 0 <= k < |stats| ==> r[k] == stats[k].misses
  {
    seq(|stats|, k requires 0 <= k < |stats| => stats[k].misses)
  }

  function StatHits(stats: seq<ClientStats>): (r: seq<nat>)
    ensures |r| == |stats| && forall k :: 0 <= k < |stats| ==> r[k] == stats[k].hits
  {
    seq(|stats|, k requires 0 <= k < |stats| => stats[k].hits)
  }

  /** The per-client counters account for every access of the shared
      cache: they add up (modulo 2^32) to its hit and miss counters. */
  ghost predicate StatsAccountFor(stats: seq<ClientStats>, c: CacheState)
  {
    Sum(StatMisses(stats)) % U32 == c.misses && Sum(StatHits(stats)) % U32 == c.hits
  }

  /** Counting an access for one client keeps the totals in step with the
      shared cache, which counted it too. */
  lemma TallyKeepsTotals(stats: seq<ClientStats>, client: nat, hit: bool, c: CacheState, c2: CacheState)
    requires client < |stats| && StatsAccountFor(stats, c)
    requires c2.hits == (if hit then Inc32(c.hits) else c.hits)
    requires c2.misses == (if hit then c.misses else Inc32(c.misses))
    ensures StatsAccountFor(stats[client := Tally(stats[client], hit)], c2)
  {
    var s := stats[client];
    var after := stats[client := Tally(s, hit)];
    var m, h := StatMisses(stats), StatHits(stats);
    assert StatMisses(after) == m[client := Tally(s, hit).misses];
    assert StatHits(after) == h[client := Tally(s, hit).hits];
    SumUpdate(m, client, Tally(s, hit).misses);
    SumUpdate(h, client, Tally(s, hit).hits);
    if hit {
      Inc32Step(s.hits, Sum(h) - h[client]);
      ModAddLeft(Sum(h), 1, U32);
    } else {
      Inc32Step(s.misses, Sum(m) - m[client]);
      ModAddLeft(Sum(m), 1, U32);
    }
  }

  /** Zeroed counters account for a cache that has counted nothing. */
  lemma {:induction false} ZeroStatsAccount(clients: nat, c: CacheState)
    requires c.hits == 0 && c.misses == 0
    ensures StatsAccountFor(seq(clients, _ => ClientStats(0, 0)), c)
  {
    if clients > 0 {
      var zs := seq(clients, _ => ClientStats(0, 0));
      ZeroStatsAccount(clients - 1, c);
      assert StatMisses(zs)[..clients - 1] == StatMisses(seq(clients - 1, _ => ClientStats(0, 0)));
      assert StatHits(zs)[..clients - 1] == StatHits(seq(clients - 1, _ => ClientStats(0, 0)));
    }
  }

  // ---------------------------------------------------------------------------
  // One access, on values
  // ---------------------------------------------------------------------------

  /** The shared cache and the per-client counters. */
  datatype IntraState = IntraState(cache: CacheState, stats: seq<ClientStats>)

  /** `access` as written: the address is rewritten at the wrong position,
      the shared cache is accessed with its as-written lookup, and `stats`
      is left alone.  The cache keeps its shape and counts the access once. */
  function IntraAccessAsWritten(st: IntraState, fb: FixedBits, blockBits: nat, tagBits: nat,
                                addr: nat, write: bool): (r: IntraState)
    requires CacheWellFormed(st.cache) && |st.cache.sets| >= 1
    requires FixedBitsWellFormed(fb) && FloorLog2(|st.cache.sets|) + fb.nBits <= 32
    ensures r.stats == st.stats
    ensures CacheWellFormed(r.cache) && |r.cache.sets| == |st.cache.sets|
    ensures CacheCountsOneAccess(st.cache, r.cache)
  {
    var setBits := FloorLog2(|st.cache.sets|);
    var loc := IntraLocation(FixedAddressAsWritten(addr, fb, setBits), blockBits, setBits, tagBits);
    IntraLocationInRange(FixedAddressAsWritten(addr, fb, setBits), blockBits, |st.cache.sets|, tagBits);
    CacheAccessFrame(st.cache, loc, write, false);
    CacheAccessCountsOnce(st.cache, loc, write);
    IntraState(CacheAccessAsWritten(st.cache, loc, write), st.stats)
  }

  /** As written, the counters `misses` and `hits` report never move: a
      client that has just missed in the shared cache still reads zero. */
  lemma StatsFrozenAsWritten(st: IntraState, fb: FixedBits, blockBits: nat, tagBits: nat,
                             client: nat, addr: nat, write: bool)
    requires CacheWellFormed(st.cache) && |st.cache.sets| >= 1
    requires FixedBitsWellFormed(fb) && FloorLog2(|st.cache.sets|) + fb.nBits <= 32
    requires client < |st.stats| && st.stats[client] == ClientStats(0, 0) && StatsAccountFor(st.stats, st.cache)
    ensures var after := IntraAccessAsWritten(st, fb, blockBits, tagBits, addr, write);
            after.stats[client] == ClientStats(0, 0) && !StatsAccountFor(after.stats, after.cache)
  {
    var setBits := FloorLog2(|st.cache.sets|);
    var loc := IntraLocation(FixedAddressAsWritten(addr, fb, setBits), blockBits, setBits, tagBits);
    IntraLocationInRange(FixedAddressAsWritten(addr, fb, setBits), blockBits, |st.cache.sets|, tagBits);
    Inc32Changes(st.cache.hits);
    Inc32Changes(st.cache.misses);
  }

  /** The location a client's address maps to in the corrected `access`:
      the set-index field of the rewritten address names an existing set. */
  function ClientLocation(c: CacheState, fb: FixedBits, blockBits: nat, tagBits: nat, addr: nat): (loc: LocationInfo)
    requires |c.sets| >= 1 && FixedBitsWellFormed(fb) && fb.nBits <= FloorLog2(|c.sets|)
    requires blockBits + FloorLog2(|c.sets|) <= 64
    ensures loc.setIndex < |c.sets| && loc.tag < U32
  {
    var v := FixedAddress(addr, fb, blockBits, FloorLog2(|c.sets|));
    IntraLocationInRange(v, blockBits, |c.sets|, tagBits);
    IntraLocation(v, blockBits, FloorLog2(|c.sets|), tagBits)
  }

  /** ClientLocation in terms of the set count alone. */
  lemma ClientLocationOfSets(c: CacheState, fb: FixedBits, blockBits: nat, tagBits: nat, addr: nat, sets: nat)
    requires |c.sets| == sets >= 1 && FixedBitsWellFormed(fb) && fb.nBits <= FloorLog2(sets)
    requires blockBits + FloorLog2(sets) <= 64
    ensures ClientLocation(c, fb, blockBits, tagBits, addr)
            == IntraLocation(FixedAddress(addr, fb, blockBits, FloorLog2(sets)), blockBits, FloorLog2(sets), tagBits)
  {
  }

  /** `access` corrected: the table entry fixes the top bits of the set
      index, the shared cache is accessed, and the hit or miss is counted
      for the client. */
  function IntraAccess(st: IntraState, fb: FixedBits, blockBits: nat, tagBits: nat,
                       client: nat, addr: nat, write: bool): (r: IntraState)
    requires CacheWellFormed(st.cache) && |st.cache.sets| >= 1 && client < |st.stats|
    requires FixedBitsWellFormed(fb) && fb.nBits <= FloorLog2(|st.cache.sets|)
    requires blockBits + FloorLog2(|st.cache.sets|) <= 64
    ensures |r.stats| == |st.stats| && CacheWellFormed(r.cache) && |r.cache.sets| == |st.cache.sets|
    ensures forall k :: 0 <= k < |st.stats| && k != client ==> r.stats[k] == st.stats[k]
  {
    IntraStep(st, ClientLocation(st.cache, fb, blockBits, tagBits, addr), client, write)
  }

  /** The shared cache accessed at `loc`, the outcome counted for `client`. */
  function IntraStep(st: IntraState, loc: LocationInfo, client: nat, write: bool): (r: IntraState)
    requires CacheWellFormed(st.cache) && loc.setIndex < |st.cache.sets| && client < |st.stats|
    ensures |r.stats| == |st.stats| && CacheWellFormed(r.cache) && |r.cache.sets| == |st.cache.sets|
    ensures forall k :: 0 <= k < |st.stats| && k != client ==> r.stats[k] == st.stats[k]
  {
    CacheAccessFrame(st.cache, loc, write, true);
    var hit := SetAccess(st.cache.sets[loc.setIndex], loc.tag, write).hit;
    IntraState(CacheAccess(st.cache, loc, write), st.stats[client := Tally(st.stats[client], hit)])
  }

  /** Corrected: the counters keep accounting for every access, and only
      the accessing client's counters move, by one access. */
  lemma IntraAccessAccounts(st: IntraState, fb: FixedBits, blockBits: nat, tagBits: nat,
                            client: nat, addr: nat, write: bool)
    requires CacheWellFormed(st.cache) && |st.cache.sets| >= 1 && client < |st.stats|
    requires FixedBitsWellFormed(fb) && fb.nBits <= FloorLog2(|st.cache.sets|)
    requires blockBits + FloorLog2(|st.cache.sets|) <= 64
    requires StatsAccountFor(st.stats, st.cache)
    ensures var r := IntraAccess(st, fb, blockBits, tagBits, client, addr, write);
            StatsAccountFor(r.stats, r.cache)
            && (forall k :: 0 <= k < |st.stats| && k != client ==> r.stats[k] == st.stats[k])
            && CountsOneAccess(st.stats[client], r.stats[client])
  {
    var loc := ClientLocation(st.cache, fb, blockBits, tagBits, addr);
    assert IntraAccess(st, fb, blockBits, tagBits, client, addr, write) == IntraStep(st, loc, client, write);
    IntraStepAccounts(st, loc, client, write);
  }

  /** One counted access at any location keeps the counters accounting for
      the shared cache and moves the client's counters by one access. */
  lemma IntraStepAccounts(st: IntraState, loc: LocationInfo, client: nat, write: bool)
    requires CacheWellFormed(st.cache) && loc.setIndex < |st.cache.sets| && client < |st.stats|
    requires StatsAccountFor(st.stats, st.cache)
    ensures var r := IntraStep(st, loc, client, write);
            StatsAccountFor(r.stats, r.cache)
            && CountsOneAccess(st.stats[client], r.stats[client])
  {
    var c2 := CacheAccess(st.cache, loc, write);
    var hit := SetAccess(st.cache.sets[loc.setIndex], loc.tag, write).hit;
    assert c2 == CacheAccessWith(st.cache, loc, write, true);
    assert hit == SetAccessWith(st.cache.sets[loc.setIndex], loc.tag, write, true).hit;
    TallyKeepsTotals(st.stats, client, hit, st.cache, c2);
    TallyCountsOnce(st.stats[client], hit);
  }

  /** Between `before` and `after` a client's counters, taken together,
      moved by exactly one access (modulo 2^32). */
  ghost predicate CountsOneAccess(before: ClientStats, after: ClientStats)
  {
    (after.hits + after.misses) % U32 == (before.hits + before.misses + 1) % U32
  }

  /** A tally moves exactly one of the two counters, by one. */
  lemma TallyCountsOnce(s: ClientStats, hit: bool)
    ensures CountsOneAccess(s, Tally(s, hit))
  {
    if hit {
      Inc32Step(s.hits, s.misses);
    } else {
      Inc32Step(s.misses, s.hits);
    }
  }

  // ---------------------------------------------------------------------------
  // The class
  // ---------------------------------------------------------------------------

  class IntraNodePartitioning {
    /** The cache all clients share. */
    const cache: Cache
    /** One `fixed_bits_t` per client. */
    const auxTable: seq<FixedBits>
    /** (misses, hits) per client.  Nothing in the class updates it. */
    var stats: seq<ClientStats>

    /** The parts of validity that only involve constant fields. */
    ghost predicate Shape()
    {
      this !in cache.Repr && cache.blockSize >= 1 && cache.sets >= 1
      && (forall i :: 0 <= i < |auxTable| ==> FixedBitsWellFormed(auxTable[i]))
    }

    /** The counters keep the zeros the constructor gave them. */
    ghost predicate Valid()
      reads this, cache, cache.Repr
    {
      Shape() && cache.Valid() && forall k :: 0 <= k < |stats| ==> stats[k] == ClientStats(0, 0)
    }

    ghost function Abs(): IntraState
      reads this, cache
    {
      IntraState(cache.Abs(), stats)
    }

    /** The shared cache is built with the three-argument `Cache`
        constructor; every client starts at (0, 0). */
    constructor (clients: nat, cacheSize: nat, assoc: nat, blockSize: nat, auxTable: seq<FixedBits>)
      requires ValidGeometry(cacheSize, assoc, blockSize)
      requires forall i :: 0 <= i < |auxTable| ==> FixedBitsWellFormed(auxTable[i])
      ensures Valid() && fresh(cache) && fresh(cache.Repr) && this.auxTable == auxTable
      ensures cache.sets == GeometrySets(cacheSize, assoc, blockSize) && cache.blockSize == blockSize
      ensures Abs() == IntraState(CacheState(seq(cache.sets, _ => FreshSet(assoc)), 0, 0),
                                  seq(clients, _ => ClientStats(0, 0)))
    {
      cache := new Cache(cacheSize, assoc, blockSize);
      this.auxTable := auxTable;
      stats := seq(clients, _ => ClientStats(0, 0));
    }

    /** The address rewrite of `access`: a bitset of the address, then one
        position per iteration, from set_bits up to set_bits + n, copied from
        the same position of the client's bitset. */
    method FixAddress(client: nat, addr: nat) returns (v: nat)
      requires Valid() && client < |auxTable| && FloorLog2(cache.sets) + auxTable[client].nBits <= 32
      ensures v == FixedAddressAsWritten(addr, auxTable[client], FloorLog2(cache.sets))
    {
      var fb := auxTable[client];
      var setBits := FloorLog2(cache.sets);
      var baddr := ToBits(addr, 64);
      ghost var orig := baddr;
      var i := setBits;
      while i < setBits + fb.nBits
        invariant setBits <= i <= setBits + fb.nBits
        invariant baddr == Splice(orig, setBits, fb.bits, setBits, i - setBits)
      {
        baddr := baddr[i := fb.bits[i]];
        i := i + 1;
      }
      v := FromBits(baddr);
    }

    /** `IntraNodePartitioning::access(client_id, addr, write)`: the shared
        cache is accessed at the location of the rewritten address; the
        per-client counters are left alone. */
    method Access(client: nat, addr: nat, write: bool)
      requires Valid() && client < |auxTable| && FloorLog2(cache.sets) + auxTable[client].nBits <= 32
      modifies cache, cache.Repr
      ensures Valid() && CacheWellFormed(old(Abs()).cache) && |old(Abs()).cache.sets| == cache.sets
      ensures Abs() == IntraAccessAsWritten(old(Abs()), auxTable[client], FloorLog2(cache.blockSize),
                                            cache.tagBits, addr, write)
    {
      var v := FixAddress(client, addr);
      var blockBits := FloorLog2(cache.blockSize);
      var setBits := FloorLog2(cache.sets);
      var loc := IntraLocation(v, blockBits, setBits, cache.tagBits);
      IntraLocationInRange(v, blockBits, cache.sets, cache.tagBits);
      cache.AbsWellFormed();
      cache.Access(loc, write);
    }

    /** `IntraNodePartitioning::read(client_id, addr)`. */
    method Read(client: nat, addr: nat)
      requires Valid() && client < |auxTable| && FloorLog2(cache.sets) + auxTable[client].nBits <= 32
      modifies cache, cache.Repr
      ensures Valid() && CacheWellFormed(old(Abs()).cache) && |old(Abs()).cache.sets| == cache.sets
      ensures Abs() == IntraAccessAsWritten(old(Abs()), auxTable[client], FloorLog2(cache.blockSize),
                                            cache.tagBits, addr, false)
    {
      Access(client, addr, false);
    }

    /** `IntraNodePartitioning::write(client_id, addr)`: unlike `Cache::write`
        this passes write = true, so the line is marked dirty. */
    method Write(client: nat, addr: nat)
      requires Valid() && client < |auxTable| && FloorLog2(cache.sets) + auxTable[client].nBits <= 32
      modifies cache, cache.Repr
      ensures Valid() && CacheWellFormed(old(Abs()).cache) && |old(Abs()).cache.sets| == cache.sets
      ensures Abs() == IntraAccessAsWritten(old(Abs()), auxTable[client], FloorLog2(cache.blockSize),
                                            cache.tagBits, addr, true)
    {
      Access(client, addr, true);
    }

    /** `IntraNodePartitioning::misses(client_id)`: the first of the pair,
        which stays zero. */
    function Misses(client: nat): (r: nat)
      requires client < |stats|
      reads this, cache, cache.Repr
      ensures r == Abs().stats[client].misses
      ensures Valid() ==> r == 0
    {
      stats[client].misses
    }

    /** `IntraNodePartitioning::hits(client_id)`: the second of the pair,
        which stays zero. */
    function Hits(client: nat): (r: nat)
      requires client < |stats|
      reads this, cache, cache.Repr
      ensures r == Abs().stats[client].hits
      ensures Valid() ==> r == 0
    {
      stats[client].hits
    }
  }
}
