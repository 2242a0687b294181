/**
 * Splitting a physical address into block offset, set index and tag, as
 * `Cache::mask`, `Cache::compute_location_info` and `Cache::is_power_of_2`
 * do.  Each field is a shift followed by an `&` with `mask(bits)`.  That
 * mask is accumulated in a 32-bit `int`, so it never holds more than 32
 * ones.
 */
module Address {
  import opened Bits

  /** Set index and tag of an address, as handed to `Cache::access`. */
  datatype LocationInfo = LocationInfo(setIndex: nat, tag: nat)

  /** `Cache::mask(bits)`: shifts in one bit per iteration.  The running
      value is a 32-bit integer, so each step is taken modulo 2^32. */
  method Mask(bits: nat) returns (r: nat)
    ensures r == AllOnes(bits)
    ensures r < U32
  {
    var result := 0;
    var i := 0;
    while i < bits
      invariant i <= bits
      invariant result == AllOnes(i)
    {
      AllOnesStep(i);
      result := (result * 2 + 1) % U32;
      i := i + 1;
    }
    AllOnesBelow(bits);
    r := result;
  }

  lemma AllOnesBelow(n: nat)
    ensures AllOnes(n) < U32
  {
    Pow2Monotone(Min(n, 32), 32);
    Pow2Is32();
  }

  /** One iteration of the mask loop: shift left, or in a one, keep 32 bits. */
  lemma AllOnesStep(i: nat)
    ensures AllOnes(i + 1) == (AllOnes(i) * 2 + 1) % U32
  {
    Pow2Is32();
    if i < 32 {
      Pow2Monotone(i + 1, 32);
      assert AllOnes(i + 1) == 2 * Pow2(i) - 1;
    }
  }

  /** The static `compute_location_info(addr, block_size, sets, tag_bits)`:
      the set index is the log2(sets) bits above the block offset and the
      tag is the next tag_bits bits, each cut down by the 32-bit mask.  The
      set index always names an existing set (sets need not be a power of
      two: the index keeps floor(log2(sets)) bits), and the tag fits both
      its mask and the 32-bit tag field of a cache line. */
  function LocationOf(addr: nat, blockSize: nat, sets: nat, tagBits: nat): (loc: LocationInfo)
    requires blockSize >= 1 && sets >= 1
    ensures loc.setIndex < sets
    ensures loc.tag < Pow2(Min(tagBits, 32)) && loc.tag < U32
  {
    var blockBits := FloorLog2(blockSize);
    var setBits := FloorLog2(sets);
    MaskedBelow(Shr(addr, blockBits), setBits);
    Pow2Monotone(Min(setBits, 32), setBits);
    MaskedBelow(Shr(addr, blockBits + setBits), tagBits);
    LocationInfo(BitAnd(Shr(addr, blockBits), AllOnes(setBits)),
                 BitAnd(Shr(addr, blockBits + setBits), AllOnes(tagBits)))
  }

  /** A value cut down by `mask(n)` is below 2^min(n, 32), hence below 2^32. */
  lemma MaskedBelow(x: nat, n: nat)
    ensures BitAnd(x, AllOnes(n)) < Pow2(Min(n, 32))
    ensures BitAnd(x, AllOnes(n)) < U32
  {
    BitAndAllOnes(x, n);
    ModLessPow2(x, Min(n, 32));
    AllOnesBelow(n);
  }

  /** Addresses inside one block share set index and tag: the location only
      depends on the address shifted past the block offset. */
  lemma SameBlockSameLocation(a1: nat, a2: nat, blockSize: nat, sets: nat, tagBits: nat)
    requires blockSize >= 1 && sets >= 1
    requires Shr(a1, FloorLog2(blockSize)) == Shr(a2, FloorLog2(blockSize))
    ensures LocationOf(a1, blockSize, sets, tagBits) == LocationOf(a2, blockSize, sets, tagBits)
  {
    var b := FloorLog2(blockSize);
    var s := FloorLog2(sets);
    ShrShr(a1, b, s);
    ShrShr(a2, b, s);
  }

  lemma DivBelow(x: nat, a: nat, m: nat)
    requires a >= 1 && x < a * m
    ensures x / a < m
  {
  }

  lemma Recombine(x: nat, p: nat, q: nat)
    requires p >= 1 && q >= 1
    ensures x / p == (x / p / q) * q + x / p % q
    ensures x == ((x / p / q) * q + x / p % q) * p + x % p
  {
  }

  /** When every field fits its 32-bit mask and the address has no bits above
      the tag, the block number is the tag followed by the set index, and
      offset, set index and tag put back together give the address. */
  lemma LocationDecompose(addr: nat, blockSize: nat, sets: nat, tagBits: nat)
    requires blockSize >= 1 && sets >= 1
    requires FloorLog2(sets) <= 32 && tagBits <= 32
    requires addr < Pow2(FloorLog2(blockSize) + FloorLog2(sets) + tagBits)
    ensures var loc := LocationOf(addr, blockSize, sets, tagBits);
            Shr(addr, FloorLog2(blockSize)) == loc.tag * Pow2(FloorLog2(sets)) + loc.setIndex
    ensures var loc := LocationOf(addr, blockSize, sets, tagBits);
            addr == (loc.tag * Pow2(FloorLog2(sets)) + loc.setIndex) * Pow2(FloorLog2(blockSize))
                    + addr % Pow2(FloorLog2(blockSize))
  {
    var b := FloorLog2(blockSize);
    var s := FloorLog2(sets);
    var loc := LocationOf(addr, blockSize, sets, tagBits);
    var block := Shr(addr, b);
    SetIndexIsLow(block, s);
    TagIsHigh(addr, b, s, tagBits);
    assert loc.setIndex == block % Pow2(s) && loc.tag == block / Pow2(s);
    assert block == addr / Pow2(b);
    Recombine(addr, Pow2(b), Pow2(s));
  }

  /** The set-index field keeps the low s bits of the block number. */
  lemma SetIndexIsLow(block: nat, s: nat)
    requires s <= 32
    ensures BitAnd(block, AllOnes(s)) == block % Pow2(s)
  {
    BitAndAllOnes(block, s);
    assert Min(s, 32) == s;
  }

  /** When the address has no bits above the tag, the tag field is the block
      number with its s set-index bits shifted out. */
  lemma TagIsHigh(addr: nat, b: nat, s: nat, tagBits: nat)
    requires tagBits <= 32 && addr < Pow2(b + s + tagBits)
    ensures BitAnd(Shr(addr, b + s), AllOnes(tagBits)) == Shr(addr, b) / Pow2(s)
  {
    var high := Shr(addr, b + s);
    ShrShr(addr, b, s);
    Pow2Add(b + s, tagBits);
    DivBelow(addr, Pow2(b + s), Pow2(tagBits));
    DivModUnique(high, Pow2(tagBits), 0, high);
    BitAndAllOnes(high, tagBits);
    assert Min(tagBits, 32) == tagBits;
  }

  /** Two addresses in different blocks, both below the covered width, get
      different (set index, tag) pairs: the location identifies the block. */
  lemma DistinctBlocksDistinctLocations(a1: nat, a2: nat, blockSize: nat, sets: nat, tagBits: nat)
    requires blockSize >= 1 && sets >= 1
    requires FloorLog2(sets) <= 32 && tagBits <= 32
    requires a1 < Pow2(FloorLog2(blockSize) + FloorLog2(sets) + tagBits)
    requires a2 < Pow2(FloorLog2(blockSize) + FloorLog2(sets) + tagBits)
    requires Shr(a1, FloorLog2(blockSize)) != Shr(a2, FloorLog2(blockSize))
    ensures LocationOf(a1, blockSize, sets, tagBits) != LocationOf(a2, blockSize, sets, tagBits)
  {
    LocationDecompose(a1, blockSize, sets, tagBits);
    LocationDecompose(a2, blockSize, sets, tagBits);
  }

  /** `Cache::is_power_of_2(x)` on a uint64: x & (x - 1) == 0, where x - 1
      wraps to 2^64 - 1 for x == 0.  It accepts exactly the powers of two,
      and zero. */
  function IsPowerOf2(x: nat): (r: bool)
    requires x < U64
    ensures r <==> x == 0 || PowerOfTwo(x)
  {
    if x >= 1 then
      assert (x + U64 - 1) % U64 == x - 1;
      BitAndPredecessor(x);
      BitAnd(x, (x + U64 - 1) % U64) == 0
    else
      BitAnd(x, (x + U64 - 1) % U64) == 0
  }
}
