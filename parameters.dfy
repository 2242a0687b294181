/** The compile-time parameters of the recording plugin. */
module Parameters {
  import opened Bits

  /** Number of QEMU vCPUs. */
  const CoreCount: nat := 2
  /** Bytes per cache line. */
  const CacheLineSize: nat := 64
  /** The private cache: 16 ways, 2048 sets. */
  const PrivateCacheAssoc: nat := 16
  const PrivateCacheSets: nat := 2048
  /** The shared cache: 16 ways, 2^20 sets. */
  const SharedCacheAssoc: nat := 16
  const SharedCacheSets: nat := 1024 * 1024

  /** `CACHE_LINE_SIZE.trailing_zeros()`. */
  const LineShift: nat := 6

  /** The line size is 2^LineShift and both set counts are powers of two. */
  lemma ParametersArePowersOfTwo()
    ensures Pow2(LineShift) == CacheLineSize
    ensures PowerOfTwo(PrivateCacheSets) && PowerOfTwo(SharedCacheSets)
  {
    assert Pow2(LineShift) == 64;
    assert Pow2(11) == 2048 by {
      assert Pow2(10) == 1024 by {
        assert Pow2(8) == 256;
      }
    }
    Pow2IsPowerOfTwo(11);
    Pow2Add(10, 10);
    assert Pow2(10) == 1024 by {
      assert Pow2(8) == 256;
    }
    Pow2IsPowerOfTwo(20);
  }
}
