/**
 * Partitionings of a last-level cache between clients.
 *
 * `WayPartitioning` gives every client a cache of its own, with its own
 * associativity.  `InterNodePartitioning` gives every client a list of
 * cache slices (memory nodes) and picks the slice from address bits above
 * the block offset.  Both are collections of `Cache` objects updated in
 * place; every cache owns its arrays, and no two caches share any.
 */
module Partitioning {
  import opened Bits
  import opened Address
  import opened CacheSets
  import opened Caches
  import opened Wrappers

  // ---------------------------------------------------------------------------
  // Way partitioning
  // ---------------------------------------------------------------------------

  /** `n` fresh caches of the same geometry, each with its own arrays. */
  method NewCaches(n: nat, cacheSize: nat, assoc: nat, blockSize: nat)
    returns (cs: seq<Cache>, ghost repr: set<object>)
    requires n > 0 ==> ValidGeometry(cacheSize, assoc, blockSize)
    ensures |cs| == n && fresh(repr)
    ensures forall i :: 0 <= i < n ==>
              cs[i] in repr && cs[i].Repr <= repr && cs[i].Valid()
              && cs[i].Abs() == FreshCache(cs[i].sets, assoc)
              && cs[i].blockSize == blockSize && cs[i].sets == GeometrySets(cacheSize, assoc, blockSize)
    ensures forall i, j :: 0 <= i < n && 0 <= j < n && i != j ==>
              cs[i] != cs[j] && cs[i] !in cs[j].Repr && cs[i].Repr !! cs[j].Repr
  {
    cs, repr := [], {};
    while |cs| < n
      invariant |cs| <= n && fresh(repr)
      invariant forall i :: 0 <= i < |cs| ==>
                  cs[i] in repr && cs[i].Repr <= repr && cs[i].Valid()
                  && cs[i].Abs() == FreshCache(cs[i].sets, assoc)
                  && cs[i].blockSize == blockSize && cs[i].sets == GeometrySets(cacheSize, assoc, blockSize)
      invariant forall i, j :: 0 <= i < |cs| && 0 <= j < |cs| && i != j ==>
                  cs[i] != cs[j] && cs[i] !in cs[j].Repr && cs[i].Repr !! cs[j].Repr
    {
      var c := new Cache(cacheSize, assoc, blockSize);
      cs, repr := cs + [c], repr + {c} + c.Repr;
    }
  }

  class WayPartitioning {
    /** One cache per client. */
    const caches: seq<Cache>
    ghost const Repr: set<object>
    ghost var model: seq<CacheState>

    ghost predicate Valid()
      reads this`model, Repr
    {
      |model| == |caches|
      && (forall i :: 0 <= i < |caches| ==>
            caches[i] in Repr && caches[i].Repr <= Repr && this !in caches[i].Repr
            && caches[i].Valid() && caches[i].Abs() == model[i])
      && (forall i, j :: 0 <= i < |caches| && 0 <= j < |caches| && i != j ==>
            caches[i] != caches[j] && caches[i] !in caches[j].Repr && caches[i].Repr !! caches[j].Repr)
    }

    /** One cache of `sliceSize` bytes per entry of `nWays`, with that many
        ways.  A geometry the cache constructor rejects is excluded. */
    constructor (nWays: seq<nat>, sliceSize: nat, blockSize: nat)
      requires forall i :: 0 <= i < |nWays| ==> ValidGeometry(sliceSize, nWays[i], blockSize)
      ensures Valid() && fresh(Repr) && |caches| == |nWays|
      ensures forall i :: 0 <= i < |nWays| ==>
                caches[i].assoc == nWays[i] && caches[i].sets == GeometrySets(sliceSize, nWays[i], blockSize)
                && model[i] == FreshCache(caches[i].sets, nWays[i])
    {
      var cs: seq<Cache> := [];
      ghost var repr: set<object> := {};
      ghost var states: seq<CacheState> := [];
      while |cs| < |nWays|
        invariant |cs| <= |nWays| && fresh(repr) && |states| == |cs|
        invariant forall i :: 0 <= i < |cs| ==> states[i] == cs[i].Abs()
        invariant forall i :: 0 <= i < |cs| ==>
                    cs[i] in repr && cs[i].Repr <= repr && cs[i].Valid()
                    && cs[i].assoc == nWays[i] && cs[i].sets == GeometrySets(sliceSize, nWays[i], blockSize)
                    && cs[i].Abs() == FreshCache(cs[i].sets, nWays[i])
        invariant forall i, j :: 0 <= i < |cs| && 0 <= j < |cs| && i != j ==>
                    cs[i] != cs[j] && cs[i] !in cs[j].Repr && cs[i].Repr !! cs[j].Repr
      {
        var c := new Cache(sliceSize, nWays[|cs|], blockSize);
        cs, repr, states := cs + [c], repr + {c} + c.Repr, states + [c.Abs()];
      }
      caches, Repr := cs, repr;
      model := states;
    }

    /** `WayPartitioning::read(client_id, addr)`: a read of the client's own
        cache; no other cache changes. */
    method Read(client: nat, addr: nat)
      requires Valid() && client < |caches|
      modifies this`model, Repr
      ensures Valid()
      ensures CacheWellFormed(old(model[client]))
      ensures caches[client].LocationInfoOf(addr).setIndex < |old(model[client]).sets|
      ensures model == old(model)[client := CacheAccessAsWritten(old(model[client]), caches[client].LocationInfoOf(addr), false)]
    {
      var c := caches[client];
      c.Read(addr);
      Resync(client);
    }

    /** `WayPartitioning::write(client_id, addr)`: a write of the client's
        own cache, which as written is counted like a read. */
    method Write(client: nat, addr: nat)
      requires Valid() && client < |caches|
      modifies this`model, Repr
      ensures Valid()
      ensures CacheWellFormed(old(model[client]))
      ensures caches[client].LocationInfoOf(addr).setIndex < |old(model[client]).sets|
      ensures model == old(model)[client := CacheAccessAsWritten(old(model[client]), caches[client].LocationInfoOf(addr), false)]
    {
      var c := caches[client];
      c.Write(addr);
      Resync(client);
    }

    /** After the cache of `client` changed on its own, the model takes its
        new contents; the other caches are untouched. */
    method Resync(client: nat)
      requires client < |caches| && |model| == |caches|
      requires forall i :: 0 <= i < |caches| ==> caches[i] in Repr && caches[i].Repr <= Repr && this !in caches[i].Repr
      requires forall i, j :: 0 <= i < |caches| && 0 <= j < |caches| && i != j ==>
                 caches[i] != caches[j] && caches[i] !in caches[j].Repr && caches[i].Repr !! caches[j].Repr
      requires caches[client].Valid()
      requires forall i :: 0 <= i < |caches| && i != client ==> caches[i].Valid() && caches[i].Abs() == model[i]
      modifies this`model
      ensures Valid() && model == old(model)[client := caches[client].Abs()]
    {
      model := model[client := caches[client].Abs()];
    }

    /** `WayPartitioning::misses(client_id)`. */
    function Misses(client: nat): (r: nat)
      requires Valid() && client < |caches|
      reads this, Repr
      ensures r == model[client].misses
    {
      caches[client].misses
    }

    /** `WayPartitioning::hits(client_id)`. */
    function Hits(client: nat): (r: nat)
      requires Valid() && client < |caches|
      reads this, Repr
      ensures r == model[client].hits
    {
      caches[client].hits
    }
  }

  /** One access through a client counts exactly once, in that client's
      cache (hits plus misses grow by one modulo 2^32), and every other
      client's cache is as it was. */
  lemma WayAccessCountsOnce(before: seq<CacheState>, client: nat, loc: LocationInfo, write: bool)
    requires client < |before| && CacheWellFormed(before[client]) && loc.setIndex < |before[client].sets|
    ensures var after := before[client := CacheAccessAsWritten(before[client], loc, write)];
            (after[client].hits + after[client].misses) % U32
            == (before[client].hits + before[client].misses + 1) % U32
            && forall other :: 0 <= other < |before| && other != client ==> after[other] == before[other]
  {
    CacheAccessCountsOnce(before[client], loc, write);
  }

  /** One access of a single cache, with the as-written lookup, adds exactly
      one (modulo 2^32) to its hits plus misses. */
  lemma CacheAccessCountsOnce(c: CacheState, loc: LocationInfo, write: bool)
    requires CacheWellFormed(c) && loc.setIndex < |c.sets|
    ensures var c2 := CacheAccessAsWritten(c, loc, write);
            CacheCountsOneAccess(c, c2)
  {
    if SetAccessAsWritten(c.sets[loc.setIndex], loc.tag, write).hit {
      Inc32Step(c.hits, c.misses);
    } else {
      Inc32Step(c.misses, c.hits);
    }
  }

  /** Between `before` and `after` a cache's hit and miss counters, taken
      together, moved by exactly one access (modulo 2^32). */
  ghost predicate CacheCountsOneAccess(before: CacheState, after: CacheState)
  {
    (after.hits + after.misses) % U32 == (before.hits + before.misses + 1) % U32
  }

  /** A uint32 counter always changes when it is incremented. */
  lemma Inc32Changes(x: nat)
    ensures Inc32(x) != x
  {
    if x + 1 < U32 {
    } else {
      assert Inc32(x) == (x + 1) % U32;
    }
  }

  // ---------------------------------------------------------------------------
  // Inter-node partitioning
  // ---------------------------------------------------------------------------

  /** `bits_to_represent(n)`: the number of binary digits of n (0 for 0). */
  function BitsToRepresent(n: nat): (r: nat)
    ensures n < Pow2(r)
    ensures n > 0 ==> r >= 1 && Pow2(r - 1) <= n
  {
    if n > 0 then 1 + BitsToRepresent(n / 2) else 0
  }

  /** The slice an address goes to: the address bits just above the block
      offset, as many as it takes to write the number of clients, reduced
      modulo the number of slices of the client. */
  function SliceIndex(addr: nat, blockSize: nat, clients: nat, slices: nat): (k: nat)
    requires blockSize >= 1 && slices >= 1
    ensures k < slices
  {
    BitAnd(Shr(addr, FloorLog2(blockSize)), AllOnes(BitsToRepresent(clients))) % slices
  }

  /** Only the address bits just above the block offset choose the slice:
      as many of them as it takes to write the number of clients (at most
      32, the width of `mask`), read as a number and reduced modulo the
      slice count.  Addresses that agree on those bits share a slice. */
  lemma SliceChosenBySelectionBits(a1: nat, a2: nat, blockSize: nat, clients: nat, slices: nat)
    requires blockSize >= 1 && slices >= 1
    ensures var field := Pow2(Min(BitsToRepresent(clients), 32));
            SliceIndex(a1, blockSize, clients, slices) == Shr(a1, FloorLog2(blockSize)) % field % slices
    ensures var field := Pow2(Min(BitsToRepresent(clients), 32));
            Shr(a1, FloorLog2(blockSize)) % field == Shr(a2, FloorLog2(blockSize)) % field
            ==> SliceIndex(a1, blockSize, clients, slices) == SliceIndex(a2, blockSize, clients, slices)
  {
    BitAndAllOnes(Shr(a1, FloorLog2(blockSize)), BitsToRepresent(clients));
    BitAndAllOnes(Shr(a2, FloorLog2(blockSize)), BitsToRepresent(clients));
  }

  /** The sum of a list of counters. */
  function Sum(xs: seq<nat>): nat
  {
    if |xs| == 0 then 0 else Sum(xs[..|xs| - 1]) + xs[|xs| - 1]
  }

  /** The miss counters of a list of caches. */
  function MissCounts(cs: seq<CacheState>): (r: seq<nat>)
    ensures |r| == |cs| && forall k :: 0 <= k < |cs| ==> r[k] == cs[k].misses
  {
    seq(|cs|, k requires 0 <= k < |cs| => cs[k].misses)
  }

  /** The hit counters of a list of caches. */
  function HitCounts(cs: seq<CacheState>): (r: seq<nat>)
    ensures |r| == |cs| && forall k :: 0 <= k < |cs| ==> r[k] == cs[k].hits
  {
    seq(|cs|, k requires 0 <= k < |cs| => cs[k].hits)
  }

  /** Adding into a uint32 accumulator: the accumulator is the sum so far,
      truncated to 32 bits. */
  lemma SumStep(xs: seq<nat>, i: nat)
    requires i < |xs|
    ensures Sum(xs[..i + 1]) % U32 == (Sum(xs[..i]) % U32 + xs[i]) % U32
  {
    assert xs[..i + 1][..i] == xs[..i];
    ModAddLeft(Sum(xs[..i]), xs[i], U32);
  }

  lemma ModAddLeft(a: nat, b: nat, m: nat)
    requires m >= 1
    ensures (a + b) % m == (a % m + b) % m
  {
    var q := a / m;
    assert a + b == (a % m + b) + m * q;
    ModAddMultiple(a % m + b, q, m);
  }

  lemma ModAddMultiple(x: nat, q: nat, m: nat)
    requires m >= 1
    ensures (x + m * q) % m == x % m
  {
    DivModUnique(x + m * q, m, x / m + q, x % m);
  }

  /** Access to one slice changes exactly one counter of that slice, by one,
      so the sum of all misses and hits of the node grows by exactly one
      (modulo 2^32). */
  lemma NodeAccessCountsOnce(node: seq<CacheState>, k: nat, loc: LocationInfo, write: bool)
    requires k < |node| && CacheWellFormed(node[k]) && loc.setIndex < |node[k].sets|
    ensures var after := node[k := CacheAccessAsWritten(node[k], loc, write)];
            (Sum(MissCounts(after)) + Sum(HitCounts(after))) % U32
            == (Sum(MissCounts(node)) + Sum(HitCounts(node)) + 1) % U32
  {
    var c2 := CacheAccessAsWritten(node[k], loc, write);
    var after := node[k := c2];
    WayAccessCountsOnce(node, k, loc, write);
    assert MissCounts(after) == MissCounts(node)[k := c2.misses];
    assert HitCounts(after) == HitCounts(node)[k := c2.hits];
    SumPairUpdate(MissCounts(node), HitCounts(node), k, c2.misses, c2.hits);
  }

  /** Replacing entry k of two lists of counters by a pair whose sum is one
      more (modulo 2^32) makes the two totals one more as well. */
  lemma SumPairUpdate(m: seq<nat>, h: seq<nat>, k: nat, a: nat, b: nat)
    requires k < |m| && |h| == |m|
    requires (a + b) % U32 == (m[k] + h[k] + 1) % U32
    ensures (Sum(m[k := a]) + Sum(h[k := b])) % U32 == (Sum(m) + Sum(h) + 1) % U32
  {
    SumUpdate(m, k, a);
    SumUpdate(h, k, b);
    var rest := Sum(m) - m[k] + Sum(h) - h[k];
    ModAddLeft(a + b, rest, U32);
    ModAddLeft(m[k] + h[k] + 1, rest, U32);
  }

  /** Replacing one entry changes the sum by the difference. */
  lemma {:induction false} SumUpdate(xs: seq<nat>, k: nat, v: nat)
    requires k < |xs|
    ensures Sum(xs) >= xs[k] && Sum(xs[k := v]) == Sum(xs) - xs[k] + v
  {
    var n := |xs|;
    var ys := xs[k := v];
    if k == n - 1 {
      assert ys[..n - 1] == xs[..n - 1];
    } else {
      SumUpdate(xs[..n - 1], k, v);
      assert ys[..n - 1] == xs[..n - 1][k := v];
    }
  }

  /** Adding Inc32(x) in place of x adds one modulo 2^32. */
  lemma Inc32Step(x: nat, rest: nat)
    ensures (rest + Inc32(x)) % U32 == (rest + x + 1) % U32
  {
    ModAddLeft(x + 1, rest, U32);
    ModAddLeft(Inc32(x), rest, U32);
    assert Inc32(x) % U32 == (x + 1) % U32;
  }

  /** The number of slices each memory node gets from the constructor as
      written, as its postcondition states them node by node: n_slices[i]
      for the first |n_slices| clients, none for the others
      (`memory_nodes_.resize(clients)` leaves them empty). */
  function NodeSlices(clients: nat, nSlices: seq<nat>): (r: seq<nat>)
    requires |nSlices| <= clients
    ensures |r| == clients
    ensures forall i :: 0 <= i < clients ==> r[i] == (if i < |nSlices| then nSlices[i] else 0)
  {
    nSlices + seq(clients - |nSlices|, _ => 0)
  }

  /** As written, four clients with three slice counts are accepted.  The
      fourth client's node has no slice, so any access by that client is
      undefined (`memory_node[0]` and a modulo by zero), where the tests
      expect the constructor to throw. */
  lemma MissingNodeAcceptedAsWritten()
    ensures NodeSlices(4, [2, 1, 1]) == [2, 1, 1, 0]
    ensures NodeSlices(4, [2, 1, 1])[3] == 0
  {
  }

  /** The constructor with the check its tests expect: exactly one slice
      count per client, or an exception (None).  When it succeeds, every
      client has a node with its own slice count. */
  function CheckedNodeSlices(clients: nat, nSlices: seq<nat>): (r: Option<seq<nat>>)
    ensures r.Some? <==> |nSlices| == clients
    ensures r.Some? ==> |r.value| == clients && forall i :: 0 <= i < clients ==> r.value[i] == nSlices[i]
  {
    if |nSlices| == clients then Some(NodeSlices(clients, nSlices)) else None
  }

  /** The partitioning-input tests: two or four clients for three slice
      counts are rejected, three are accepted. */
  lemma CheckedNodeSlicesExamples()
    ensures CheckedNodeSlices(2, [2, 1, 1]).None? && CheckedNodeSlices(4, [2, 1, 1]).None?
    ensures CheckedNodeSlices(3, [2, 1, 1]) == Some([2, 1, 1])
  {
    assert NodeSlices(3, [2, 1, 1]) == [2, 1, 1];
  }

  class InterNodePartitioning {
    /** The slices of every client. */
    const memoryNodes: seq<seq<Cache>>
    ghost const Repr: set<object>
    ghost var model: seq<seq<CacheState>>

    /** Every slice and its arrays belong to this object, and no two slices
        share anything.  Only constant fields are involved, so no update of a
        slice can change it. */
    ghost predicate Owned()
    {
      (forall i, k :: 0 <= i < |memoryNodes| && 0 <= k < |memoryNodes[i]| ==>
         memoryNodes[i][k] in Repr && memoryNodes[i][k].Repr <= Repr && this !in memoryNodes[i][k].Repr)
      && (forall i, k, j, l ::
            (0 <= i < |memoryNodes| && 0 <= k < |memoryNodes[i]| && 0 <= j < |memoryNodes|
             && 0 <= l < |memoryNodes[j]| && (i != j || k != l)) ==>
            memoryNodes[i][k] != memoryNodes[j][l] && memoryNodes[i][k] !in memoryNodes[j][l].Repr
            && memoryNodes[i][k].Repr !! memoryNodes[j][l].Repr)
    }

    ghost predicate Valid()
      reads this`model, Repr
    {
      |model| == |memoryNodes|
      && (forall i :: 0 <= i < |memoryNodes| ==> |model[i]| == |memoryNodes[i]|)
      && Owned()
      && (forall i, k :: 0 <= i < |memoryNodes| && 0 <= k < |memoryNodes[i]| ==>
            memoryNodes[i][k].Valid() && memoryNodes[i][k].Abs() == model[i][k])
    }

    /** `clients` memory nodes; node i (for i below the length of `nSlices`)
        holds nSlices[i] fresh slices, the others none. */
    constructor (clients: nat, nSlices: seq<nat>, sliceSize: nat, assoc: nat, blockSize: nat)
      requires |nSlices| <= clients
      requires |nSlices| > 0 ==> ValidGeometry(sliceSize, assoc, blockSize)
      ensures Valid() && fresh(Repr) && |memoryNodes| == clients
      ensures forall i :: 0 <= i < clients ==>
                |memoryNodes[i]| == (if i < |nSlices| then nSlices[i] else 0)
      ensures forall i, k :: 0 <= i < clients && 0 <= k < |memoryNodes[i]| ==>
                memoryNodes[i][k].blockSize == blockSize
                && model[i][k] == FreshCache(GeometrySets(sliceSize, assoc, blockSize), assoc)
    {
      var nodes: seq<seq<Cache>> := seq(clients, _ => []);
      ghost var repr: set<object> := {};
      ghost var states: seq<seq<CacheState>> := seq(clients, _ => []);
      var i := 0;
      while i < |nSlices|
        invariant i <= |nSlices| && |nodes| == clients && fresh(repr) && |states| == clients
        invariant forall r :: 0 <= r < clients ==> |states[r]| == |nodes[r]|
        invariant forall r, k :: 0 <= r < clients && 0 <= k < |nodes[r]| ==> states[r][k] == nodes[r][k].Abs()
        invariant forall r :: 0 <= r < clients ==> |nodes[r]| == (if r < i then nSlices[r] else 0)
        invariant forall r, k :: 0 <= r < clients && 0 <= k < |nodes[r]| ==>
                    nodes[r][k] in repr && nodes[r][k].Repr <= repr && nodes[r][k].Valid()
                    && nodes[r][k].blockSize == blockSize && nodes[r][k].sets == GeometrySets(sliceSize, assoc, blockSize)
                    && nodes[r][k].Abs() == FreshCache(nodes[r][k].sets, assoc)
        invariant forall r, k, j, l ::
                    (0 <= r < clients && 0 <= k < |nodes[r]| && 0 <= j < clients
                     && 0 <= l < |nodes[j]| && (r != j || k != l)) ==>
                    nodes[r][k] != nodes[j][l] && nodes[r][k] !in nodes[j][l].Repr
                    && nodes[r][k].Repr !! nodes[j][l].Repr
      {
        var slices, sliceRepr := NewCaches(nSlices[i], sliceSize, assoc, blockSize);
        nodes := nodes[i := slices];
        states := states[i := seq(nSlices[i], _ => FreshCache(GeometrySets(sliceSize, assoc, blockSize), assoc))];
        repr := repr + sliceRepr;
        i := i + 1;
      }
      memoryNodes, Repr := nodes, repr;
      model := states;
    }

    /** `InterNodePartitioning::access(client_id, addr, write)`: the slice
        `SliceIndex` names among the client's slices is read or written (both
        count as reads, as `Cache::write` is written); nothing else changes. */
    method Access(client: nat, addr: nat, write: bool)
      requires Valid() && client < |memoryNodes| && |memoryNodes[client]| >= 1
      modifies this`model, Repr
      ensures Valid()
      ensures var k := SliceIndex(addr, memoryNodes[client][0].blockSize, |memoryNodes|, |memoryNodes[client]|);
              var slice := memoryNodes[client][k];
              CacheWellFormed(old(model[client][k])) && slice.LocationInfoOf(addr).setIndex < |old(model[client][k]).sets|
              && model == old(model)[client := old(model[client])[k := CacheAccessAsWritten(old(model[client][k]), slice.LocationInfoOf(addr), false)]]
    {
      var k := SelectSlice(client, addr);
      AccessSlice(client, k, addr, write);
    }

    /** Slice k of `client` is read or written, and the model follows it. */
    method AccessSlice(client: nat, k: nat, addr: nat, write: bool)
      requires Valid() && client < |memoryNodes| && k < |memoryNodes[client]|
      modifies this`model, Repr
      ensures Valid()
      ensures var slice := memoryNodes[client][k];
              CacheWellFormed(old(model[client][k])) && slice.LocationInfoOf(addr).setIndex < |old(model[client][k]).sets|
              && model == old(model)[client := old(model[client])[k := CacheAccessAsWritten(old(model[client][k]), slice.LocationInfoOf(addr), false)]]
    {
      var slice := memoryNodes[client][k];
      if write {
        slice.Write(addr);
      } else {
        slice.Read(addr);
      }
      Resync(client, k);
    }

    /** The slice selection at the head of `access`: the block number's low
        bits, as many as it takes to write the number of clients, modulo the
        client's slice count. */
    method SelectSlice(client: nat, addr: nat) returns (k: nat)
      requires Valid() && client < |memoryNodes| && |memoryNodes[client]| >= 1
      ensures k == SliceIndex(addr, memoryNodes[client][0].blockSize, |memoryNodes|, |memoryNodes[client]|)
    {
      var node := memoryNodes[client];
      var pageOffsetBits := FloorLog2(node[0].blockSize);
      var nodeSelectionBits := BitsToRepresent(|memoryNodes|);
      var mask := Mask(nodeSelectionBits);
      var nodeSelection := BitAnd(Shr(addr, pageOffsetBits), mask);
      k := nodeSelection % |node|;
    }

    /** After slice k of `client` changed on its own, the model takes its new
        contents; every other slice is untouched. */
    method Resync(client: nat, k: nat)
      requires client < |memoryNodes| && k < |memoryNodes[client]|
      requires |model| == |memoryNodes| && forall i :: 0 <= i < |memoryNodes| ==> |model[i]| == |memoryNodes[i]|
      requires Owned()
      requires memoryNodes[client][k].Valid()
      requires forall i, l :: 0 <= i < |memoryNodes| && 0 <= l < |memoryNodes[i]| && (i != client || l != k) ==>
                 memoryNodes[i][l].Valid() && memoryNodes[i][l].Abs() == model[i][l]
      modifies this`model
      ensures Valid() && model == old(model)[client := old(model[client])[k := memoryNodes[client][k].Abs()]]
    {
      model := model[client := model[client][k := memoryNodes[client][k].Abs()]];
    }

    /** `InterNodePartitioning::read(client_id, addr)`. */
    method Read(client: nat, addr: nat)
      requires Valid() && client < |memoryNodes| && |memoryNodes[client]| >= 1
      modifies this`model, Repr
      ensures Valid()
      ensures var k := SliceIndex(addr, memoryNodes[client][0].blockSize, |memoryNodes|, |memoryNodes[client]|);
              var slice := memoryNodes[client][k];
              CacheWellFormed(old(model[client][k])) && slice.LocationInfoOf(addr).setIndex < |old(model[client][k]).sets|
              && model == old(model)[client := old(model[client])[k := CacheAccessAsWritten(old(model[client][k]), slice.LocationInfoOf(addr), false)]]
    {
      Access(client, addr, false);
    }

    /** `InterNodePartitioning::write(client_id, addr)`. */
    method Write(client: nat, addr: nat)
      requires Valid() && client < |memoryNodes| && |memoryNodes[client]| >= 1
      modifies this`model, Repr
      ensures Valid()
      ensures var k := SliceIndex(addr, memoryNodes[client][0].blockSize, |memoryNodes|, |memoryNodes[client]|);
              var slice := memoryNodes[client][k];
              CacheWellFormed(old(model[client][k])) && slice.LocationInfoOf(addr).setIndex < |old(model[client][k]).sets|
              && model == old(model)[client := old(model[client])[k := CacheAccessAsWritten(old(model[client][k]), slice.LocationInfoOf(addr), false)]]
    {
      Access(client, addr, true);
    }

    /** `InterNodePartitioning::misses(client_id)`: the misses of all the
        client's slices, added up in a uint32. */
    method Misses(client: nat) returns (total: nat)
      requires Valid() && client < |memoryNodes|
      ensures total == Sum(MissCounts(model[client])) % U32
    {
      var node := memoryNodes[client];
      ghost var counts := MissCounts(model[client]);
      total := 0;
      var k := 0;
      while k < |node|
        invariant k <= |node| && total == Sum(counts[..k]) % U32
      {
        SumStep(counts, k);
        total := (total + node[k].misses) % U32;
        k := k + 1;
      }
      assert counts[..k] == counts;
    }

    /** `InterNodePartitioning::hits(client_id)`: the hits of all the
        client's slices, added up in a uint32. */
    method Hits(client: nat) returns (total: nat)
      requires Valid() && client < |memoryNodes|
      ensures total == Sum(HitCounts(model[client])) % U32
    {
      var node := memoryNodes[client];
      ghost var counts := HitCounts(model[client]);
      total := 0;
      var k := 0;
      while k < |node|
        invariant k <= |node| && total == Sum(counts[..k]) % U32
      {
        SumStep(counts, k);
        total := (total + node[k].hits) % U32;
        k := k + 1;
      }
      assert counts[..k] == counts;
    }
  }
}
