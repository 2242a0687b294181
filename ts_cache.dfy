/**
 * The timestamp cache: S sets of A ways each, the set of a block chosen by
 * its low bits, and a counter of the sets that have been filled completely.
 */
module TsCaches {
  import opened Bits
  import opened Wrappers
  import opened TsSets

  /** The contents of a cache: its sets and `warmed_count`. */
  datatype CacheValue = CacheValue(sets: seq<SetState>, warmed: nat)

  /** `_check_generics`: S is a power of two (S & (S - 1) == 0) and A is positive. */
  predicate GenericsOk(assoc: nat, numSets: nat)
  {
    PowerOfTwo(numSets) && assoc >= 1
  }

  /** The number of sets whose cold pointer has reached the associativity. */
  function FullSets(sets: seq<SetState>, assoc: nat): (n: nat)
    ensures n <= |sets|
  {
    if |sets| == 0 then 0
    else FullSets(sets[..|sets| - 1], assoc) + (if sets[|sets| - 1].cold == assoc then 1 else 0)
  }

  /** The invariant of a cache: S well-formed sets, and `warmed_count` counts the full ones. */
  predicate CacheWellFormed(c: CacheValue, assoc: nat, numSets: nat)
  {
    |c.sets| == numSets
    && (forall i :: 0 <= i < numSets ==> WellFormed(c.sets[i], assoc))
    && c.warmed == FullSets(c.sets, assoc)
  }

  /** `new`: S empty sets, nothing warmed. */
  function NewCache(assoc: nat, numSets: nat): (c: CacheValue)
    requires GenericsOk(assoc, numSets)
    ensures CacheWellFormed(c, assoc, numSets) && c.warmed == 0
    ensures forall i :: 0 <= i < numSets ==> c.sets[i] == Empty(assoc)
  {
    FullSetsOfEmpty(numSets, assoc);
    CacheValue(seq(numSets, _ => Empty(assoc)), 0)
  }

  /** `block_id & (S - 1)`: with S a power of two, the block id modulo S. */
  function SetNumber(blockId: nat, numSets: nat): (i: nat)
    requires PowerOfTwo(numSets)
    ensures i == blockId % numSets && i < numSets
  {
    FloorLog2Exact(numSets);
    BitAndLowMask(blockId, FloorLog2(numSets));
    BitAnd(blockId, numSets - 1)
  }

  datatype Recorded = Recorded(result: AccessResult, next: CacheValue)

  /**
   * `record`: the access goes to the block's set; `warmed_count` grows when
   * that set's fill count goes from A - 1 to A.
   */
  function RecordOn(c: CacheValue, assoc: nat, blockId: nat, isInstruction: bool, isWrite: bool, ts: nat): Result<Recorded, SetFault>
    requires GenericsOk(assoc, |c.sets|) && CacheWellFormed(c, assoc, |c.sets|)
  {
    var i := SetNumber(blockId, |c.sets|);
    var oldCount := c.sets[i].cold;
    match AccessOn(c.sets[i], blockId, ts, isInstruction, isWrite)
    case Err(e) => Err(e)
    case Ok(a) =>
      var warmed := if oldCount == assoc - 1 && a.next.cold == assoc then c.warmed + 1 else c.warmed;
      Ok(Recorded(a.result, CacheValue(c.sets[i := a.next], warmed)))
  }

  /** `peek` on the block's set; `warmed_count` is not touched. */
  function PeekCacheOn(c: CacheValue, assoc: nat, blockId: nat, isInstruction: bool, isWrite: bool, ts: nat): (bool, CacheValue)
    requires GenericsOk(assoc, |c.sets|) && CacheWellFormed(c, assoc, |c.sets|)
  {
    var i := SetNumber(blockId, |c.sets|);
    var p := PeekOn(c.sets[i], blockId, ts, isInstruction, isWrite);
    (p.hit, c.(sets := c.sets[i := p.next]))
  }

  /** Some way of the block's set holds the block. */
  predicate Resident(c: CacheValue, assoc: nat, blockId: nat)
    requires GenericsOk(assoc, |c.sets|) && CacheWellFormed(c, assoc, |c.sets|)
  {
    var s := c.sets[SetNumber(blockId, |c.sets|)];
    exists w :: 0 <= w < assoc && Holds(s, w, blockId)
  }

  // ---------------------------------------------------------------------------
  // Counting full sets
  // ---------------------------------------------------------------------------

  lemma {:induction false} FullSetsOfEmpty(n: nat, assoc: nat)
    requires assoc >= 1
    ensures FullSets(seq(n, _ => Empty(assoc)), assoc) == 0
  {
    if n > 0 {
      FullSetsOfEmpty(n - 1, assoc);
      assert seq(n, _ => Empty(assoc))[..n - 1] == seq(n - 1, _ => Empty(assoc));
    }
  }

  /** Replacing one set changes the count by that set's contribution only. */
  lemma {:induction false} FullSetsUpdate(sets: seq<SetState>, assoc: nat, i: nat, s: SetState)
    requires i < |sets|
    ensures FullSets(sets[i := s], assoc) + (if sets[i].cold == assoc then 1 else 0)
            == FullSets(sets, assoc) + (if s.cold == assoc then 1 else 0)
  {
    var n := |sets|;
    if i == n - 1 {
      assert sets[i := s][..n - 1] == sets[..n - 1];
    } else {
      assert sets[i := s][..n - 1] == sets[..n - 1][i := s];
      FullSetsUpdate(sets[..n - 1], assoc, i, s);
    }
  }

  // ---------------------------------------------------------------------------
  // Properties
  // ---------------------------------------------------------------------------

  /** `warmed_count` never exceeds the number of sets. */
  lemma WarmedAtMostSets(c: CacheValue, assoc: nat, numSets: nat)
    requires CacheWellFormed(c, assoc, numSets)
    ensures c.warmed <= numSets
  {
  }

  /**
   * A `record` that does not panic touches only the block's set, returns
   * that set's access result unchanged, keeps the cache well formed (so
   * `warmed_count` still counts the full sets) and leaves the block
   * resident. It panics only for an instruction write that misses.
   */
  lemma RecordSpec(c: CacheValue, assoc: nat, blockId: nat, isInstruction: bool, isWrite: bool, ts: nat)
    requires GenericsOk(assoc, |c.sets|) && CacheWellFormed(c, assoc, |c.sets|)
    ensures var r := RecordOn(c, assoc, blockId, isInstruction, isWrite, ts);
            var i := blockId % |c.sets|;
            (r.Err? <==> isInstruction && isWrite && !Resident(c, assoc, blockId))
            && (r.Ok? ==>
                  CacheWellFormed(r.value.next, assoc, |c.sets|)
                  && Resident(r.value.next, assoc, blockId)
                  && r.value.result == AccessOn(c.sets[i], blockId, ts, isInstruction, isWrite).value.result
                  && r.value.next.sets == c.sets[i := AccessOn(c.sets[i], blockId, ts, isInstruction, isWrite).value.next])
  {
    var i := SetNumber(blockId, |c.sets|);
    var s := c.sets[i];
    AccessFaults(s, blockId, ts);
    var r := RecordOn(c, assoc, blockId, isInstruction, isWrite, ts);
    if r.Ok? {
      AccessSpec(s, blockId, ts, isInstruction, isWrite);
      var a := AccessOn(s, blockId, ts, isInstruction, isWrite).value;
      FullSetsUpdate(c.sets, assoc, i, a.next);
      var next := r.value.next;
      assert next.sets == c.sets[i := a.next];
      var w := Lookup(a.next, blockId);
      assert Holds(a.next, w, blockId) && w < assoc;
      assert next.sets[SetNumber(blockId, |next.sets|)] == a.next;
      assert Resident(next, assoc, blockId);
    }
  }

  /**
   * `peek` touches only the block's set, never changes `warmed_count` or a
   * fill count, hits exactly when the block is resident, and keeps the cache
   * well formed.
   */
  lemma PeekCacheSpec(c: CacheValue, assoc: nat, blockId: nat, isInstruction: bool, isWrite: bool, ts: nat)
    requires GenericsOk(assoc, |c.sets|) && CacheWellFormed(c, assoc, |c.sets|)
    ensures var (hit, next) := PeekCacheOn(c, assoc, blockId, isInstruction, isWrite, ts);
            var i := blockId % |c.sets|;
            CacheWellFormed(next, assoc, |c.sets|) && next.warmed == c.warmed
            && (hit <==> Resident(c, assoc, blockId))
            && (!hit ==> next == c)
            && next.sets[i].cold == c.sets[i].cold
            && forall j :: 0 <= j < |c.sets| && j != i ==> next.sets[j] == c.sets[j]
  {
    var i := SetNumber(blockId, |c.sets|);
    var s := c.sets[i];
    PeekSpec(s, blockId, ts, isInstruction, isWrite);
    var p := PeekOn(s, blockId, ts, isInstruction, isWrite);
    FullSetsUpdate(c.sets, assoc, i, p.next);
    if !p.hit {
      assert c.sets[i := s] == c.sets;
    }
  }

  // ---------------------------------------------------------------------------
  // The parameter check that never runs
  // ---------------------------------------------------------------------------

  /**
   * `block_id & (S - 1)` for any S: the assertion on the generics sits in an
   * associated constant nothing refers to, so it is never evaluated and S
   * need not be a power of two.
   */
  function SetNumberAsWritten(blockId: nat, numSets: nat): (i: nat)
    requires numSets >= 1
    ensures i < numSets
  {
    BitAndBound(blockId, numSets - 1);
    BitAnd(blockId, numSets - 1)
  }

  lemma {:induction false} BitAndBound(a: nat, b: nat)
    ensures BitAnd(a, b) <= b
  {
    if a != 0 && b != 0 {
      BitAndBound(a / 2, b / 2);
    }
  }

  /** With three sets the mask is 2: every block lands in set 0 or set 2, never in set 1. */
  lemma ThreeSetsSkipSetOne(blockId: nat)
    ensures SetNumberAsWritten(blockId, 3) in {0, 2}
  {
    if blockId != 0 {
      assert BitAnd(blockId / 2, 1) <= 1 by {
        BitAndBound(blockId / 2, 1);
      }
    }
  }

  /** With the generics checked, every set is the set of some block: block i goes to set i. */
  lemma EverySetUsed(numSets: nat, i: nat)
    requires PowerOfTwo(numSets) && i < numSets
    ensures SetNumber(i, numSets) == i && SetNumberAsWritten(i, numSets) == i
  {
    var k := SetNumber(i, numSets);
    assert k == i % numSets;
    DivModUnique(i, numSets, 0, i);
    assert SetNumberAsWritten(i, numSets) == k;
  }

  // ---------------------------------------------------------------------------
  // The cache, in place
  // ---------------------------------------------------------------------------

  class TimestampCache {
    const assoc: nat
    const numSets: nat
    const sets: seq<TimestampCacheSet>
    var warmedCount: nat
    ghost var model: seq<SetState>
    ghost const Repr: set<object>

    /** The heap-independent part of the invariant: S sets with disjoint arrays, all inside Repr. */
    ghost predicate Owned()
    {
      GenericsOk(assoc, numSets) && |sets| == numSets
      && (forall i :: 0 <= i < numSets ==>
            sets[i].Shape() && sets[i].assoc == assoc && sets[i] in Repr && sets[i].Repr <= Repr)
      && (forall i, j :: 0 <= i < numSets && 0 <= j < numSets && i != j ==>
            sets[i] != sets[j] && sets[i].Repr !! sets[j].Repr)
      && this !in Repr
    }

    ghost predicate Valid()
      reads this, Repr
    {
      Owned() && |model| == numSets
      && (forall i :: 0 <= i < numSets ==> sets[i].State() == model[i])
      && CacheWellFormed(Abs(), assoc, numSets)
    }

    ghost function Abs(): CacheValue
      reads this
    {
      CacheValue(model, warmedCount)
    }

    /** `new`. */
    constructor (assoc: nat, numSets: nat)
      requires GenericsOk(assoc, numSets)
      ensures Valid() && fresh(Repr) && this.assoc == assoc && this.numSets == numSets
      ensures Abs() == NewCache(assoc, numSets)
    {
      var built: seq<TimestampCacheSet> := [];
      ghost var objs: set<object> := {};
      for k := 0 to numSets
        invariant |built| == k && fresh(objs)
        invariant forall i :: 0 <= i < k ==>
                    built[i].Shape() && built[i].assoc == assoc && built[i] in objs && built[i].Repr <= objs
                    && built[i].State() == Empty(assoc)
        invariant forall i, j :: 0 <= i < k && 0 <= j < k && i != j ==>
                    built[i] != built[j] && built[i].Repr !! built[j].Repr
      {
        var s := new TimestampCacheSet(assoc);
        built := built + [s];
        objs := objs + {s} + s.Repr;
      }
      this.assoc := assoc;
      this.numSets := numSets;
      sets := built;
      warmedCount := 0;
      model := NewCache(assoc, numSets).sets;
      Repr := objs;
    }

    /** `record`. */
    method Record(blockId: nat, isInstruction: bool, isWrite: bool, ts: nat) returns (r: Result<AccessResult, SetFault>)
      requires Valid()
      modifies this, Repr
      ensures Valid()
      ensures var spec := RecordOn(old(Abs()), assoc, blockId, isInstruction, isWrite, ts);
              (spec.Ok? ==> r == Ok(spec.value.result) && Abs() == spec.value.next)
              && (spec.Err? ==> r == Err(spec.error) && Abs() == old(Abs()))
    {
      RecordSpec(Abs(), assoc, blockId, isInstruction, isWrite, ts);
      var setNumber := SetNumber(blockId, numSets);
      var target := sets[setNumber];
      ghost var access := AccessOn(target.State(), blockId, ts, isInstruction, isWrite);
      var oldElementCount := target.WarmChunkCount();
      r := target.Access(blockId, ts, isInstruction, isWrite);
      if oldElementCount == assoc - 1 && target.WarmChunkCount() == assoc {
        warmedCount := warmedCount + 1;
      }
      model := model[setNumber := target.State()];
      forall i | 0 <= i < numSets && i != setNumber
        ensures sets[i].State() == model[i]
      {
        assert sets[i] != target && sets[i].Repr !! target.Repr;
      }
      if access.Ok? {
        assert model == old(model)[setNumber := access.value.next];
      } else {
        assert model == old(model);
      }
    }

    /** `peek`. */
    method Peek(blockId: nat, isInstruction: bool, isWrite: bool, ts: nat) returns (hit: bool)
      requires Valid()
      modifies this, Repr
      ensures Valid()
      ensures (hit, Abs()) == PeekCacheOn(old(Abs()), assoc, blockId, isInstruction, isWrite, ts)
    {
      PeekCacheSpec(Abs(), assoc, blockId, isInstruction, isWrite, ts);
      var setNumber := SetNumber(blockId, numSets);
      hit := sets[setNumber].Peek(blockId, ts, isInstruction, isWrite);
      model := model[setNumber := sets[setNumber].State()];
    }
  }
}
