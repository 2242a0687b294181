/**
 * One set of a set-associative cache with LRU replacement: the cache lines
 * and the LRU order of `CacheSet` (and of one row of `PrivateCache`).
 *
 * `SetAccessWith` is the value-level meaning of one access to a set.  Its
 * lookup is parameterised by whether a DIRTY line counts as present.
 * `Cache::access` and `PrivateCache::access` only match VALID lines
 * (`SetAccessAsWritten`, the reference their models are proved against),
 * which makes a line that was written invisible to every later lookup (see
 * `SecondWriteMissesAsWritten`); `SetAccess` is the corrected access that
 * matches every non-INVALID line.
 */
module CacheSets {
  import opened Bits
  import opened Lru
  import opened Wrappers

  datatype LineState = VALID | INVALID | DIRTY

  /** A cache line; the tag field is 32 bits wide.  (The debug-only address
      field of `CacheSet::CacheLine` is not modelled.) */
  datatype CacheLine = CacheLine(state: LineState, tag: nat)

  /** A default-constructed line: INVALID with tag 0. */
  const EmptyLine := CacheLine(INVALID, 0)

  /** The lookup test of `access`: the tag matches and the line holds data.
      As written only a VALID line matches; with matchDirty a DIRTY one does too. */
  predicate Holds(line: CacheLine, tag: nat, matchDirty: bool)
  {
    line.tag == tag && (line.state == VALID || (matchDirty && line.state == DIRTY))
  }

  /** The way the lookup loop of `access` stops at: the first line holding the tag. */
  function FindWay(lines: seq<CacheLine>, tag: nat, matchDirty: bool): (r: Option<nat>)
    ensures r.Some? ==> r.value < |lines| && Holds(lines[r.value], tag, matchDirty)
    ensures r.Some? ==> forall k :: 0 <= k < r.value ==> !Holds(lines[k], tag, matchDirty)
    ensures r.None? <==> forall k :: 0 <= k < |lines| ==> !Holds(lines[k], tag, matchDirty)
  {
    if |lines| == 0 then None
    else if Holds(lines[0], tag, matchDirty) then Some(0)
    else match FindWay(lines[1..], tag, matchDirty)
      case None => None
      case Some(w) => Some(w + 1)
  }

  /** The contents of one set: its lines and its LRU order (LRU first). */
  datatype SetState = SetState(lines: seq<CacheLine>, lru: seq<nat>)

  /** At least one way, and the LRU order is a permutation of the ways. */
  ghost predicate WellFormed(s: SetState)
  {
    |s.lines| >= 1 && IsPermutation(s.lru, |s.lines|)
  }

  /** A freshly constructed set: every line empty, LRU order 0, 1, ..., assoc - 1. */
  function FreshSet(assoc: nat): SetState
  {
    SetState(seq(assoc, _ => EmptyLine), Identity(assoc))
  }

  /** The new set and whether the access was a hit. */
  datatype Outcome = Outcome(next: SetState, hit: bool)

  /** The way an access ends up using: the line holding the tag, or on a miss
      the least recently used way, the one `evict` picks. */
  function AccessWay(s: SetState, tag: nat, matchDirty: bool): (way: nat)
    requires WellFormed(s)
    ensures way < |s.lines| && way in s.lru
  {
    PermutationLength(s.lru, |s.lines|);
    PermutationBound(s.lru, |s.lines|, 0);
    var found := FindWay(s.lines, tag, matchDirty);
    var way := if found.Some? then found.value else s.lru[0];
    PermutationHas(s.lru, |s.lines|, way);
    way
  }

  /** One access to a set.  A hit keeps the line; a miss evicts the least
      recently used way and installs the tag there, truncated to the 32-bit
      tag field.  A write leaves the line DIRTY.  The way used becomes the
      most recently used one. */
  function SetAccessWith(s: SetState, tag: nat, write: bool, matchDirty: bool): Outcome
    requires WellFormed(s)
  {
    var way := AccessWay(s, tag, matchDirty);
    var hit := FindWay(s.lines, tag, matchDirty).Some?;
    Outcome(SetState(s.lines[way := Filled(s.lines[way], hit, tag, write)],
                     MoveToEnd(s.lru, IndexOf(s.lru, way))),
            hit)
  }

  /** The line an access leaves in the way it uses: kept on a hit, the tag
      installed (truncated to the 32-bit field) on a miss, DIRTY after a write. */
  function Filled(line: CacheLine, hit: bool, tag: nat, write: bool): CacheLine
  {
    var installed := if hit then line else CacheLine(VALID, tag % U32);
    if write then installed.(state := DIRTY) else installed
  }

  /** The corrected access: it hits exactly when a VALID or DIRTY line
      carries the tag, and the set stays well formed. */
  function SetAccess(s: SetState, tag: nat, write: bool): (o: Outcome)
    requires WellFormed(s)
    ensures WellFormed(o.next) && |o.next.lines| == |s.lines|
    ensures o.hit <==> exists k :: 0 <= k < |s.lines| && s.lines[k].tag == tag && s.lines[k].state != INVALID
  {
    AccessWellFormed(s, tag, write, true);
    AccessHitIffPresent(s, tag, write, true);
    SetAccessWith(s, tag, write, true)
  }

  /** The access exactly as `Cache::access` and `PrivateCache::access` are
      written: it hits exactly when a VALID line carries the tag (a DIRTY
      one is not found), and the set stays well formed. */
  function SetAccessAsWritten(s: SetState, tag: nat, write: bool): (o: Outcome)
    requires WellFormed(s)
    ensures WellFormed(o.next) && |o.next.lines| == |s.lines|
    ensures o.hit <==> exists k :: 0 <= k < |s.lines| && s.lines[k].tag == tag && s.lines[k].state == VALID
  {
    AccessWellFormed(s, tag, write, false);
    AccessHitIffPresent(s, tag, write, false);
    SetAccessWith(s, tag, write, false)
  }

  /** No two lines holding data carry the same tag. */
  ghost predicate UniqueTags(s: SetState)
  {
    forall i, j :: 0 <= i < j < |s.lines| && s.lines[i].state != INVALID && s.lines[j].state != INVALID
      ==> s.lines[i].tag != s.lines[j].tag
  }

  /** No line is DIRTY: what a set looks like when only reads reach it. */
  ghost predicate NoDirty(s: SetState)
  {
    forall i :: 0 <= i < |s.lines| ==> s.lines[i].state != DIRTY
  }

  // ---------------------------------------------------------------------------
  // Properties of one access
  // ---------------------------------------------------------------------------

  lemma FreshSetWellFormed(assoc: nat)
    requires assoc >= 1
    ensures WellFormed(FreshSet(assoc)) && UniqueTags(FreshSet(assoc)) && NoDirty(FreshSet(assoc))
  {
    IdentityIsPermutation(assoc);
  }

  /** An access keeps the set well formed, with the same number of ways. */
  lemma AccessWellFormed(s: SetState, tag: nat, write: bool, matchDirty: bool)
    requires WellFormed(s)
    ensures var o := SetAccessWith(s, tag, write, matchDirty);
            WellFormed(o.next) && |o.next.lines| == |s.lines|
  {
    var way := AccessWay(s, tag, matchDirty);
    MoveToEndPermutation(s.lru, |s.lines|, IndexOf(s.lru, way));
  }

  /** The access is a hit exactly when some line already holds the tag; on a
      miss the line replaced is the least recently used one; no other line
      changes. */
  lemma AccessHitIffPresent(s: SetState, tag: nat, write: bool, matchDirty: bool)
    requires WellFormed(s)
    ensures var o := SetAccessWith(s, tag, write, matchDirty);
            o.hit <==> exists k :: 0 <= k < |s.lines| && Holds(s.lines[k], tag, matchDirty)
    ensures var o := SetAccessWith(s, tag, write, matchDirty);
            !o.hit ==> AccessWay(s, tag, matchDirty) == s.lru[0]
    ensures var o := SetAccessWith(s, tag, write, matchDirty);
            forall k :: 0 <= k < |s.lines| && k != AccessWay(s, tag, matchDirty) ==> o.next.lines[k] == s.lines[k]
  {
  }

  /** After an access, under either lookup, the way it used is the most
      recently used one: it holds the tag and data, it is DIRTY after a write,
      and after a read (or with DIRTY lines matched) the same lookup finds it. */
  lemma AccessInstallsMostRecent(s: SetState, tag: nat, write: bool, matchDirty: bool)
    requires WellFormed(s) && tag < U32
    ensures var o := SetAccessWith(s, tag, write, matchDirty);
            var mru := o.next.lru[|o.next.lru| - 1];
            mru == AccessWay(s, tag, matchDirty)
            && mru < |o.next.lines| && o.next.lines[mru].tag == tag && o.next.lines[mru].state != INVALID
            && (write ==> o.next.lines[mru].state == DIRTY)
            && (!write || matchDirty ==> Holds(o.next.lines[mru], tag, matchDirty))
  {
    var way := AccessWay(s, tag, matchDirty);
    AccessWellFormed(s, tag, write, matchDirty);
    assert SetAccessWith(s, tag, write, matchDirty).next.lru[|s.lru| - 1] == way;
  }

  /** An access keeps tags unique (for tags that fit the 32-bit tag field). */
  lemma AccessKeepsUniqueTags(s: SetState, tag: nat, write: bool)
    requires WellFormed(s) && UniqueTags(s) && tag < U32
    ensures UniqueTags(SetAccess(s, tag, write).next)
  {
    var o := SetAccess(s, tag, write);
    var way := AccessWay(s, tag, true);
    var found := FindWay(s.lines, tag, true);
    forall i, j | 0 <= i < j < |o.next.lines| && o.next.lines[i].state != INVALID && o.next.lines[j].state != INVALID
      ensures o.next.lines[i].tag != o.next.lines[j].tag
    {
      if i == way {
        assert !Holds(s.lines[j], tag, true);
      } else if j == way {
        assert !Holds(s.lines[i], tag, true);
      }
    }
  }

  /** The line used by an access is found again by the next access to the
      same tag: a repeated access always hits, whether or not it writes. */
  lemma RepeatedAccessHits(s: SetState, tag: nat, write1: bool, write2: bool)
    requires WellFormed(s) && tag < U32
    ensures var o := SetAccess(s, tag, write1);
            WellFormed(o.next) && SetAccess(o.next, tag, write2).hit
  {
    var o := SetAccess(s, tag, write1);
    AccessWellFormed(s, tag, write1, true);
    AccessInstallsMostRecent(s, tag, write1, true);
    var mru := o.next.lru[|o.next.lru| - 1];
    assert Holds(o.next.lines[mru], tag, true);
  }

  /** Reading the tag just read changes nothing, under either lookup: the
      line is already the most recently used one and stays as it is. */
  lemma RepeatedReadIsIdempotent(s: SetState, tag: nat, matchDirty: bool)
    requires WellFormed(s) && UniqueTags(s) && tag < U32
    ensures var o := SetAccessWith(s, tag, false, matchDirty);
            WellFormed(o.next) && SetAccessWith(o.next, tag, false, matchDirty).next == o.next
  {
    var o := SetAccessWith(s, tag, false, matchDirty);
    var way := AccessWay(s, tag, matchDirty);
    AccessWellFormed(s, tag, false, matchDirty);
    AccessInstallsMostRecent(s, tag, false, matchDirty);
    ReadLeavesOneMatch(s, tag, matchDirty);
    var n := |o.next.lru|;
    assert AccessWay(o.next, tag, matchDirty) == way;
    PermutationIndexOf(o.next.lru, |o.next.lines|, n - 1);
    assert MoveToEnd(o.next.lru, n - 1) == o.next.lru;
    assert o.next.lines[way := o.next.lines[way]] == o.next.lines;
  }

  /** After a read, with tags unique beforehand, the lookup finds the way
      just used and no other. */
  lemma ReadLeavesOneMatch(s: SetState, tag: nat, matchDirty: bool)
    requires WellFormed(s) && UniqueTags(s) && tag < U32
    ensures var o := SetAccessWith(s, tag, false, matchDirty);
            FindWay(o.next.lines, tag, matchDirty) == Some(AccessWay(s, tag, matchDirty))
  {
    var o := SetAccessWith(s, tag, false, matchDirty);
    var way := AccessWay(s, tag, matchDirty);
    AccessWellFormed(s, tag, false, matchDirty);
    AccessInstallsMostRecent(s, tag, false, matchDirty);
    AccessHitIffPresent(s, tag, false, matchDirty);
    forall k | 0 <= k < |o.next.lines| && k != way
      ensures !Holds(o.next.lines[k], tag, matchDirty)
    {
      if Holds(s.lines[k], tag, matchDirty) {
        assert false;
      }
    }
  }

  /** When no line is DIRTY and the access is a read, the as-written lookup
      and the lookup of this model agree, and the set stays free of DIRTY
      lines.  `Cache::read`, `Cache::write`, `PrivateCache::read` and
      `PrivateCache::write` all pass write = false, so for them the two
      behave identically. */
  lemma ReadsAgreeWithAsWritten(s: SetState, tag: nat)
    requires WellFormed(s) && NoDirty(s)
    ensures SetAccessAsWritten(s, tag, false) == SetAccess(s, tag, false)
    ensures NoDirty(SetAccess(s, tag, false).next)
  {
    forall k | 0 <= k < |s.lines|
      ensures Holds(s.lines[k], tag, false) == Holds(s.lines[k], tag, true)
    {
    }
    FindWaySame(s.lines, tag);
  }

  lemma {:induction false} FindWaySame(lines: seq<CacheLine>, tag: nat)
    requires forall k :: 0 <= k < |lines| ==> Holds(lines[k], tag, false) == Holds(lines[k], tag, true)
    ensures FindWay(lines, tag, false) == FindWay(lines, tag, true)
  {
    if |lines| > 0 {
      FindWaySame(lines[1..], tag);
    }
  }

  /** As written, a written line is never found again: a second write of the
      same tag in a set with unique tags misses (and installs a second copy),
      where the access of this model hits. */
  lemma SecondWriteMissesAsWritten(s: SetState, tag: nat)
    requires WellFormed(s) && UniqueTags(s) && tag < U32
    ensures var o := SetAccessAsWritten(s, tag, true);
            WellFormed(o.next) && !SetAccessAsWritten(o.next, tag, true).hit
    ensures var o := SetAccess(s, tag, true);
            WellFormed(o.next) && SetAccess(o.next, tag, true).hit
  {
    RepeatedAccessAsWritten(s, tag, true, true);
    RepeatedAccessHits(s, tag, true, true);
  }

  /** As written, the tag just accessed is found again by the next access
      exactly when that access was a read: a read leaves a VALID line with
      the tag, a write leaves it DIRTY and (with unique tags) no VALID copy. */
  lemma RepeatedAccessAsWritten(s: SetState, tag: nat, write1: bool, write2: bool)
    requires WellFormed(s) && tag < U32
    ensures var o := SetAccessAsWritten(s, tag, write1);
            WellFormed(o.next)
            && (!write1 ==> SetAccessAsWritten(o.next, tag, write2).hit)
            && (write1 && UniqueTags(s) ==> !SetAccessAsWritten(o.next, tag, write2).hit)
  {
    var o := SetAccessAsWritten(s, tag, write1);
    var way := AccessWay(s, tag, false);
    AccessWellFormed(s, tag, write1, false);
    AccessHitIffPresent(s, tag, write1, false);
    AccessHitIffPresent(o.next, tag, write2, false);
    if !write1 {
      assert Holds(o.next.lines[way], tag, false);
    } else if UniqueTags(s) {
      forall k | 0 <= k < |o.next.lines|
        ensures !Holds(o.next.lines[k], tag, false)
      {
        if k != way && Holds(s.lines[k], tag, false) {
          assert false;
        }
      }
    }
  }

  /** LRU replacement: with at least two ways, a miss never evicts the line
      used by the access just before it.  Reading that tag again hits with
      DIRTY lines matched, and as written when the earlier access was a read
      (as written, a written line is no longer found at all). */
  lemma MostRecentSurvivesMiss(s: SetState, y: nat, write: bool, z: nat, write2: bool, matchDirty: bool)
    requires WellFormed(s) && |s.lines| >= 2 && y < U32
    ensures var o1 := SetAccessWith(s, y, write, matchDirty);
            WellFormed(o1.next) &&
            var o2 := SetAccessWith(o1.next, z, write2, matchDirty);
            WellFormed(o2.next)
            && (!o2.hit && (!write || matchDirty) ==> SetAccessWith(o2.next, y, false, matchDirty).hit)
  {
    var o1 := SetAccessWith(s, y, write, matchDirty);
    AccessWellFormed(s, y, write, matchDirty);
    AccessInstallsMostRecent(s, y, write, matchDirty);
    var o2 := SetAccessWith(o1.next, z, write2, matchDirty);
    AccessWellFormed(o1.next, z, write2, matchDirty);
    if !o2.hit && (!write || matchDirty) {
      var n := |o1.next.lru|;
      var mru := o1.next.lru[n - 1];
      PermutationLength(o1.next.lru, |o1.next.lines|);
      PermutationDistinct(o1.next.lru, |o1.next.lines|, 0, n - 1);
      AccessHitIffPresent(o1.next, z, write2, matchDirty);
      assert Holds(o2.next.lines[mru], y, matchDirty);
      AccessHitIffPresent(o2.next, y, false, matchDirty);
    }
  }

  // ---------------------------------------------------------------------------
  // The set object
  // ---------------------------------------------------------------------------

  /** `CacheSet`: `assoc` lines and the LRU vector, both updated in place. */
  class CacheSet {
    const assoc: nat
    const lru: array<nat>
    const lines: array<CacheLine>

    ghost predicate Valid()
      reads lru
    {
      lru.Length == assoc && lines.Length == assoc && IsPermutation(lru[..], assoc)
    }

    ghost function State(): SetState
      reads lru, lines
    {
      SetState(lines[..], lru[..])
    }

    /** Every line empty and the LRU vector 0, 1, ..., assoc - 1. */
    constructor (assoc: nat)
      ensures Valid() && fresh(lru) && fresh(lines)
      ensures this.assoc == assoc && State() == FreshSet(assoc)
    {
      this.assoc := assoc;
      var order := new nat[assoc];
      var i := 0;
      while i < assoc
        invariant i <= assoc
        invariant forall k :: 0 <= k < i ==> order[k] == k
      {
        order[i] := i;
        i := i + 1;
      }
      lru := order;
      lines := new CacheLine[assoc](_ => EmptyLine);
      new;
      assert lru[..] == Identity(assoc);
      assert lines[..] == seq(assoc, _ => EmptyLine);
      IdentityIsPermutation(assoc);
    }

    /** Invalidates the least recently used way and returns it.  That way is
        already at the front of the LRU vector, so the order does not change. */
    method Evict() returns (way: nat)
      requires Valid() && assoc >= 1
      modifies lines, lru
      ensures Valid()
      ensures way == old(lru[0]) && way < assoc
      ensures lines[..] == old(lines[..])[way := old(lines[way]).(state := INVALID)]
      ensures lru[..] == old(lru[..])
    {
      way := lru[0];
      PermutationBound(lru[..], assoc, 0);
      lines[way] := lines[way].(state := INVALID);
      ghost var s := lru[..];
      PermutationIndexOf(s, assoc, 0);
      UpdateLru(way, false);
      MoveToFrontOfFirst(s);
    }

    /** Moves `way` to the most recently used end (is_valid) or to the least
        recently used front (!is_valid) by a chain of swaps. */
    method UpdateLru(way: nat, isValid: bool)
      requires Valid() && way < assoc
      modifies lru
      ensures Valid()
      ensures way in old(lru[..])
      ensures isValid ==> lru[..] == MoveToEnd(old(lru[..]), IndexOf(old(lru[..]), way))
      ensures !isValid ==> lru[..] == MoveToFront(old(lru[..]), IndexOf(old(lru[..]), way))
    {
      ghost var s := lru[..];
      PermutationLength(s, assoc);
      PermutationHas(s, assoc, way);
      ghost var p := IndexOf(s, way);
      PermutationUnique(s, assoc, way);
      var nextWay := way;
      if isValid {
        var i: int := assoc - 1;
        lru[i], nextWay := nextWay, lru[i];
        i := i - 1;
        while nextWay != way
          invariant p - 1 <= i < assoc - 1
          invariant nextWay == s[i + 1]
          invariant lru[assoc - 1] == way
          invariant forall k :: i + 1 <= k < assoc - 1 ==> lru[k] == s[k + 1]
          invariant forall k :: 0 <= k <= i ==> lru[k] == s[k]
          decreases i + 1
        {
          lru[i], nextWay := nextWay, lru[i];
          i := i - 1;
        }
        assert lru[..] == MoveToEnd(s, p);
        MoveToEndPermutation(s, assoc, p);
      } else {
        var i := 0;
        lru[i], nextWay := nextWay, lru[i];
        i := i + 1;
        while nextWay != way
          invariant 1 <= i <= p + 1
          invariant nextWay == s[i - 1]
          invariant lru[0] == way
          invariant forall k :: 1 <= k < i ==> lru[k] == s[k - 1]
          invariant forall k :: i <= k < assoc ==> lru[k] == s[k]
          decreases assoc - i
        {
          lru[i], nextWay := nextWay, lru[i];
          i := i + 1;
        }
        assert lru[..] == MoveToFront(s, p);
        MoveToFrontPermutation(s, assoc, p);
      }
    }
  }
}
