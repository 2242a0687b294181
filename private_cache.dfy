/**
 * `PrivateCache`: a per-core cache that keeps its lines and its LRU orders
 * in two grids, one row per set, and splits the address itself.  Its access
 * has the same meaning as that of `Cache` (`Caches.CacheAccessAsWritten`:
 * only VALID lines are found); the rows are updated in place.
 */
module PrivateCaches {
  import opened Bits
  import opened Lru
  import opened Address
  import opened CacheSets
  import opened Caches
  import opened Wrappers

  class PrivateCache {
    const cacheSize: nat
    const assoc: nat
    const blockSize: nat
    const tagSize: nat
    const sets: nat
    var hits: nat
    var misses: nat
    /** `cache_`: row r holds the lines of set r. */
    const lines: array2<CacheLine>
    /** `lru_`: row r is the LRU order of set r, least recently used first. */
    const lru: array2<nat>
    ghost var model: seq<SetState>

    /** Both grids have one row per set and one column per way. */
    ghost predicate Shape()
    {
      assoc >= 1 && blockSize >= 1
      && lines.Length0 == sets && lines.Length1 == assoc
      && lru.Length0 == sets && lru.Length1 == assoc
    }

    ghost function LineRow(r: nat): seq<CacheLine>
      requires Shape() && r < sets
      reads lines
    {
      seq(assoc, j requires 0 <= j < assoc reads lines => lines[r, j])
    }

    ghost function LruRow(r: nat): seq<nat>
      requires Shape() && r < sets
      reads lru
    {
      seq(assoc, j requires 0 <= j < assoc reads lru => lru[r, j])
    }

    ghost function RowState(r: nat): SetState
      requires Shape() && r < sets
      reads lines, lru
    {
      SetState(LineRow(r), LruRow(r))
    }

    /** A row whose cells all kept their values has the same state. */
    twostate lemma OtherRowsUnchanged(row: nat)
      requires Shape() && row < sets
      requires forall r, j :: 0 <= r < sets && 0 <= j < assoc && r != row ==>
                 lines[r, j] == old(lines[r, j]) && lru[r, j] == old(lru[r, j])
      requires old(Valid()) && model == old(model)
      ensures forall r :: 0 <= r < sets && r != row ==> IsPermutation(LruRow(r), assoc) && model[r] == RowState(r)
    {
      forall r | 0 <= r < sets && r != row
        ensures IsPermutation(LruRow(r), assoc) && model[r] == RowState(r)
      {
        assert LineRow(r) == old(LineRow(r));
        assert LruRow(r) == old(LruRow(r));
      }
    }

    ghost predicate Valid()
      reads this`model, lines, lru
    {
      Shape() && |model| == sets
      && forall r :: 0 <= r < sets ==> IsPermutation(LruRow(r), assoc) && model[r] == RowState(r)
    }

    /** The abstract contents, the same shape as those of a `Cache`. */
    ghost function Abs(): CacheState
      reads this
    {
      CacheState(model, hits, misses)
    }

    lemma AbsWellFormed()
      requires Valid() && sets >= 1
      ensures CacheWellFormed(Abs()) && |Abs().sets| == sets
    {
    }

    /** Sets from the capacity in blocks (truncated to uint32) divided by the
        associativity; every line INVALID with tag 0 and every LRU row 0, 1,
        ..., assoc - 1.  The counters are left uninitialised by the
        constructor, so their first values are parameters here. */
    constructor (cacheSize: nat, assoc: nat, blockSize: nat, tagSize: nat, hits0: nat, misses0: nat)
      requires assoc >= 1 && blockSize >= 1
      requires hits0 < U32 && misses0 < U32
      ensures Valid() && fresh(lines) && fresh(lru)
      ensures this.cacheSize == cacheSize && this.assoc == assoc
      ensures this.blockSize == blockSize && this.tagSize == tagSize
      ensures sets == ComputeSets(cacheSize, blockSize, 0, assoc)
      ensures Abs() == CacheState(seq(sets, _ => FreshSet(assoc)), hits0, misses0)
    {
      var n := ComputeSets(cacheSize, blockSize, 0, assoc);
      var order := new nat[n, assoc];
      var r := 0;
      while r < n
        invariant r <= n
        invariant forall r', j :: 0 <= r' < r && 0 <= j < assoc ==> order[r', j] == j
      {
        var i := 0;
        while i < assoc
          invariant i <= assoc
          invariant forall r', j :: 0 <= r' < r && 0 <= j < assoc ==> order[r', j] == j
          invariant forall j :: 0 <= j < i ==> order[r, j] == j
        {
          order[r, i] := i;
          i := i + 1;
        }
        r := r + 1;
      }
      this.cacheSize, this.assoc, this.blockSize, this.tagSize := cacheSize, assoc, blockSize, tagSize;
      sets := n;
      hits, misses := hits0, misses0;
      lines := new CacheLine[n, assoc]((_, _) => EmptyLine);
      lru := order;
      model := seq(n, _ => FreshSet(assoc));
      new;
      forall r | 0 <= r < sets
        ensures IsPermutation(LruRow(r), assoc) && model[r] == RowState(r)
      {
        assert LruRow(r) == Identity(assoc);
        assert LineRow(r) == seq(assoc, _ => EmptyLine);
        IdentityIsPermutation(assoc);
      }
    }

    /** `PrivateCache::compute_location_info(addr)`: the address split with
        log2 of the block size, of the set count and of the tag size. */
    function LocationInfoOf(addr: nat): (loc: LocationInfo)
      requires blockSize >= 1 && sets >= 1 && tagSize >= 1
      reads this
      ensures loc.setIndex < sets && loc.tag < U32
    {
      LocationOf(addr, blockSize, sets, FloorLog2(tagSize))
    }

    /** `PrivateCache::update_lru(way, row, is_valid)` on the LRU row of one
        set: the way moves to the most recently used end (is_valid) or to
        the least recently used front, by a chain of swaps.  Other rows do
        not change. */
    method UpdateLru(way: nat, row: nat, isValid: bool)
      requires Shape() && row < sets && way < assoc && IsPermutation(LruRow(row), assoc)
      modifies lru
      ensures IsPermutation(LruRow(row), assoc)
      ensures way in old(LruRow(row))
      ensures isValid ==> LruRow(row) == MoveToEnd(old(LruRow(row)), IndexOf(old(LruRow(row)), way))
      ensures !isValid ==> LruRow(row) == MoveToFront(old(LruRow(row)), IndexOf(old(LruRow(row)), way))
      ensures forall r, j :: 0 <= r < sets && 0 <= j < assoc && r != row ==> lru[r, j] == old(lru[r, j])
    {
      PermutationHas(LruRow(row), assoc, way);
      if isValid {
        SwapToBack(way, row);
      } else {
        SwapToFront(way, row);
      }
    }

    /** The `is_valid` branch of `update_lru`: swaps run from the last
        column down to the way's old position. */
    method SwapToBack(way: nat, row: nat)
      requires Shape() && row < sets && IsPermutation(LruRow(row), assoc) && way in LruRow(row)
      modifies lru
      ensures IsPermutation(LruRow(row), assoc)
      ensures LruRow(row) == MoveToEnd(old(LruRow(row)), IndexOf(old(LruRow(row)), way))
      ensures forall r, j :: 0 <= r < sets && 0 <= j < assoc && r != row ==> lru[r, j] == old(lru[r, j])
    {
      ghost var s := LruRow(row);
      ghost var p := IndexOf(s, way);
      PermutationUnique(s, assoc, way);
      var nextWay := way;
      var i: int := assoc - 1;
      lru[row, i], nextWay := nextWay, lru[row, i];
      i := i - 1;
      while nextWay != way
        invariant p - 1 <= i < assoc - 1
        invariant nextWay == s[i + 1]
        invariant lru[row, assoc - 1] == way
        invariant forall k :: i + 1 <= k < assoc - 1 ==> lru[row, k] == s[k + 1]
        invariant forall k :: 0 <= k <= i ==> lru[row, k] == s[k]
        invariant forall r, j :: 0 <= r < sets && 0 <= j < assoc && r != row ==> lru[r, j] == old(lru[r, j])
        decreases i + 1
      {
        lru[row, i], nextWay := nextWay, lru[row, i];
        i := i - 1;
      }
      assert LruRow(row) == MoveToEnd(s, p);
      MoveToEndPermutation(s, assoc, p);
    }

    /** The other branch of `update_lru`: swaps run from the first column up
        to the way's old position. */
    method SwapToFront(way: nat, row: nat)
      requires Shape() && row < sets && IsPermutation(LruRow(row), assoc) && way in LruRow(row)
      modifies lru
      ensures IsPermutation(LruRow(row), assoc)
      ensures LruRow(row) == MoveToFront(old(LruRow(row)), IndexOf(old(LruRow(row)), way))
      ensures forall r, j :: 0 <= r < sets && 0 <= j < assoc && r != row ==> lru[r, j] == old(lru[r, j])
    {
      ghost var s := LruRow(row);
      ghost var p := IndexOf(s, way);
      PermutationUnique(s, assoc, way);
      var nextWay := way;
      var i := 0;
      lru[row, i], nextWay := nextWay, lru[row, i];
      i := i + 1;
      while nextWay != way
        invariant 1 <= i <= p + 1
        invariant nextWay == s[i - 1]
        invariant lru[row, 0] == way
        invariant forall k :: 1 <= k < i ==> lru[row, k] == s[k - 1]
        invariant forall k :: i <= k < assoc ==> lru[row, k] == s[k]
        invariant forall r, j :: 0 <= r < sets && 0 <= j < assoc && r != row ==> lru[r, j] == old(lru[r, j])
        decreases assoc - i
      {
        lru[row, i], nextWay := nextWay, lru[row, i];
        i := i + 1;
      }
      assert LruRow(row) == MoveToFront(s, p);
      MoveToFrontPermutation(s, assoc, p);
    }

    /** After rows other than `row` kept their cells, the model is brought up
        to date by replacing the entry of `row`. */
    method Resync(row: nat)
      requires Shape() && row < sets && |model| == sets
      requires IsPermutation(LruRow(row), assoc)
      requires forall r :: 0 <= r < sets && r != row ==> IsPermutation(LruRow(r), assoc) && model[r] == RowState(r)
      modifies this`model
      ensures Valid() && model == old(model)[row := RowState(row)]
    {
      model := model[row := RowState(row)];
    }

    /** `PrivateCache::evict(set_index)`: invalidates the least recently used
        way of the set and returns it; the LRU order does not change.  An
        index past the last set makes `.at` throw: nothing changes and no way
        is returned. */
    method Evict(setIndex: nat) returns (r: Option<nat>)
      requires Valid()
      modifies lines, lru, this`model
      ensures Valid()
      ensures setIndex >= sets ==> r.None? && model == old(model)
      ensures setIndex < sets ==>
                r.Some? && r.value == old(model[setIndex]).lru[0] && r.value < assoc
                && model == old(model)[setIndex := SetState(
                     old(model[setIndex]).lines[r.value := old(model[setIndex]).lines[r.value].(state := INVALID)],
                     old(model[setIndex]).lru)]
    {
      if setIndex >= sets {
        return None;
      }
      ghost var s := model[setIndex];
      var way := lru[setIndex, 0];
      PermutationBound(s.lru, assoc, 0);
      lines[setIndex, way] := lines[setIndex, way].(state := INVALID);
      assert LineRow(setIndex) == s.lines[way := s.lines[way].(state := INVALID)];
      PermutationIndexOf(s.lru, assoc, 0);
      UpdateLru(way, setIndex, false);
      MoveToFrontOfFirst(s.lru);
      OtherRowsUnchanged(setIndex);
      Resync(setIndex);
      r := Some(way);
    }

    /** The lookup loop of `access` over one row: the first way holding the
        tag, or -1. */
    method LookupWay(row: nat, tag: nat) returns (way: int)
      requires Shape() && row < sets
      ensures way == -1 <==> FindWay(LineRow(row), tag, false).None?
      ensures way != -1 ==> FindWay(LineRow(row), tag, false) == Some(way)
    {
      ghost var cells := LineRow(row);
      way := -1;
      var i := 0;
      while i < assoc
        invariant 0 <= i <= assoc && way == -1
        invariant forall k :: 0 <= k < i ==> !Holds(cells[k], tag, false)
      {
        assert cells[i] == lines[row, i];
        if lines[row, i].tag == tag && lines[row, i].state == VALID {
          way := i;
          break;
        }
        i := i + 1;
      }
    }

    /** The line handling of `access`, once the way is known: a line that
        holds data is a hit and stays, an INVALID one is a miss and receives
        the tag; a write leaves it DIRTY. */
    method FillLine(row: nat, way: nat, tag: nat, write: bool) returns (hit: bool)
      requires Shape() && row < sets && way < assoc
      modifies lines
      ensures hit == (old(lines[row, way]).state != INVALID)
      ensures LineRow(row) == old(LineRow(row))[way := Filled(old(lines[row, way]), hit, tag, write)]
      ensures forall r, j :: 0 <= r < sets && 0 <= j < assoc && r != row ==> lines[r, j] == old(lines[r, j])
    {
      var line := lines[row, way];
      if line.state == INVALID {
        lines[row, way] := CacheLine(VALID, tag % U32);
        hit := false;
      } else {
        hit := true;
      }
      if write {
        lines[row, way] := lines[row, way].(state := DIRTY);
      }
      assert LineRow(row) == old(LineRow(row))[way := Filled(line, hit, tag, write)];
    }

    /** The second half of `access`: fill the line, then make the way the
        most recently used one. */
    method Install(row: nat, way: nat, tag: nat, write: bool) returns (hit: bool)
      requires Valid() && row < sets && way < assoc
      modifies lines, lru, this`model
      ensures Valid() && way in old(model[row]).lru
      ensures var s := old(model[row]);
              hit == (s.lines[way].state != INVALID)
              && model == old(model)[row := SetState(s.lines[way := Filled(s.lines[way], hit, tag, write)],
                                                     MoveToEnd(s.lru, IndexOf(s.lru, way)))]
    {
      ghost var s := model[row];
      assert lines[row, way] == s.lines[way];
      hit := FillLine(row, way, tag, write);
      UpdateLru(way, row, true);
      OtherRowsUnchanged(row);
      Resync(row);
    }

    /** The row-level steps of `PrivateCache::access`: look up, evict on a
        miss, then install.  Returns whether the access was a hit. */
    method AccessRow(row: nat, tag: nat, write: bool) returns (hit: bool)
      requires Valid() && row < sets
      modifies lines, lru, this`model
      ensures Valid() && WellFormed(old(model[row]))
      ensures Outcome(model[row], hit) == SetAccessAsWritten(old(model[row]), tag, write)
      ensures model == old(model)[row := model[row]]
    {
      ghost var s := model[row];
      var way := LookupWay(row, tag);
      ghost var found := way != -1;
      if way == -1 {
        var r := Evict(row);
        way := r.value;
      }
      ghost var w: nat := way;
      assert w == AccessWay(s, tag, false);
      ghost var s1 := model[row];
      assert s1.lru == s.lru && |s1.lines| == |s.lines|;
      assert s1.lines[w].state != INVALID <==> found;
      hit := Install(row, way, tag, write);
      assert hit == FindWay(s.lines, tag, false).Some?;
      ghost var line := Filled(s.lines[w], hit, tag, write);
      assert Filled(s1.lines[w], hit, tag, write) == line;
      assert s1.lines[w := line] == s.lines[w := line];
      assert model[row] == SetAccessAsWritten(s, tag, write).next;
    }

    /** `PrivateCache::access(addr, write)`: the row-level steps, then the
        hit or the miss is counted.  It means exactly what an access to a
        `Cache` with the same geometry means. */
    method Access(addr: nat, write: bool)
      requires Valid() && sets >= 1 && tagSize >= 1
      modifies this, lines, lru
      ensures Valid() && CacheWellFormed(old(Abs()))
      ensures Abs() == CacheAccessAsWritten(old(Abs()), LocationInfoOf(addr), write)
    {
      AbsWellFormed();
      var loc := LocationInfoOf(addr);
      ghost var o := SetAccessAsWritten(model[loc.setIndex], loc.tag, write);
      var hit := AccessRow(loc.setIndex, loc.tag, write);
      assert hit == o.hit && model == old(model)[loc.setIndex := o.next];
      if hit {
        hits := Inc32(hits);
      } else {
        misses := Inc32(misses);
      }
    }

    /** `PrivateCache::read(addr)`: an access that does not write. */
    method Read(addr: nat)
      requires Valid() && sets >= 1 && tagSize >= 1
      modifies this, lines, lru
      ensures Valid() && CacheWellFormed(old(Abs()))
      ensures Abs() == CacheAccessAsWritten(old(Abs()), LocationInfoOf(addr), false)
    {
      Access(addr, false);
    }

    /** `PrivateCache::write(addr)`: as written it passes write = false too. */
    method Write(addr: nat)
      requires Valid() && sets >= 1 && tagSize >= 1
      modifies this, lines, lru
      ensures Valid() && CacheWellFormed(old(Abs()))
      ensures Abs() == CacheAccessAsWritten(old(Abs()), LocationInfoOf(addr), false)
    {
      Access(addr, false);
    }
  }
}
