/**
 * One set of the timestamp cache used to warm up private and shared caches:
 * a fixed number of ways, each holding a block id, the timestamp of its last
 * access and a line status. Ways are filled in index order from a cold
 * pointer; once the set is full the way with the smallest timestamp is
 * replaced.
 */
module TsSets {
  import opened Wrappers

  datatype LineStatus = Invalid | Instruction | CleanData | CleanInstructionAndData | DirtyData

  /** `is_dirty`. */
  predicate IsDirty(s: LineStatus)
  {
    s == DirtyData
  }

  /** `is_data`. */
  predicate IsData(s: LineStatus)
  {
    s == CleanData || s == CleanInstructionAndData || s == DirtyData
  }

  /** `is_instruction`. */
  predicate IsInstruction(s: LineStatus)
  {
    s == Instruction || s == CleanInstructionAndData
  }

  /** `CacheReturnResult`: what an access did, with the victim when one was evicted. */
  datatype AccessResult = Miss | Hit | MissWithEviction(blockId: nat, isInstruction: bool) | MissWithWriteBack(blockId: nat)

  /**
   * The two ways the set panics: an instruction write (`panic!()` in
   * `add_new`) and a set without ways (the `unreachable!()` after an empty
   * `min_by_key`).
   */
  datatype SetFault = InstructionWrite | NoVictim

  /** An item of the set's iterator: (block_id, ts, status). */
  datatype Entry = Entry(blockId: nat, ts: nat, status: LineStatus)

  /** The block id and status `add_new` hands back for an evicted way. */
  datatype Victim = Victim(blockId: nat, status: LineStatus)

  /** The contents of a set: the three way arrays and the cold pointer. */
  datatype SetState = SetState(blockIds: seq<nat>, ts: seq<nat>, status: seq<LineStatus>, cold: nat)

  /** All three arrays have one element per way. */
  predicate Sized(s: SetState, assoc: nat)
  {
    |s.blockIds| == assoc && |s.ts| == assoc && |s.status| == assoc
  }

  /**
   * The invariant of a set: the ways below the cold pointer are in use and
   * the ways from the cold pointer on are Invalid.
   */
  predicate WellFormed(s: SetState, assoc: nat)
  {
    Sized(s, assoc) && s.cold <= assoc
    && forall i :: 0 <= i < assoc ==> (s.status[i] == Invalid <==> i >= s.cold)
  }

  /** `new`: every way Invalid with id and timestamp 0, cold pointer at 0. */
  function Empty(assoc: nat): (s: SetState)
    ensures WellFormed(s, assoc) && s.cold == 0
    ensures forall i :: 0 <= i < assoc ==> s.blockIds[i] == 0 && s.ts[i] == 0
  {
    SetState(seq(assoc, _ => 0), seq(assoc, _ => 0), seq(assoc, _ => Invalid), 0)
  }

  // ---------------------------------------------------------------------------
  // Lookup and victim choice (pure in the source)
  // ---------------------------------------------------------------------------

  /** Way i holds block b and is in use. */
  predicate Holds(s: SetState, i: nat, b: nat)
    requires i < |s.blockIds| && i < |s.status|
  {
    s.blockIds[i] == b && s.status[i] != Invalid
  }

  /**
   * `lookup`, from way `from` on: the first way that holds b, or the number
   * of ways (the miss marker A) when none does.
   */
  function LookupFrom(s: SetState, b: nat, from: nat): (r: nat)
    requires |s.blockIds| == |s.status| && from <= |s.status|
    ensures from <= r <= |s.status|
    ensures r < |s.status| ==> Holds(s, r, b)
    ensures forall i :: from <= i < r ==> !Holds(s, i, b)
    decreases |s.status| - from
  {
    if from == |s.status| then from
    else if s.blockIds[from] == b && s.status[from] != Invalid then from
    else LookupFrom(s, b, from + 1)
  }

  /** `lookup`: a way that holds b, and the first one, or the miss marker A
      exactly when no way holds b. */
  function Lookup(s: SetState, b: nat): (r: nat)
    requires |s.blockIds| == |s.status|
    ensures r <= |s.status|
    ensures r < |s.status| ==> Holds(s, r, b) && forall i :: 0 <= i < r ==> !Holds(s, i, b)
    ensures r == |s.status| <==> forall i :: 0 <= i < |s.status| ==> !Holds(s, i, b)
  {
    LookupFrom(s, b, 0)
  }

  /** The first Invalid way, or the number of ways when there is none. */
  function FirstInvalid(status: seq<LineStatus>, from: nat): (r: nat)
    requires from <= |status|
    ensures from <= r <= |status|
    ensures r < |status| ==> status[r] == Invalid
    ensures forall i :: from <= i < r ==> status[i] != Invalid
    decreases |status| - from
  {
    if from == |status| || status[from] == Invalid then from else FirstInvalid(status, from + 1)
  }

  /** `min_by_key` over the timestamps from `from` on: the first way with the smallest one. */
  function MinTsFrom(ts: seq<nat>, from: nat): (r: nat)
    requires from < |ts|
    ensures from <= r < |ts|
    ensures forall j :: from <= j < |ts| ==> ts[r] <= ts[j]
    ensures forall j :: from <= j < r ==> ts[j] > ts[r]
    decreases |ts| - from
  {
    if from == |ts| - 1 then from
    else
      var m := MinTsFrom(ts, from + 1);
      if ts[from] <= ts[m] then from else m
  }

  // ---------------------------------------------------------------------------
  // Updates
  // ---------------------------------------------------------------------------

  /** The status a new line gets: an instruction write has none. */
  function StatusFor(isInstruction: bool, isWrite: bool): (r: Result<LineStatus, SetFault>)
    ensures r.Err? <==> isInstruction && isWrite
    ensures r.Ok? ==> r.value != Invalid && (IsInstruction(r.value) <==> isInstruction)
                      && (IsDirty(r.value) <==> isWrite) && (IsData(r.value) <==> !isInstruction)
  {
    match (isInstruction, isWrite)
    case (true, true) => Err(InstructionWrite)
    case (true, false) => Ok(Instruction)
    case (false, true) => Ok(DirtyData)
    case (false, false) => Ok(CleanData)
  }

  /** Way i overwritten with a block, a timestamp and a status. */
  function FillWay(s: SetState, i: nat, b: nat, t: nat, st: LineStatus): SetState
    requires i < |s.blockIds| && i < |s.ts| && i < |s.status|
  {
    s.(blockIds := s.blockIds[i := b], ts := s.ts[i := t], status := s.status[i := st])
  }

  datatype Added = Added(next: SetState, victim: Option<Victim>)

  /**
   * `add_new`. While the cold pointer is below the number of ways, the line
   * goes into that way. Otherwise the first Invalid way, if any, is filled,
   * and then the way with the smallest timestamp is replaced and returned as
   * the victim.
   */
  function AddNewOn(s: SetState, b: nat, t: nat, isInstruction: bool, isWrite: bool): Result<Added, SetFault>
    requires Sized(s, |s.status|)
  {
    match StatusFor(isInstruction, isWrite)
    case Err(e) => Err(e)
    case Ok(st) =>
      if s.cold < |s.status| then
        Ok(Added(FillWay(s, s.cold, b, t, st).(cold := s.cold + 1), None))
      else
        var free := FirstInvalid(s.status, 0);
        var s1 := if free < |s.status| then FillWay(s, free, b, t, st) else s;
        if |s1.ts| == 0 then Err(NoVictim)
        else
          var v := MinTsFrom(s1.ts, 0);
          Ok(Added(FillWay(s1, v, b, t, st), Some(Victim(s1.blockIds[v], s1.status[v]))))
  }

  /**
   * The status of a line that a hit touches. An instruction fetch or a data
   * access adds the missing role; a write makes clean data dirty.
   */
  function PeekStatus(st: LineStatus, isInstruction: bool, isWrite: bool): LineStatus
    requires st != Invalid
  {
    match st
    case Instruction => if !isInstruction then CleanInstructionAndData else Instruction
    case CleanData =>
      var afterFetch := if isInstruction then CleanInstructionAndData else CleanData;
      if isWrite then DirtyData else afterFetch
    case CleanInstructionAndData => CleanInstructionAndData
    case DirtyData => DirtyData
  }

  datatype Peeked = Peeked(hit: bool, next: SetState)

  /** `peek`: on a hit, the way's timestamp becomes t and its status is updated. */
  function PeekOn(s: SetState, b: nat, t: nat, isInstruction: bool, isWrite: bool): Peeked
    requires Sized(s, |s.status|)
  {
    var i := Lookup(s, b);
    if i == |s.status| then Peeked(false, s)
    else Peeked(true, s.(ts := s.ts[i := t], status := s.status[i := PeekStatus(s.status[i], isInstruction, isWrite)]))
  }

  /** What `access` reports for the victim `add_new` returned. */
  function ResultOf(victim: Option<Victim>): AccessResult
  {
    match victim
    case None => Miss
    case Some(Victim(id, st)) => if st == DirtyData then MissWithWriteBack(id) else MissWithEviction(id, IsInstruction(st))
  }

  datatype Accessed = Accessed(result: AccessResult, next: SetState)

  /** `access`: a peek, and on a miss an `add_new`. */
  function AccessOn(s: SetState, b: nat, t: nat, isInstruction: bool, isWrite: bool): Result<Accessed, SetFault>
    requires Sized(s, |s.status|)
  {
    var p := PeekOn(s, b, t, isInstruction, isWrite);
    if p.hit then Ok(Accessed(Hit, p.next))
    else
      match AddNewOn(p.next, b, t, isInstruction, isWrite)
      case Err(e) => Err(e)
      case Ok(a) => Ok(Accessed(ResultOf(a.victim), a.next))
  }

  /** The iterator's items: the ways in use, in index order. */
  function LiveEntries(s: SetState): (es: seq<Entry>)
    requires Sized(s, |s.status|) && s.cold <= |s.status|
    ensures |es| == s.cold
    ensures forall i :: 0 <= i < s.cold ==> es[i] == Entry(s.blockIds[i], s.ts[i], s.status[i])
  {
    seq(s.cold, i requires 0 <= i < s.cold => Entry(s.blockIds[i], s.ts[i], s.status[i]))
  }

  /** The first way in use from `from` on, or the number of ways when there is none. */
  function FirstInUse(status: seq<LineStatus>, from: nat): (r: nat)
    requires from <= |status|
    ensures from <= r <= |status|
    ensures r < |status| ==> status[r] != Invalid
    ensures forall i :: from <= i < r ==> status[i] == Invalid
    decreases |status| - from
  {
    if from == |status| || status[from] != Invalid then from else FirstInUse(status, from + 1)
  }

  /**
   * The iterator's `next` at position idx: nothing at the end or from the
   * cold pointer on; otherwise the first way in use from idx, and the
   * position after it.
   */
  function NextOn(s: SetState, idx: nat): (Option<Entry>, nat)
    requires Sized(s, |s.status|) && idx <= |s.status|
  {
    if idx == |s.status| || idx >= s.cold then (None, idx)
    else
      var it := FirstInUse(s.status, idx);
      if it == |s.status| then (None, idx)
      else (Some(Entry(s.blockIds[it], s.ts[it], s.status[it])), it + 1)
  }

  // ---------------------------------------------------------------------------
  // Properties
  // ---------------------------------------------------------------------------

  /**
   * On a well-formed set, `next` from a position at or below the cold
   * pointer yields the live entry at that position and moves one way on, or
   * yields nothing exactly at the cold pointer: the iterator produces
   * `LiveEntries`, in index order, each once.
   */
  lemma NextYieldsLiveEntries(s: SetState, idx: nat)
    requires WellFormed(s, |s.status|) && idx <= s.cold
    ensures NextOn(s, idx).0.None? <==> idx == s.cold
    ensures NextOn(s, idx).0.Some? ==> NextOn(s, idx) == (Some(LiveEntries(s)[idx]), idx + 1)
  {
  }

  /** Every way other than i has the same block, timestamp and status in s and t. */
  predicate OthersUnchanged(s: SetState, t: SetState, i: nat)
    requires Sized(s, |s.status|) && Sized(t, |s.status|)
  {
    forall j :: 0 <= j < |s.status| && j != i ==>
      t.blockIds[j] == s.blockIds[j] && t.ts[j] == s.ts[j] && t.status[j] == s.status[j]
  }

  /** Every line in use is data, instruction or both; a dirty line is data only. */
  lemma StatusRoles(s: LineStatus)
    ensures s != Invalid <==> IsData(s) || IsInstruction(s)
    ensures IsDirty(s) ==> IsData(s) && !IsInstruction(s)
    ensures IsData(s) && IsInstruction(s) <==> s == CleanInstructionAndData
  {
  }

  /**
   * A hit never takes a role away. A line becomes dirty only when clean data
   * is written; it gains the data role when an instruction line is touched by
   * a data access, and the instruction role when clean data is fetched and
   * not written.
   */
  lemma PeekStatusRoles(st: LineStatus, isInstruction: bool, isWrite: bool)
    requires st != Invalid
    ensures var r := PeekStatus(st, isInstruction, isWrite);
            r != Invalid
            && (IsDirty(r) <==> IsDirty(st) || (st == CleanData && isWrite))
            && (IsData(r) <==> IsData(st) || !isInstruction)
            && (IsInstruction(r) <==> IsInstruction(st) || (st == CleanData && isInstruction && !isWrite))
  {
  }

  /** A peek hits exactly when the block is held, and then changes only the timestamp and status of its way. */
  lemma PeekSpec(s: SetState, b: nat, t: nat, isInstruction: bool, isWrite: bool)
    requires WellFormed(s, |s.status|)
    ensures var p := PeekOn(s, b, t, isInstruction, isWrite);
            (p.hit <==> exists i :: 0 <= i < |s.status| && Holds(s, i, b))
            && (!p.hit ==> p.next == s)
            && WellFormed(p.next, |s.status|)
            && p.next.blockIds == s.blockIds && p.next.cold == s.cold
            && (p.hit ==> p.next.ts[Lookup(s, b)] == t && OthersUnchanged(s, p.next, Lookup(s, b)))
  {
    var i := Lookup(s, b);
    if i < |s.status| {
      PeekStatusRoles(s.status[i], isInstruction, isWrite);
    }
  }

  /**
   * While the set is not full, `add_new` fills the way at the cold pointer,
   * advances the pointer and evicts nothing.
   */
  lemma AddNewCold(s: SetState, b: nat, t: nat, isInstruction: bool, isWrite: bool)
    requires WellFormed(s, |s.status|) && s.cold < |s.status| && !(isInstruction && isWrite)
    ensures var r := AddNewOn(s, b, t, isInstruction, isWrite);
            r.Ok? && r.value.victim.None? && WellFormed(r.value.next, |s.status|)
            && r.value.next.cold == s.cold + 1
            && Holds(r.value.next, s.cold, b) && r.value.next.ts[s.cold] == t
            && OthersUnchanged(s, r.value.next, s.cold)
  {
  }

  /**
   * Once the set is full, no way is Invalid, so the first-Invalid fill never
   * happens: the victim is the first way with the smallest timestamp, its
   * block and status are returned and only that way is overwritten.
   */
  lemma AddNewFull(s: SetState, b: nat, t: nat, isInstruction: bool, isWrite: bool)
    requires WellFormed(s, |s.status|) && s.cold == |s.status| > 0 && !(isInstruction && isWrite)
    ensures var r := AddNewOn(s, b, t, isInstruction, isWrite);
            var v := MinTsFrom(s.ts, 0);
            r.Ok? && r.value.victim == Some(Victim(s.blockIds[v], s.status[v]))
            && (forall j :: 0 <= j < |s.ts| ==> s.ts[v] <= s.ts[j])
            && WellFormed(r.value.next, |s.status|) && r.value.next.cold == s.cold
            && Holds(r.value.next, v, b) && r.value.next.ts[v] == t
            && OthersUnchanged(s, r.value.next, v)
  {
    assert FirstInvalid(s.status, 0) == |s.status|;
  }

  /** `add_new` fails exactly on an instruction write, on a set that has ways. */
  lemma AddNewFaults(s: SetState, b: nat, t: nat, isInstruction: bool, isWrite: bool)
    requires WellFormed(s, |s.status|) && |s.status| > 0
    ensures AddNewOn(s, b, t, isInstruction, isWrite) == Err(InstructionWrite) <==> isInstruction && isWrite
    ensures AddNewOn(s, b, t, isInstruction, isWrite).Err? ==> isInstruction && isWrite
  {
  }

  /**
   * `access`: a hit exactly when the block is held; `Miss` exactly when it
   * was not held and the set had a cold way; otherwise the victim is the
   * smallest-timestamp way, reported as a write-back when it was dirty. The
   * set stays well formed and afterwards holds the block.
   */
  lemma AccessSpec(s: SetState, b: nat, t: nat, isInstruction: bool, isWrite: bool)
    requires WellFormed(s, |s.status|) && |s.status| > 0
    requires !(isInstruction && isWrite) || exists i :: 0 <= i < |s.status| && Holds(s, i, b)
    ensures var r := AccessOn(s, b, t, isInstruction, isWrite);
            var held := exists i :: 0 <= i < |s.status| && Holds(s, i, b);
            r.Ok? && WellFormed(r.value.next, |s.status|)
            && Lookup(r.value.next, b) < |s.status|
            && (r.value.result == Hit <==> held)
            && (r.value.result == Miss <==> !held && s.cold < |s.status|)
            && (r.value.result.MissWithWriteBack? ==> s.status[MinTsFrom(s.ts, 0)] == DirtyData)
            && (r.value.result.MissWithEviction? ==> s.status[MinTsFrom(s.ts, 0)] != DirtyData)
            && ((r.value.result.MissWithWriteBack? || r.value.result.MissWithEviction?) ==>
                  !held && s.cold == |s.status| && r.value.result.blockId == s.blockIds[MinTsFrom(s.ts, 0)])
            && r.value.next.cold == (if !held && s.cold < |s.status| then s.cold + 1 else s.cold)
  {
    PeekSpec(s, b, t, isInstruction, isWrite);
    var p := PeekOn(s, b, t, isInstruction, isWrite);
    if p.hit {
      var i := Lookup(s, b);
      assert Holds(p.next, i, b);
    } else if s.cold < |s.status| {
      AddNewCold(s, b, t, isInstruction, isWrite);
    } else {
      AddNewFull(s, b, t, isInstruction, isWrite);
    }
  }

  /** An instruction write that misses is the one access that panics. */
  lemma AccessFaults(s: SetState, b: nat, t: nat)
    requires WellFormed(s, |s.status|) && |s.status| > 0
    ensures AccessOn(s, b, t, true, true).Err? <==> !exists i :: 0 <= i < |s.status| && Holds(s, i, b)
  {
    PeekSpec(s, b, t, true, true);
  }

  // ---------------------------------------------------------------------------
  // The set, in place
  // ---------------------------------------------------------------------------

  class TimestampCacheSet {
    const assoc: nat
    const blockIds: array<nat>
    const ts: array<nat>
    const status: array<LineStatus>
    var cold: nat
    ghost const Repr: set<object>

    /** The heap-independent part of the invariant: the arrays, distinct, with one element per way. */
    ghost predicate Shape()
    {
      Repr == {blockIds, ts, status} && blockIds != ts
      && blockIds.Length == assoc && ts.Length == assoc && status.Length == assoc
    }

    function State(): SetState
      reads this, blockIds, ts, status
    {
      SetState(blockIds[..], ts[..], status[..], cold)
    }

    ghost predicate Valid()
      reads this, blockIds, ts, status
    {
      Shape() && WellFormed(State(), assoc)
    }

    /** `new`. */
    constructor (assoc: nat)
      ensures Valid() && fresh(Repr) && this.assoc == assoc
      ensures State() == Empty(assoc)
    {
      this.assoc := assoc;
      blockIds := new nat[assoc](_ => 0);
      ts := new nat[assoc](_ => 0);
      status := new LineStatus[assoc](_ => Invalid);
      cold := 0;
      Repr := {blockIds, ts, status};
    }

    /** `warm_chunk_count`: the number of ways filled so far. */
    function WarmChunkCount(): (n: nat)
      reads this
      ensures n == State().cold
    {
      cold
    }

    method Overwrite(i: nat, b: nat, t: nat, st: LineStatus)
      requires Shape() && i < assoc
      modifies blockIds, ts, status
      ensures State() == old(State()).(blockIds := old(blockIds[..])[i := b], ts := old(ts[..])[i := t], status := old(status[..])[i := st])
    {
      blockIds[i] := b;
      ts[i] := t;
      status[i] := st;
    }

    /** `add_new`: fails before changing anything. */
    method AddNew(b: nat, t: nat, isInstruction: bool, isWrite: bool) returns (r: Result<Option<Victim>, SetFault>)
      requires Shape()
      modifies this, Repr
      ensures var spec := AddNewOn(old(State()), b, t, isInstruction, isWrite);
              (spec.Ok? ==> r == Ok(spec.value.victim) && State() == spec.value.next)
              && (spec.Err? ==> r == Err(spec.error) && State() == old(State()))
    {
      var potential := StatusFor(isInstruction, isWrite);
      if potential.Err? {
        return Err(potential.error);
      }
      var st := potential.value;
      if cold < assoc {
        Overwrite(cold, b, t, st);
        cold := cold + 1;
        return Ok(None);
      }
      var free := FirstInvalid(status[..], 0);
      if free < assoc {
        Overwrite(free, b, t, st);
      }
      if assoc == 0 {
        return Err(NoVictim);
      }
      var v := MinTsFrom(ts[..], 0);
      r := Ok(Some(Victim(blockIds[v], status[v])));
      Overwrite(v, b, t, st);
    }

    /** `peek`. */
    method Peek(b: nat, t: nat, isInstruction: bool, isWrite: bool) returns (hit: bool)
      requires Shape()
      modifies ts, status
      ensures Peeked(hit, State()) == PeekOn(old(State()), b, t, isInstruction, isWrite)
    {
      var i := Lookup(State(), b);
      if i == assoc {
        return false;
      }
      ts[i] := t;
      match status[i] {
        case Instruction =>
          if !isInstruction {
            status[i] := CleanInstructionAndData;
          }
        case CleanData =>
          if isInstruction {
            status[i] := CleanInstructionAndData;
          }
          if isWrite {
            status[i] := DirtyData;
          }
        case CleanInstructionAndData =>
        case DirtyData =>
      }
      hit := true;
    }

    /** `access`. */
    method Access(b: nat, t: nat, isInstruction: bool, isWrite: bool) returns (r: Result<AccessResult, SetFault>)
      requires Shape()
      modifies this, Repr
      ensures var spec := AccessOn(old(State()), b, t, isInstruction, isWrite);
              (spec.Ok? ==> r == Ok(spec.value.result) && State() == spec.value.next)
              && (spec.Err? ==> r == Err(spec.error) && State() == old(State()))
    {
      var hit := Peek(b, t, isInstruction, isWrite);
      if hit {
        return Ok(Hit);
      }
      var added := AddNew(b, t, isInstruction, isWrite);
      match added {
        case Err(e) => r := Err(e);
        case Ok(victim) =>
          match victim {
            case Some(Victim(evicted, st)) =>
              if st == DirtyData {
                r := Ok(MissWithWriteBack(evicted));
              } else {
                r := Ok(MissWithEviction(evicted, IsInstruction(st)));
              }
            case None => r := Ok(Miss);
          }
      }
    }
  }

  /** `TimestampCacheSetIterator`: walks the ways of one set from `currentIdx` on. */
  class TimestampCacheSetIterator {
    const base: TimestampCacheSet
    var currentIdx: nat

    ghost predicate Valid()
      reads this
    {
      base.Shape() && currentIdx <= base.assoc
    }

    /** `iter`: an iterator at the first way. */
    constructor (base: TimestampCacheSet)
      requires base.Shape()
      ensures Valid() && this.base == base && currentIdx == 0
    {
      this.base := base;
      currentIdx := 0;
    }

    /** `next`, scanning up to the number of ways. */
    method Next() returns (r: Option<Entry>)
      requires Valid()
      modifies this
      ensures Valid()
      ensures (r, currentIdx) == NextOn(base.State(), old(currentIdx))
    {
      if currentIdx == base.assoc {
        return None;
      }
      if currentIdx >= base.cold {
        return None;
      }
      for it := currentIdx to base.assoc
        invariant forall j :: currentIdx <= j < it ==> base.status[j] == Invalid
      {
        if base.status[it] != Invalid {
          currentIdx := it + 1;
          return Some(Entry(base.blockIds[it], base.ts[it], base.status[it]));
        }
      }
      return None;
    }
  }
}
