/**
 * Memory timestamp records (MTRs): the per-core private caches merged into
 * one record per block (readers, writer, latest timestamp), and what each
 * core's rebuilt cache holds of a record.
 */
module MtrRecords {
  import opened Wrappers
  import TsSets
  import opened Checkpoints

  datatype MtrPermission = Instruction | InstructionAndCleanData | CleanData | DirtyData

  /** `is_dirty`. */
  predicate PermIsDirty(p: MtrPermission)
  {
    p == DirtyData
  }

  /** `in_instruction_cache`. */
  predicate InInstructionCache(p: MtrPermission)
  {
    p == Instruction || p == InstructionAndCleanData
  }

  /** `in_data_cache`. */
  predicate InDataCache(p: MtrPermission)
  {
    p != Instruction
  }

  /** The latest writer: a core id and the timestamp of its write. */
  datatype Writer = Writer(core: nat, ts: nat)

  /** `MemoryTimestampRecord`; the maps go from core id to timestamp. */
  datatype MtrRecord = MtrRecord(ts: nat, invalid: map<nat, nat>, readers: map<nat, nat>, perm: MtrPermission, writer: Option<Writer>)

  /** The `assert!`s and `unreachable!`s of `absorb_ts_cache`. */
  datatype AbsorbFault = DuplicateInvalid | NxViolated | DuplicateReader | DirtyExecutable | SameCoreWriter | InvalidEntry

  // ---------------------------------------------------------------------------
  // The directory block of a record
  // ---------------------------------------------------------------------------

  /** A reader still holds a valid replica: there is no writer, or it read no earlier than the write. */
  predicate HoldsReplica(r: MtrRecord, core: nat)
  {
    core in r.readers && (r.writer.Some? ==> r.readers[core] >= r.writer.value.ts)
  }

  /** `generate_directory_block`. */
  function GenerateDirectoryBlock(r: MtrRecord, blockId: nat): (b: TsDirectoryBlock)
    ensures b.ts == r.ts && b.d.blockId == blockId
    ensures forall c :: c in b.d.replicas <==> HoldsReplica(r, c)
    ensures b.d.lastWriter.Some? <==> r.writer.Some?
    ensures r.writer.Some? ==> b.d.lastWriter == Some(r.writer.value.core)
  {
    match r.writer
    case Some(w) =>
      TsDirectoryBlock(DirectoryBlock(blockId, (set c | c in r.readers && r.readers[c] >= w.ts), Some(w.core)), r.ts)
    case None =>
      TsDirectoryBlock(DirectoryBlock(blockId, r.readers.Keys, None), r.ts)
  }

  // ---------------------------------------------------------------------------
  // Absorbing one entry of a private cache
  // ---------------------------------------------------------------------------

  /** The permission a first-seen block gets from its line status: never
      InstructionAndCleanData, dirty exactly for dirty data and instruction
      exactly for an instruction-only line (a line with both roles counts
      as clean data). */
  function PermissionOf(status: TsSets.LineStatus): (p: MtrPermission)
    requires status != TsSets.Invalid
    ensures p != InstructionAndCleanData
    ensures p == DirtyData <==> status == TsSets.DirtyData
    ensures p == Instruction <==> status == TsSets.Instruction
  {
    match status
    case Instruction => Instruction
    case CleanData => CleanData
    case CleanInstructionAndData => CleanData
    case DirtyData => DirtyData
  }

  /** The record `absorb_ts_cache` inserts for a block it has not seen yet. */
  function NewRecord(core: nat, e: TsSets.Entry): Result<MtrRecord, AbsorbFault>
  {
    match e.status
    case Invalid => Err(InvalidEntry)
    case DirtyData => Ok(MtrRecord(e.ts, map[], map[], DirtyData, Some(Writer(core, e.ts))))
    case _ => Ok(MtrRecord(e.ts, map[], map[core := e.ts], PermissionOf(e.status), None))
  }

  /** The update `absorb_ts_cache` makes to the record of a block it has seen. */
  function MergeEntry(el: MtrRecord, core: nat, e: TsSets.Entry): Result<MtrRecord, AbsorbFault>
  {
    var raised := el.(ts := if e.ts > el.ts && e.status != TsSets.Invalid then e.ts else el.ts);
    match e.status
    case Invalid =>
      if core in el.invalid then Err(DuplicateInvalid)
      else Ok(raised.(invalid := el.invalid[core := e.ts]))
    case DirtyData =>
      if InInstructionCache(el.perm) then Err(DirtyExecutable)
      else
        (match el.writer
         case Some(w) =>
           if w.core == core then Err(SameCoreWriter)
           else if w.ts < e.ts then Ok(raised.(writer := Some(Writer(core, e.ts))))
           else Ok(raised)
         case None => Ok(raised.(writer := Some(Writer(core, e.ts)))))
    case _ =>
      if TsSets.IsInstruction(e.status) && !InInstructionCache(el.perm) then Err(NxViolated)
      else if core in el.readers then Err(DuplicateReader)
      else Ok(raised.(readers := el.readers[core := e.ts]))
  }

  /** Every block is kept in the set its id selects modulo the set count. */
  predicate Placed(sets: seq<map<nat, MtrRecord>>)
  {
    forall j, b :: 0 <= j < |sets| && b in sets[j] ==> b % |sets| == j
  }

  /** Some set tracks the block. */
  predicate Tracked(sets: seq<map<nat, MtrRecord>>, b: nat)
  {
    exists j :: 0 <= j < |sets| && b in sets[j]
  }

  /** One entry of a private cache merged into the collection. */
  function AbsorbEntryInto(sets: seq<map<nat, MtrRecord>>, core: nat, e: TsSets.Entry): (r: Result<seq<map<nat, MtrRecord>>, AbsorbFault>)
    requires |sets| >= 1
    ensures r.Ok? ==> |r.value| == |sets|
  {
    var k := e.blockId % |sets|;
    var updated := if e.blockId in sets[k] then MergeEntry(sets[k][e.blockId], core, e) else NewRecord(core, e);
    match updated
    case Err(f) => Err(f)
    case Ok(rec) =>
      var m: map<nat, MtrRecord> := sets[k][e.blockId := rec];
      Ok(sets[k := m])
  }

  /** The entries of a private cache absorbed in order; the first fault stops it. */
  function AbsorbAll(sets: seq<map<nat, MtrRecord>>, core: nat, es: seq<TsSets.Entry>): (r: Result<seq<map<nat, MtrRecord>>, AbsorbFault>)
    requires |sets| >= 1
    ensures r.Ok? ==> |r.value| == |sets|
    decreases |es|
  {
    if |es| == 0 then Ok(sets)
    else
      match AbsorbEntryInto(sets, core, es[0])
      case Err(f) => Err(f)
      case Ok(next) => AbsorbAll(next, core, es[1..])
  }

  /** The entries the iterators of the sets from index i on yield, set by set. */
  function CacheEntries(sets: seq<TsSets.SetState>, assoc: nat, i: nat): seq<TsSets.Entry>
    requires i <= |sets|
    requires forall j :: 0 <= j < |sets| ==> TsSets.WellFormed(sets[j], assoc)
    decreases |sets| - i
  {
    if i == |sets| then []
    else
      assert TsSets.WellFormed(sets[i], assoc);
      TsSets.LiveEntries(sets[i]) + CacheEntries(sets, assoc, i + 1)
  }

  // ---------------------------------------------------------------------------
  // Properties of absorbing
  // ---------------------------------------------------------------------------

  /**
   * A first-seen block: the entry's timestamp; a clean or instruction line
   * makes the core the only reader, a dirty line makes it the writer; a
   * CleanInstructionAndData line is recorded as CleanData.
   */
  lemma NewRecordSpec(core: nat, e: TsSets.Entry)
    ensures var r := NewRecord(core, e);
            (r.Err? <==> e.status == TsSets.Invalid)
            && (r.Ok? ==>
                  r.value.ts == e.ts && r.value.invalid == map[]
                  && (TsSets.IsDirty(e.status) ==> r.value.readers == map[] && r.value.writer == Some(Writer(core, e.ts)))
                  && (!TsSets.IsDirty(e.status) ==> r.value.readers == map[core := e.ts] && r.value.writer.None?)
                  && (InInstructionCache(r.value.perm) <==> e.status == TsSets.Instruction)
                  && (PermIsDirty(r.value.perm) <==> TsSets.IsDirty(e.status)))
  {
  }

  /** No record is ever created with the permission InstructionAndCleanData. */
  lemma NoInstructionAndCleanData(core: nat, e: TsSets.Entry, el: MtrRecord)
    ensures NewRecord(core, e).Ok? ==> NewRecord(core, e).value.perm != InstructionAndCleanData
    ensures MergeEntry(el, core, e).Ok? ==> MergeEntry(el, core, e).value.perm == el.perm
  {
  }

  /**
   * Merging into an existing record: the timestamp is raised only by a
   * strictly newer, non-Invalid entry; the writer is replaced only by a
   * strictly newer write of a different core; a second read record of the
   * same core, an instruction line on a data-only block, or a dirty line on
   * an executable block is a fault.
   */
  lemma MergeEntrySpec(el: MtrRecord, core: nat, e: TsSets.Entry)
    ensures var r := MergeEntry(el, core, e);
            (r.Ok? ==>
               r.value.ts >= el.ts
               && (r.value.ts != el.ts <==> e.ts > el.ts && e.status != TsSets.Invalid)
               && (r.value.ts != el.ts ==> r.value.ts == e.ts)
               && r.value.perm == el.perm
               && (r.value.writer != el.writer ==>
                     r.value.writer == Some(Writer(core, e.ts))
                     && (el.writer.Some? ==> el.writer.value.ts < e.ts && el.writer.value.core != core)))
            && (e.status == TsSets.DirtyData && el.writer.Some? && el.writer.value.core == core ==> r.Err?)
            && (e.status != TsSets.Invalid && !TsSets.IsDirty(e.status) && core in el.readers ==> r.Err?)
            && (e.status == TsSets.CleanData && core in el.readers ==> r == Err(DuplicateReader))
            && (e.status == TsSets.Instruction && !InInstructionCache(el.perm) ==> r == Err(NxViolated))
            && (e.status == TsSets.DirtyData && InInstructionCache(el.perm) ==> r == Err(DirtyExecutable))
  {
  }

  /**
   * Absorbing an entry keeps blocks in their sets, keeps every tracked block
   * tracked without lowering its timestamp, and tracks the entry's block.
   */
  lemma AbsorbEntrySpec(sets: seq<map<nat, MtrRecord>>, core: nat, e: TsSets.Entry)
    requires |sets| >= 1 && Placed(sets)
    ensures var r := AbsorbEntryInto(sets, core, e);
            r.Ok? ==>
              Placed(r.value) && e.blockId in r.value[e.blockId % |sets|]
              && forall j, b :: 0 <= j < |sets| && b in sets[j] ==> b in r.value[j] && r.value[j][b].ts >= sets[j][b].ts
  {
    var k := e.blockId % |sets|;
    if e.blockId in sets[k] {
      MergeEntrySpec(sets[k][e.blockId], core, e);
    }
  }

  /** Absorbing a sequence of entries does the same for each of them, and tracks them all. */
  lemma {:induction false} AbsorbAllSpec(sets: seq<map<nat, MtrRecord>>, core: nat, es: seq<TsSets.Entry>)
    requires |sets| >= 1 && Placed(sets)
    ensures var r := AbsorbAll(sets, core, es);
            r.Ok? ==>
              Placed(r.value)
              && (forall j, b :: 0 <= j < |sets| && b in sets[j] ==> b in r.value[j] && r.value[j][b].ts >= sets[j][b].ts)
              && (forall i :: 0 <= i < |es| ==> es[i].blockId in r.value[es[i].blockId % |sets|])
    decreases |es|
  {
    if |es| > 0 {
      AbsorbEntrySpec(sets, core, es[0]);
      var step := AbsorbEntryInto(sets, core, es[0]);
      if step.Ok? {
        AbsorbAllSpec(step.value, core, es[1..]);
        var r := AbsorbAll(step.value, core, es[1..]);
        if r.Ok? {
          forall i | 0 <= i < |es|
            ensures es[i].blockId in r.value[es[i].blockId % |sets|]
          {
            if i > 0 {
              assert es[i] == es[1..][i - 1];
            } else {
              assert es[0].blockId in step.value[es[0].blockId % |sets|];
            }
          }
        }
      }
    }
  }

  // ---------------------------------------------------------------------------
  // What one core's rebuilt cache holds of a block
  // ---------------------------------------------------------------------------

  /** A rebuilt block with the record's roles. */
  function BlockView(r: MtrRecord, blockId: nat, state: CacheBlockState, ts: nat): TsCacheBlock
  {
    TsCacheBlock(CacheBlock(blockId, state, InInstructionCache(r.perm), InDataCache(r.perm)), ts)
  }

  /**
   * The classification of `render_private_caches`: what the core's private
   * caches hold of the block, if anything, and at which timestamp.
   */
  function CoreView(r: MtrRecord, blockId: nat, core: nat): (v: Option<TsCacheBlock>)
    ensures v.Some? ==> v.value.d.blockId == blockId
  {
    if core in r.invalid then Some(BlockView(r, blockId, Invalid, r.invalid[core]))
    else
      match r.writer
      case Some(w) =>
        if w.core == core then
          Some(BlockView(r, blockId, if w.ts == r.ts then ModifiedExclusive else ModifiedOwned, w.ts))
        else if core in r.readers then
          Some(BlockView(r, blockId, if r.readers[core] >= w.ts then CleanShared else Invalid, r.readers[core]))
        else None
      case None =>
        if core in r.readers then
          Some(BlockView(r, blockId, if |r.readers| == 1 then CleanExclusive else CleanShared, r.readers[core]))
        else None
  }

  /** The core's view holds a usable copy. */
  predicate ValidCopy(v: Option<TsCacheBlock>)
  {
    v.Some? && v.value.d.state != Invalid
  }

  predicate IsModified(v: Option<TsCacheBlock>)
  {
    v.Some? && (v.value.d.state == ModifiedExclusive || v.value.d.state == ModifiedOwned)
  }

  /**
   * Coherence of the rebuilt caches: only the writer holds the block
   * Modified, so at most one core does; Modified Exclusive exactly when the
   * write is the block's latest access.
   */
  lemma CoreViewCoherence(r: MtrRecord, blockId: nat, c: nat, d: nat)
    ensures IsModified(CoreView(r, blockId, c)) ==> r.writer.Some? && r.writer.value.core == c
    ensures c != d ==> !(IsModified(CoreView(r, blockId, c)) && IsModified(CoreView(r, blockId, d)))
    ensures CoreView(r, blockId, c).Some? && CoreView(r, blockId, c).value.d.state == ModifiedExclusive
            <==> c !in r.invalid && r.writer == Some(Writer(c, r.ts))
  {
  }

  /** A Clean Exclusive copy leaves every other core without a usable copy. */
  lemma ExclusiveCopyIsOnlyCopy(r: MtrRecord, blockId: nat, c: nat, d: nat)
    ensures c != d && CoreView(r, blockId, c).Some? && CoreView(r, blockId, c).value.d.state == CleanExclusive
            ==> !ValidCopy(CoreView(r, blockId, d))
  {
    if c != d && c !in r.invalid && d !in r.invalid && r.writer.None? && c in r.readers && d in r.readers {
      assert {c, d} <= r.readers.Keys;
      assert |{c, d}| == 2;
      var rest := r.readers.Keys - {c, d};
      assert r.readers.Keys == {c, d} + rest && {c, d} * rest == {};
      assert |r.readers.Keys| >= 2;
    }
  }

  /**
   * The rebuilt private caches agree with the directory: a core with no
   * invalidation on record holds a usable copy exactly when the directory
   * lists it as a replica or as the last writer.
   */
  lemma CoreViewMatchesDirectory(r: MtrRecord, blockId: nat, core: nat)
    requires core !in r.invalid
    ensures var dir := GenerateDirectoryBlock(r, blockId).d;
            ValidCopy(CoreView(r, blockId, core)) <==> core in dir.replicas || dir.lastWriter == Some(core)
  {
    var dir := GenerateDirectoryBlock(r, blockId).d;
    if r.writer.Some? && r.writer.value.core == core {
      assert dir.lastWriter == Some(core);
    }
  }

  /** A reader whose read is older than another core's write holds an Invalid copy. */
  lemma StaleReaderInvalid(r: MtrRecord, blockId: nat, core: nat)
    requires core !in r.invalid && core in r.readers && r.writer.Some? && r.writer.value.core != core
    requires r.readers[core] < r.writer.value.ts
    ensures CoreView(r, blockId, core) == Some(BlockView(r, blockId, Invalid, r.readers[core]))
  {
  }

  // ---------------------------------------------------------------------------
  // The coherence scenarios, on one set of records
  // ---------------------------------------------------------------------------

  /** The private caches of two cores absorbed in order into one empty set, then block 0's views. */
  function TwoCoreViews(c0: seq<TsSets.Entry>, c1: seq<TsSets.Entry>, blockId: nat): Option<(Option<TsCacheBlock>, Option<TsCacheBlock>)>
  {
    match AbsorbAll([map[]], 0, c0)
    case Err(_) => None
    case Ok(s0) =>
      match AbsorbAll(s0, 1, c1)
      case Err(_) => None
      case Ok(s1) =>
        if blockId in s1[0] then Some((CoreView(s1[0][blockId], blockId, 0), CoreView(s1[0][blockId], blockId, 1)))
        else None
  }

  function StateOf(v: Option<TsCacheBlock>): Option<CacheBlockState>
  {
    if v.Some? then Some(v.value.d.state) else None
  }

  /** Reads of two different blocks by two cores: each is Clean Exclusive in its reader's cache. */
  lemma ScenarioInvalidToExclusive()
    ensures var c0 := [TsSets.Entry(0, 1, TsSets.CleanData)];
            var c1 := [TsSets.Entry(1, 2, TsSets.CleanData)];
            var v0 := TwoCoreViews(c0, c1, 0);
            var v1 := TwoCoreViews(c0, c1, 1);
            v0.Some? && StateOf(v0.value.0) == Some(CleanExclusive)
            && v1.Some? && StateOf(v1.value.1) == Some(CleanExclusive)
  {
    var c0 := [TsSets.Entry(0, 1, TsSets.CleanData)];
    var c1 := [TsSets.Entry(1, 2, TsSets.CleanData)];
    assert c0[1..] == [] && c1[1..] == [];
  }

  /** Both cores read the block: both hold it Clean Shared. */
  lemma ScenarioExclusiveToShared()
    ensures var v := TwoCoreViews([TsSets.Entry(0, 1, TsSets.CleanData)], [TsSets.Entry(0, 2, TsSets.CleanData)], 0);
            v.Some? && StateOf(v.value.0) == Some(CleanShared) && StateOf(v.value.1) == Some(CleanShared)
  {
    var c0 := [TsSets.Entry(0, 1, TsSets.CleanData)];
    var c1 := [TsSets.Entry(0, 2, TsSets.CleanData)];
    assert c0[1..] == [] && c1[1..] == [];
  }

  /** Core 0 reads the block, then writes it: Clean Exclusive, then Modified Exclusive. */
  lemma ScenarioExclusiveToModified()
    ensures var v := TwoCoreViews([TsSets.Entry(0, 1, TsSets.CleanData)], [], 0);
            v.Some? && StateOf(v.value.0) == Some(CleanExclusive)
    ensures var v := TwoCoreViews([TsSets.Entry(0, 2, TsSets.DirtyData)], [], 0);
            v.Some? && StateOf(v.value.0) == Some(ModifiedExclusive)
  {
    var r := [TsSets.Entry(0, 1, TsSets.CleanData)];
    var w := [TsSets.Entry(0, 2, TsSets.DirtyData)];
    assert r[1..] == [] && w[1..] == [];
  }

  /** Core 0 writes, core 1 reads later: Modified Owned and Clean Shared. */
  lemma ScenarioExclusiveToOwned()
    ensures var v := TwoCoreViews([TsSets.Entry(0, 1, TsSets.DirtyData)], [TsSets.Entry(0, 2, TsSets.CleanData)], 0);
            v.Some? && StateOf(v.value.0) == Some(ModifiedOwned) && StateOf(v.value.1) == Some(CleanShared)
  {
    var c0 := [TsSets.Entry(0, 1, TsSets.DirtyData)];
    var c1 := [TsSets.Entry(0, 2, TsSets.CleanData)];
    assert c0[1..] == [] && c1[1..] == [];
  }

  /** Both read, then core 0 writes: Modified Exclusive for core 0, Invalid for core 1. */
  lemma ScenarioSharedToInvalidAndModified()
    ensures var v := TwoCoreViews([TsSets.Entry(0, 3, TsSets.DirtyData)], [TsSets.Entry(0, 2, TsSets.CleanData)], 0);
            v.Some? && StateOf(v.value.0) == Some(ModifiedExclusive) && StateOf(v.value.1) == Some(Invalid)
  {
    var c0 := [TsSets.Entry(0, 3, TsSets.DirtyData)];
    var c1 := [TsSets.Entry(0, 2, TsSets.CleanData)];
    assert c0[1..] == [] && c1[1..] == [];
  }

  /** Both read, core 0 writes, core 1 reads again: Modified Owned and Clean Shared. */
  lemma ScenarioSharedToOwned()
    ensures var v := TwoCoreViews([TsSets.Entry(0, 3, TsSets.DirtyData)], [TsSets.Entry(0, 4, TsSets.CleanData)], 0);
            v.Some? && StateOf(v.value.0) == Some(ModifiedOwned) && StateOf(v.value.1) == Some(CleanShared)
  {
    var c0 := [TsSets.Entry(0, 3, TsSets.DirtyData)];
    var c1 := [TsSets.Entry(0, 4, TsSets.CleanData)];
    assert c0[1..] == [] && c1[1..] == [];
  }
}
