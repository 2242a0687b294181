/**
 * The binary trace record: 18 bytes, little-endian block id in bytes [0, 8),
 * little-endian timestamp in bytes [8, 16), a read flag in byte 16 and the
 * core id in byte 17.
 */
module TraceEntries {
  import opened Bits
  import opened Wrappers

  const RecordSize: nat := 18

  /** `block_id: u64`, `timestamp: u64`, `is_read: bool`, `core_id: u8`. */
  datatype TraceEntry = TraceEntry(blockId: nat, timestamp: nat, isRead: bool, coreId: nat)

  predicate Fits(e: TraceEntry)
  {
    e.blockId < U64 && e.timestamp < U64 && e.coreId < U8
  }

  predicate IsBytes(bs: seq<nat>)
  {
    forall i :: 0 <= i < |bs| ==> bs[i] < U8
  }

  /** What `File::read` reported: the number of bytes read, or an I/O error. */
  datatype ReadOutcome = ReadOk(count: nat) | ReadErr

  // ---------------------------------------------------------------------------
  // Little-endian integers
  // ---------------------------------------------------------------------------

  /** 256^n, the number of values n bytes can hold. */
  function BytePow(n: nat): (r: nat)
    ensures r >= 1
  {
    if n == 0 then 1 else U8 * BytePow(n - 1)
  }

  lemma BytePow8()
    ensures BytePow(8) == U64
  {
    assert BytePow(2) == 0x1_0000;
    assert BytePow(4) == 0x1_0000_0000 by {
      assert BytePow(3) == 0x100_0000;
    }
    assert BytePow(6) == 0x1_0000_0000_0000 by {
      assert BytePow(5) == 0x100_0000_0000;
    }
    assert BytePow(7) == 0x100_0000_0000_0000;
  }

  /** `to_le_bytes` on an n-byte unsigned value: least significant byte first. */
  function LeBytes(x: nat, n: nat): (bs: seq<nat>)
    ensures |bs| == n && IsBytes(bs)
  {
    if n == 0 then [] else [x % U8] + LeBytes(x / U8, n - 1)
  }

  /** `from_le_bytes`: the value of a little-endian byte string, which fits
      in as many bytes as the string has. */
  function FromLeBytes(bs: seq<nat>): (x: nat)
    ensures IsBytes(bs) ==> x < BytePow(|bs|)
  {
    if |bs| == 0 then 0 else bs[0] + U8 * FromLeBytes(bs[1..])
  }

  /** Reading back the bytes of a value that fits gives the value. */
  lemma {:induction false} FromLeBytesOfLeBytes(x: nat, n: nat)
    requires x < BytePow(n)
    ensures FromLeBytes(LeBytes(x, n)) == x
  {
    if n > 0 {
      FromLeBytesOfLeBytes(x / U8, n - 1);
      assert LeBytes(x, n)[1..] == LeBytes(x / U8, n - 1);
    }
  }

  /** Writing out the value of a byte string gives the byte string. */
  lemma {:induction false} LeBytesOfFromLeBytes(bs: seq<nat>)
    requires IsBytes(bs)
    ensures LeBytes(FromLeBytes(bs), |bs|) == bs
  {
    if |bs| > 0 {
      LeBytesOfFromLeBytes(bs[1..]);
      var x := FromLeBytes(bs);
      DivModUnique(x, U8, FromLeBytes(bs[1..]), bs[0]);
    }
  }

  // ---------------------------------------------------------------------------
  // The record
  // ---------------------------------------------------------------------------

  /** The 18 bytes `serialize` produces. */
  function Encoding(e: TraceEntry): (bs: seq<nat>)
    requires Fits(e)
    ensures |bs| == RecordSize && IsBytes(bs)
  {
    LeBytes(e.blockId, 8) + LeBytes(e.timestamp, 8) + [if e.isRead then 1 else 0, e.coreId]
  }

  /** `serialize`: fills a zeroed 18-byte buffer field by field. */
  method Serialize(e: TraceEntry) returns (bytes: seq<nat>)
    requires Fits(e)
    ensures bytes == Encoding(e)
  {
    var buffer := new nat[RecordSize](_ => 0);
    var blockBytes := LeBytes(e.blockId, 8);
    var timeBytes := LeBytes(e.timestamp, 8);
    for i := 0 to 8
      invariant forall k :: 0 <= k < i ==> buffer[k] == blockBytes[k]
    {
      buffer[i] := blockBytes[i];
    }
    for i := 0 to 8
      invariant forall k :: 0 <= k < 8 ==> buffer[k] == blockBytes[k]
      invariant forall k :: 0 <= k < i ==> buffer[8 + k] == timeBytes[k]
    {
      buffer[8 + i] := timeBytes[i];
    }
    buffer[16] := if e.isRead then 1 else 0;
    buffer[17] := e.coreId;
    bytes := buffer[..];
    assert bytes == blockBytes + timeBytes + [buffer[16], buffer[17]];
  }

  /**
   * The decoding half of `read_from_file`: a record only when the read
   * returned exactly 18 bytes; `is_read` only when byte 16 is exactly 1.
   */
  function Decode(outcome: ReadOutcome, buffer: seq<nat>): (r: Option<TraceEntry>)
    requires |buffer| == RecordSize && IsBytes(buffer)
    ensures r.Some? <==> outcome == ReadOk(RecordSize)
    ensures r.Some? ==> Fits(r.value) && (r.value.isRead <==> buffer[16] == 1)
  {
    if outcome == ReadOk(RecordSize) then
      BytePow8();
      Some(TraceEntry(FromLeBytes(buffer[0..8]), FromLeBytes(buffer[8..16]), buffer[16] == 1, buffer[17]))
    else
      None
  }

  /** Decoding what `serialize` wrote gives the entry back. */
  lemma DecodeSerialized(e: TraceEntry)
    requires Fits(e)
    ensures Decode(ReadOk(RecordSize), Encoding(e)) == Some(e)
  {
    var bs := Encoding(e);
    BytePow8();
    assert bs[0..8] == LeBytes(e.blockId, 8);
    assert bs[8..16] == LeBytes(e.timestamp, 8);
    FromLeBytesOfLeBytes(e.blockId, 8);
    FromLeBytesOfLeBytes(e.timestamp, 8);
  }

  /** A buffer whose flag byte is 0 or 1 is exactly what `serialize` writes for its decoding. */
  lemma SerializeDecoded(buffer: seq<nat>)
    requires |buffer| == RecordSize && IsBytes(buffer) && buffer[16] <= 1
    ensures Encoding(Decode(ReadOk(RecordSize), buffer).value) == buffer
  {
    var d := Decode(ReadOk(RecordSize), buffer).value;
    assert LeBytes(d.blockId, 8) == buffer[0..8] by {
      LeBytesOfFromLeBytes(buffer[0..8]);
    }
    assert LeBytes(d.timestamp, 8) == buffer[8..16] by {
      LeBytesOfFromLeBytes(buffer[8..16]);
    }
    assert buffer == buffer[0..8] + buffer[8..16] + [buffer[16], buffer[17]];
  }

  /**
   * The tracer tags instruction fetches with 0 and stores with 2; both decode
   * as not-read, and re-serializing a store record does not give it back.
   */
  lemma StoreRecordDecodesAsNotRead(buffer: seq<nat>)
    requires |buffer| == RecordSize && IsBytes(buffer) && buffer[16] == 2
    ensures !Decode(ReadOk(RecordSize), buffer).value.isRead
    ensures Encoding(Decode(ReadOk(RecordSize), buffer).value) != buffer
  {
    assert Encoding(Decode(ReadOk(RecordSize), buffer).value)[16] == 0;
  }
}
