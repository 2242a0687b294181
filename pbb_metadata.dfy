/**
 * The metadata of a partial basic block (pBB): its physical address and its
 * instruction count, packed into one 64-bit word. The address takes bits
 * [0, 60); the instruction count minus one takes bits [60, 64).
 */
module PbbMetadatas {
  import opened Bits
  import opened Wrappers

  /** 2^60: addresses must lie below it, and the count field starts at this weight. */
  const PaLimit: nat := 0x1000_0000_0000_0000

  /** `physical_addr: usize` and `instruction_count: u8`. */
  datatype PbbMetadata = PbbMetadata(physicalAddr: nat, instructionCount: nat)

  /** The two `assert!`s of `encode`, which abort the program when they fail. */
  datatype EncodeError = TooManyInstructions | AddressTooWide

  /** The field values fit their Rust types (usize is 64 bits wide). */
  predicate Fits(m: PbbMetadata)
  {
    m.physicalAddr < U64 && m.instructionCount < U8
  }

  /** `get_pa`: the encoding with its top four bits cleared. */
  function GetPa(encoding: nat): (pa: nat)
    ensures pa == encoding % PaLimit
  {
    Pow2Is60();
    BitAndLowMask(encoding, 60);
    BitAnd(encoding, Pow2(60) - 1)
  }

  /** `get_instruction_count`: the top nibble plus one. */
  function GetInstructionCount(encoding: nat): (count: nat)
    requires encoding < U64
    ensures count == encoding / PaLimit + 1
    ensures 1 <= count <= 16
  {
    Pow2Is60();
    TopNibble(encoding);
    Shr(encoding, 60) % U8 + 1
  }

  /** `from`: both fields decoded from one word. */
  function From(encoding: nat): (m: PbbMetadata)
    requires encoding < U64
    ensures Fits(m) && m.physicalAddr < PaLimit && 1 <= m.instructionCount <= 16
  {
    PbbMetadata(GetPa(encoding), GetInstructionCount(encoding))
  }

  /**
   * `encode`. The subtraction `instruction_count - 1` is on a u8 and wraps in a
   * release build, which the explicit `% U8` writes out.
   */
  function Encode(m: PbbMetadata): (r: Result<nat, EncodeError>)
    requires Fits(m)
    ensures r.Ok? ==> r.value < U64
    ensures r == Err(TooManyInstructions) <==> m.instructionCount > 16
    ensures r == Err(AddressTooWide) <==> m.instructionCount <= 16 && m.physicalAddr >= PaLimit
  {
    if m.instructionCount > 16 then Err(TooManyInstructions)
    else
      var nibble := BitAnd((m.instructionCount - 1) % U8, 0xf);
      var truncatedPa := BitAnd(m.physicalAddr, Pow2(60) - 1);
      Pow2Is60();
      BitAndLowMask(m.physicalAddr, 60);
      if truncatedPa != m.physicalAddr then Err(AddressTooWide)
      else
        NibbleField(m.instructionCount);
        BitOrShifted(nibble, truncatedPa, 60);
        FieldsOf(nibble, truncatedPa);
        Ok(BitOr(Shl64(nibble, 60), truncatedPa))
  }

  // ---------------------------------------------------------------------------
  // Arithmetic helpers
  // ---------------------------------------------------------------------------

  lemma TopNibble(encoding: nat)
    requires encoding < U64
    ensures encoding / PaLimit < 16
  {
    DivModUnique(encoding, PaLimit, encoding / PaLimit, encoding % PaLimit);
  }

  /** The count field of `encode`, shifted into place, stays below 2^64. */
  lemma NibbleField(count: nat)
    requires count <= 16
    ensures var nibble := BitAnd((count - 1) % U8, 0xf);
            nibble < 16
            && (count >= 1 ==> nibble == count - 1)
            && (count == 0 ==> nibble == 15)
            && Shl64(nibble, 60) == nibble * PaLimit
  {
    var v := (count - 1) % U8;
    var nibble := BitAnd(v, 0xf);
    assert Pow2(4) - 1 == 0xf;
    BitAndLowMask(v, 4);
    assert nibble == v % 16;
    if count >= 1 {
      assert v == count - 1;
      assert nibble == count - 1;
    } else {
      assert v == 255;
      assert 255 % 16 == 15;
      assert nibble == 15;
    }
    Pow2Is60();
    assert nibble * PaLimit <= 15 * PaLimit;
    DivModUnique(nibble * PaLimit, U64, 0, nibble * PaLimit);
  }

  lemma FieldsOf(hi: nat, lo: nat)
    requires hi < 16 && lo < PaLimit
    ensures hi * PaLimit + lo < U64
    ensures (hi * PaLimit + lo) % PaLimit == lo && (hi * PaLimit + lo) / PaLimit == hi
  {
    DivModUnique(hi * PaLimit + lo, PaLimit, hi, lo);
  }

  // ---------------------------------------------------------------------------
  // Properties
  // ---------------------------------------------------------------------------

  /** A well-formed record encodes to the two fields side by side. */
  lemma EncodeFields(m: PbbMetadata)
    requires Fits(m) && 1 <= m.instructionCount <= 16 && m.physicalAddr < PaLimit
    ensures Encode(m) == Ok((m.instructionCount - 1) * PaLimit + m.physicalAddr)
    ensures GetPa(Encode(m).value) == m.physicalAddr
    ensures Encode(m).value / PaLimit == m.instructionCount - 1
  {
    var hi := m.instructionCount - 1;
    var nibble := BitAnd((m.instructionCount - 1) % U8, 0xf);
    NibbleField(m.instructionCount);
    assert nibble == hi;
    Pow2Is60();
    BitAndLowMask(m.physicalAddr, 60);
    assert BitAnd(m.physicalAddr, Pow2(60) - 1) == m.physicalAddr;
    BitOrShifted(hi, m.physicalAddr, 60);
    assert BitOr(Shl64(nibble, 60), m.physicalAddr) == hi * PaLimit + m.physicalAddr;
    FieldsOf(hi, m.physicalAddr);
  }

  /** Decoding an encoded record gives the record back. */
  lemma DecodeEncode(m: PbbMetadata)
    requires Fits(m) && 1 <= m.instructionCount <= 16 && m.physicalAddr < PaLimit
    ensures Encode(m).Ok? && From(Encode(m).value) == m
  {
    EncodeFields(m);
  }

  /** Encoding a decoded word gives the word back: the packing is a bijection. */
  lemma EncodeDecode(encoding: nat)
    requires encoding < U64
    ensures Encode(From(encoding)) == Ok(encoding)
  {
    var m := From(encoding);
    EncodeFields(m);
    DivModUnique(encoding, PaLimit, encoding / PaLimit, encoding % PaLimit);
  }

  /** A zero count passes the `<= 16` check, wraps to 255, and decodes as 16. */
  lemma ZeroCountDecodesAsSixteen(pa: nat)
    requires pa < PaLimit
    ensures Encode(PbbMetadata(pa, 0)).Ok?
    ensures From(Encode(PbbMetadata(pa, 0)).value) == PbbMetadata(pa, 16)
  {
    NibbleField(0);
    Pow2Is60();
    BitOrShifted(15, pa, 60);
    FieldsOf(15, pa);
  }
}
