/** The reader of src/shader_jit/air_parser.rs, step by step, against the decoder of Bitstream.
    The inner loops of `read_abbrev_def`, `read_abbreviated_record` and `parse_block` are methods
    of their own here; each keeps the order of its reads and tests. */
module AirParser {
  import opened Wrappers
  import opened Bits
  import opened Bitstream

  /** A method result r and the cursor position after it are what the decoder says. */
  ghost predicate Matches<T>(r: Result<T>, posAfter: nat, spec: Read<T>) {
    && r == spec.Outcome()
    && (r.Ok? ==> posAfter == spec.pos)
  }

  class BitReader {
    const data: seq<byte>
    var bitPos: nat

    constructor (data: seq<byte>)
      ensures this.data == data && bitPos == 0
    {
      this.data := data;
      bitPos := 0;
    }

    ghost function Bits(): seq<bool> { BitsOf(data) }

    /** The bits left, or None where the source's subtraction would go below zero. */
    function BitsRemaining(): (r: Option<nat>)
      reads this
      ensures r == if bitPos > |Bits()| then None else Some(|Bits()| - bitPos)
    {
      if bitPos > |data| * 8 then None else Some(|data| * 8 - bitPos)
    }

    method Read(numBits: nat) returns (r: Result<nat>)
      modifies this
      ensures Matches(r, bitPos, ReadBits(Bits(), old(bitPos), numBits))
    {
      if numBits == 0 { return Ok(0); }
      var remaining := BitsRemaining();
      if remaining.None? { return Err(CursorPastEnd); }
      if numBits > remaining.value { return Err(UnexpectedEof); }
      hide BitsOf, Or, Shl64, BitSet;
      var result := 0;
      var i := 0;
      ghost var start := bitPos;
      ghost var rest := Bits()[start..];
      while i < numBits
        invariant i <= numBits && i <= 64 && bitPos == start + i
        invariant result == Val(rest[..i])
      {
        if i >= 64 { return Err(ParseError.Overflow); }
        var byteIdx, bitIdx := bitPos / 8, bitPos % 8;
        var bit := if BitSet(data[byteIdx], bitIdx) then 1 else 0;
        BitsOfAt(data, bitPos);
        NextBit(rest, i, result, bit);
        result := Or(result, Shl64(bit, i));
        bitPos := bitPos + 1;
        i := i + 1;
      }
      assert rest[..numBits] == Bits()[start..start + numBits];
      return Ok(result);
    }

    method ReadVbr(width: nat) returns (r: Result<nat>)
      modifies this
      ensures Matches(r, bitPos, Bitstream.ReadVbr(Bits(), old(bitPos), width))
    {
      hide Or, Shl64, BitsOf;
      if width == 0 || width > 64 { return Err(ParseError.Overflow); }
      var piece :- Read(width);
      if !BitSet(piece, width - 1) { return Ok(piece); }
      var result, shift: nat := Low(piece, width - 1), width - 1;
      ghost var whole := VbrTail(Bits(), bitPos, width, result, shift);
      while true
        invariant bitPos <= |Bits()|
        invariant whole == VbrTail(Bits(), bitPos, width, result, shift)
        decreases |Bits()| - bitPos
      {
        piece :- Read(width);
        if shift >= 64 { return Err(ParseError.Overflow); }
        result := Or(result, Shl64(Low(piece, width - 1), shift));
        if !BitSet(piece, width - 1) { break; }
        shift := shift + (width - 1);
      }
      return Ok(result);
    }

    method Align32()
      modifies this
      ensures bitPos == Bitstream.Align32(old(bitPos))
    {
      var rem := bitPos % 32;
      if rem != 0 {
        bitPos := bitPos + 32 - rem;
      }
    }
  }

  lemma BitsOfAt(data: seq<byte>, pos: nat)
    requires pos < 8 * |data|
    ensures BitsOf(data)[pos] == BitSet(data[pos / 8], pos % 8)
  {
  }

  /** Oring the next bit in at place i extends the number read so far. */
  lemma NextBit(s: seq<bool>, i: nat, result: nat, bit: nat)
    requires i < 64 && i < |s| && bit == (if s[i] then 1 else 0)
    requires result == Val(s[..i])
    ensures Or(result, Shl64(bit, i)) == Val(s[..i + 1])
  {
    ValBound(s[..i]);
    ValSnoc(s[..i], s[i]);
    assert s[..i + 1] == s[..i] + [s[i]];
    OrBit(result, bit, i);
  }

  lemma OrBit(a: nat, bit: nat, i: nat)
    requires i < 64 && a < Pow2(i) && bit <= 1
    ensures Or(a, Shl64(bit, i)) == a + (if bit == 1 then Pow2(i) else 0)
  {
    LowSmall(bit, 64 - i);
    OrDisjoint(a, bit, i);
    ShlOne(i);
    ShlBound(0, 0, i);
  }

  lemma {:induction false} ShlOne(i: nat)
    ensures Shl(1, i) == Pow2(i)
  {
    if i > 0 {
      ShlOne(i - 1);
    }
  }

  method ReadAbbrevOp(reader: BitReader) returns (r: Result<AbbrevOp>)
    modifies reader
    ensures Matches(r, reader.bitPos, ReadOp(reader.Bits(), old(reader.bitPos)))
  {
    hide BitsOf, ReadBits, Bitstream.ReadVbr;
    var isLiteral :- reader.Read(1);
    if isLiteral != 0 {
      var value :- reader.ReadVbr(8);
      return Ok(Literal(value));
    }
    var encoding :- reader.Read(3);
    if encoding == 1 {
      var w :- reader.ReadVbr(5);
      return Ok(Fixed(w % U32));
    } else if encoding == 2 {
      var w :- reader.ReadVbr(5);
      return Ok(Vbr(w % U32));
    } else if encoding == 3 {
      return Ok(Array);
    } else if encoding == 4 {
      return Ok(Char6);
    } else if encoding == 5 {
      return Ok(Blob);
    }
    return Err(Malformed("unknown abbrev operand encoding"));
  }

  method ReadAbbrevDef(reader: BitReader) returns (r: Result<AbbrevDef>)
    modifies reader
    ensures Matches(r, reader.bitPos, ReadDef(reader.Bits(), old(reader.bitPos)))
  {
    hide BitsOf, ReadOps, Bitstream.ReadVbr;
    var numOps :- reader.ReadVbr(5);
    r := ReadAbbrevOps(reader, numOps);
  }

  method ReadAbbrevOps(reader: BitReader, numOps: nat) returns (r: Result<AbbrevDef>)
    modifies reader
    ensures Matches(r, reader.bitPos, ReadOps(reader.Bits(), old(reader.bitPos), numOps, []))
  {
    hide BitsOf, ReadOp;
    var ops: AbbrevDef := [];
    for k := 0 to numOps
      invariant ReadOps(reader.Bits(), old(reader.bitPos), numOps, [])
             == ReadOps(reader.Bits(), reader.bitPos, numOps - k, ops)
    {
      var op :- ReadAbbrevOp(reader);
      ops := ops + [op];
    }
    return Ok(ops);
  }

  method ReadScalarOp(reader: BitReader, op: AbbrevOp) returns (r: Result<nat>)
    modifies reader
    ensures Matches(r, reader.bitPos, ReadScalar(reader.Bits(), old(reader.bitPos), op))
  {
    hide BitsOf, ReadBits, Bitstream.ReadVbr;
    match op
    case Literal(v) => return Ok(v);
    case Fixed(w) => r := reader.Read(w);
    case Vbr(w) => r := reader.ReadVbr(w);
    case Char6 => r := reader.Read(6);
    case _ => return Err(Malformed("invalid array element type"));
  }

  method ReadArrayElements(reader: BitReader, op: AbbrevOp, count: nat, init: seq<nat>) returns (r: Result<seq<nat>>)
    modifies reader
    ensures Matches(r, reader.bitPos, ReadElements(reader.Bits(), old(reader.bitPos), op, count, init))
  {
    hide BitsOf, ReadScalar;
    var values := init;
    for k := 0 to count
      invariant ReadElements(reader.Bits(), old(reader.bitPos), op, count, init)
             == ReadElements(reader.Bits(), reader.bitPos, op, count - k, values)
    {
      var v :- ReadScalarOp(reader, op);
      values := values + [v];
    }
    return Ok(values);
  }

  method ReadBlobBytes(reader: BitReader, len: nat, init: seq<byte>) returns (r: Result<seq<byte>>)
    modifies reader
    ensures Matches(r, reader.bitPos, ReadBytes(reader.Bits(), old(reader.bitPos), len, init))
  {
    hide BitsOf, ReadBits;
    var blob: seq<byte> := init;
    for k := 0 to len
      invariant ReadBytes(reader.Bits(), old(reader.bitPos), len, init)
             == ReadBytes(reader.Bits(), reader.bitPos, len - k, blob)
    {
      var b :- reader.Read(8);
      assert Pow2(8) == 256;
      blob := blob + [b];
    }
    return Ok(blob);
  }

  method ReadAbbreviatedRecord(reader: BitReader, abbrevId: nat, def: AbbrevDef) returns (r: Result<Record>)
    modifies reader
    ensures Matches(r, reader.bitPos, ReadAbbreviated(reader.Bits(), old(reader.bitPos), abbrevId, def))
  {
    hide BitsOf, ReadBits, Bitstream.ReadVbr, ReadElements, ReadBytes;
    var values: seq<nat>, blob: seq<byte> := [], [];
    var i := 0;
    ghost var whole := ReadFields(reader.Bits(), reader.bitPos, def, 0, Fields([], []));
    while i < |def|
      invariant i <= |def|
      invariant whole == ReadFields(reader.Bits(), reader.bitPos, def, i, Fields(values, blob))
    {
      if def[i] == Array {
        var count :- reader.ReadVbr(6);
        i := i + 1;
        if i >= |def| { return Err(Malformed("array missing element type")); }
        values :- ReadArrayElements(reader, def[i], count, values);
      } else if def[i] == Blob {
        var len :- reader.ReadVbr(6);
        reader.Align32();
        blob :- ReadBlobBytes(reader, len, blob);
        reader.Align32();
      } else {
        var v :- ReadScalarOp(reader, def[i]);
        values := values + [v];
      }
      i := i + 1;
    }
    return Ok(FieldsRecord(abbrevId, Fields(values, blob)));
  }

  method ReadUnabbrevRecord(reader: BitReader) returns (r: Result<Record>)
    modifies reader
    ensures Matches(r, reader.bitPos, ReadUnabbrev(reader.Bits(), old(reader.bitPos)))
  {
    hide BitsOf, ReadElements, Bitstream.ReadVbr;
    var code :- reader.ReadVbr(6);
    var numOps :- reader.ReadVbr(6);
    var operands :- ReadArrayElements(reader, Vbr(6), numOps, []);
    return Ok(Record(UNABBREV_RECORD, code, operands, []));
  }

  method ReadSubblockHeader(reader: BitReader) returns (r: Result<Header>)
    modifies reader
    ensures Matches(r, reader.bitPos, ReadHeader(reader.Bits(), old(reader.bitPos)))
  {
    hide BitsOf, ReadBits, Bitstream.ReadVbr, Bitstream.Align32;
    var blockId :- reader.ReadVbr(8);
    var newAbbrevWidth :- reader.ReadVbr(4);
    reader.Align32();
    ghost var lenAt := reader.bitPos;
    var blockLenWords :- reader.Read(32);
    return Ok(Header(blockId, newAbbrevWidth % U32, reader.bitPos - 32));
  }

  class AbbrevTable {
    var blockinfo: BlockInfo

    constructor ()
      ensures blockinfo == map[]
    {
      blockinfo := map[];
    }
  }

  /** A block method's result, cursor and table are what the decoder says. */
  ghost predicate BlockMatches(r: Result<Block>, posAfter: nat, infoAfter: BlockInfo, w: nat, id: nat,
                               spec: Read<BlockState>) {
    if spec.Fail? then r == Err(spec.error)
    else r == Ok(BlockOf(id, w, spec.value)) && posAfter == spec.pos && infoAfter == spec.value.info
  }

  method ParseBlock(reader: BitReader, abbrevWidth: nat, blockId: nat, table: AbbrevTable, ghost skips: set<nat>)
    returns (r: Result<Block>)
    modifies reader, table
    ensures BlockMatches(r, reader.bitPos, table.blockinfo, abbrevWidth, blockId,
              ReadBlock(reader.Bits(), old(reader.bitPos), abbrevWidth, blockId,
                Start(blockId, old(table.blockinfo), skips)))
    decreases Left(reader.Bits(), reader.bitPos)
  {
    hide BitsOf, ReadBits, ReadDef, ReadUnabbrev, ReadHeader, ReadAbbreviated;
    var records: seq<Record>, subblocks: seq<Block> := [], [];
    var localAbbrevs := Registered(table.blockinfo, blockId);
    var currentSetbid: Option<nat> := None;
    ghost var bits := reader.Bits();
    ghost var start := reader.bitPos;
    ghost var st := Start(blockId, table.blockinfo, skips);
    ghost var whole := ReadBlock(bits, start, abbrevWidth, blockId, st);
    while true
      invariant start <= reader.bitPos
      invariant st.records == records && st.subblocks == subblocks && st.locals == localAbbrevs
      invariant st.setbid == currentSetbid && st.info == table.blockinfo
      invariant whole == ReadBlock(bits, reader.bitPos, abbrevWidth, blockId, st)
      decreases Left(bits, reader.bitPos)
    {
      var remaining := reader.BitsRemaining();
      if remaining.None? { return Err(CursorPastEnd); }
      if remaining.value < abbrevWidth { return Err(UnexpectedEof); }
      var abbrevId :- reader.Read(abbrevWidth);
      if abbrevId == END_BLOCK {
        reader.Align32();
        return Ok(Block(blockId, abbrevWidth, records, subblocks));
      } else if abbrevId == ENTER_SUBBLOCK {
        var h :- ReadSubblockHeader(reader);
        ghost var skips' := st.skips + {h.lenAt};
        ghost var sub' := ReadBlock(bits, reader.bitPos, h.abbrevWidth, h.blockId, Start(h.blockId, st.info, skips'));
        var sub :- ParseBlock(reader, h.abbrevWidth, h.blockId, table, skips');
        subblocks := subblocks + [sub];
        st := AddSubblock(st, h, sub'.value);
      } else if abbrevId == DEFINE_ABBREV {
        ghost var at := reader.bitPos;
        var def :- ReadAbbrevDef(reader);
        if blockId == BLOCKINFO_BLOCK_ID {
          if currentSetbid.Some? {
            table.blockinfo := Register(table.blockinfo, currentSetbid.value, def);
          }
        } else {
          localAbbrevs := localAbbrevs + [def];
        }
        st := AddDef(blockId, st, def, at);
      } else if abbrevId == UNABBREV_RECORD {
        ghost var at := reader.bitPos;
        var rec :- ReadUnabbrevRecord(reader);
        if blockId == BLOCKINFO_BLOCK_ID && rec.code == BLOCKINFO_CODE_SETBID {
          currentSetbid := FirstOperand(rec);
        }
        records := records + [rec];
        st := AddUnabbrev(blockId, st, rec, at);
      } else {
        var idx := abbrevId - FIRST_APPLICATION_ABBREV;
        if idx >= |localAbbrevs| {
          return Err(Malformed("abbreviated record references unknown abbreviation"));
        }
        ghost var at := reader.bitPos;
        var rec :- ReadAbbreviatedRecord(reader, abbrevId, localAbbrevs[idx]);
        records := records + [rec];
        st := AddAbbreviated(st, abbrevId, localAbbrevs[idx], rec, at);
      }
    }
  }
}
