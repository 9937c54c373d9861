/** Reading inverts writing, from single bits up to whole streams. */
module RoundTrip {
  import opened Wrappers
  import opened Bits
  import opened Bitstream
  import opened Writer

  lemma BitsAt(bits: seq<bool>, pos: nat, v: nat, n: nat)
    requires At(bits, pos, Enc(v, n)) && v < Pow2(n) && n <= 64
    ensures ReadBits(bits, pos, n) == Got(v, pos + n)
  {
    ValEnc(v, n);
  }

  // ----- variable-width integers -----

  /** A chunk of w bits whose low part is v and whose continuation bit is set or not. */
  lemma Chunk(v: nat, w: nat)
    requires w >= 2 && v < Pow2(w - 1)
    ensures v + Pow2(w - 1) < Pow2(w)
    ensures Low(v, w - 1) == v && !BitSet(v, w - 1)
    ensures Low(v + Pow2(w - 1), w - 1) == v && BitSet(v + Pow2(w - 1), w - 1)
  {
    TopBit(v, w - 1);
    TopBit(v + Pow2(w - 1), w - 1);
  }

  /** Redundant zero chunks leave the accumulated value alone until the shift reaches 64. */
  lemma {:induction false} ZeroTail(bits: seq<bool>, pos: nat, w: nat, acc: nat, shift: nat, n: nat)
    requires 2 <= w <= 64 && n > 0 && At(bits, pos, ZeroChunks(w, n))
    ensures VbrTail(bits, pos, w, acc, shift)
         == if shift + LastShift(0, w, n - 1) < 64 then Got(acc, pos + |ZeroChunks(w, n)|) else Fail(Overflow)
    decreases n
  {
    hide At, Enc, ReadBits, Or, Low, BitSet;
    Chunk(0, w);
    if shift < 64 { AccumulateZero(acc, shift); }
    if n == 1 {
      BitsAt(bits, pos, 0, w);
    } else {
      AtSplit(bits, pos, Enc(Pow2(w - 1), w), ZeroChunks(w, n - 1));
      BitsAt(bits, pos, Pow2(w - 1), w);
      ZeroTail(bits, pos + w, w, acc, shift + w - 1, n - 1);
    }
  }

  lemma AccumulateZero(acc: nat, shift: nat)
    requires shift < 64
    ensures Or(acc, Shl64(0, shift)) == acc
  {
    OrZero(acc);
    LowSmall(0, 64 - shift);
    ShlBound(0, 0, shift);
  }

  /** Adding a chunk at its shift: no bit is lost, and none overlaps the accumulated value. */
  lemma Accumulate(acc: nat, chunk: nat, shift: nat)
    requires shift < 64 && acc < Pow2(shift) && chunk < Pow2(64 - shift)
    ensures Or(acc, Shl64(chunk, shift)) == acc + Shl(chunk, shift)
  {
    LowSmall(chunk, 64 - shift);
    OrDisjoint(acc, chunk, shift);
  }

  /** One chunk of the loop of `read_vbr`, its low part v and its continuation bit as given. */
  lemma VbrChunk(bits: seq<bool>, pos: nat, w: nat, acc: nat, shift: nat, v: nat, more: bool)
    requires 2 <= w <= 64 && shift < 64 && acc < Pow2(shift) && v < Pow2(64 - shift) && v < Pow2(w - 1)
    requires At(bits, pos, Enc(if more then v + Pow2(w - 1) else v, w))
    ensures VbrTail(bits, pos, w, acc, shift)
         == if more then VbrTail(bits, pos + w, w, acc + Shl(v, shift), shift + w - 1)
            else Got(acc + Shl(v, shift), pos + w)
  {
    hide At, Enc, ReadBits, Or, BitSet, Shl64, Shl, Low, Pow2;
    Chunk(v, w);
    Accumulate(acc, v, shift);
    BitsAt(bits, pos, if more then v + Pow2(w - 1) else v, w);
  }

  /** The last chunk of a value, and the redundant chunks after it. */
  lemma VbrTailLast(bits: seq<bool>, pos: nat, w: nat, acc: nat, shift: nat, v: nat, padding: nat)
    requires 2 <= w <= 64 && At(bits, pos, WriteVbrPadded(v, w, padding))
    requires shift < 64 && acc < Pow2(shift) && v < Pow2(64 - shift) && v < Pow2(w - 1)
    ensures VbrTail(bits, pos, w, acc, shift)
         == if shift + LastShift(v, w, padding) < 64
            then Got(acc + Shl(v, shift), pos + |WriteVbrPadded(v, w, padding)|) else Fail(Overflow)
  {
    hide At, Enc, VbrTail, Shl, ZeroChunks, Pow2;
    if padding > 0 {
      AtSplit(bits, pos, Enc(v + Pow2(w - 1), w), ZeroChunks(w, padding));
      ZeroTail(bits, pos + w, w, acc + Shl(v, shift), shift + w - 1, padding);
    }
    VbrChunk(bits, pos, w, acc, shift, v, padding > 0);
  }

  lemma {:induction false} VbrTailAt(bits: seq<bool>, pos: nat, w: nat, acc: nat, shift: nat, v: nat, padding: nat)
    requires 2 <= w <= 64 && At(bits, pos, WriteVbrPadded(v, w, padding))
    requires shift < 64 && acc < Pow2(shift) && v < Pow2(64 - shift)
    ensures VbrTail(bits, pos, w, acc, shift)
         == if shift + LastShift(v, w, padding) < 64
            then Got(acc + Shl(v, shift), pos + |WriteVbrPadded(v, w, padding)|) else Fail(Overflow)
    decreases v
  {
    hide At, Enc, ReadBits, Or, BitSet, Shl64, Shl, ZeroChunks, Low, Shr, Pow2;
    var low, high, hi := Low(v, w - 1), Shr(v, w - 1), Pow2(w - 1);
    if v < hi {
      VbrTailLast(bits, pos, w, acc, shift, v, padding);
    } else {
      AtSplit(bits, pos, Enc(low + hi, w), WriteVbrPadded(high, w, padding));
      Chunk(low, w);
      BitsAt(bits, pos, low + hi, w);
      NextChunk(acc, shift, v, w);
      VbrTailAt(bits, pos + w, w, acc + Shl(low, shift), shift + w - 1, high, padding);
    }
  }

  /** Taking the low chunk off a value that needs more chunks keeps the invariant of the loop. */
  lemma NextChunk(acc: nat, shift: nat, v: nat, w: nat)
    requires 2 <= w <= 64 && shift < 64 && acc < Pow2(shift) && Pow2(w - 1) <= v < Pow2(64 - shift)
    ensures var low, high, next := Low(v, w - 1), Shr(v, w - 1), shift + w - 1;
      && next < 64
      && Or(acc, Shl64(low, shift)) == acc + Shl(low, shift) < Pow2(next)
      && 0 < high < Pow2(64 - next) && high < v
      && Shl(low, shift) + Shl(high, next) == Shl(v, shift)
  {
    hide Or, Shl64, Shl, Low, Shr;
    var low, high, next := Low(v, w - 1), Shr(v, w - 1), shift + w - 1;
    Split(v, w - 1);
    ShrLess(v, w - 1);
    if 64 - shift <= w - 1 { Pow2Monotonic(64 - shift, w - 1); }
    ShlBound(high, 64 - next, w - 1);
    Accumulate(acc, low, shift);
    ShlAdd(low, Shl(high, w - 1), shift);
    ShlShl(high, w - 1, shift);
    ChunkBound(acc, low, w - 1, shift);
  }

  lemma {:induction false} ChunkBound(acc: nat, low: nat, n: nat, shift: nat)
    requires acc < Pow2(shift) && low < Pow2(n)
    ensures acc + Shl(low, shift) < Pow2(shift + n)
  {
    if shift > 0 {
      ChunkBound(acc / 2, low, n, shift - 1);
    }
  }

  /** `read_vbr` treats its first chunk as its loop treats the others. */
  lemma VbrFromStart(bits: seq<bool>, pos: nat, w: nat)
    requires 1 <= w <= 64
    ensures ReadVbr(bits, pos, w) == VbrTail(bits, pos, w, 0, 0)
  {
    hide ReadBits, Or, Low, BitSet, Pow2;
    var r := ReadBits(bits, pos, w);
    if r.Got? {
      var low := Low(r.value, w - 1);
      TopBit(r.value, w - 1);
      Pow2Monotonic(w - 1, 64);
      LowSmall(low, 64);
      OrZero(low);
    }
  }

  /** `read_vbr` of any padding of v gives v back, exactly as long as the last chunk lands below bit 64. */
  lemma VbrPaddedRoundTrip(bits: seq<bool>, pos: nat, v: nat, w: nat, padding: nat)
    requires 2 <= w <= 64 && Word64(v) && At(bits, pos, WriteVbrPadded(v, w, padding))
    ensures ReadVbr(bits, pos, w)
         == if LastShift(v, w, padding) < 64 then Got(v, pos + |WriteVbrPadded(v, w, padding)|) else Fail(Overflow)
  {
    hide At, ReadVbr, VbrTail, WriteVbrPadded, LastShift;
    VbrFromStart(bits, pos, w);
    VbrTailAt(bits, pos, w, 0, 0, v, padding);
  }

  /** The canonical encoding of a 64-bit word never shifts by 64 or more. */
  lemma {:induction false} CanonicalShift(v: nat, w: nat, shift: nat)
    requires 2 <= w <= 64 && shift < 64 && v < Pow2(64 - shift)
    ensures shift + LastShift(v, w, 0) < 64
    decreases v
  {
    if v >= Pow2(w - 1) {
      NextChunk(0, shift, v, w);
      CanonicalShift(Shr(v, w - 1), w, shift + w - 1);
    }
  }

  lemma VbrRoundTrip(bits: seq<bool>, pos: nat, v: nat, w: nat)
    requires 2 <= w <= 64 && Word64(v) && At(bits, pos, WriteVbr(v, w))
    ensures ReadVbr(bits, pos, w) == Got(v, pos + |WriteVbr(v, w)|)
  {
    CanonicalShift(v, w, 0);
    VbrPaddedRoundTrip(bits, pos, v, w, 0);
  }

  // ----- abbreviation definitions -----

  lemma OpRoundTrip(bits: seq<bool>, pos: nat, op: AbbrevOp)
    requires OpOk(op) && At(bits, pos, WriteOp(op))
    ensures ReadOp(bits, pos) == Got(op, pos + |WriteOp(op)|)
  {
    hide ReadOp, WriteOp, OpOk, At;
    match op
    case Literal(v) => LiteralRoundTrip(bits, pos, v);
    case Fixed(w) => WidthRoundTrip(bits, pos, op);
    case Vbr(w) => WidthRoundTrip(bits, pos, op);
    case _ => PlainRoundTrip(bits, pos, op);
  }

  lemma LiteralRoundTrip(bits: seq<bool>, pos: nat, v: nat)
    requires OpOk(Literal(v)) && At(bits, pos, WriteOp(Literal(v)))
    ensures ReadOp(bits, pos) == Got(Literal(v), pos + |WriteOp(Literal(v))|)
  {
    hide At, Enc, ReadBits, ReadVbr, WriteVbr, Word64;
    AtSplit(bits, pos, Enc(1, 1), WriteVbr(v, 8));
    BitsAt(bits, pos, 1, 1);
    VbrRoundTrip(bits, pos + 1, v, 8);
  }

  lemma WidthRoundTrip(bits: seq<bool>, pos: nat, op: AbbrevOp)
    requires (op.Fixed? || op.Vbr?) && OpOk(op) && At(bits, pos, WriteOp(op))
    ensures ReadOp(bits, pos) == Got(op, pos + |WriteOp(op)|)
  {
    hide At, Enc, ReadBits, ReadVbr, WriteVbr, Word64;
    HalfWord(op.width);
    WidthAt(bits, pos, if op.Fixed? then 1 else 2, op.width);
  }

  lemma PlainRoundTrip(bits: seq<bool>, pos: nat, op: AbbrevOp)
    requires (op.Array? || op.Char6? || op.Blob?) && At(bits, pos, WriteOp(op))
    ensures ReadOp(bits, pos) == Got(op, pos + |WriteOp(op)|)
  {
    hide At, Enc, ReadBits;
    PlainAt(bits, pos, if op.Array? then 3 else if op.Char6? then 4 else 5);
  }

  lemma HalfWord(v: nat)
    requires v < U32
    ensures Word64(v) && v < Pow2(32)
  {
    Pow2Words();
    Pow2Monotonic(32, 64);
  }

  lemma PlainAt(bits: seq<bool>, pos: nat, encoding: nat)
    requires encoding < 8 && At(bits, pos, Enc(0, 1) + Enc(encoding, 3))
    ensures ReadBits(bits, pos, 1) == Got(0, pos + 1) && ReadBits(bits, pos + 1, 3) == Got(encoding, pos + 4)
  {
    hide At, Enc, ReadBits;
    assert Pow2(1) == 2 && Pow2(3) == 8;
    AtSplit(bits, pos, Enc(0, 1), Enc(encoding, 3));
    BitsAt(bits, pos, 0, 1);
    BitsAt(bits, pos + 1, encoding, 3);
  }

  lemma WidthAt(bits: seq<bool>, pos: nat, encoding: nat, width: nat)
    requires encoding < 8 && Word64(width) && At(bits, pos, Enc(0, 1) + (Enc(encoding, 3) + WriteVbr(width, 5)))
    ensures ReadBits(bits, pos, 1) == Got(0, pos + 1) && ReadBits(bits, pos + 1, 3) == Got(encoding, pos + 4)
    ensures ReadVbr(bits, pos + 4, 5) == Got(width, pos + 4 + |WriteVbr(width, 5)|)
  {
    hide At, Enc, ReadBits, ReadVbr, WriteVbr;
    assert Enc(0, 1) + (Enc(encoding, 3) + WriteVbr(width, 5)) == Enc(0, 1) + Enc(encoding, 3) + WriteVbr(width, 5);
    AtSplit(bits, pos, Enc(0, 1) + Enc(encoding, 3), WriteVbr(width, 5));
    PlainAt(bits, pos, encoding);
    VbrRoundTrip(bits, pos + 4, width, 5);
  }

  lemma {:induction false} OpsRoundTrip(bits: seq<bool>, pos: nat, ops: AbbrevDef, acc: AbbrevDef)
    requires (forall op <- ops :: OpOk(op)) && At(bits, pos, WriteOps(ops))
    ensures ReadOps(bits, pos, |ops|, acc) == Got(acc + ops, pos + |WriteOps(ops)|)
    decreases |ops|
  {
    hide At, OpOk, ReadOp, WriteOp;
    if ops == [] {
      assert acc + ops == acc;
    } else {
      AtSplit(bits, pos, WriteOp(ops[0]), WriteOps(ops[1..]));
      OpRoundTrip(bits, pos, ops[0]);
      OpsRoundTrip(bits, pos + |WriteOp(ops[0])|, ops[1..], acc + [ops[0]]);
      assert acc + [ops[0]] + ops[1..] == acc + ops;
    }
  }

  lemma DefRoundTrip(bits: seq<bool>, pos: nat, def: AbbrevDef)
    requires DefOk(def) && At(bits, pos, WriteDef(def))
    ensures ReadDef(bits, pos) == Got(def, pos + |WriteDef(def)|)
  {
    hide At, OpOk, ReadOps, ReadVbr, WriteOps, WriteVbr;
    AtSplit(bits, pos, WriteVbr(|def|, 5), WriteOps(def));
    VbrRoundTrip(bits, pos, |def|, 5);
    OpsRoundTrip(bits, pos + |WriteVbr(|def|, 5)|, def, []);
    assert [] + def == def;
  }

  // ----- records -----

  lemma ScalarRoundTrip(bits: seq<bool>, pos: nat, op: AbbrevOp, v: nat)
    requires ScalarOk(op, v) && At(bits, pos, WriteScalar(op, v))
    ensures ReadScalar(bits, pos, op) == Got(v, pos + |WriteScalar(op, v)|)
  {
    hide At, Enc, ReadBits, ReadVbr, WriteVbr;
    match op
    case Literal(_) =>
    case Fixed(w) => BitsAt(bits, pos, v, w);
    case Vbr(w) => VbrRoundTrip(bits, pos, v, w);
    case Char6 =>
      assert Pow2(6) == 64;
      BitsAt(bits, pos, v, 6);
  }

  lemma {:induction false} ElementsRoundTrip(bits: seq<bool>, pos: nat, op: AbbrevOp, vs: seq<nat>, acc: seq<nat>)
    requires ElementsOk(op, vs) && At(bits, pos, WriteElements(op, vs))
    ensures ReadElements(bits, pos, op, |vs|, acc) == Got(acc + vs, pos + |WriteElements(op, vs)|)
    decreases |vs|
  {
    hide At, ScalarOk, ReadScalar, WriteScalar;
    if vs == [] {
      assert acc + vs == acc;
    } else {
      var s := WriteScalar(op, vs[0]);
      AtSplit(bits, pos, s, WriteElements(op, vs[1..]));
      ScalarRoundTrip(bits, pos, op, vs[0]);
      ElementsRoundTrip(bits, pos + |s|, op, vs[1..], acc + [vs[0]]);
      assert acc + [vs[0]] + vs[1..] == acc + vs;
    }
  }

  lemma {:induction false} BytesRoundTrip(bits: seq<bool>, pos: nat, bytes: seq<byte>, acc: seq<byte>)
    requires At(bits, pos, WriteBytes(bytes))
    ensures ReadBytes(bits, pos, |bytes|, acc) == Got(acc + bytes, pos + |WriteBytes(bytes)|)
    decreases |bytes|
  {
    hide At, Enc, ReadBits, Pow2;
    if bytes == [] {
      assert acc + bytes == acc;
    } else {
      Pow2Words();
      AtSplit(bits, pos, Enc(bytes[0], 8), WriteBytes(bytes[1..]));
      BitsAt(bits, pos, bytes[0], 8);
      BytesRoundTrip(bits, pos + 8, bytes[1..], acc + [bytes[0]]);
      assert acc + [bytes[0]] + bytes[1..] == acc + bytes;
    }
  }

  lemma ArrayRoundTrip(bits: seq<bool>, pos: nat, op: AbbrevOp, vs: seq<nat>, acc: seq<nat>)
    requires ElementsOk(op, vs) && Word64(|vs|) && At(bits, pos, WriteArray(op, vs))
    ensures ReadVbr(bits, pos, 6) == Got(|vs|, pos + |WriteVbr(|vs|, 6)|)
    ensures ReadElements(bits, pos + |WriteVbr(|vs|, 6)|, op, |vs|, acc) == Got(acc + vs, pos + |WriteArray(op, vs)|)
  {
    hide At, ElementsOk, ReadVbr, WriteVbr, ReadElements, WriteElements;
    AtSplit(bits, pos, WriteVbr(|vs|, 6), WriteElements(op, vs));
    VbrRoundTrip(bits, pos, |vs|, 6);
    ElementsRoundTrip(bits, pos + |WriteVbr(|vs|, 6)|, op, vs, acc);
  }

  lemma BlobRoundTrip(bits: seq<bool>, pos: nat, bytes: seq<byte>, acc: seq<byte>)
    requires Word64(|bytes|) && At(bits, pos, WriteBlob(bytes, pos))
    ensures ReadVbr(bits, pos, 6) == Got(|bytes|, pos + |WriteVbr(|bytes|, 6)|)
    ensures var r := ReadBytes(bits, Align32(pos + |WriteVbr(|bytes|, 6)|), |bytes|, acc);
      r.Got? && r.value == acc + bytes && Align32(r.pos) == pos + |WriteBlob(bytes, pos)|
  {
    hide At, ReadVbr, WriteVbr, ReadBytes, WriteBytes, Align32, BlobHead, BlobBody, Word64;
    var head, body := BlobHead(bytes, pos), BlobBody(bytes, pos);
    AtSplit(bits, pos, body, Pad32(pos + |body|));
    BlobBodyAt(bits, pos, bytes);
    BytesRoundTrip(bits, pos + |head|, bytes, acc);
  }

  lemma BlobBodyAt(bits: seq<bool>, pos: nat, bytes: seq<byte>)
    requires Word64(|bytes|) && At(bits, pos, BlobBody(bytes, pos))
    ensures ReadVbr(bits, pos, 6) == Got(|bytes|, pos + |WriteVbr(|bytes|, 6)|)
    ensures pos + |BlobHead(bytes, pos)| == Align32(pos + |WriteVbr(|bytes|, 6)|)
    ensures At(bits, pos + |BlobHead(bytes, pos)|, WriteBytes(bytes))
    ensures |BlobBody(bytes, pos)| == |BlobHead(bytes, pos)| + |WriteBytes(bytes)|
  {
    hide At, ReadVbr, WriteVbr, WriteBytes, Align32, Word64;
    var len := WriteVbr(|bytes|, 6);
    AtSplit(bits, pos, BlobHead(bytes, pos), WriteBytes(bytes));
    AtSplit(bits, pos, len, Pad32(pos + |len|));
    VbrRoundTrip(bits, pos, |bytes|, 6);
  }

  lemma FieldRoundTrip(bits: seq<bool>, pos: nat, def: AbbrevDef, i: nat, field: Field, acc: Fields)
    requires i < |def| && FieldOk(def, i, field) && At(bits, pos, WriteField(def, i, field, pos))
    ensures ReadField(bits, pos, def, i, acc)
         == Got(Fields(acc.values + FieldValues(field), acc.blob + FieldBlob(field)),
           pos + |WriteField(def, i, field, pos)|)
  {
    hide At, ReadVbr, ReadElements, ReadBytes, ReadScalar, WriteVbr, WriteArray, WriteBlob, WriteScalar,
      ElementsOk, ScalarOk, Word64, Align32;
    match def[i]
    case Array =>
      ArrayRoundTrip(bits, pos, def[i + 1], field.vs, acc.values);
      assert acc.blob + [] == acc.blob;
    case Blob =>
      BlobRoundTrip(bits, pos, field.bytes, acc.blob);
      assert acc.values + [] == acc.values;
    case op =>
      ScalarRoundTrip(bits, pos, op, field.v);
      assert acc.blob + [] == acc.blob;
  }

  lemma {:induction false} FieldsRoundTrip(
    bits: seq<bool>, pos: nat, def: AbbrevDef, i: nat, fields: seq<Field>, acc: Fields)
    requires i <= |def| && FieldsOk(def, i, fields) && At(bits, pos, WriteFields(def, i, fields, pos))
    ensures ReadFields(bits, pos, def, i, acc)
         == Got(Fields(acc.values + Values(fields), acc.blob + BlobOf(fields)),
           pos + |WriteFields(def, i, fields, pos)|)
    decreases |def| - i
  {
    hide At, FieldOk, WriteField, ReadField, FieldValues, FieldBlob;
    if i == |def| {
      assert acc.values + [] == acc.values && acc.blob + [] == acc.blob;
    } else {
      var field, rest := fields[0], fields[1..];
      var s := WriteField(def, i, field, pos);
      AtSplit(bits, pos, s, WriteFields(def, FieldEnd(def, i), rest, pos + |s|));
      FieldRoundTrip(bits, pos, def, i, field, acc);
      var acc' := Fields(acc.values + FieldValues(field), acc.blob + FieldBlob(field));
      FieldsRoundTrip(bits, pos + |s|, def, FieldEnd(def, i), rest, acc');
      FieldsCons(acc, fields);
    }
  }

  lemma FieldsCons(acc: Fields, fields: seq<Field>)
    requires fields != []
    ensures acc.values + FieldValues(fields[0]) + Values(fields[1..]) == acc.values + Values(fields)
    ensures acc.blob + FieldBlob(fields[0]) + BlobOf(fields[1..]) == acc.blob + BlobOf(fields)
  {
    ConcatAssociative(acc.values, FieldValues(fields[0]), Values(fields[1..]));
    ConcatAssociative(acc.blob, FieldBlob(fields[0]), BlobOf(fields[1..]));
  }

  lemma AbbreviatedRoundTrip(bits: seq<bool>, pos: nat, id: nat, def: AbbrevDef, fields: seq<Field>)
    requires FieldsOk(def, 0, fields) && At(bits, pos, WriteFields(def, 0, fields, pos))
    ensures var r := ReadAbbreviated(bits, pos, id, def);
      && r == Got(RecordWith(id, Values(fields), BlobOf(fields)), pos + |WriteFields(def, 0, fields, pos)|)
      && r.value.abbrevId == id && r.value.blob == BlobOf(fields)
      && (Values(fields) != [] ==> [r.value.code] + r.value.operands == Values(fields))
      && (Values(fields) == [] ==> r.value.code == 0 && r.value.operands == [])
  {
    hide ReadFields, WriteFields, FieldsOk, Values, BlobOf, At;
    FieldsRoundTrip(bits, pos, def, 0, fields, Fields([], []));
    assert [] + Values(fields) == Values(fields) && [] + BlobOf(fields) == BlobOf(fields);
  }

  lemma UnabbrevRoundTrip(bits: seq<bool>, pos: nat, code: nat, operands: seq<nat>)
    requires UnabbrevOk(code, operands) && At(bits, pos, WriteUnabbrev(code, operands))
    ensures ReadUnabbrev(bits, pos)
         == Got(Record(UNABBREV_RECORD, code, operands, []), pos + |WriteUnabbrev(code, operands)|)
  {
    hide At, ElementsOk, ReadVbr, WriteVbr, ReadElements, WriteElements, Word64;
    var a, b, c := WriteVbr(code, 6), WriteVbr(|operands|, 6), WriteElements(Vbr(6), operands);
    AtSplit(bits, pos, a, b + c);
    AtSplit(bits, pos + |a|, b, c);
    VbrRoundTrip(bits, pos, code, 6);
    VbrRoundTrip(bits, pos + |a|, |operands|, 6);
    ElementsRoundTrip(bits, pos + |a| + |b|, Vbr(6), operands, []);
    assert [] + operands == operands;
  }

  // ----- blocks -----

  /** A header reads back, its width narrowed to 32 bits. */
  lemma HeaderRoundTrip(bits: seq<bool>, pos: nat, sid: nat, sw: nat, len: nat)
    requires Word64(sid) && Word64(sw) && len < U32 && At(bits, pos, WriteHeader(sid, sw, len, pos))
    ensures var r := ReadHeader(bits, pos);
      && r.Got? && r.value.blockId == sid && r.value.abbrevWidth == sw % U32
      && r.pos == pos + |WriteHeader(sid, sw, len, pos)|
  {
    hide At, Enc, ReadBits, ReadVbr, WriteVbr, Pad32, Align32;
    hide Pow2, Word64;
    HalfWord(len);
    var a, b := WriteVbr(sid, 8), WriteVbr(sw, 4);
    var pad := Pad32(pos + |a + b|);
    AtSplit(bits, pos, a + b, pad + Enc(len, 32));
    AtSplit(bits, pos, a, b);
    AtSplit(bits, pos + |a + b|, pad, Enc(len, 32));
    VbrRoundTrip(bits, pos, sid, 8);
    VbrRoundTrip(bits, pos + |a|, sw, 4);
    BitsAt(bits, pos + |a + b| + |pad|, len, 32);
  }

  lemma PlainHeader(bits: seq<bool>, pos: nat, sid: nat, sw: nat, len: nat)
    requires Word64(sid) && sw <= 64 && len < U32 && At(bits, pos, WriteHeader(sid, sw, len, pos))
    ensures var r := ReadHeader(bits, pos);
      r.Got? && r.value.blockId == sid && r.value.abbrevWidth == sw && r.pos == pos + |WriteHeader(sid, sw, len, pos)|
  {
    hide At, WriteHeader, ReadHeader, Word64;
    HalfWord(sw);
    HeaderRoundTrip(bits, pos, sid, sw, len);
  }

  function EnvOf(st: BlockState): Env { Env(st.locals, st.setbid, st.info) }

  /** What reading the items adds to a block state, the instrumentation aside. */
  ghost predicate Extends(id: nat, st: BlockState, items: seq<Item>, r: Read<BlockState>, end: nat) {
    && r.Got? && r.pos == end
    && r.value.records == st.records + RecordsOf(items)
    && r.value.subblocks == st.subblocks + SubblocksOf(items)
    && EnvOf(r.value) == AfterItems(id, EnvOf(st), items)
  }

  /** The item reads back as itself, and adds to the block what it should. */
  ghost predicate ItemReads(bits: seq<bool>, pos: nat, w: nat, id: nat, item: Item, st: BlockState)
    requires ItemOk(id, w, EnvOf(st), item)
  {
    var a := ReadId(bits, pos, w);
    && a.Got? && a.pos == pos + w && a.value >= DEFINE_ABBREV
    && var r := ReadItem(bits, pos + w, id, a.value, st);
    && r.Got? && r.pos == pos + |WriteItem(id, w, EnvOf(st), item, pos)|
    && r.value.records == st.records + RecordOf(item)
    && r.value.subblocks == st.subblocks + SubblockOf(item)
    && EnvOf(r.value) == AfterItem(id, EnvOf(st), item)
  }

  /** Every item that is not a block reads back as itself. */
  lemma ItemRoundTrip(bits: seq<bool>, pos: nat, w: nat, id: nat, item: Item, st: BlockState)
    requires w <= 64 && !item.Sub? && ItemOk(id, w, EnvOf(st), item)
    requires At(bits, pos, WriteItem(id, w, EnvOf(st), item, pos))
    ensures ItemReads(bits, pos, w, id, item, st)
  {
    hide ItemReads, ItemOk, WriteItem, EnvOf;
    match item
    case Define(def) => DefineReads(bits, pos, w, id, def, st);
    case Unabbrev(code, operands) => UnabbrevReads(bits, pos, w, id, code, operands, st);
    case Abbreviated(k, fields) => AbbreviatedReads(bits, pos, w, id, k, fields, st);
  }

  lemma DefineReads(bits: seq<bool>, pos: nat, w: nat, id: nat, def: AbbrevDef, st: BlockState)
    requires w <= 64 && ItemOk(id, w, EnvOf(st), Define(def))
    requires At(bits, pos, WriteItem(id, w, EnvOf(st), Define(def), pos))
    ensures ItemReads(bits, pos, w, id, Define(def), st)
  {
    hide At, ReadDef, ReadUnabbrev, ReadAbbreviated, WriteDef, Enc, ReadBits, DefOk, Pow2;
    assert st.subblocks + [] == st.subblocks && st.records + [] == st.records;
    AtSplit(bits, pos, Enc(DEFINE_ABBREV, w), WriteDef(def));
    BitsAt(bits, pos, DEFINE_ABBREV, w);
    DefRoundTrip(bits, pos + w, def);
  }

  lemma UnabbrevReads(bits: seq<bool>, pos: nat, w: nat, id: nat, code: nat, operands: seq<nat>, st: BlockState)
    requires w <= 64 && ItemOk(id, w, EnvOf(st), Unabbrev(code, operands))
    requires At(bits, pos, WriteItem(id, w, EnvOf(st), Unabbrev(code, operands), pos))
    ensures ItemReads(bits, pos, w, id, Unabbrev(code, operands), st)
  {
    hide At, ReadDef, ReadUnabbrev, ReadAbbreviated, WriteUnabbrev, Enc, ReadBits, UnabbrevOk, Pow2;
    assert st.subblocks + [] == st.subblocks;
    AtSplit(bits, pos, Enc(UNABBREV_RECORD, w), WriteUnabbrev(code, operands));
    BitsAt(bits, pos, UNABBREV_RECORD, w);
    UnabbrevRoundTrip(bits, pos + w, code, operands);
  }

  lemma AbbreviatedReads(bits: seq<bool>, pos: nat, w: nat, id: nat, k: nat, fields: seq<Field>, st: BlockState)
    requires w <= 64 && ItemOk(id, w, EnvOf(st), Abbreviated(k, fields))
    requires At(bits, pos, WriteItem(id, w, EnvOf(st), Abbreviated(k, fields), pos))
    ensures ItemReads(bits, pos, w, id, Abbreviated(k, fields), st)
  {
    hide At, ReadDef, ReadUnabbrev, ReadAbbreviated, WriteFields, Enc, ReadBits, DefOk, FieldsOk, Pow2;
    assert st.subblocks + [] == st.subblocks;
    var a := FIRST_APPLICATION_ABBREV + k;
    AtSplit(bits, pos, Enc(a, w), WriteFields(st.locals[k], 0, fields, pos + w));
    BitsAt(bits, pos, a, w);
    AbbreviatedRoundTrip(bits, pos + w, a, st.locals[k], fields);
  }

  /** The items of a block, nested blocks included, read back in order. */
  lemma {:induction false} ItemsRoundTrip(bits: seq<bool>, pos: nat, w: nat, id: nat, items: seq<Item>, st: BlockState)
    requires ItemsOk(id, w, EnvOf(st), items)
    requires At(bits, pos, WriteItems(id, w, EnvOf(st), items, pos))
    ensures Extends(id, st, items, ReadBlock(bits, pos, w, id, st), pos + |WriteItems(id, w, EnvOf(st), items, pos)|)
    decreases items, 1
  {
    hide At, Enc, ReadBits, ReadHeader, ReadItem, WriteItem, ItemOk, AfterItem, RecordOf, SubblockOf, AddSubblock,
      Align32, Extends;
    var env := EnvOf(st);
    if items == [] {
      AtSplit(bits, pos, Enc(END_BLOCK, w), Pad32(pos + w));
      BitsAt(bits, pos, END_BLOCK, w);
      ExtendsNil(id, st, pos + w + |Pad32(pos + w)|);
    } else {
      var item, rest := items[0], items[1..];
      var s := WriteItem(id, w, env, item, pos);
      var tail := WriteItems(id, w, AfterItem(id, env, item), rest, pos + |s|);
      AtSplit(bits, pos, s, tail);
      var st';
      if item.Sub? {
        var h, q, sub;
        h, q, sub, st' := SubRoundTrip(bits, pos, w, id, item, st);
      } else {
        ItemRoundTrip(bits, pos, w, id, item, st);
        st' := ReadItem(bits, pos + w, id, ReadId(bits, pos, w).value, st).value;
      }
      ItemsRoundTrip(bits, pos + |s|, w, id, rest, st');
      ExtendsCons(id, st, items, st', ReadBlock(bits, pos, w, id, st), pos + |s| + |tail|);
    }
  }

  lemma ExtendsNil(id: nat, st: BlockState, end: nat)
    ensures Extends(id, st, [], Got(st, end), end)
  {
    assert st.records + [] == st.records && st.subblocks + [] == st.subblocks;
  }

  lemma ExtendsCons(id: nat, st: BlockState, items: seq<Item>, st': BlockState, r: Read<BlockState>, end: nat)
    requires items != []
    requires st'.records == st.records + RecordOf(items[0]) && st'.subblocks == st.subblocks + SubblockOf(items[0])
    requires EnvOf(st') == AfterItem(id, EnvOf(st), items[0])
    requires Extends(id, st', items[1..], r, end)
    ensures Extends(id, st, items, r, end)
  {
    hide RecordOf, SubblockOf, AfterItem;
    var rest := items[1..];
    ConcatAssociative(st.records, RecordOf(items[0]), RecordsOf(rest));
    ConcatAssociative(st.subblocks, SubblockOf(items[0]), SubblocksOf(rest));
  }

  /** A nested block reads back as its tree, and leaves the enclosing block where the next item starts. */
  lemma {:induction false} SubRoundTrip(bits: seq<bool>, pos: nat, w: nat, id: nat, item: Item, st: BlockState)
    returns (h: Header, q: nat, sub: BlockState, st': BlockState)
    requires item.Sub? && w <= 64 && ItemOk(id, w, EnvOf(st), item)
    requires At(bits, pos, WriteItem(id, w, EnvOf(st), item, pos))
    ensures ReadBits(bits, pos, w) == Got(ENTER_SUBBLOCK, pos + w) &&
      ReadId(bits, pos, w) == Got(ENTER_SUBBLOCK, pos + w)
    ensures ReadHeader(bits, pos + w) == Got(h, q)
    ensures ReadBlock(bits, q, h.abbrevWidth, h.blockId, Start(h.blockId, st.info, st.skips + {h.lenAt}))
         == Got(sub, pos + |WriteItem(id, w, EnvOf(st), item, pos)|)
    ensures BlockOf(h.blockId, h.abbrevWidth, sub) == TreeOf(item)
    ensures st' == AddSubblock(st, h, sub) && EnvOf(st') == AfterItem(id, EnvOf(st), item)
    ensures st'.records == st.records + RecordOf(item) && st'.subblocks == st.subblocks + SubblockOf(item)
    decreases item, 0
  {
    hide At, Enc, ReadBits, ReadHeader, ReadBlock, WriteHeader, WriteItems, ItemsOk, AfterItems, Word64;
    var env := EnvOf(st);
    var head := WriteHeader(item.id, item.width, item.lenWords, pos + w);
    var p := pos + w + |head|;
    var body := WriteItems(item.id, item.width, Enter(item.id, env.info), item.items, p);
    AtSplit(bits, pos, Enc(ENTER_SUBBLOCK, w) + head, body);
    AtSplit(bits, pos, Enc(ENTER_SUBBLOCK, w), head);
    BitsAt(bits, pos, ENTER_SUBBLOCK, w);
    PlainHeader(bits, pos + w, item.id, item.width, item.lenWords);
    h, q := ReadHeader(bits, pos + w).value, p;
    var inner := Start(h.blockId, st.info, st.skips + {h.lenAt});
    ItemsRoundTrip(bits, p, h.abbrevWidth, h.blockId, item.items, inner);
    sub := ReadBlock(bits, p, h.abbrevWidth, h.blockId, inner).value;
    assert [] + RecordsOf(item.items) == RecordsOf(item.items);
    assert [] + SubblocksOf(item.items) == SubblocksOf(item.items);
    st' := AddSubblock(st, h, sub);
  }

  // ----- whole streams -----

  /** Blocks written at the top level are read in order, and the reader goes on right after them. */
  lemma {:induction false} StreamPrefix(bits: seq<bool>, pos: nat, blocks: seq<Item>, st: StreamState)
      returns (st': StreamState)
    requires Aligned(pos) && StreamOk(blocks, st.info) && At(bits, pos, WriteStream(blocks, st.info, pos))
    ensures ReadStream(bits, pos, st) == ReadStream(bits, pos + |WriteStream(blocks, st.info, pos)|, st')
    ensures st'.blocks == st.blocks + SubblocksOf(blocks)
    decreases blocks
  {
    hide At, ReadHeader, ReadBlock, TreeOf, ItemOk, AfterItem, WriteItem, Align32;
    if blocks == [] {
      st' := st;
      assert st.blocks + [] == st.blocks;
    } else {
      var block, rest := blocks[0], blocks[1..];
      var s := WriteTop(block, st.info, pos);
      AtSplit(bits, pos, s, WriteStream(rest, AfterTop(block, st.info), pos + |s|));
      var h, q, sub, _ := SubRoundTrip(bits, pos, TOP_WIDTH, TOP_ID, block, TopState(st));
      st' := StreamPrefix(bits, pos + |s|, rest, AddBlock(st, h, sub));
      ConcatAssociative(st.blocks, [TreeOf(block)], SubblocksOf(rest));
    }
  }

  function TopState(st: StreamState): BlockState {
    BlockState([], [], [], None, st.info, st.skips, [], [])
  }

  lemma StreamEnd(bits: seq<bool>, st: StreamState)
    ensures ReadStream(bits, |bits|, st) == Got(st, |bits|)
  {
  }

  /** The whole body of a file reads back as its blocks in order, and every bit is consumed. */
  lemma StreamRoundTrip(bits: seq<bool>, blocks: seq<Item>)
    requires StreamOk(blocks, map[]) && bits == WriteStream(blocks, map[], 0)
    ensures var r := ReadStream(bits, 0, EMPTY_STREAM);
      r.Got? && r.value.blocks == SubblocksOf(blocks) && r.pos == |bits|
  {
    hide WriteStream, StreamOk, SubblocksOf, ReadStream;
    assert bits[0..0 + |bits|] == bits;
    var st' := StreamPrefix(bits, 0, blocks, EMPTY_STREAM);
    StreamEnd(bits, st');
    assert [] + SubblocksOf(blocks) == SubblocksOf(blocks);
  }
}
