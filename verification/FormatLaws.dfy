/** Two laws that need both the writer and the decoder: abbreviating a record does not change it,
    and the body lengths on which the reader's cursor can leave the data. */
module FormatLaws {
  import opened Bits
  import opened Bitstream
  import opened Writer
  import opened RoundTrip
  import opened StreamLaws
  import opened FileRoundTrip

  // ----- abbreviation transparency -----

  lemma ScalarWord(op: AbbrevOp, v: nat)
    requires OpOk(op) && ScalarOk(op, v)
    ensures Word64(v) && ScalarOk(Vbr(6), v)
  {
    if op.Fixed? {
      Pow2Monotonic(op.width, 64);
    } else if op.Char6? {
      assert Pow2(6) == 64;
      Pow2Monotonic(6, 64);
    }
  }

  /** The values of the fields of a legal abbreviation are 64-bit words. */
  lemma {:induction false} ValuesWords(def: AbbrevDef, i: nat, fields: seq<Field>)
    requires DefOk(def) && i <= |def| && FieldsOk(def, i, fields)
    ensures ElementsOk(Vbr(6), Values(fields))
    decreases |def| - i
  {
    hide Word64;
    if i < |def| {
      var field := fields[0];
      forall v <- FieldValues(field) ensures ScalarOk(Vbr(6), v) {
        ScalarWord(if def[i].Array? then def[i + 1] else def[i], v);
      }
      ValuesWords(def, FieldEnd(def, i), fields[1..]);
    }
  }

  lemma {:induction false} NoBlob(fields: seq<Field>)
    requires forall f <- fields :: !f.Bytes?
    ensures BlobOf(fields) == []
  {
    if fields != [] {
      NoBlob(fields[1..]);
    }
  }

  lemma WordLess(a: nat, b: nat)
    requires Word64(b) && a <= b
    ensures Word64(a) && Word64(0)
  {
  }

  /** The record the fields make, blob aside. */
  function PlainRecord(id: nat, fields: seq<Field>): Record {
    RecordWith(id, Values(fields), [])
  }

  /** What a legal abbreviation can express can be written without it, unless its operands are more
      than the 64-bit operand count of the unabbreviated form can say. */
  lemma Unabbreviable(id: nat, def: AbbrevDef, fields: seq<Field>)
    requires DefOk(def) && FieldsOk(def, 0, fields) && Word64(|Values(fields)|)
    ensures UnabbrevOk(PlainRecord(id, fields).code, PlainRecord(id, fields).operands)
  {
    hide Word64;
    var values := Values(fields);
    ValuesWords(def, 0, fields);
    WordLess(if values == [] then 0 else |values| - 1, |values|);
    assert values != [] ==> ScalarOk(Vbr(6), values[0]);
  }

  /** A record written with an abbreviation and the same record written without one read back with
      the same code, operands and (empty) blob. */
  lemma AbbreviationTransparent(
    abbreviated: seq<bool>, at: nat, plain: seq<bool>, at': nat, id: nat, def: AbbrevDef, fields: seq<Field>)
    requires DefOk(def) && FieldsOk(def, 0, fields) && (forall f <- fields :: !f.Bytes?)
    requires UnabbrevOk(PlainRecord(id, fields).code, PlainRecord(id, fields).operands)
    requires At(abbreviated, at, WriteFields(def, 0, fields, at))
    requires At(plain, at', WriteUnabbrev(PlainRecord(id, fields).code, PlainRecord(id, fields).operands))
    ensures var a, b := ReadAbbreviated(abbreviated, at, id, def), ReadUnabbrev(plain, at');
      && a.Got? && b.Got?
      && a.value.code == b.value.code && a.value.operands == b.value.operands && a.value.blob == [] == b.value.blob
  {
    hide ReadAbbreviated, ReadUnabbrev, At, WriteFields, WriteUnabbrev, Word64;
    NoBlob(fields);
    AbbreviatedRoundTrip(abbreviated, at, id, def, fields);
    var rec := PlainRecord(id, fields);
    UnabbrevRoundTrip(plain, at', rec.code, rec.operands);
  }

  // ----- where the cursor leaves the data -----

  /** Reading the body ends in counting the bits left of a cursor past the end. */
  ghost predicate Traps(body: seq<byte>) {
    ReadStream(BitsOf(body), 0, EMPTY_STREAM) == Fail(CursorPastEnd)
  }

  /** A block of width 0 ends where it starts: 64 bits in all. */
  const EMPTY_BLOCK := Sub(8, 0, 0, [])

  function EmptyBlocks(n: nat): seq<Item> {
    if n == 0 then [] else [EMPTY_BLOCK] + EmptyBlocks(n - 1)
  }

  lemma HeaderLength(sw: nat, pos: nat)
    requires Aligned(pos) && sw < 8
    ensures |WriteHeader(8, sw, 0, pos + 2)| == 62
  {
    assert Pow2(7) == 128 && Pow2(3) == 8;
    assert |WriteVbr(8, 8)| == 8 && |WriteVbr(sw, 4)| == 4;
    assert Align32(pos + 2 + 12) == pos + 32;
  }

  lemma EmptyBlockLength(info: BlockInfo, pos: nat)
    requires Aligned(pos)
    ensures TopOk(EMPTY_BLOCK, info) && AfterTop(EMPTY_BLOCK, info) == info && |WriteTop(EMPTY_BLOCK, info, pos)| == 64
    ensures Aligned(pos + 64)
  {
    hide WriteHeader, Enc, DefOk, UnabbrevOk, FieldsOk, WriteDef, WriteUnabbrev, WriteFields, Word64, Pow2, Align32;
    EmptyBlockOk(info);
    HeaderLength(0, pos);
    NextWord(pos);
  }

  lemma EmptyBlockOk(info: BlockInfo)
    ensures TopOk(EMPTY_BLOCK, info) && AfterTop(EMPTY_BLOCK, info) == info
  {
    hide DefOk, UnabbrevOk, FieldsOk, Word64, Pow2;
    SmallWords();
  }

  lemma {:induction false} EmptyBlocksLength(n: nat, info: BlockInfo, pos: nat)
    requires Aligned(pos)
    ensures StreamOk(EmptyBlocks(n), info) && |WriteStream(EmptyBlocks(n), info, pos)| == 64 * n
    ensures Aligned(pos + 64 * n)
    decreases n
  {
    hide TopOk, WriteTop, AfterTop, Aligned;
    if n > 0 {
      EmptyBlockLength(info, pos);
      assert EmptyBlocks(n)[1..] == EmptyBlocks(n - 1);
      EmptyBlocksLength(n - 1, info, pos + 64);
      assert pos + 64 * n == pos + 64 + 64 * (n - 1);
    }
  }

  lemma Filler(k: nat)
    ensures StreamOk(EmptyBlocks(k), map[]) && |WriteStream(EmptyBlocks(k), map[], 0)| == 64 * k && Aligned(64 * k)
    ensures Aligned(0)
  {
    EmptyBlocksLength(k, map[], 0);
  }

  function Zeros(n: nat): (s: seq<bool>)
    ensures |s| == n
  {
    seq(n, _ => false)
  }

  /** A block of width 2 whose END_BLOCK stands in the last, partial word. */
  function TrapBlock(pos: nat, r: nat): seq<bool>
    requires 1 <= r <= 3
  {
    (Enc(ENTER_SUBBLOCK, 2) + WriteHeader(8, 2, 0, pos + 2)) + (Enc(END_BLOCK, 2) + Zeros(8 * r - 2))
  }

  /** A header whose padded block id runs into the last, partial word. */
  function TrapHeader(r: nat): seq<bool>
    requires 5 <= r <= 7
  {
    Enc(ENTER_SUBBLOCK, 2) + (WriteVbrPadded(8, 8, 3) + (WriteVbr(0, 4) + Zeros(8 * r - 38)))
  }

  lemma SmallWords()
    ensures Pow2(2) == 4 && Pow2(3) == 8 && Pow2(7) == 128 && Word64(8) && Word64(0)
  {
    assert Pow2(4) == 16;
    Pow2Monotonic(4, 64);
  }

  lemma NextWord(pos: nat)
    requires Aligned(pos)
    ensures Align32(pos + 2) == pos + 32 && Align32(pos + 38) == pos + 64 && Aligned(pos + 64)
  {
  }

  lemma TrapBlockTraps(bits: seq<bool>, pos: nat, st: StreamState, r: nat)
    requires 1 <= r <= 3 && Aligned(pos) && At(bits, pos, TrapBlock(pos, r)) && |bits| == pos + |TrapBlock(pos, r)|
    ensures |TrapBlock(pos, r)| == 64 + 8 * r
    ensures ReadStream(bits, pos, st) == Fail(CursorPastEnd)
  {
    hide Enc, WriteHeader, At, ReadHeader, ReadBits, Aligned, Word64, Pow2;
    var head, tail := Enc(ENTER_SUBBLOCK, 2) + WriteHeader(8, 2, 0, pos + 2), Enc(END_BLOCK, 2) + Zeros(8 * r - 2);
    HeaderLength(2, pos);
    SmallWords();
    AtSplit(bits, pos, head, tail);
    AtSplit(bits, pos, Enc(ENTER_SUBBLOCK, 2), WriteHeader(8, 2, 0, pos + 2));
    AtSplit(bits, pos + 64, Enc(END_BLOCK, 2), Zeros(8 * r - 2));
    BitsAt(bits, pos, ENTER_SUBBLOCK, 2);
    BitsAt(bits, pos + 64, END_BLOCK, 2);
    HalfWord(2);
    HeaderRoundTrip(bits, pos + 2, 8, 2, 0);
    NextWord(pos);
    NextWord(pos + 64);
  }

  lemma PaddedLength()
    ensures |WriteVbrPadded(8, 8, 3)| == 32 && LastShift(8, 8, 3) < 64 && |WriteVbr(0, 4)| == 4
  {
    SmallWords();
    assert |ZeroChunks(8, 3)| == 24;
    assert LastShift(0, 8, 2) == 14;
  }

  lemma TrapHeaderTraps(bits: seq<bool>, pos: nat, st: StreamState, r: nat)
    requires 5 <= r <= 7 && Aligned(pos) && At(bits, pos, TrapHeader(r)) && |bits| == pos + |TrapHeader(r)|
    ensures |TrapHeader(r)| == 8 * r
    ensures ReadStream(bits, pos, st) == Fail(CursorPastEnd)
  {
    hide Enc, At, ReadBlock, ReadVbr, WriteVbrPadded, WriteVbr, Aligned, Word64, Pow2, Align32;
    PaddedLength();
    SmallWords();
    var a, b, c := WriteVbrPadded(8, 8, 3), WriteVbr(0, 4), Zeros(8 * r - 38);
    AtSplit(bits, pos, Enc(ENTER_SUBBLOCK, 2), a + (b + c));
    AtSplit(bits, pos + 2, a, b + c);
    AtSplit(bits, pos + 34, b, c);
    BitsAt(bits, pos, ENTER_SUBBLOCK, 2);
    VbrPaddedRoundTrip(bits, pos + 2, 8, 8, 3);
    VbrRoundTrip(bits, pos + 34, 0, 4);
    NextWord(pos);
  }

  /** k empty blocks and then more: the reader goes on where the rest begins. */
  lemma AfterFiller(k: nat, rest: seq<bool>) returns (bits: seq<bool>, st: StreamState)
    ensures Aligned(64 * k) && |bits| == 64 * k + |rest| && At(bits, 64 * k, rest)
    ensures ReadStream(bits, 0, EMPTY_STREAM) == ReadStream(bits, 64 * k, st)
  {
    hide At, ReadStream, WriteStream, EmptyBlocks;
    Filler(k);
    var s := WriteStream(EmptyBlocks(k), map[], 0);
    bits := s + rest;
    assert At(bits, 0, bits) by { WholeAt(bits); }
    AtSplit(bits, 0, s, rest);
    st := StreamPrefix(bits, 0, EmptyBlocks(k), EMPTY_STREAM);
  }

  lemma PackedTrap(bits: seq<bool>, n: nat)
    requires |bits| == 8 * n && ReadStream(bits, 0, EMPTY_STREAM) == Fail(CursorPastEnd)
    ensures |bits| % 8 == 0 && Traps(Pack(bits)) && |Pack(bits)| == n
  {
    hide ReadStream, BitsOf, Pack;
    PackBits(bits);
  }

  lemma TrapBlockBody(k: nat, r: nat) returns (body: seq<byte>)
    requires 1 <= r <= 3
    ensures Traps(body) && |body| == 8 * k + 8 + r
  {
    hide At, ReadStream, TrapBlock, Traps, Pack, Aligned;
    var bits, st := AfterFiller(k, TrapBlock(64 * k, r));
    TrapBlockTraps(bits, 64 * k, st, r);
    PackedTrap(bits, 8 * k + 8 + r);
    body := Pack(bits);
  }

  lemma TrapHeaderBody(k: nat, r: nat) returns (body: seq<byte>)
    requires 5 <= r <= 7
    ensures Traps(body) && |body| == 8 * k + r
  {
    hide At, ReadStream, TrapHeader, Traps, Pack, Aligned;
    var bits, st := AfterFiller(k, TrapHeader(r));
    TrapHeaderTraps(bits, 64 * k, st, r);
    PackedTrap(bits, 8 * k + r);
    body := Pack(bits);
  }

  lemma WholeAt(bits: seq<bool>)
    ensures At(bits, 0, bits)
  {
    assert bits[0..0 + |bits|] == bits;
  }

  /** No body of whole words, and none too short for a header, makes the reader trap on its cursor. */
  lemma NoTrap(body: seq<byte>)
    requires |body| <= 4 || |body| % 4 == 0
    ensures !Traps(body)
  {
    hide BitsOf;
    if |body| >= 4 {
      hide ReadStream;
      WholeWords(|body|);
      StreamInside(BitsOf(body), 0, EMPTY_STREAM);
    }
  }

  lemma WholeWords(n: nat)
    requires n % 4 == 0
    ensures Aligned(8 * n)
  {
  }

  /** The reader's cursor can leave the data exactly on bodies longer than a word whose length is not
      a whole number of words. */
  lemma TrapLengths(n: nat)
    ensures (exists body: seq<byte> :: |body| == n && Traps(body)) <==> n > 4 && n % 4 != 0
  {
    hide Traps, TrapBlock, TrapHeader;
    if n <= 4 || n % 4 == 0 {
      forall body: seq<byte> | |body| == n ensures !Traps(body) { NoTrap(body); }
    } else if n % 8 <= 3 {
      var body := TrapBlockBody(n / 8 - 1, n % 8);
    } else {
      var body := TrapHeaderBody(n / 8, n % 8);
    }
  }
}
