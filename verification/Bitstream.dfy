/** What an LLVM bitstream means: a decoder written as functions from a bit sequence and a
    position. The reader of AirParser is proved equal to these functions; the theorems about
    the format are proved about them. */
module Bitstream {
  import opened Wrappers
  import opened Bits

  const END_BLOCK := 0
  const ENTER_SUBBLOCK := 1
  const DEFINE_ABBREV := 2
  const UNABBREV_RECORD := 3
  const FIRST_APPLICATION_ABBREV := 4
  const BLOCKINFO_BLOCK_ID := 0
  const BLOCKINFO_CODE_SETBID := 1

  /** The last two stand for arithmetic the source traps on when overflow checks are on: `Overflow`
      for a shift by 64 or more or a zero-width mask, `CursorPastEnd` for counting the bits left of a
      cursor that has passed the end. */
  datatype ParseError =
    | TooShort
    | NoBitcodeMagic
    | WrapperOutOfBounds
    | Malformed(what: string)
    | UnexpectedEof
    | Overflow
    | CursorPastEnd

  datatype Result<+T> = Ok(value: T) | Err(error: ParseError) {
    predicate IsFailure() { Err? }
    function PropagateFailure<U>(): Result<U> requires Err? { Err(error) }
    function Extract(): T requires Ok? { value }
  }

  /** The outcome of decoding at a position: a value and the position after it, or an error. */
  datatype Read<+T> = Got(value: T, pos: nat) | Fail(error: ParseError) {
    predicate IsFailure() { Fail? }
    function PropagateFailure<U>(): Read<U> requires Fail? { Fail(error) }
    function Extract(): (T, nat) requires Got? { (value, pos) }
    function Outcome(): Result<T> { if Got? then Ok(value) else Err(error) }
  }

  datatype Record = Record(abbrevId: nat, code: nat, operands: seq<nat>, blob: seq<byte>)

  datatype Block = Block(blockId: nat, abbrevWidth: nat, records: seq<Record>, subblocks: seq<Block>)

  datatype AbbrevOp = Literal(value: nat) | Fixed(width: nat) | Vbr(width: nat) | Array | Char6 | Blob

  type AbbrevDef = seq<AbbrevOp>

  /** Abbreviations that a BLOCKINFO block registered for each block id. */
  type BlockInfo = map<nat, seq<AbbrevDef>>

  function Registered(info: BlockInfo, id: nat): seq<AbbrevDef> {
    if id in info then info[id] else []
  }

  function Register(info: BlockInfo, id: nat, def: AbbrevDef): BlockInfo {
    info[id := Registered(info, id) + [def]]
  }

  /** The bits left from pos on; 0 when pos is past the end. */
  function Left(bits: seq<bool>, pos: nat): nat {
    if pos <= |bits| then |bits| - pos else 0
  }

  function Align32(pos: nat): (r: nat)
    ensures pos <= r < pos + 32
  {
    if pos % 32 == 0 then pos else pos + 32 - pos % 32
  }

  predicate Aligned(pos: nat) { Align32(pos) == pos }

  /** Aligning stops at the next multiple of 32. */
  lemma AlignedMultiple(pos: nat)
    ensures Align32(pos) % 32 == 0 && (Aligned(pos) <==> pos % 32 == 0)
  {
  }

  lemma AlignIdempotent(pos: nat)
    ensures Aligned(Align32(pos))
  {
  }

  // ----- scalars -----

  function ReadBits(bits: seq<bool>, pos: nat, n: nat): (r: Read<nat>)
    ensures r.Got? ==> r.pos == pos + n && r.value < Pow2(n) && n <= 64
    ensures r.Got? && n > 0 ==> r.pos <= |bits|
    ensures pos <= |bits| ==> r != Fail(CursorPastEnd)
  {
    if n == 0 then Got(0, pos)
    else if pos > |bits| then Fail(CursorPastEnd)
    else if n > |bits| - pos then Fail(UnexpectedEof)
    else if n > 64 then Fail(Overflow)
    else
      ValBound(bits[pos..pos + n]);
      Got(Val(bits[pos..pos + n]), pos + n)
  }

  function ReadVbr(bits: seq<bool>, pos: nat, w: nat): (r: Read<nat>)
    ensures r.Got? ==> 1 <= w <= 64 && pos + w <= r.pos <= |bits|
    ensures pos <= |bits| ==> r != Fail(CursorPastEnd)
  {
    if w == 0 || w > 64 then Fail(Overflow)
    else
      var (piece, p) :- ReadBits(bits, pos, w);
      if !BitSet(piece, w - 1) then Got(piece, p) else VbrTail(bits, p, w, Low(piece, w - 1), w - 1)
  }

  function VbrTail(bits: seq<bool>, pos: nat, w: nat, acc: nat, shift: nat): (r: Read<nat>)
    requires 1 <= w <= 64
    ensures r.Got? ==> pos + w <= r.pos <= |bits|
    ensures pos <= |bits| ==> r != Fail(CursorPastEnd)
    decreases Left(bits, pos)
  {
    var (piece, p) :- ReadBits(bits, pos, w);
    if shift >= 64 then Fail(Overflow)
    else
      var acc' := Or(acc, Shl64(Low(piece, w - 1), shift));
      if !BitSet(piece, w - 1) then Got(acc', p) else VbrTail(bits, p, w, acc', shift + w - 1)
  }

  // ----- abbreviation definitions -----

  function ReadOp(bits: seq<bool>, pos: nat): (r: Read<AbbrevOp>)
    ensures r.Got? ==> pos < r.pos <= |bits|
    ensures pos <= |bits| ==> r != Fail(CursorPastEnd)
  {
    var (isLiteral, p) :- ReadBits(bits, pos, 1);
    if isLiteral != 0 then
      var (v, q) :- ReadVbr(bits, p, 8);
      Got(Literal(v), q)
    else
      var (encoding, q) :- ReadBits(bits, p, 3);
      if encoding == 1 then
        var (w, q') :- ReadVbr(bits, q, 5);
        Got(Fixed(w % U32), q')
      else if encoding == 2 then
        var (w, q') :- ReadVbr(bits, q, 5);
        Got(Vbr(w % U32), q')
      else if encoding == 3 then Got(Array, q)
      else if encoding == 4 then Got(Char6, q)
      else if encoding == 5 then Got(Blob, q)
      else Fail(Malformed("unknown abbrev operand encoding"))
  }

  function ReadOps(bits: seq<bool>, pos: nat, n: nat, acc: AbbrevDef): (r: Read<AbbrevDef>)
    ensures r.Got? ==> pos <= r.pos && (n > 0 ==> r.pos <= |bits|)
    ensures pos <= |bits| ==> r != Fail(CursorPastEnd)
    decreases n
  {
    if n == 0 then Got(acc, pos)
    else
      var (op, p) :- ReadOp(bits, pos);
      ReadOps(bits, p, n - 1, acc + [op])
  }

  function ReadDef(bits: seq<bool>, pos: nat): (r: Read<AbbrevDef>)
    ensures r.Got? ==> pos < r.pos <= |bits|
    ensures pos <= |bits| ==> r != Fail(CursorPastEnd)
  {
    var (n, p) :- ReadVbr(bits, pos, 5);
    ReadOps(bits, p, n, [])
  }

  // ----- records -----

  function ReadScalar(bits: seq<bool>, pos: nat, op: AbbrevOp): (r: Read<nat>)
    ensures r.Got? ==> pos <= r.pos && (pos <= |bits| ==> r.pos <= |bits|)
    ensures pos <= |bits| ==> r != Fail(CursorPastEnd)
  {
    match op
    case Literal(v) => Got(v, pos)
    case Fixed(w) => ReadBits(bits, pos, w)
    case Vbr(w) => ReadVbr(bits, pos, w)
    case Char6 => ReadBits(bits, pos, 6)
    case _ => Fail(Malformed("invalid array element type"))
  }

  function ReadElements(bits: seq<bool>, pos: nat, op: AbbrevOp, n: nat, acc: seq<nat>): (r: Read<seq<nat>>)
    ensures r.Got? ==> pos <= r.pos && (pos <= |bits| ==> r.pos <= |bits|)
    ensures pos <= |bits| ==> r != Fail(CursorPastEnd)
    decreases n
  {
    if n == 0 then Got(acc, pos)
    else
      var (v, p) :- ReadScalar(bits, pos, op);
      ReadElements(bits, p, op, n - 1, acc + [v])
  }

  function ReadBytes(bits: seq<bool>, pos: nat, n: nat, acc: seq<byte>): (r: Read<seq<byte>>)
    ensures r.Got? ==> pos <= r.pos && (n > 0 ==> r.pos <= |bits|)
    ensures pos <= |bits| ==> r != Fail(CursorPastEnd)
    decreases n
  {
    if n == 0 then Got(acc, pos)
    else
      var (v, p) :- ReadBits(bits, pos, 8);
      assert Pow2(8) == 256;
      ReadBytes(bits, p, n - 1, acc + [v])
  }

  /** The values and the blob an abbreviated record has collected. */
  datatype Fields = Fields(values: seq<nat>, blob: seq<byte>)

  /** The operand after def[i]; an array takes its element type along. */
  function NextOp(def: AbbrevDef, i: nat): (n: nat)
    requires i < |def|
    ensures n > i
  {
    if def[i].Array? then i + 2 else i + 1
  }

  function ReadField(bits: seq<bool>, pos: nat, def: AbbrevDef, i: nat, acc: Fields): (r: Read<Fields>)
    requires i < |def|
    ensures r.Got? ==> pos <= r.pos && NextOp(def, i) <= |def|
  {
    if def[i].Array? then
      var (n, p) :- ReadVbr(bits, pos, 6);
      if i + 1 == |def| then Fail(Malformed("array missing element type"))
      else
        var (vs, q) :- ReadElements(bits, p, def[i + 1], n, acc.values);
        Got(Fields(vs, acc.blob), q)
    else if def[i].Blob? then
      var (n, p) :- ReadVbr(bits, pos, 6);
      var (bytes, q) :- ReadBytes(bits, Align32(p), n, acc.blob);
      Got(Fields(acc.values, bytes), Align32(q))
    else
      var (v, p) :- ReadScalar(bits, pos, def[i]);
      Got(Fields(acc.values + [v], acc.blob), p)
  }

  function ReadFields(bits: seq<bool>, pos: nat, def: AbbrevDef, i: nat, acc: Fields): (r: Read<Fields>)
    requires i <= |def|
    ensures r.Got? ==> pos <= r.pos
    decreases |def| - i
  {
    if i == |def| then Got(acc, pos)
    else
      var (acc', p) :- ReadField(bits, pos, def, i, acc);
      ReadFields(bits, p, def, NextOp(def, i), acc')
  }

  /** The first value is the record code, the others its operands. */
  function FieldsRecord(id: nat, f: Fields): Record {
    if f.values == [] then Record(id, 0, [], f.blob) else Record(id, f.values[0], f.values[1..], f.blob)
  }

  /** An abbreviated record after its abbreviation id. */
  function ReadAbbreviated(bits: seq<bool>, pos: nat, id: nat, def: AbbrevDef): (r: Read<Record>)
    ensures r.Got? ==> pos <= r.pos
  {
    var (f, p) :- ReadFields(bits, pos, def, 0, Fields([], []));
    Got(FieldsRecord(id, f), p)
  }

  /** An UNABBREV_RECORD after its abbreviation id. */
  function ReadUnabbrev(bits: seq<bool>, pos: nat): (r: Read<Record>)
    ensures r.Got? ==> pos + 12 <= r.pos <= |bits|
    ensures pos <= |bits| ==> r != Fail(CursorPastEnd)
  {
    var (code, p) :- ReadVbr(bits, pos, 6);
    var (n, q) :- ReadVbr(bits, p, 6);
    var (ops, q') :- ReadElements(bits, q, Vbr(6), n, []);
    Got(Record(UNABBREV_RECORD, code, ops, []), q')
  }

  // ----- blocks -----

  /** An ENTER_SUBBLOCK after its abbreviation id; lenAt is where the ignored length word stands. */
  datatype Header = Header(blockId: nat, abbrevWidth: nat, lenAt: nat)

  function ReadHeader(bits: seq<bool>, pos: nat): (r: Read<Header>)
    ensures r.Got? ==> r.value.abbrevWidth < U32
    ensures r.Got? ==> pos + 12 <= r.value.lenAt && r.pos == r.value.lenAt + 32 <= |bits|
  {
    var (id, p) :- ReadVbr(bits, pos, 8);
    var (w, q) :- ReadVbr(bits, p, 4);
    var (_, q') :- ReadBits(bits, Align32(q), 32);
    Got(Header(id, w % U32, Align32(q)), q')
  }

  /** A definition that a BLOCKINFO block registered for a block id, and where it was read. */
  datatype Registration = Registration(target: nat, def: AbbrevDef, at: nat)

  /** What a block meets, with the place where it was read: a definition, a record whose abbreviation
      resolved to def, a record without abbreviation, and a nested block by what it registered. */
  datatype Event =
    | Defines(def: AbbrevDef, at: nat)
    | Uses(index: nat, def: AbbrevDef, at: nat)
    | Plain(rec: Record, at: nat)
    | Nested(registrations: seq<Registration>)

  /** The block reader between two items. `skips`, `registrations` and `log` are not in the source: they
      record where ignored length words stood, what was registered since the block began, and what the
      block met. */
  datatype BlockState = BlockState(
    records: seq<Record>,
    subblocks: seq<Block>,
    locals: seq<AbbrevDef>,
    setbid: Option<nat>,
    info: BlockInfo,
    skips: set<nat>,
    registrations: seq<Registration>,
    log: seq<Event>)

  function Start(id: nat, info: BlockInfo, skips: set<nat>): BlockState {
    BlockState([], [], Registered(info, id), None, info, skips, [], [])
  }

  function BlockOf(id: nat, w: nat, st: BlockState): Block {
    Block(id, w, st.records, st.subblocks)
  }

  function AddSubblock(st: BlockState, h: Header, sub: BlockState): BlockState {
    st.(subblocks := st.subblocks + [BlockOf(h.blockId, h.abbrevWidth, sub)],
        info := sub.info, skips := sub.skips,
        registrations := st.registrations + sub.registrations,
        log := st.log + [Nested(sub.registrations)])
  }

  function AddDef(id: nat, st: BlockState, def: AbbrevDef, at: nat): BlockState {
    var st' := st.(log := st.log + [Defines(def, at)]);
    if id != BLOCKINFO_BLOCK_ID then st'.(locals := st.locals + [def])
    else
      match st.setbid
      case None => st'
      case Some(target) =>
        st'.(info := Register(st.info, target, def),
             registrations := st.registrations + [Registration(target, def, at)])
  }

  function FirstOperand(rec: Record): Option<nat> {
    if rec.operands == [] then None else Some(rec.operands[0])
  }

  function AddUnabbrev(id: nat, st: BlockState, rec: Record, at: nat): BlockState {
    var st' := if id == BLOCKINFO_BLOCK_ID && rec.code == BLOCKINFO_CODE_SETBID
      then st.(setbid := FirstOperand(rec)) else st;
    st'.(records := st.records + [rec], log := st.log + [Plain(rec, at)])
  }

  function AddAbbreviated(st: BlockState, a: nat, def: AbbrevDef, rec: Record, at: nat): BlockState
    requires a >= FIRST_APPLICATION_ABBREV
  {
    st.(records := st.records + [rec],
        log := st.log + [Uses(a - FIRST_APPLICATION_ABBREV, def, at)])
  }

  /** One definition or record whose abbreviation id a has been read. */
  function ReadItem(bits: seq<bool>, pos: nat, id: nat, a: nat, st: BlockState): (r: Read<BlockState>)
    requires a >= DEFINE_ABBREV
    ensures r.Got? ==> pos <= r.pos
  {
    if a == DEFINE_ABBREV then
      var (def, p) :- ReadDef(bits, pos);
      Got(AddDef(id, st, def, pos), p)
    else if a == UNABBREV_RECORD then
      var (rec, p) :- ReadUnabbrev(bits, pos);
      Got(AddUnabbrev(id, st, rec, pos), p)
    else
      var k := a - FIRST_APPLICATION_ABBREV;
      if k >= |st.locals| then Fail(Malformed("abbreviated record references unknown abbreviation"))
      else
        var (rec, p) :- ReadAbbreviated(bits, pos, a, st.locals[k]);
        Got(AddAbbreviated(st, a, st.locals[k], rec, pos), p)
  }

  /** An abbreviation id, after the end-of-data test at the head of the block loop. */
  function ReadId(bits: seq<bool>, pos: nat, w: nat): (r: Read<nat>)
    ensures r.Got? ==> r.pos == pos + w <= |bits|
    ensures pos <= |bits| ==> r != Fail(CursorPastEnd)
    ensures r.Got? && r.value != 0 ==> w > 0
  {
    if pos > |bits| then Fail(CursorPastEnd)
    else if |bits| - pos < w then Fail(UnexpectedEof)
    else ReadBits(bits, pos, w)
  }

  /** The rest of a block of the given width and id, from pos to just after its END_BLOCK. */
  function ReadBlock(bits: seq<bool>, pos: nat, w: nat, id: nat, st: BlockState): (r: Read<BlockState>)
    ensures r.Got? ==> pos <= r.pos
    decreases Left(bits, pos)
  {
    var (a, p) :- ReadId(bits, pos, w);
    if a == END_BLOCK then Got(st, Align32(p))
    else if a == ENTER_SUBBLOCK then
      var (h, q) :- ReadHeader(bits, p);
      var (sub, q') :- ReadBlock(bits, q, h.abbrevWidth, h.blockId, Start(h.blockId, st.info, st.skips + {h.lenAt}));
      ReadBlock(bits, q', w, id, AddSubblock(st, h, sub))
    else
      var (st', q) :- ReadItem(bits, p, id, a, st);
      ReadBlock(bits, q, w, id, st')
  }

  // ----- whole streams -----

  datatype StreamState = StreamState(
    blocks: seq<Block>, info: BlockInfo, skips: set<nat>, registrations: seq<Registration>)

  /** The top level: blocks until fewer than 32 bits remain or another abbreviation id stands there. */
  function ReadStream(bits: seq<bool>, pos: nat, st: StreamState): (r: Read<StreamState>)
    ensures r.Got? ==> pos <= r.pos <= |bits|
    decreases Left(bits, pos)
  {
    if pos > |bits| then Fail(CursorPastEnd)
    else if |bits| - pos < 32 then Got(st, pos)
    else
      match ReadBits(bits, pos, 2)
      case Fail(e) => Fail(e)
      case Got(a, p) =>
        if a != ENTER_SUBBLOCK then Got(st, p)
        else
          var (h, q) :- ReadHeader(bits, p);
          var (sub, q') :- ReadBlock(bits, q, h.abbrevWidth, h.blockId,
            Start(h.blockId, st.info, st.skips + {h.lenAt}));
          ReadStream(bits, q', AddBlock(st, h, sub))
  }

  function AddBlock(st: StreamState, h: Header, sub: BlockState): StreamState {
    StreamState(st.blocks + [BlockOf(h.blockId, h.abbrevWidth, sub)], sub.info, sub.skips,
                st.registrations + sub.registrations)
  }

  const EMPTY_STREAM := StreamState([], map[], {}, [])
}
