/** A reference writer for the bitstream format, after the LLVM Bitcode File Format document:
    "Variable Width Integers", "Blocks", "Data Records", "Abbreviations", "#0 - BLOCKINFO Block".
    The repository only reads; this is the other side of its round trip. */
module Writer {
  import opened Wrappers
  import opened Bits
  import opened Bitstream

  // ----- scalars -----

  /** v in chunks of w - 1 bits with a continuation bit each, followed by `padding` redundant zero chunks. */
  function WriteVbrPadded(v: nat, w: nat, padding: nat): (s: seq<bool>)
    requires w >= 2
    ensures |s| >= w
    decreases v + padding
  {
    if v >= Pow2(w - 1) then
      ShrLess(v, w - 1);
      Enc(Low(v, w - 1) + Pow2(w - 1), w) + WriteVbrPadded(Shr(v, w - 1), w, padding)
    else if padding > 0 then
      Enc(v + Pow2(w - 1), w) + ZeroChunks(w, padding)
    else
      Enc(v, w)
  }

  function ZeroChunks(w: nat, n: nat): (s: seq<bool>)
    requires w >= 2 && n > 0
    ensures |s| >= w
  {
    if n == 1 then Enc(0, w) else Enc(Pow2(w - 1), w) + ZeroChunks(w, n - 1)
  }

  lemma {:induction false} ShrLess(v: nat, k: nat)
    requires v > 0 && k > 0
    ensures Shr(v, k) < v
  {
    if k > 1 && v / 2 > 0 {
      ShrLess(v / 2, k - 1);
    } else {
      ShrZero(k - 1);
    }
  }

  lemma {:induction false} ShrZero(k: nat)
    ensures Shr(0, k) == 0
  {
    if k > 0 {
      ShrZero(k - 1);
    }
  }

  /** The canonical variable-width integer. */
  function WriteVbr(v: nat, w: nat): (s: seq<bool>)
    requires w >= 2
    ensures |s| >= w
  {
    WriteVbrPadded(v, w, 0)
  }

  /** The shift at which a reader places the last chunk of WriteVbrPadded(v, w, padding). */
  function LastShift(v: nat, w: nat, padding: nat): nat
    requires w >= 2
    decreases v + padding
  {
    if v >= Pow2(w - 1) then
      ShrLess(v, w - 1);
      w - 1 + LastShift(Shr(v, w - 1), w, padding)
    else if padding > 0 then
      w - 1 + LastShift(0, w, padding - 1)
    else
      0
  }

  predicate Word64(v: nat) { v < Pow2(64) }

  function Pad32(pos: nat): (s: seq<bool>)
    ensures pos + |s| == Align32(pos)
  {
    seq(Align32(pos) - pos, _ => false)
  }

  // ----- abbreviation definitions -----

  predicate OpOk(op: AbbrevOp) {
    match op
    case Literal(v) => Word64(v)
    case Fixed(w) => w < U32
    case Vbr(w) => w < U32
    case _ => true
  }

  function WriteOp(op: AbbrevOp): seq<bool> {
    match op
    case Literal(v) => Enc(1, 1) + WriteVbr(v, 8)
    case Fixed(w) => Enc(0, 1) + (Enc(1, 3) + WriteVbr(w, 5))
    case Vbr(w) => Enc(0, 1) + (Enc(2, 3) + WriteVbr(w, 5))
    case Array => Enc(0, 1) + Enc(3, 3)
    case Char6 => Enc(0, 1) + Enc(4, 3)
    case Blob => Enc(0, 1) + Enc(5, 3)
  }

  function WriteOps(ops: AbbrevDef): seq<bool> {
    if ops == [] then [] else WriteOp(ops[0]) + WriteOps(ops[1..])
  }

  predicate DefOk(def: AbbrevDef) {
    Word64(|def|) && forall op <- def :: OpOk(op)
  }

  function WriteDef(def: AbbrevDef): seq<bool> {
    WriteVbr(|def|, 5) + WriteOps(def)
  }

  // ----- records -----

  /** What one operand of an abbreviation carries: a scalar, the elements of an array, or a blob. */
  datatype Field = Scalar(v: nat) | Elements(vs: seq<nat>) | Bytes(bytes: seq<byte>)

  /** The value v can stand where op asks for a scalar. */
  predicate ScalarOk(op: AbbrevOp, v: nat) {
    match op
    case Literal(x) => v == x
    case Fixed(w) => w <= 64 && v < Pow2(w)
    case Vbr(w) => 2 <= w <= 64 && Word64(v)
    case Char6 => v < 64
    case _ => false
  }

  function WriteScalar(op: AbbrevOp, v: nat): seq<bool>
    requires ScalarOk(op, v)
  {
    match op
    case Literal(_) => []
    case Fixed(w) => Enc(v, w)
    case Vbr(w) => WriteVbr(v, w)
    case Char6 => Enc(v, 6)
  }

  predicate ElementsOk(op: AbbrevOp, vs: seq<nat>) {
    forall v <- vs :: ScalarOk(op, v)
  }

  function WriteElements(op: AbbrevOp, vs: seq<nat>): seq<bool>
    requires ElementsOk(op, vs)
  {
    if vs == [] then [] else WriteScalar(op, vs[0]) + WriteElements(op, vs[1..])
  }

  function WriteBytes(bytes: seq<byte>): seq<bool> {
    if bytes == [] then [] else Enc(bytes[0], 8) + WriteBytes(bytes[1..])
  }

  /** The field fits the operand def[i]. */
  predicate FieldOk(def: AbbrevDef, i: nat, field: Field)
    requires i < |def|
    ensures FieldOk(def, i, field) ==> FieldEnd(def, i) <= |def|
  {
    match def[i]
    case Array => i + 1 < |def| && field.Elements? && Word64(|field.vs|) && ElementsOk(def[i + 1], field.vs)
    case Blob => field.Bytes? && Word64(|field.bytes|)
    case op => field.Scalar? && ScalarOk(op, field.v)
  }

  /** An array takes its element type along. */
  function FieldEnd(def: AbbrevDef, i: nat): nat
    requires i < |def|
  {
    i + if def[i].Array? then 2 else 1
  }

  predicate FieldsOk(def: AbbrevDef, i: nat, fields: seq<Field>)
    requires i <= |def|
    decreases |def| - i
  {
    if i == |def| then fields == []
    else fields != [] && FieldOk(def, i, fields[0]) && FieldsOk(def, FieldEnd(def, i), fields[1..])
  }

  function WriteArray(op: AbbrevOp, vs: seq<nat>): seq<bool>
    requires ElementsOk(op, vs)
  {
    WriteVbr(|vs|, 6) + WriteElements(op, vs)
  }

  /** The length of a blob and the padding that aligns its bytes. */
  function BlobHead(bytes: seq<byte>, pos: nat): seq<bool> {
    WriteVbr(|bytes|, 6) + Pad32(pos + |WriteVbr(|bytes|, 6)|)
  }

  function BlobBody(bytes: seq<byte>, pos: nat): seq<bool> {
    BlobHead(bytes, pos) + WriteBytes(bytes)
  }

  function WriteBlob(bytes: seq<byte>, pos: nat): seq<bool> {
    BlobBody(bytes, pos) + Pad32(pos + |BlobBody(bytes, pos)|)
  }

  function WriteField(def: AbbrevDef, i: nat, field: Field, pos: nat): seq<bool>
    requires i < |def| && FieldOk(def, i, field)
  {
    match def[i]
    case Array => WriteArray(def[i + 1], field.vs)
    case Blob => WriteBlob(field.bytes, pos)
    case op => WriteScalar(op, field.v)
  }

  function WriteFields(def: AbbrevDef, i: nat, fields: seq<Field>, pos: nat): seq<bool>
    requires i <= |def| && FieldsOk(def, i, fields)
    decreases |def| - i
  {
    if i == |def| then []
    else
      var s := WriteField(def, i, fields[0], pos);
      s + WriteFields(def, FieldEnd(def, i), fields[1..], pos + |s|)
  }

  function FieldValues(field: Field): seq<nat> {
    match field case Scalar(v) => [v] case Elements(vs) => vs case Bytes(_) => []
  }

  function FieldBlob(field: Field): seq<byte> {
    if field.Bytes? then field.bytes else []
  }

  /** All values of the fields in order; the first is the record code. */
  function Values(fields: seq<Field>): seq<nat> {
    if fields == [] then [] else FieldValues(fields[0]) + Values(fields[1..])
  }

  function BlobOf(fields: seq<Field>): seq<byte> {
    if fields == [] then [] else FieldBlob(fields[0]) + BlobOf(fields[1..])
  }

  predicate UnabbrevOk(code: nat, operands: seq<nat>) {
    Word64(code) && Word64(|operands|) && ElementsOk(Vbr(6), operands)
  }

  function WriteUnabbrev(code: nat, operands: seq<nat>): seq<bool>
    requires UnabbrevOk(code, operands)
  {
    WriteVbr(code, 6) + (WriteVbr(|operands|, 6) + WriteElements(Vbr(6), operands))
  }

  // ----- blocks -----

  /** The contents of a block in the order they are written. lenWords is the length word, which the
      reader ignores: any 32-bit value may stand there. */
  datatype Item =
    | Sub(id: nat, width: nat, lenWords: nat, items: seq<Item>)
    | Define(def: AbbrevDef)
    | Unabbrev(code: nat, operands: seq<nat>)
    | Abbreviated(index: nat, fields: seq<Field>)

  /** The abbreviations in force: the block's own list, the SETBID target, and BLOCKINFO's lists. */
  datatype Env = Env(locals: seq<AbbrevDef>, setbid: Option<nat>, info: BlockInfo)

  /** The abbreviations registered for a block id so far. */
  function ListOf(info: BlockInfo, id: nat): seq<AbbrevDef> {
    if id in info then info[id] else []
  }

  function Enter(id: nat, info: BlockInfo): Env {
    Env(ListOf(info, id), None, info)
  }

  function AfterItem(id: nat, env: Env, item: Item): Env
    decreases item, 0
  {
    match item
    case Sub(sid, _, _, items) => env.(info := AfterItems(sid, Enter(sid, env.info), items).info)
    case Define(def) =>
      if id != BLOCKINFO_BLOCK_ID then env.(locals := env.locals + [def])
      else
        (match env.setbid
         case None => env
         case Some(target) => env.(info := env.info[target := ListOf(env.info, target) + [def]]))
    case Unabbrev(code, operands) =>
      if id == BLOCKINFO_BLOCK_ID && code == BLOCKINFO_CODE_SETBID
      then env.(setbid := if operands == [] then None else Some(operands[0]))
      else env
    case Abbreviated(_, _) => env
  }

  function AfterItems(id: nat, env: Env, items: seq<Item>): Env
    decreases items, 1
  {
    if items == [] then env else AfterItems(id, AfterItem(id, env, items[0]), items[1..])
  }

  /** The item can be written in a block of this id and abbreviation width where env is in force. */
  predicate ItemOk(id: nat, w: nat, env: Env, item: Item)
    decreases item, 0
  {
    match item
    case Sub(sid, sw, len, items) =>
      1 < Pow2(w) && Word64(sid) && sw <= 64 && len < U32 && ItemsOk(sid, sw, Enter(sid, env.info), items)
    case Define(def) => 2 < Pow2(w) && DefOk(def)
    case Unabbrev(code, operands) => 3 < Pow2(w) && UnabbrevOk(code, operands)
    case Abbreviated(k, fields) =>
      FIRST_APPLICATION_ABBREV + k < Pow2(w) && k < |env.locals| && FieldsOk(env.locals[k], 0, fields)
  }

  predicate ItemsOk(id: nat, w: nat, env: Env, items: seq<Item>)
    decreases items, 1
  {
    && w <= 64
    && (items == [] || (ItemOk(id, w, env, items[0]) && ItemsOk(id, w, AfterItem(id, env, items[0]), items[1..])))
  }

  function WriteHeader(sid: nat, sw: nat, len: nat, pos: nat): seq<bool> {
    var s := WriteVbr(sid, 8) + WriteVbr(sw, 4);
    s + (Pad32(pos + |s|) + Enc(len, 32))
  }

  function WriteItem(id: nat, w: nat, env: Env, item: Item, pos: nat): (s: seq<bool>)
    requires ItemOk(id, w, env, item)
    ensures item.Sub? ==> Aligned(pos + |s|)
    decreases item, 0
  {
    match item
    case Sub(sid, sw, len, items) =>
      var head := Enc(ENTER_SUBBLOCK, w) + WriteHeader(sid, sw, len, pos + w);
      head + WriteItems(sid, sw, Enter(sid, env.info), items, pos + |head|)
    case Define(def) => Enc(DEFINE_ABBREV, w) + WriteDef(def)
    case Unabbrev(code, operands) => Enc(UNABBREV_RECORD, w) + WriteUnabbrev(code, operands)
    case Abbreviated(k, fields) =>
      Enc(FIRST_APPLICATION_ABBREV + k, w) + WriteFields(env.locals[k], 0, fields, pos + w)
  }

  /** The items of a block from pos on, then END_BLOCK and the padding to a 32-bit boundary. */
  function WriteItems(id: nat, w: nat, env: Env, items: seq<Item>, pos: nat): (s: seq<bool>)
    requires ItemsOk(id, w, env, items)
    ensures Aligned(pos + |s|)
    decreases items, 1
  {
    if items == [] then
      AlignIdempotent(pos + w);
      Enc(END_BLOCK, w) + Pad32(pos + w)
    else
      var s := WriteItem(id, w, env, items[0], pos);
      s + WriteItems(id, w, AfterItem(id, env, items[0]), items[1..], pos + |s|)
  }

  // ----- the tree a reader is to find -----

  /** The first value is the code; a record without values has code 0. */
  function RecordWith(id: nat, values: seq<nat>, blob: seq<byte>): Record {
    Record(id, if values == [] then 0 else values[0], if values == [] then [] else values[1..], blob)
  }

  function RecordOf(item: Item): seq<Record> {
    match item
    case Unabbrev(code, operands) => [Record(UNABBREV_RECORD, code, operands, [])]
    case Abbreviated(k, fields) =>
      [RecordWith(FIRST_APPLICATION_ABBREV + k, Values(fields), BlobOf(fields))]
    case _ => []
  }

  function RecordsOf(items: seq<Item>): seq<Record> {
    if items == [] then [] else RecordOf(items[0]) + RecordsOf(items[1..])
  }

  function TreeOf(sub: Item): Block
    requires sub.Sub?
    decreases sub, 0
  {
    Block(sub.id, sub.width, RecordsOf(sub.items), SubblocksOf(sub.items))
  }

  function SubblocksOf(items: seq<Item>): seq<Block>
    decreases items, 1
  {
    if items == [] then []
    else SubblockOf(items[0]) + SubblocksOf(items[1..])
  }

  function SubblockOf(item: Item): seq<Block>
    decreases item, 1
  {
    if item.Sub? then [TreeOf(item)] else []
  }

  // ----- whole streams -----

  /** The top level holds blocks only, entered with 2-bit abbreviation ids. */
  const TOP_WIDTH := 2

  function TopEnv(info: BlockInfo): Env { Env([], None, info) }

  /** The id a block at the top level is nested in; any id but BLOCKINFO's gives the same result. */
  const TOP_ID := 1

  predicate TopOk(block: Item, info: BlockInfo) {
    block.Sub? && ItemOk(TOP_ID, TOP_WIDTH, TopEnv(info), block)
  }

  function WriteTop(block: Item, info: BlockInfo, pos: nat): (s: seq<bool>)
    requires TopOk(block, info)
    ensures Aligned(pos + |s|)
  {
    WriteItem(TOP_ID, TOP_WIDTH, TopEnv(info), block, pos)
  }

  function AfterTop(block: Item, info: BlockInfo): BlockInfo {
    AfterItem(TOP_ID, TopEnv(info), block).info
  }

  predicate StreamOk(blocks: seq<Item>, info: BlockInfo) {
    blocks == [] || (TopOk(blocks[0], info) && StreamOk(blocks[1..], AfterTop(blocks[0], info)))
  }

  function WriteStream(blocks: seq<Item>, info: BlockInfo, pos: nat): (s: seq<bool>)
    requires StreamOk(blocks, info) && Aligned(pos)
    ensures Aligned(pos + |s|)
  {
    if blocks == [] then []
    else
      var s := WriteTop(blocks[0], info, pos);
      s + WriteStream(blocks[1..], AfterTop(blocks[0], info), pos + |s|)
  }
}
