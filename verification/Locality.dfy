/** Which bits a decoded block depends on: those it read, the ignored length words excepted. */
module Locality {
  import opened Bits
  import opened Bitstream

  /** bits' agrees with bits between lo and hi, and is long enough to be read as far. */
  ghost predicate Same(bits: seq<bool>, bits': seq<bool>, lo: nat, hi: nat) {
    && (hi <= |bits'| || |bits| <= |bits'|)
    && forall i | lo <= i < hi && i < |bits| :: i < |bits'| && bits[i] == bits'[i]
  }

  lemma BitsLocal(bits: seq<bool>, bits': seq<bool>, pos: nat, n: nat)
    requires ReadBits(bits, pos, n).Got? && Same(bits, bits', pos, pos + n)
    ensures ReadBits(bits', pos, n) == ReadBits(bits, pos, n)
  {
    if n > 0 {
      assert pos + n - 1 < |bits'|;
      assert bits[pos..pos + n] == bits'[pos..pos + n];
    }
  }

  lemma {:induction false} VbrTailLocal(bits: seq<bool>, bits': seq<bool>, pos: nat, w: nat, acc: nat, shift: nat)
    requires 1 <= w <= 64 && VbrTail(bits, pos, w, acc, shift).Got?
    requires Same(bits, bits', pos, VbrTail(bits, pos, w, acc, shift).pos)
    ensures VbrTail(bits', pos, w, acc, shift) == VbrTail(bits, pos, w, acc, shift)
    decreases Left(bits, pos)
  {
    hide Low, Or, Shl64, BitSet;
    BitsLocal(bits, bits', pos, w);
    var piece := ReadBits(bits, pos, w);
    if BitSet(piece.value, w - 1) {
      VbrTailLocal(bits, bits', piece.pos, w, Or(acc, Shl64(Low(piece.value, w - 1), shift)), shift + w - 1);
    }
  }

  lemma VbrLocal(bits: seq<bool>, bits': seq<bool>, pos: nat, w: nat)
    requires ReadVbr(bits, pos, w).Got? && Same(bits, bits', pos, ReadVbr(bits, pos, w).pos)
    ensures ReadVbr(bits', pos, w) == ReadVbr(bits, pos, w)
  {
    hide Low, BitSet;
    BitsLocal(bits, bits', pos, w);
    var piece := ReadBits(bits, pos, w);
    if BitSet(piece.value, w - 1) {
      VbrTailLocal(bits, bits', piece.pos, w, Low(piece.value, w - 1), w - 1);
    }
  }

  lemma OpLocal(bits: seq<bool>, bits': seq<bool>, pos: nat)
    requires ReadOp(bits, pos).Got? && Same(bits, bits', pos, ReadOp(bits, pos).pos)
    ensures ReadOp(bits', pos) == ReadOp(bits, pos)
  {
    hide ReadBits, ReadVbr;
    BitsLocal(bits, bits', pos, 1);
    var flag := ReadBits(bits, pos, 1);
    if flag.value != 0 {
      VbrLocal(bits, bits', flag.pos, 8);
    } else {
      BitsLocal(bits, bits', flag.pos, 3);
      var encoding := ReadBits(bits, flag.pos, 3);
      if encoding.value == 1 || encoding.value == 2 {
        VbrLocal(bits, bits', encoding.pos, 5);
      }
    }
  }

  lemma {:induction false} OpsLocal(bits: seq<bool>, bits': seq<bool>, pos: nat, n: nat, acc: AbbrevDef)
    requires ReadOps(bits, pos, n, acc).Got? && Same(bits, bits', pos, ReadOps(bits, pos, n, acc).pos)
    ensures ReadOps(bits', pos, n, acc) == ReadOps(bits, pos, n, acc)
    decreases n
  {
    hide ReadOp;
    if n > 0 {
      OpLocal(bits, bits', pos);
      var op := ReadOp(bits, pos);
      OpsLocal(bits, bits', op.pos, n - 1, acc + [op.value]);
    }
  }

  lemma DefLocal(bits: seq<bool>, bits': seq<bool>, pos: nat)
    requires ReadDef(bits, pos).Got? && Same(bits, bits', pos, ReadDef(bits, pos).pos)
    ensures ReadDef(bits', pos) == ReadDef(bits, pos)
  {
    hide ReadVbr, ReadOps;
    VbrLocal(bits, bits', pos, 5);
    var n := ReadVbr(bits, pos, 5);
    OpsLocal(bits, bits', n.pos, n.value, []);
  }

  lemma ScalarLocal(bits: seq<bool>, bits': seq<bool>, pos: nat, op: AbbrevOp)
    requires ReadScalar(bits, pos, op).Got? && Same(bits, bits', pos, ReadScalar(bits, pos, op).pos)
    ensures ReadScalar(bits', pos, op) == ReadScalar(bits, pos, op)
  {
    hide ReadBits, ReadVbr;
    match op
    case Fixed(w) => BitsLocal(bits, bits', pos, w);
    case Vbr(w) => VbrLocal(bits, bits', pos, w);
    case Char6 => BitsLocal(bits, bits', pos, 6);
    case _ =>
  }

  lemma {:induction false} ElementsLocal(bits: seq<bool>, bits': seq<bool>, pos: nat, op: AbbrevOp, n: nat,
                                        acc: seq<nat>)
    requires ReadElements(bits, pos, op, n, acc).Got? && Same(bits, bits', pos, ReadElements(bits, pos, op, n, acc).pos)
    ensures ReadElements(bits', pos, op, n, acc) == ReadElements(bits, pos, op, n, acc)
    decreases n
  {
    hide ReadScalar;
    if n > 0 {
      ScalarLocal(bits, bits', pos, op);
      var v := ReadScalar(bits, pos, op);
      ElementsLocal(bits, bits', v.pos, op, n - 1, acc + [v.value]);
    }
  }

  lemma {:induction false} BytesLocal(bits: seq<bool>, bits': seq<bool>, pos: nat, n: nat, acc: seq<byte>)
    requires ReadBytes(bits, pos, n, acc).Got? && Same(bits, bits', pos, ReadBytes(bits, pos, n, acc).pos)
    ensures ReadBytes(bits', pos, n, acc) == ReadBytes(bits, pos, n, acc)
    decreases n
  {
    hide ReadBits;
    if n > 0 {
      assert Pow2(8) == 256;
      BitsLocal(bits, bits', pos, 8);
      var v := ReadBits(bits, pos, 8);
      BytesLocal(bits, bits', v.pos, n - 1, acc + [v.value]);
    }
  }

  lemma FieldLocal(bits: seq<bool>, bits': seq<bool>, pos: nat, def: AbbrevDef, i: nat, acc: Fields)
    requires i < |def| && ReadField(bits, pos, def, i, acc).Got?
    requires Same(bits, bits', pos, ReadField(bits, pos, def, i, acc).pos)
    ensures ReadField(bits', pos, def, i, acc) == ReadField(bits, pos, def, i, acc)
  {
    hide ReadVbr, ReadElements, ReadBytes, ReadScalar, Align32;
    if def[i].Array? {
      VbrLocal(bits, bits', pos, 6);
      var n := ReadVbr(bits, pos, 6);
      ElementsLocal(bits, bits', n.pos, def[i + 1], n.value, acc.values);
    } else if def[i].Blob? {
      VbrLocal(bits, bits', pos, 6);
      var n := ReadVbr(bits, pos, 6);
      BytesLocal(bits, bits', Align32(n.pos), n.value, acc.blob);
    } else {
      ScalarLocal(bits, bits', pos, def[i]);
    }
  }

  lemma {:induction false} FieldsLocal(bits: seq<bool>, bits': seq<bool>, pos: nat, def: AbbrevDef, i: nat, acc: Fields)
    requires i <= |def| && ReadFields(bits, pos, def, i, acc).Got?
    requires Same(bits, bits', pos, ReadFields(bits, pos, def, i, acc).pos)
    ensures ReadFields(bits', pos, def, i, acc) == ReadFields(bits, pos, def, i, acc)
    decreases |def| - i
  {
    hide ReadField, NextOp;
    if i < |def| {
      var f := ReadField(bits, pos, def, i, acc);
      FieldLocal(bits, bits', pos, def, i, acc);
      FieldsLocal(bits, bits', f.pos, def, NextOp(def, i), f.value);
    }
  }

  lemma UnabbrevLocal(bits: seq<bool>, bits': seq<bool>, pos: nat)
    requires ReadUnabbrev(bits, pos).Got? && Same(bits, bits', pos, ReadUnabbrev(bits, pos).pos)
    ensures ReadUnabbrev(bits', pos) == ReadUnabbrev(bits, pos)
  {
    hide ReadVbr, ReadElements;
    var code := ReadVbr(bits, pos, 6);
    var n := ReadVbr(bits, code.pos, 6);
    VbrLocal(bits, bits', pos, 6);
    VbrLocal(bits, bits', code.pos, 6);
    ElementsLocal(bits, bits', n.pos, Vbr(6), n.value, []);
  }

  lemma ItemLocal(bits: seq<bool>, bits': seq<bool>, pos: nat, id: nat, a: nat, st: BlockState)
    requires a >= DEFINE_ABBREV && ReadItem(bits, pos, id, a, st).Got?
    requires Same(bits, bits', pos, ReadItem(bits, pos, id, a, st).pos)
    ensures ReadItem(bits', pos, id, a, st) == ReadItem(bits, pos, id, a, st)
  {
    hide ReadDef, ReadUnabbrev, ReadFields, AddDef, AddUnabbrev, AddAbbreviated;
    if a == DEFINE_ABBREV {
      DefLocal(bits, bits', pos);
    } else if a == UNABBREV_RECORD {
      UnabbrevLocal(bits, bits', pos);
    } else {
      FieldsLocal(bits, bits', pos, st.locals[a - FIRST_APPLICATION_ABBREV], 0, Fields([], []));
    }
  }

  /** A header depends on the bits before its length word, and on that word being there. */
  lemma HeaderLocal(bits: seq<bool>, bits': seq<bool>, pos: nat)
    requires ReadHeader(bits, pos).Got?
    requires Same(bits, bits', pos, ReadHeader(bits, pos).value.lenAt) && ReadHeader(bits, pos).pos <= |bits'|
    ensures ReadHeader(bits', pos) == ReadHeader(bits, pos)
  {
    hide ReadVbr, Align32;
    var id := ReadVbr(bits, pos, 8);
    var w := ReadVbr(bits, id.pos, 4);
    VbrLocal(bits, bits', pos, 8);
    VbrLocal(bits, bits', id.pos, 4);
  }

  // ----- blocks -----

  /** Bit i lies in a 32-bit word that starts at one of the given positions. */
  ghost predicate InWord(skips: set<nat>, i: nat) {
    exists k :: k in skips && k <= i < k + 32
  }

  /** bits' agrees with bits between lo and hi except inside the skipped words. */
  ghost predicate SameBut(bits: seq<bool>, bits': seq<bool>, lo: nat, hi: nat, skips: set<nat>) {
    && (hi <= |bits'| || |bits| <= |bits'|)
    && forall i | lo <= i < hi && i < |bits| && !InWord(skips, i) :: i < |bits'| && bits[i] == bits'[i]
  }

  lemma Narrow(bits: seq<bool>, bits': seq<bool>, lo: nat, hi: nat, skips: set<nat>, lo': nat, hi': nat,
               skips': set<nat>)
    requires SameBut(bits, bits', lo, hi, skips) && lo <= lo' && hi' <= hi
    requires forall k :: k in skips ==> k in skips' || k + 32 <= lo' || hi' <= k
    ensures SameBut(bits, bits', lo', hi', skips')
  {
    forall i | lo' <= i < hi' && i < |bits| && !InWord(skips', i) ensures i < |bits'| && bits[i] == bits'[i] {
      if InWord(skips, i) {
        assert InWord(skips', i);
      }
    }
  }

  lemma NarrowAll(bits: seq<bool>, bits': seq<bool>, lo: nat, hi: nat, skips: set<nat>, lo': nat, hi': nat)
    requires SameBut(bits, bits', lo, hi, skips) && lo <= lo' && hi' <= hi
    requires forall k :: k in skips ==> k + 32 <= lo' || hi' <= k
    ensures Same(bits, bits', lo', hi')
  {
    Narrow(bits, bits', lo, hi, skips, lo', hi', {});
    forall i | lo' <= i < hi' && i < |bits| ensures i < |bits'| && bits[i] == bits'[i] {
      assert !InWord({}, i);
    }
  }

  /** The words skipped between lo and hi turn one set of skips into another. */
  ghost predicate SkipsGrow(skips: set<nat>, skips': set<nat>, lo: nat, hi: nat) {
    && skips <= skips'
    && forall k <- skips' :: k in skips || (lo <= k && k + 32 <= hi)
  }

  /** New skipped words lie between where a block starts and where it ends. */
  lemma {:induction false} SkipsInside(bits: seq<bool>, pos: nat, w: nat, id: nat, st: BlockState)
    requires ReadBlock(bits, pos, w, id, st).Got?
    ensures var r := ReadBlock(bits, pos, w, id, st); SkipsGrow(st.skips, r.value.skips, pos, r.pos)
    decreases Left(bits, pos)
  {
    hide ReadBits, ReadDef, ReadUnabbrev, ReadAbbreviated, ReadHeader, Align32;
    var a := ReadId(bits, pos, w);
    if a.value == ENTER_SUBBLOCK {
      var h := ReadHeader(bits, a.pos);
      var inner := Start(h.value.blockId, st.info, st.skips + {h.value.lenAt});
      SkipsInside(bits, h.pos, h.value.abbrevWidth, h.value.blockId, inner);
      var sub := ReadBlock(bits, h.pos, h.value.abbrevWidth, h.value.blockId, inner);
      SkipsInside(bits, sub.pos, w, id, AddSubblock(st, h.value, sub.value));
    } else if a.value != END_BLOCK {
      var r := ReadItem(bits, a.pos, id, a.value, st);
      SkipsInside(bits, r.pos, w, id, r.value);
    }
  }

  lemma IdLocal(bits: seq<bool>, bits': seq<bool>, pos: nat, w: nat)
    requires ReadId(bits, pos, w).Got? && Same(bits, bits', pos, pos + w)
    ensures ReadId(bits', pos, w) == ReadId(bits, pos, w)
  {
    BitsLocal(bits, bits', pos, w);
    if w > 0 { assert pos + w - 1 < |bits'|; }
  }

  /** A block that decodes once decodes the same from any data that agrees where the block was
      read, whatever stands in the length words and after the block. */
  lemma {:induction false} BlockLocal(bits: seq<bool>, bits': seq<bool>, pos: nat, w: nat, id: nat, st: BlockState)
    requires ReadBlock(bits, pos, w, id, st).Got?
    requires SameBut(bits, bits', pos, ReadBlock(bits, pos, w, id, st).pos,
      ReadBlock(bits, pos, w, id, st).value.skips - st.skips)
    ensures ReadBlock(bits', pos, w, id, st) == ReadBlock(bits, pos, w, id, st)
    decreases Left(bits, pos)
  {
    hide ReadId, ReadItem, ReadHeader, Align32, SameBut, Same;
    var r := ReadBlock(bits, pos, w, id, st);
    var skips := r.value.skips - st.skips;
    SkipsInside(bits, pos, w, id, st);
    var a := ReadId(bits, pos, w);
    if a.value == END_BLOCK {
      NarrowAll(bits, bits', pos, r.pos, skips, pos, a.pos);
      IdLocal(bits, bits', pos, w);
    } else if a.value == ENTER_SUBBLOCK {
      SubblockLocal(bits, bits', pos, w, id, st);
    } else {
      var i := ReadItem(bits, a.pos, id, a.value, st);
      ItemSkips(bits, a.pos, id, a.value, st);
      SkipsInside(bits, i.pos, w, id, i.value);
      NarrowAll(bits, bits', pos, r.pos, skips, pos, a.pos);
      NarrowAll(bits, bits', pos, r.pos, skips, a.pos, i.pos);
      Narrow(bits, bits', pos, r.pos, skips, i.pos, r.pos, r.value.skips - i.value.skips);
      IdLocal(bits, bits', pos, w);
      ItemLocal(bits, bits', a.pos, id, a.value, st);
      BlockLocal(bits, bits', i.pos, w, id, i.value);
    }
  }

  lemma ItemSkips(bits: seq<bool>, pos: nat, id: nat, a: nat, st: BlockState)
    requires a >= DEFINE_ABBREV && ReadItem(bits, pos, id, a, st).Got?
    ensures ReadItem(bits, pos, id, a, st).value.skips == st.skips
  {
    hide ReadDef, ReadUnabbrev, ReadAbbreviated;
  }

  /** The step of BlockLocal over a nested block. */
  lemma {:induction false} SubblockLocal(bits: seq<bool>, bits': seq<bool>, pos: nat, w: nat, id: nat, st: BlockState)
    requires ReadBlock(bits, pos, w, id, st).Got? && ReadId(bits, pos, w).value == ENTER_SUBBLOCK
    requires SameBut(bits, bits', pos, ReadBlock(bits, pos, w, id, st).pos,
      ReadBlock(bits, pos, w, id, st).value.skips - st.skips)
    ensures ReadBlock(bits', pos, w, id, st) == ReadBlock(bits, pos, w, id, st)
    decreases Left(bits, pos), 0
  {
    hide ReadId, ReadItem, ReadHeader, Align32, SameBut, Same;
    var r := ReadBlock(bits, pos, w, id, st);
    var skips := r.value.skips - st.skips;
    var a := ReadId(bits, pos, w);
    var h := ReadHeader(bits, a.pos);
    var inner := Start(h.value.blockId, st.info, st.skips + {h.value.lenAt});
    var sub := ReadBlock(bits, h.pos, h.value.abbrevWidth, h.value.blockId, inner);
    var st' := AddSubblock(st, h.value, sub.value);
    SkipsInside(bits, h.pos, h.value.abbrevWidth, h.value.blockId, inner);
    SkipsInside(bits, sub.pos, w, id, st');
    NarrowAll(bits, bits', pos, r.pos, skips, pos, a.pos);
    NarrowAll(bits, bits', pos, r.pos, skips, a.pos, h.value.lenAt);
    Narrow(bits, bits', pos, r.pos, skips, h.pos, sub.pos, sub.value.skips - inner.skips);
    Narrow(bits, bits', pos, r.pos, skips, sub.pos, r.pos, r.value.skips - st'.skips);
    LongEnough(bits, bits', h.pos, r.pos, pos, skips);
    IdLocal(bits, bits', pos, w);
    HeaderLocal(bits, bits', a.pos);
    BlockLocal(bits, bits', h.pos, h.value.abbrevWidth, h.value.blockId, inner);
    BlockLocal(bits, bits', sub.pos, w, id, st');
  }

  lemma LongEnough(bits: seq<bool>, bits': seq<bool>, at: nat, hi: nat, lo: nat, skips: set<nat>)
    requires SameBut(bits, bits', lo, hi, skips) && at <= hi && at <= |bits|
    ensures at <= |bits'|
  {
  }

  /** Appending data changes nothing about a block that decodes. */
  lemma AppendLocal(bits: seq<bool>, more: seq<bool>, pos: nat, w: nat, id: nat, st: BlockState)
    requires ReadBlock(bits, pos, w, id, st).Got?
    ensures ReadBlock(bits + more, pos, w, id, st) == ReadBlock(bits, pos, w, id, st)
  {
    BlockLocal(bits, bits + more, pos, w, id, st);
  }

  /** The ignored length words of a whole stream. */
  lemma {:induction false} StreamSkips(bits: seq<bool>, pos: nat, st: StreamState)
    requires ReadStream(bits, pos, st).Got?
    ensures var r := ReadStream(bits, pos, st); SkipsGrow(st.skips, r.value.skips, pos, r.pos)
    decreases Left(bits, pos)
  {
    hide ReadBits, ReadBlock, ReadHeader, Align32;
    if |bits| - pos >= 32 {
      var a := ReadBits(bits, pos, 2);
      if a.value == ENTER_SUBBLOCK {
        var h := ReadHeader(bits, a.pos);
        var inner := Start(h.value.blockId, st.info, st.skips + {h.value.lenAt});
        SkipsInside(bits, h.pos, h.value.abbrevWidth, h.value.blockId, inner);
        var sub := ReadBlock(bits, h.pos, h.value.abbrevWidth, h.value.blockId, inner);
        StreamSkips(bits, sub.pos, AddBlock(st, h.value, sub.value));
      }
    }
  }

  /** Bodies of one length that differ only in the ignored length words decode to the same trees. */
  lemma {:induction false} LengthWordsIgnored(bits: seq<bool>, bits': seq<bool>, pos: nat, st: StreamState)
    requires ReadStream(bits, pos, st).Got? && |bits'| == |bits|
    requires SameBut(bits, bits', pos, ReadStream(bits, pos, st).pos, ReadStream(bits, pos, st).value.skips - st.skips)
    ensures ReadStream(bits', pos, st) == ReadStream(bits, pos, st)
    decreases Left(bits, pos)
  {
    hide ReadBits, ReadBlock, ReadHeader, Align32, SameBut, Same;
    var r := ReadStream(bits, pos, st);
    var skips := r.value.skips - st.skips;
    StreamSkips(bits, pos, st);
    if |bits| - pos >= 32 {
      var a := ReadBits(bits, pos, 2);
      if a.value != ENTER_SUBBLOCK {
        NarrowAll(bits, bits', pos, r.pos, skips, pos, a.pos);
        BitsLocal(bits, bits', pos, 2);
      } else {
        var h := ReadHeader(bits, a.pos);
        var inner := Start(h.value.blockId, st.info, st.skips + {h.value.lenAt});
        var sub := ReadBlock(bits, h.pos, h.value.abbrevWidth, h.value.blockId, inner);
        var st' := AddBlock(st, h.value, sub.value);
        SkipsInside(bits, h.pos, h.value.abbrevWidth, h.value.blockId, inner);
        StreamSkips(bits, sub.pos, st');
        NarrowAll(bits, bits', pos, r.pos, skips, pos, a.pos);
        NarrowAll(bits, bits', pos, r.pos, skips, a.pos, h.value.lenAt);
        Narrow(bits, bits', pos, r.pos, skips, h.pos, sub.pos, sub.value.skips - inner.skips);
        Narrow(bits, bits', pos, r.pos, skips, sub.pos, r.pos, r.value.skips - st'.skips);
        BitsLocal(bits, bits', pos, 2);
        HeaderLocal(bits, bits', a.pos);
        BlockLocal(bits, bits', h.pos, h.value.abbrevWidth, h.value.blockId, inner);
        LengthWordsIgnored(bits, bits', sub.pos, st');
      }
    }
  }
}
