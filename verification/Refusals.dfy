/** What the bitstream reader refuses, and how it narrows widths: outcomes on encodings that no
    well-formed stream has. */
module Refusals {
  import opened Wrappers
  import opened Bits
  import opened Bitstream
  import opened Writer
  import opened RoundTrip

  /** Operand encodings 0, 6 and 7 do not exist. */
  lemma UnknownEncoding(bits: seq<bool>, pos: nat, encoding: nat)
    requires encoding in {0, 6, 7} && At(bits, pos, Enc(0, 1) + Enc(encoding, 3))
    ensures ReadOp(bits, pos) == Fail(Malformed("unknown abbrev operand encoding"))
  {
    hide At, Enc, ReadBits;
    PlainAt(bits, pos, encoding);
  }

  /** A width keeps its low 32 bits. */
  lemma WidthNarrowed(bits: seq<bool>, pos: nat, encoding: nat, width: nat)
    requires 1 <= encoding <= 2 && Word64(width)
    requires At(bits, pos, Enc(0, 1) + (Enc(encoding, 3) + WriteVbr(width, 5)))
    ensures var narrow := width % U32;
      ReadOp(bits, pos) == Got(if encoding == 1 then Fixed(narrow) else Vbr(narrow), pos + 4 + |WriteVbr(width, 5)|)
  {
    hide At, Enc, ReadBits, ReadVbr, WriteVbr, Word64;
    WidthAt(bits, pos, encoding, width);
  }

  /** An id past the abbreviations in scope ends the parse. */
  lemma UnknownAbbreviation(bits: seq<bool>, pos: nat, w: nat, id: nat, st: BlockState, k: nat)
    requires w <= 64 && FIRST_APPLICATION_ABBREV + k < Pow2(w) && k >= |st.locals|
    requires At(bits, pos, Enc(FIRST_APPLICATION_ABBREV + k, w))
    ensures ReadBlock(bits, pos, w, id, st) == Fail(Malformed("abbreviated record references unknown abbreviation"))
  {
    hide At, Enc, ReadBits;
    BitsAt(bits, pos, FIRST_APPLICATION_ABBREV + k, w);
  }

  /** An array needs an element type after it. */
  lemma ArrayWithoutElement(bits: seq<bool>, pos: nat, def: AbbrevDef, acc: Fields, n: nat)
    requires def != [] && def[|def| - 1] == Array && Word64(n) && At(bits, pos, WriteVbr(n, 6))
    ensures ReadField(bits, pos, def, |def| - 1, acc) == Fail(Malformed("array missing element type"))
  {
    hide At, ReadVbr, WriteVbr, Word64;
    VbrRoundTrip(bits, pos, n, 6);
  }

  /** An element type must be a scalar, unless there is no element. */
  lemma NestedElement(bits: seq<bool>, pos: nat, def: AbbrevDef, i: nat, acc: Fields, n: nat)
    requires i + 1 < |def| && def[i] == Array && (def[i + 1] == Array || def[i + 1] == Blob)
    requires Word64(n) && At(bits, pos, WriteVbr(n, 6))
    ensures ReadField(bits, pos, def, i, acc)
         == if n > 0 then Fail(Malformed("invalid array element type")) else Got(acc, pos + |WriteVbr(n, 6)|)
  {
    hide At, ReadVbr, WriteVbr, Word64;
    VbrRoundTrip(bits, pos, n, 6);
  }

  /** A block that ends before its next abbreviation id is cut short. */
  lemma CutShort(bits: seq<bool>, pos: nat, w: nat, id: nat, st: BlockState)
    requires pos <= |bits| < pos + w
    ensures ReadBlock(bits, pos, w, id, st) == Fail(UnexpectedEof)
  {
  }

  /** The list of blocks ends, without an error, before less than a word, and at any id but ENTER_SUBBLOCK's. */
  lemma StreamStops(bits: seq<bool>, pos: nat, st: StreamState, a: nat)
    requires pos <= |bits| && (|bits| < pos + 32 || (a in {0, 2, 3} && At(bits, pos, Enc(a, 2))))
    ensures ReadStream(bits, pos, st) == Got(st, if |bits| < pos + 32 then pos else pos + 2)
  {
    hide At, Enc, ReadBits;
    assert Pow2(2) == 4;
    if |bits| >= pos + 32 {
      BitsAt(bits, pos, a, 2);
    }
  }
}
