/** `parse` inverts the reference writer on whole files, bare or wrapped; and the two detectors of
    the repository agree except on one family of wrappers. */
module FileRoundTrip {
  import opened Wrappers
  import opened Bits
  import opened Bitstream
  import opened Writer
  import opened RoundTrip
  import opened AirFile

  // ----- packing bits into bytes -----

  function PackByte(s: seq<bool>): (b: byte)
    requires |s| == 8
  {
    ValBound(s);
    assert Pow2(8) == 256;
    Val(s)
  }

  function Pack(bits: seq<bool>): (data: seq<byte>)
    requires |bits| % 8 == 0
    ensures |data| == |bits| / 8
  {
    seq(|bits| / 8, i requires 0 <= i < |bits| / 8 => PackByte(bits[8 * i..8 * i + 8]))
  }

  lemma {:induction false} BitOfVal(s: seq<bool>, k: nat)
    requires k < |s|
    ensures BitSet(Val(s), k) == s[k]
  {
    if k > 0 {
      BitOfVal(s[1..], k - 1);
      assert Val(s) / 2 == Val(s[1..]);
    }
  }

  lemma PackBits(bits: seq<bool>)
    requires |bits| % 8 == 0
    ensures BitsOf(Pack(bits)) == bits
  {
    forall i | 0 <= i < |bits| ensures BitsOf(Pack(bits))[i] == bits[i] {
      var s := bits[8 * (i / 8)..8 * (i / 8) + 8];
      BitOfVal(s, i % 8);
    }
  }

  // ----- files -----

  lemma AlignedBytes(n: nat)
    requires Aligned(n)
    ensures n % 32 == 0 && n % 8 == 0
  {
  }

  /** The body of a file in bits: the blocks written from bit 0. */
  function BodyBits(blocks: seq<Item>): (bits: seq<bool>)
    requires StreamOk(blocks, map[])
    ensures |bits| % 8 == 0
  {
    AlignedBytes(|WriteStream(blocks, map[], 0)|);
    WriteStream(blocks, map[], 0)
  }

  function Body(blocks: seq<Item>): (data: seq<byte>)
    requires StreamOk(blocks, map[])
  {
    Pack(BodyBits(blocks))
  }

  function RawFile(blocks: seq<Item>): seq<byte>
    requires StreamOk(blocks, map[])
  {
    RAW_BITCODE_MAGIC + Body(blocks)
  }

  /** Reading a raw file gives exactly the trees of its blocks, in order, and consumes every bit. */
  lemma RawFileRoundTrip(blocks: seq<Item>)
    requires StreamOk(blocks, map[])
    ensures ParseFile(RawFile(blocks)) == Ok(AirModule(None, FeaturesOf(Body(blocks)), SubblocksOf(blocks)))
    ensures var r := ReadStream(BitsOf(Body(blocks)), 0, EMPTY_STREAM); r.Got? && r.pos == 8 * |Body(blocks)|
  {
    hide ScanTags, FeaturesOf;
    FeaturesFound(Body(blocks));
    BodyRoundTrip(blocks);
    var data := RawFile(blocks);
    assert data[0..4] == RAW_BITCODE_MAGIC;
    assert data[4..] == Body(blocks);
  }

  lemma BodyRoundTrip(blocks: seq<Item>)
    requires StreamOk(blocks, map[])
    ensures var r := ReadStream(BitsOf(Body(blocks)), 0, EMPTY_STREAM);
      r.Got? && r.pos == 8 * |Body(blocks)| && r.value.blocks == SubblocksOf(blocks)
  {
    hide ReadStream, StreamOk, SubblocksOf, WriteStream, BitsOf;
    var bits := BodyBits(blocks);
    PackBits(bits);
    StreamRoundTrip(bits, blocks);
  }

  /** A 32-bit word in little-endian bytes. */
  function Bytes32(v: nat): (s: seq<byte>)
    requires v < U32
    ensures |s| == 4 && Le32(s, 0) == v
  {
    var q1 := v / 0x100;
    var q2 := q1 / 0x100;
    var q3 := q2 / 0x100;
    [v % 0x100, q1 % 0x100, q2 % 0x100, q3]
  }

  predicate HeaderOk(h: WrapperHeader) {
    h.version < U32 && h.offset < U32 && h.size < U32 && h.cpuType < U32
  }

  function HeaderBytes(h: WrapperHeader): (s: seq<byte>)
    requires HeaderOk(h)
    ensures |s| == 20
  {
    Bytes32(BITCODE_WRAPPER_MAGIC) + Bytes32(h.version) + Bytes32(h.offset) + Bytes32(h.size) + Bytes32(h.cpuType)
  }

  /** The file starts with the five words of the header, and the range they name holds the inner bytes.
      The range may start anywhere, inside the header too. */
  predicate Wraps(data: seq<byte>, h: WrapperHeader, inner: seq<byte>) {
    && HeaderOk(h) && |data| >= 20 && data[..20] == HeaderBytes(h)
    && h.offset + h.size <= |data| && data[h.offset..h.offset + h.size] == inner
  }

  lemma Le32Slice(data: seq<byte>, at: nat)
    requires at + 4 <= |data|
    ensures Le32(data, at) == Le32(data[at..at + 4], 0)
  {
  }

  lemma BytesLe32(s: seq<byte>)
    requires |s| == 4
    ensures Le32(s, 0) < U32 && Bytes32(Le32(s, 0)) == s
  {
    var v := Le32(s, 0);
    var q2 := (s[2] as nat) + 0x100 * (s[3] as nat);
    var q1 := (s[1] as nat) + 0x100 * q2;
    assert v == (s[0] as nat) + 0x100 * q1;
    assert v / 0x100 == q1 && q1 / 0x100 == q2 && q2 / 0x100 == s[3] as nat;
  }

  lemma HeaderWords(h: WrapperHeader)
    requires HeaderOk(h)
    ensures var s := HeaderBytes(h);
      && s[0..4] == Bytes32(BITCODE_WRAPPER_MAGIC) && s[4..8] == Bytes32(h.version) && s[8..12] == Bytes32(h.offset)
      && s[12..16] == Bytes32(h.size) && s[16..20] == Bytes32(h.cpuType)
  {
    hide Bytes32;
  }

  /** The header read from a file is the only one whose five words the file starts with. */
  lemma HeaderRead(data: seq<byte>, h: WrapperHeader)
    requires |data| >= 20
    ensures Le32(data, 0) == BITCODE_WRAPPER_MAGIC && h == HeaderAt(data) <==>
      HeaderOk(h) && data[..20] == HeaderBytes(h)
  {
    hide Le32, Bytes32;
    WordsRead(data);
    var a, b, c, d, e := data[0..4], data[4..8], data[8..12], data[12..16], data[16..20];
    BytesLe32(a);
    BytesLe32(b);
    BytesLe32(c);
    BytesLe32(d);
    BytesLe32(e);
    assert data[..20] == a + b + c + d + e;
    if HeaderOk(h) && data[..20] == HeaderBytes(h) {
      var s := data[..20];
      HeaderWords(h);
      assert a == s[0..4] && b == s[4..8] && c == s[8..12] && d == s[12..16] && e == s[16..20];
    }
  }

  lemma WordsRead(data: seq<byte>)
    requires |data| >= 20
    ensures Le32(data, 0) == Le32(data[0..4], 0) && Le32(data, 4) == Le32(data[4..8], 0) &&
      Le32(data, 8) == Le32(data[8..12], 0)
    ensures Le32(data, 12) == Le32(data[12..16], 0) && Le32(data, 16) == Le32(data[16..20], 0)
  {
    hide Le32;
    Le32Slice(data, 0);
    Le32Slice(data, 4);
    Le32Slice(data, 8);
    Le32Slice(data, 12);
    Le32Slice(data, 16);
  }

  /** The reader finds a bitstream inside a wrapper in exactly the files that wrap it, wherever the
      range stands and whatever is around it. */
  lemma WrapperRoundTrip(data: seq<byte>, h: WrapperHeader, inner: seq<byte>)
    ensures LocateBitstream(data) == Ok(Located(inner, Some(h)))
       <==> Wraps(data, h, inner) && |inner| >= 4 && inner[0..4] == RAW_BITCODE_MAGIC
  {
    hide Le32, HeaderBytes;
    if |data| >= 20 {
      HeaderRead(data, h);
      if Le32(data, 0) == BITCODE_WRAPPER_MAGIC {
        WrapperNotRaw(data);
      }
    }
  }

  /** No file starts with both magics. */
  lemma WrapperNotRaw(data: seq<byte>)
    requires |data| >= 4 && Le32(data, 0) == BITCODE_WRAPPER_MAGIC
    ensures data[0..4] != RAW_BITCODE_MAGIC
  {
    assert data[0] == 0xDE;
    assert data[0..4][0] != RAW_BITCODE_MAGIC[0];
  }

  /** What a file gives, its features by their tags; or what it is refused for: its length,
      the range of its wrapper, a missing raw magic, or its body. */
  lemma FileOutcome(data: seq<byte>)
    ensures |data| < 4 ==> ParseFile(data) == Err(TooShort)
    ensures LocateBitstream(data) == Ok(Located(data, None)) <==> |data| >= 4 && data[0..4] == RAW_BITCODE_MAGIC
    ensures LocateBitstream(data) == Err(WrapperOutOfBounds) <==>
      |data| >= 20 && Le32(data, 0) == BITCODE_WRAPPER_MAGIC && Le32(data, 8) + Le32(data, 12) > |data|
    ensures LocateBitstream(data).Err? ==> LocateBitstream(data).error in {WrapperOutOfBounds, NoBitcodeMagic}
    ensures |data| >= 4 ==>
      match LocateBitstream(data) {
        case Err(e) => ParseFile(data) == Err(e)
        case Ok(located) =>
          match ReadStream(BitsOf(located.bitstream[4..]), 0, EMPTY_STREAM) {
            case Fail(e) => ParseFile(data) == Err(e)
            case Got(st, _) =>
              ParseFile(data) == Ok(AirModule(located.wrapper, FeaturesOf(located.bitstream[4..]), st.blocks))
          }
      }
  {
    hide Le32, ReadStream, BitsOf, FeaturesOf, ScanTags;
    if |data| >= 4 && LocateBitstream(data).Ok? {
      FeaturesFound(LocateBitstream(data).value.bitstream[4..]);
    }
    if |data| >= 20 && Le32(data, 0) == BITCODE_WRAPPER_MAGIC {
      WrapperNotRaw(data);
    }
  }

  /** A wrapper around a file changes nothing but the header reported. */
  lemma WrappedFileRoundTrip(data: seq<byte>, h: WrapperHeader, blocks: seq<Item>)
    requires StreamOk(blocks, map[]) && Wraps(data, h, RawFile(blocks))
    ensures ParseFile(data) == Ok(AirModule(Some(h), FeaturesOf(Body(blocks)), SubblocksOf(blocks)))
  {
    hide ScanTags, FeaturesOf, LocateBitstream;
    FeaturesFound(Body(blocks));
    var inner := RawFile(blocks);
    assert inner[0..4] == RAW_BITCODE_MAGIC && inner[4..] == Body(blocks);
    WrapperRoundTrip(data, h, inner);
    BodyRoundTrip(blocks);
  }

  /** Such files exist for every content: the header, a gap, the content, and a trailer. */
  lemma WrapperExists(version: nat, cpuType: nat, gap: seq<byte>, inner: seq<byte>, trailer: seq<byte>)
    requires version < U32 && cpuType < U32 && 20 + |gap| < U32 && |inner| < U32
    ensures var h := WrapperHeader(version, 20 + |gap|, |inner|, cpuType);
      Wraps(HeaderBytes(h) + gap + inner + trailer, h, inner)
  {
    hide HeaderBytes;
    var h := WrapperHeader(version, 20 + |gap|, |inner|, cpuType);
    var data := HeaderBytes(h) + gap + inner + trailer;
    assert data[..20] == HeaderBytes(h);
    assert data[20 + |gap|..20 + |gap| + |inner|] == inner;
  }

  // ----- the second detector -----

  /** The dictionaries `detect_format` returns. */
  datatype Detection =
    | Unknown
    | Wrapper(header: WrapperHeader, validBounds: bool, innerMagic: bool)
    | Raw

  /** Python's data[from : to], which stops at the end of the data. */
  function Slice(data: seq<byte>, from: nat, to: nat): seq<byte> {
    if from >= |data| || from >= to then [] else data[from..if to <= |data| then to else |data|]
  }

  function DetectFormat(data: seq<byte>): Detection {
    if |data| < 4 then Unknown
    else if |data| >= 20 && Le32(data, 0) == BITCODE_WRAPPER_MAGIC then
      var h := HeaderAt(data);
      if h.offset + h.size > |data| then Wrapper(h, false, false)
      else Wrapper(h, true, Slice(data, h.offset, h.offset + 4) == RAW_BITCODE_MAGIC)
    else if Slice(data, 0, 4) == RAW_BITCODE_MAGIC then Raw
    else Unknown
  }

  /** What the detector says of a file that the Rust reader locates, or refuses, in a given way. */
  function Expected(r: Result<Located>, data: seq<byte>): Detection
    requires r.Err? && r.error == WrapperOutOfBounds ==> |data| >= 20
  {
    match r
    case Ok(l) => if l.wrapper.Some? then Wrapper(l.wrapper.value, true, true) else Raw
    case Err(e) =>
      if e == WrapperOutOfBounds then Wrapper(HeaderAt(data), false, false)
      else if |data| >= 20 && Le32(data, 0) == BITCODE_WRAPPER_MAGIC then Wrapper(HeaderAt(data), true, false)
      else Unknown
  }

  /** The file starts as a wrapper in bounds, its range is shorter than the magic, and the raw magic
      stands where the range starts. */
  predicate ShortWrapper(data: seq<byte>) {
    && |data| >= 20 && Le32(data, 0) == BITCODE_WRAPPER_MAGIC
    && Le32(data, 8) + Le32(data, 12) <= |data| && Le32(data, 12) < 4
    && Slice(data, Le32(data, 8), Le32(data, 8) + 4) == RAW_BITCODE_MAGIC
  }

  /** The detector looks for the inner magic in the whole file, the reader only inside the wrapped
      range. They give the same verdict on every file but the short wrappers. */
  lemma DetectorsAgree(data: seq<byte>)
    ensures LocateBitstream(data).Err? && LocateBitstream(data).error == WrapperOutOfBounds ==> |data| >= 20
    ensures DetectFormat(data) == Expected(LocateBitstream(data), data) <==> !ShortWrapper(data)
  {
    hide Le32;
    if |data| >= 20 && Le32(data, 0) == BITCODE_WRAPPER_MAGIC {
      WrapperNotRaw(data);
      var h := HeaderAt(data);
      if h.offset + h.size <= |data| && h.size >= 4 {
        assert data[h.offset..h.offset + h.size][0..4] == data[h.offset..h.offset + 4];
      }
    }
  }

  /** A file on which they differ: an empty range right before the raw magic. The reader refuses it. */
  lemma DetectorsDiffer() returns (data: seq<byte>)
    ensures |data| == 24 && ShortWrapper(data)
    ensures LocateBitstream(data) == Err(NoBitcodeMagic)
    ensures DetectFormat(data) == Wrapper(WrapperHeader(0, 20, 0, 0), true, true)
  {
    hide HeaderBytes, Le32;
    var h := WrapperHeader(0, 20, 0, 0);
    data := HeaderBytes(h) + RAW_BITCODE_MAGIC;
    assert data[..20] == HeaderBytes(h) && data[20..24] == RAW_BITCODE_MAGIC;
    HeaderRead(data, h);
    WrapperNotRaw(data);
  }
}
