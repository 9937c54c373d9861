/** Whole AIR files: the raw magic, the bitcode wrapper, the embedded tags, and the `parse` entry
    point of src/shader_jit/air_parser.rs; with the second detector of tools/air_header_inspect.py. */
module AirFile {
  import opened Wrappers
  import opened Bits
  import opened Bitstream
  import opened AirParser

  const BITCODE_WRAPPER_MAGIC: nat := 0x0B17C0DE
  const RAW_BITCODE_MAGIC: seq<byte> := [0x42, 0x43, 0xC0, 0xDE]

  datatype WrapperHeader = WrapperHeader(version: nat, offset: nat, size: nat, cpuType: nat)

  datatype Located = Located(bitstream: seq<byte>, wrapper: Option<WrapperHeader>)

  datatype Feature =
    | KernelEntryPoint
    | VertexEntryPoint
    | FragmentEntryPoint
    | CompileOptions
    | LanguageVersion
    | ArgumentBufferUsage

  datatype AirModule = AirModule(wrapper: Option<WrapperHeader>, features: seq<Feature>, blocks: seq<Block>)

  /** A 32-bit little-endian word. */
  function Le32(data: seq<byte>, at: nat): nat
    requires at + 4 <= |data|
  {
    (data[at] as nat) + 0x100 * (data[at + 1] as nat)
    + 0x1_0000 * (data[at + 2] as nat) + 0x100_0000 * (data[at + 3] as nat)
  }

  function HeaderAt(data: seq<byte>): WrapperHeader
    requires |data| >= 20
  {
    WrapperHeader(Le32(data, 4), Le32(data, 8), Le32(data, 12), Le32(data, 16))
  }

  function LocateBitstream(data: seq<byte>): (r: Result<Located>)
    ensures r.Ok? ==> |r.value.bitstream| >= 4
  {
    if |data| >= 4 && data[0..4] == RAW_BITCODE_MAGIC then Ok(Located(data, None))
    else if |data| >= 20 && Le32(data, 0) == BITCODE_WRAPPER_MAGIC then
      var h := HeaderAt(data);
      var end := h.offset + h.size;
      if end > |data| then Err(WrapperOutOfBounds)
      else
        var inner := data[h.offset..end];
        if |inner| < 4 || inner[0..4] != RAW_BITCODE_MAGIC then Err(NoBitcodeMagic)
        else Ok(Located(inner, Some(h)))
    else Err(NoBitcodeMagic)
  }

  // ----- embedded tags -----

  /** The tag stands somewhere in the text. Tags are ASCII, so searching the bytes is searching the
      lossily decoded string: decoding replaces only bytes outside ASCII. */
  predicate Contains(text: seq<byte>, tag: string) {
    |tag| <= |text| && (StartsWith(text, tag) || Contains(text[1..], tag))
  }

  predicate StartsWith(text: seq<byte>, tag: string) {
    |tag| <= |text| && forall i :: 0 <= i < |tag| ==> text[i] == tag[i] as int
  }

  /** Some place in the text reads as the tag does. */
  ghost predicate Occurs(text: seq<byte>, tag: string) {
    exists i: nat :: i + |tag| <= |text| && ReadsAt(text, tag, i)
  }

  predicate ReadsAt(text: seq<byte>, tag: string, i: nat)
    requires i + |tag| <= |text|
  {
    forall j | 0 <= j < |tag| :: text[i + j] == tag[j] as int
  }

  lemma ReadsShifted(text: seq<byte>, tag: string, i: nat)
    requires i + 1 + |tag| <= |text|
    ensures ReadsAt(text, tag, i + 1) <==> ReadsAt(text[1..], tag, i)
  {
    var rest := text[1..];
    if ReadsAt(text, tag, i + 1) {
      forall j | 0 <= j < |tag| ensures rest[i + j] == tag[j] as int {
        assert text[i + 1 + j] == tag[j] as int;
      }
    }
    if ReadsAt(rest, tag, i) {
      forall j | 0 <= j < |tag| ensures text[i + 1 + j] == tag[j] as int {
        assert rest[i + j] == tag[j] as int;
      }
    }
  }

  /** The search finds a tag exactly if it stands somewhere. */
  lemma {:induction false} ContainsIsOccurs(text: seq<byte>, tag: string)
    ensures Contains(text, tag) <==> Occurs(text, tag)
    decreases |text|
  {
    if |tag| <= |text| && !StartsWith(text, tag) {
      var rest := text[1..];
      ContainsIsOccurs(rest, tag);
      if Occurs(rest, tag) {
        var i: nat :| i + |tag| <= |rest| && ReadsAt(rest, tag, i);
        ReadsShifted(text, tag, i);
      }
      if Occurs(text, tag) {
        var i: nat :| i + |tag| <= |text| && ReadsAt(text, tag, i);
        assert i != 0;
        ReadsShifted(text, tag, i - 1);
      }
    } else if StartsWith(text, tag) {
      assert ReadsAt(text, tag, 0);
    }
  }

  ghost function IfOccurs(text: seq<byte>, tag: string, feature: Feature): seq<Feature> {
    if Occurs(text, tag) then [feature] else []
  }

  /** The features of a body: each exactly when its tag stands in it, in a fixed order. */
  ghost function FeaturesOf(body: seq<byte>): seq<Feature> {
    IfOccurs(body, "air.kernel", KernelEntryPoint) +
    (IfOccurs(body, "air.vertex", VertexEntryPoint) +
     (IfOccurs(body, "air.fragment", FragmentEntryPoint) +
      (IfOccurs(body, "air.compile_options", CompileOptions) +
       (IfOccurs(body, "air.version", LanguageVersion) +
        IfOccurs(body, "air.argument_buffer", ArgumentBufferUsage)))))
  }

  const TAGS: seq<(string, Feature)> := [
    ("air.kernel", KernelEntryPoint), ("air.vertex", VertexEntryPoint), ("air.fragment", FragmentEntryPoint),
    ("air.compile_options", CompileOptions), ("air.version", LanguageVersion),
    ("air.argument_buffer", ArgumentBufferUsage)]

  function ScanTags(body: seq<byte>, tags: seq<(string, Feature)>): seq<Feature> {
    if tags == [] then []
    else (if Contains(body, tags[0].0) then [tags[0].1] else []) + ScanTags(body, tags[1..])
  }

  lemma ScanStep(body: seq<byte>, tags: seq<(string, Feature)>)
    requires tags != []
    ensures ScanTags(body, tags) == IfOccurs(body, tags[0].0, tags[0].1) + ScanTags(body, tags[1..])
  {
    ContainsIsOccurs(body, tags[0].0);
  }

  /** The scan finds the features of the body. */
  lemma FeaturesFound(body: seq<byte>)
    ensures ScanTags(body, TAGS) == FeaturesOf(body)
  {
    hide IfOccurs, ScanTags;
    ScanStep(body, TAGS);
    ScanStep(body, TAGS[1..]);
    ScanStep(body, TAGS[2..]);
    ScanStep(body, TAGS[3..]);
    ScanStep(body, TAGS[4..]);
    ScanStep(body, TAGS[5..]);
    assert TAGS[5..][1..] == [];
    NoTags(body);
  }

  lemma NoTags(body: seq<byte>)
    ensures ScanTags(body, []) == []
  {
  }

  // ----- parse -----

  /** What a file means. */
  function ParseFile(data: seq<byte>): Result<AirModule> {
    if |data| < 4 then Err(TooShort)
    else
      var located :- LocateBitstream(data);
      var body := located.bitstream[4..];
      var stream :- ReadStream(BitsOf(body), 0, EMPTY_STREAM).Outcome();
      Ok(AirModule(located.wrapper, ScanTags(body, TAGS), stream.blocks))
  }

  method Parse(data: seq<byte>) returns (r: Result<AirModule>)
    ensures r == ParseFile(data)
  {
    if |data| < 4 { return Err(TooShort); }
    var located :- LocateBitstream(data);
    var body := located.bitstream[4..];
    var topLevel :- ParseTopLevel(body);
    var features := ScanTags(body, TAGS);
    return Ok(AirModule(located.wrapper, features, topLevel));
  }

  /** The loop of `parse` over the top-level blocks. */
  method ParseTopLevel(body: seq<byte>) returns (r: Result<seq<Block>>)
    ensures var spec := ReadStream(BitsOf(body), 0, EMPTY_STREAM);
      r == if spec.Got? then Ok(spec.value.blocks) else Err(spec.error)
  {
    hide BitsOf, ReadBits, ReadHeader, ReadBlock;
    var reader := new BitReader(body);
    var table := new AbbrevTable();
    var topLevel: seq<Block> := [];
    ghost var bits := BitsOf(body);
    ghost var st := EMPTY_STREAM;
    while true
      invariant reader.data == body && st.blocks == topLevel && st.info == table.blockinfo
      invariant ReadStream(bits, 0, EMPTY_STREAM) == ReadStream(bits, reader.bitPos, st)
      decreases Left(bits, reader.bitPos)
    {
      assert reader.Bits() == bits;
      var remaining := reader.BitsRemaining();
      if remaining.None? { return Err(CursorPastEnd); }
      if remaining.value < 32 { break; }
      var abbrevId :- reader.Read(2);
      if abbrevId != ENTER_SUBBLOCK { break; }
      var h :- ReadSubblockHeader(reader);
      ghost var skips := st.skips + {h.lenAt};
      ghost var sub := ReadBlock(bits, reader.bitPos, h.abbrevWidth, h.blockId, Start(h.blockId, st.info, skips));
      var block :- ParseBlock(reader, h.abbrevWidth, h.blockId, table, skips);
      topLevel := topLevel + [block];
      st := AddBlock(st, h, sub.value);
    }
    return Ok(topLevel);
  }
}
