# Verified models of the compatibility layer

Dafny models of the stateful cores of the repository, each with the properties its callers rely on.

- **LLVM bitstream reader** (`Bits`, `Bitstream`, `AirParser`, `AirFile`). `Bitstream` is the decoder as
  functions on a sequence of bits; `AirParser` and `AirFile` are the reader itself, with its cursor, loops and
  mutable abbreviation table, proved equal to it. `Writer` is a reference writer after the sections "Variable
  Width Integers", "Blocks", "Data Records", "Abbreviations", "#0 - BLOCKINFO Block" and "Bitcode Wrapper
  Format" of "LLVM Bitcode File Format". `RoundTrip` and `FileRoundTrip` prove that the reader inverts the
  writer on every well-formed tree, up to whole files; `StreamLaws`, `Locality`, `FormatLaws` and
  `Refusals` are about every input, written or not.
- **Binding allocation** (`Bindings`, `Utf8`): the recursive walk of `transforms.rs` against a fold over the preorder
  list of records.
- **Lock-free frame slots** (`FrameSlots`, `FrameProtocol`, `FrameMetadata`): the sequential calls, a machine of
  single atomic accesses by any number of processes, and when a slot carries the metadata published last.
- **Swapchain** (`VulkanDevice`, `WindowSwapchain`, `WindowContext`, `ResizeMailbox`): the render context over
  a small device after sections 7.3 (Fences) and 7.4 (Semaphores) of the Vulkan 1.3 specification. The device's
  preconditions are the valid usage it demands and whether a call fails is free, so each proof covers every
  outcome. Destroying needs a live handle that no pending submission uses.
- **Compositor** (`CompositorHost`, `HostObject`, `ClientBridge`, `CompositorSystem`): the host's table and ring,
  the record with its arrays that refines them, the clients, and the whole system over a first-in first-out port.
- **OpenGL buffers** (`GlBuffers`): names and bytes as a caller sees them (OpenGL 4.6 core, sections 6.1 and
  6.2), and the context that refines them over device buffers and memory.
- **Timers** (`Timers`): the slot table against kernel registrations, sequentially and for any number of threads
  between their locked sections and kernel calls.

Where the code does not keep a promise the model says exactly when it does:

- `read_vbr` of a padded encoding overflows its shift exactly when the last chunk lands at bit 64 or above
  (`RoundTrip.VbrPaddedRoundTrip`).
- The count of bits left goes below zero on some body of n bytes exactly when n is above 4 and not a multiple of 4
  (`FormatLaws.TrapLengths`).
- The Python detector and the Rust reader differ exactly on wrappers in bounds, shorter than the magic, whose offset
  points at it (`FileRoundTrip.DetectorsAgree`, with a file in `FileRoundTrip.DetectorsDiffer`).
- A write scan that crosses the wrap of its 32-bit cursor can miss a FREE slot exactly when the slot count does
  not divide 2^32 (`FrameSlots.ScanComplete`).
- `publish` makes a slot READY before it stores the metadata, so a reader can find the slot without it
  (`FrameMetadata.StaleMetadata`), and an overtaken publisher can leave it wrong for good
  (`FrameMetadata.StaleForGood`). The slot carries the metadata exactly when the last publish has stored it and no
  older one stores after it (`FrameMetadata.MetadataVisible`); a publish is reliable exactly when no other publisher
  of the slot is storing as it begins (`FrameMetadata.PublishReliable`, `FrameMetadata.ReliableUntilRepublished`).
- A take mixes two resize requests exactly as `ResizeMailbox.TakeUnmixed` says; the flag is then raised again
  (`ResizeMailbox.MixedTakeIsFollowed`).
- An image is acquired on a semaphore that is still signaled exactly after a suboptimal acquisition or a failed
  fence reset on the same frame (`WindowContext.WindowRenderContext.Tick`, and counted over whole runs in
  `WindowContext.Session`); a tick after an image that was never submitted waits forever
  (`WindowContext.WindowRenderContext.WaitForFrame`).
- A failed view, framebuffer or frame creation loop loses exactly the handles it had made
  (`WindowContext.WindowRenderContext.CreateViews` and its like); a failed `new` destroys the caller's surface.
- A binding left on a deleted name reaches nothing (`GlBuffers.StaleBinding`), one made before the name exists
  does (`GlBuffers.EarlyBinding`).

Modelling choices a reader should know:

- The bitstream reader is modelled for a build with overflow checks: arithmetic that traps there is an explicit
  outcome, `Overflow` for a shift by 64 or more, a read of more than 64 bits or a zero-width chunk, `CursorPastEnd`
  for the count of bits left of a cursor past the end. The binding counter of `transforms.rs` and the OpenGL names are
  modelled for a build without them, where they wrap at 32 bits; their laws assume no wrap, and there the two builds
  agree. The counters of the C files wrap in every build. Where a law needs no wrap, it says so.
- Panics on a failing device or a missing command buffer, and a wait without end, are outcomes.
- The decoder's block state keeps, beside what the source keeps, what the block met and where it was read; the laws
  about scopes and BLOCKINFO are stated on that, and tie every entry of it to the bits.
- Char6 values stay 6-bit indices, as in the source.
- A written block is an ordered item list; `BitstreamBlock` keeps records and subblocks apart, so the round trip
  goes to that projection (`Writer.SubblocksOf` and the records beside it).
- In `WindowContext` the ghost value `stranded` marks a frame whose image semaphore a tick left signaled without
  handing an image to the caller, `held` one whose fence was reset and for which nothing was submitted since, and
  `leaked` the handles a failed loop dropped. The device counts its own events: failed creations by kind, suboptimal
  acquisitions, failed resets, and the most submissions ever pending; and it keeps the frame calls made. Steps that `tick`, `build_swapchain` and
  `submit_and_present` write inline are methods of their own, in the same order.
- `handle_frame_submit` locks twice. Only the one thread that takes messages changes the client table, and a pop
  between the two sections gives the same result as one before them, so it is one step.
- In `CompositorSystem` a client call is one step, which is what single-threaded clients give, and nobody connects
  under a token that another process is connected under.

## Model

| member | source | states |
|---|---|---|
| `AirParser.BitReader.constructor` | src/shader_jit/air_parser.rs:77-79 | a new reader stands at bit 0 of its data |
| `AirParser.BitReader.BitsRemaining` | src/shader_jit/air_parser.rs:81-83 | the bits left, or none where the subtraction would go below zero |
| `AirParser.BitReader.Read` | src/shader_jit/air_parser.rs:85-101 | the bit-by-bit loop returns the little-endian number of the next bits and moves past them, or reports the end of data with the cursor in place; widths above 64 are the overflow outcome |
| `AirParser.BitReader.ReadVbr` | src/shader_jit/air_parser.rs:103-120 | the chunk loop is the decoder of variable-width integers, with shifts by 64 or more and width 0 as the overflow outcome |
| `AirParser.BitReader.Align32` | src/shader_jit/air_parser.rs:122-127 | the cursor moves to the next multiple of 32, and stays on one |
| `Bitstream.AlignedMultiple` | src/shader_jit/air_parser.rs:122-127 | aligning stops at a multiple of 32, and leaves exactly those alone |
| `AirParser.ReadAbbrevOp` | src/shader_jit/air_parser.rs:154-174 | one operand definition is decoded, with the error on an unknown encoding |
| `AirParser.ReadAbbrevDef` | src/shader_jit/air_parser.rs:150-177 | an abbreviation definition is decoded operand by operand |
| `AirParser.ReadAbbrevOps` | src/shader_jit/air_parser.rs:153-176 | the loop over the operands is the decoder's recursion |
| `AirParser.ReadScalarOp` | src/shader_jit/air_parser.rs:188-206 | literal, fixed, variable-width and 6-bit operands, and the refusal of any other array element type |
| `AirParser.ReadArrayElements` | src/shader_jit/air_parser.rs:192-208 | an array's elements are appended in order |
| `AirParser.ReadBlobBytes` | src/shader_jit/air_parser.rs:209-217 | a blob's bytes are appended in order |
| `AirParser.ReadAbbreviatedRecord` | src/shader_jit/air_parser.rs:179-228 | the values, code, operands and blob of an abbreviated record are those of the decoder, array and blob operands included |
| `AirParser.ReadUnabbrevRecord` | src/shader_jit/air_parser.rs:274-290 | code, operand count and operands of an unabbreviated record |
| `AirParser.ReadSubblockHeader` | src/shader_jit/air_parser.rs:256-260 | block id, width, alignment and the ignored length word of a nested block |
| `AirParser.ParseBlock` | src/shader_jit/air_parser.rs:230-307 | the recursive block loop with its mutable abbreviation table leaves result, cursor and table exactly as the decoder says |
| `AirFile.Parse` | src/shader_jit/air_parser.rs:360-391 | the whole entry point is the decoder of files |
| `AirFile.ParseTopLevel` | src/shader_jit/air_parser.rs:371-382 | the loop over top-level blocks is the decoder of streams |
| `AirFile.ContainsIsOccurs` | src/shader_jit/air_parser.rs:353-355 | the search finds a tag if and only if it stands at some place in the text |
| `AirFile.FeaturesFound` | src/shader_jit/air_parser.rs:344-358 | the features are, in a fixed order, those whose tags stand in the body |
| `RoundTrip.VbrPaddedRoundTrip` | src/shader_jit/air_parser.rs:103-120 | reading any zero-padded encoding of a 64-bit word gives it back if and only if the last chunk's shift stays below 64, and consumes exactly the encoding |
| `RoundTrip.VbrRoundTrip` | src/shader_jit/air_parser.rs:103-120 | the canonical encoding of every 64-bit word at every width from 2 to 64 reads back and never overflows |
| `RoundTrip.CanonicalShift` | src/shader_jit/air_parser.rs:110-117 | the canonical encoding never shifts by 64 or more |
| `RoundTrip.DefRoundTrip` | src/shader_jit/air_parser.rs:150-177 | written abbreviation definitions read back as themselves |
| `RoundTrip.ScalarRoundTrip` | src/shader_jit/air_parser.rs:188-191 | every value a scalar operand can express reads back |
| `RoundTrip.FieldsRoundTrip` | src/shader_jit/air_parser.rs:186-220 | the fields of a record, arrays and aligned blobs included, read back in order |
| `RoundTrip.AbbreviatedRoundTrip` | src/shader_jit/air_parser.rs:179-228 | a record written with an abbreviation reads back under its id with its blob, the first of its values as code and the others as operands, or code 0 and no operands without values |
| `RoundTrip.UnabbrevRoundTrip` | src/shader_jit/air_parser.rs:274-290 | a record written without an abbreviation reads back |
| `RoundTrip.HeaderRoundTrip` | src/shader_jit/air_parser.rs:256-260 | a nested block's header reads back whatever its length word says, its width narrowed to 32 bits |
| `RoundTrip.ItemsRoundTrip` | src/shader_jit/air_parser.rs:245-306 | every item list of a block, nested blocks and BLOCKINFO included, reads back as its records and subblocks in order, with the table it builds |
| `RoundTrip.SubRoundTrip` | src/shader_jit/air_parser.rs:256-263 | a nested block reads back as its tree and leaves the enclosing block at the next item |
| `RoundTrip.StreamPrefix` | src/shader_jit/air_parser.rs:371-382 | whatever follows the written blocks, the reader stands right after them with their trees |
| `RoundTrip.StreamRoundTrip` | src/shader_jit/air_parser.rs:360-391 | every well-formed list of top-level blocks reads back as exactly its trees, consuming every bit |
| `FileRoundTrip.RawFileRoundTrip` | src/shader_jit/air_parser.rs:360-391 | parsing the bytes of a written raw file gives the trees of its blocks, in order, no wrapper, and each feature exactly when its tag stands in the body |
| `FileRoundTrip.FileOutcome` | src/shader_jit/air_parser.rs:309-391 | what every file gives, features included, or the one error it is refused with |
| `FileRoundTrip.WrapperRoundTrip` | src/shader_jit/air_parser.rs:313-339 | a bitstream inside a wrapper is located in a file if and only if the file starts with the five header words and the range they name, wherever it starts, holds that bitstream |
| `FileRoundTrip.WrapperExists` | src/shader_jit/air_parser.rs:313-339 | every content has such files: header, gap, content, trailer |
| `FileRoundTrip.WrappedFileRoundTrip` | src/shader_jit/air_parser.rs:360-391 | parsing any file that wraps a written raw file gives the same trees and the header |
| `FileRoundTrip.DetectorsAgree` | tools/air_header_inspect.py:26-52 | the Python detector gives the reader's verdict if and only if the file is not a wrapper in bounds, of size below 4, with the raw magic at its offset |
| `FileRoundTrip.DetectorsDiffer` | tools/air_header_inspect.py:39 | a file of 24 bytes that the detector accepts and the reader refuses |
| `StreamLaws.BlockInside` | src/shader_jit/air_parser.rs:245-306 | on whole-word data the cursor never passes the end while a block is read, so counting the bits left never traps |
| `StreamLaws.StreamInside` | src/shader_jit/air_parser.rs:371-382 | the same for the loop over the top-level blocks, up to the position it ends at |
| `StreamLaws.BlockCost` | src/shader_jit/air_parser.rs:245-306 | the items a block gains cost no more bits than were read: 45 for each block, 3 for each record |
| `StreamLaws.StreamCost` | src/shader_jit/air_parser.rs:371-382 | the whole tree: 45 times its blocks plus 3 times its records is at most the bits consumed |
| `StreamLaws.BlockInfoGrows` | src/shader_jit/air_parser.rs:264-273 | through any block every BLOCKINFO list only grows at its end |
| `StreamLaws.StreamInfoGrows` | src/shader_jit/air_parser.rs:371-382 | the same across the blocks of a whole parse |
| `StreamLaws.BlockScope` | src/shader_jit/air_parser.rs:242-304 | from any block state that is explained by what the block has met, reading on gives one that is, nested blocks included |
| `StreamLaws.AbbreviationScope` | src/shader_jit/air_parser.rs:242-304 | in any block every record is, in order, what stands at the recorded places: without abbreviation, or with id 4+k and entry k of BLOCKINFO's list for the block id followed by the definitions read before |
| `StreamLaws.RegisterAppends` | src/shader_jit/air_parser.rs:267-269 | registering appends to one list and leaves the others alone |
| `StreamLaws.RegistrationScope` | src/shader_jit/air_parser.rs:264-283 | through any block each BLOCKINFO list grows by exactly the definitions that a BLOCKINFO block, here or nested, read while its last SETBID record named that id |
| `StreamLaws.StreamRegistrations` | src/shader_jit/air_parser.rs:371-382 | the same across the blocks of a whole parse |
| `Locality.BlockLocal` | src/shader_jit/air_parser.rs:230-307 | a block that decodes decodes to the same block, table and cursor from any data that agrees where it was read, the length words aside |
| `Locality.AppendLocal` | src/shader_jit/air_parser.rs:230-307 | appending data changes nothing about a block that decodes |
| `Locality.LengthWordsIgnored` | src/shader_jit/air_parser.rs:260 | bodies that differ only in the ignored length words give the same trees |
| `FormatLaws.AbbreviationTransparent` | src/shader_jit/air_parser.rs:179-228 | a record without blob reads back with the same code and operands from its abbreviated and its unabbreviated encoding |
| `FormatLaws.Unabbreviable` | src/shader_jit/air_parser.rs:274-281 | every record a legal abbreviation expresses can be written without it, as far as its operand count fits 64 bits |
| `FormatLaws.NoTrap` | src/shader_jit/air_parser.rs:81-83 | no body of whole words, and none of at most four bytes, makes the count of bits left go below zero |
| `FormatLaws.TrapLengths` | src/shader_jit/air_parser.rs:81-83 | some body of n bytes makes it go below zero if and only if n is above 4 and not a multiple of 4 |
| `Refusals.UnknownEncoding` | src/shader_jit/air_parser.rs:172 | operand encodings 0, 6 and 7 are malformed |
| `Refusals.WidthNarrowed` | src/shader_jit/air_parser.rs:161-168 | a width keeps its low 32 bits |
| `Refusals.UnknownAbbreviation` | src/shader_jit/air_parser.rs:291-296 | an id past the abbreviations in scope is malformed |
| `Refusals.ArrayWithoutElement` | src/shader_jit/air_parser.rs:195-198 | an array without an element type after it is malformed |
| `Refusals.NestedElement` | src/shader_jit/air_parser.rs:199-207 | an array or blob as element type is malformed unless the array is empty |
| `Refusals.CutShort` | src/shader_jit/air_parser.rs:246-248 | a block that ends before its next id is an unexpected end |
| `Refusals.StreamStops` | src/shader_jit/air_parser.rs:371-375 | the list of blocks ends without error before less than a word and at any other id |
| `Bindings.AirTransformer.TransformModule` | src/shader_jit/transforms.rs:29-47 | the map, the flag and the counter after a module are those of a fold over the preorder list of its records |
| `Bindings.AirTransformer.ProcessAll` | src/shader_jit/transforms.rs:42-61 | the loop over a list of blocks continues that fold |
| `Bindings.AirTransformer.ProcessBlockTransforms` | src/shader_jit/transforms.rs:49-62 | a block's own records come before its subblocks' |
| `Bindings.AirTransformer.AnalyzeRecordMetadata` | src/shader_jit/transforms.rs:64-92 | one record is one step of the fold: barrier flag, name test, binding, wrapping counter |
| `Bindings.NamedExactly` | src/shader_jit/transforms.rs:74-76 | a record names a binding if and only if its blob is not empty, encodes some code points, and one of the two words stands in it |
| `Utf8.ValidIsText` | src/shader_jit/transforms.rs:75 | the bytes accepted as UTF-8 are exactly the encodings of sequences of code points |
| `Bindings.PreorderTree` | src/shader_jit/transforms.rs:55-61 | a block contributes its own records, then its subblocks', then what follows |
| `Bindings.CounterWraps` | src/shader_jit/transforms.rs:77-78 | the counter ends at its start plus the number of names met, modulo 2^32 |
| `Bindings.ModuleBindings` | src/shader_jit/transforms.rs:76-88 | without wrap each name gets the start counter plus the index of its last qualifying record, and the counter grows by their number |
| `Bindings.DistinctBindings` | src/shader_jit/transforms.rs:76-88 | different names never share a binding |
| `Bindings.BindingsNeverReused` | src/shader_jit/transforms.rs:29-47 | across the modules of one transformer no binding is given out twice |
| `Bindings.NothingAllocated` | src/shader_jit/transforms.rs:74 | without argument buffers the walk allocates nothing |
| `Bindings.BarrierFix` | src/shader_jit/transforms.rs:70-72 | the barrier flag is set exactly when some record has code 5 or 6 |
| `FrameSlots.SharedRegion.TryTransition` | native/shm_sync.c:159-162 | succeeds exactly on the expected state, and then sets the desired one and nothing else |
| `FrameSlots.SharedRegion.AcquireWriteSlot` | native/shm_sync.c:164-179 | the write scan, cursor included, running alone |
| `FrameSlots.SharedRegion.PublishSlot` | native/shm_sync.c:181-198 | publishing makes a WRITING slot READY with the metadata and one more generation, and refuses any other slot |
| `FrameSlots.SharedRegion.AcquireReadSlot` | native/shm_sync.c:200-214 | the first READY slot becomes READING |
| `FrameSlots.SharedRegion.ReleaseReadSlot` | native/shm_sync.c:216-226 | a READING slot becomes FREE, any other is refused |
| `FrameSlots.SharedRegion.GetSlotInfo` | native/shm_sync.c:228-245 | the metadata stored in the slot, whatever its state |
| `FrameSlots.ScanFinds` | native/shm_sync.c:169-178 | a scan running alone takes the first FREE slot it probes and fails when it probes none |
| `FrameSlots.ScanComplete` | native/shm_sync.c:169-178 | running alone, the scan succeeds exactly when some slot is FREE, if and only if the cursor does not wrap during it or the slot count divides 2^32 |
| `FrameSlots.ReadFinds` | native/shm_sync.c:206-212 | a read scan running alone takes the first READY slot, and fails when there is none |
| `FrameProtocol.StepKeepsInv` | native/shm_sync.c:159-226 | every atomic access by any process keeps ownership and generation accounting |
| `FrameProtocol.SlotOwnership` | native/shm_sync.c:159-226 | over every interleaving a WRITING slot has exactly one writer, a READING slot exactly one reader, other slots neither, and no owner is ever refused |
| `FrameProtocol.Generations` | native/shm_sync.c:188-195 | over every interleaving the generation plus the publishers before their increment is the number of READY transitions modulo 2^64 |
| `FrameProtocol.UninterruptedPublish` | native/shm_sync.c:181-198 | five steps with nothing in between are the sequential publish |
| `FrameProtocol.UninterruptedScan` | native/shm_sync.c:164-179 | a scan with nothing in between is the sequential scan, and its process owns what it found |
| `FrameProtocol.UninterruptedRead` | native/shm_sync.c:200-214 | a read scan with nothing in between is the sequential one, and its process owns what it found |
| `FrameProtocol.UninterruptedRelease` | native/shm_sync.c:216-226 | one step of a release is the sequential release |
| `FrameProtocol.Lifecycle` | native/shm_sync.c:159-226 | a step moves at most one slot, one state on in the circle FREE, WRITING, READY, READING, and exactly when it is that state's compare-and-swap |
| `FrameMetadata.StepKeepsMeta` | native/shm_sync.c:181-198 | every atomic access keeps the account of which publish stored each field of each slot |
| `FrameMetadata.MetadataVisible` | native/shm_sync.c:187-195 | over every interleaving a slot carries its last publish's metadata if and only if that publish has stored it and no older one has stored a field after it; none does when no publisher was storing as it began |
| `FrameMetadata.ReliableUntilRepublished` | native/shm_sync.c:187-195 | whatever happens until the slot is published again, a finished last publish is carried, if and only if no older publish has stored late and no older publisher is still storing |
| `FrameMetadata.PublishReliable` | native/shm_sync.c:188 | right after its compare-and-swap a publish is reliable in that sense if and only if no publisher of the slot was storing at it |
| `FrameMetadata.StaleMetadata` | native/shm_sync.c:188-195 | a schedule in which a reader holds a slot of which nothing is stored yet, though no publish overlapped |
| `FrameMetadata.StaleForGood` | native/shm_sync.c:188-195 | a schedule after which all are idle and the slot keeps an overtaken publisher's metadata |
| `ResizeMailbox.PendingResize.Request` | src/vulkan_backend/state_machine.rs:51-55 | stores width, height and flag |
| `ResizeMailbox.PendingResize.Take` | src/vulkan_backend/state_machine.rs:57-66 | takes the flag down and the size with it, or finds none |
| `ResizeMailbox.NoLostResize` | src/vulkan_backend/state_machine.rs:50-67 | over every interleaving of the three stores with the swap and two loads, when both sides are idle and the flag is down the last size taken is the last requested |
| `ResizeMailbox.MixedTakeIsFollowed` | src/vulkan_backend/state_machine.rs:50-67 | a completed take that mixed two requests has the requester still at work or the flag up again |
| `ResizeMailbox.TakeUnmixed` | src/vulkan_backend/state_machine.rs:50-67 | over every interleaving a take gets width and height from one request if and only if no request began between its loads and none is between its stores at the second, or one began and is; the size is then that request's |
| `ResizeMailbox.TakeCanMix` | src/vulkan_backend/state_machine.rs:50-67 | a schedule in which a take mixes two requests |
| `ResizeMailbox.UninterruptedRequest` | src/vulkan_backend/state_machine.rs:51-55 | three steps of the requester with nothing in between are a request |
| `ResizeMailbox.UninterruptedTake` | src/vulkan_backend/state_machine.rs:57-66 | a take with nothing in between is a take |
| `WindowSwapchain.Clamp` | src/vulkan_backend/state_machine.rs:203-210 | the clamped value lies within the bounds, nearest to the one wanted; crossed bounds panic |
| `WindowSwapchain.NonZero` | src/vulkan_backend/state_machine.rs:211-213 | an extent is refused as zero exactly when a side is, and passed on otherwise |
| `WindowSwapchain.ExtentChosen` | src/vulkan_backend/state_machine.rs:203-213 | exactly when the choice fails, and why; otherwise a surface with its own extent keeps it, and any other gets the wanted size brought within its bounds, unchanged if it lies within them |
| `WindowSwapchain.SurfaceErrors` | src/vulkan_backend/state_machine.rs:166-213 | each error of the surface queries has its exact cause |
| `WindowContext.CreateAll` | src/vulkan_backend/state_machine.rs:249-272 | a `collect` of creations makes handles up to the first failure |
| `WindowContext.CreateFrames` | src/vulkan_backend/state_machine.rs:326-338 | three frames of two semaphores and a signaled fence, or a failure with the handles made so far |
| `WindowContext.WindowRenderContext.Empty` | src/vulkan_backend/state_machine.rs:136-155 | a context that owns only its surface |
| `WindowContext.WindowRenderContext.New` | src/vulkan_backend/state_machine.rs:129-159 | a complete context, or a dropped one, which takes the caller's surface along |
| `WindowContext.WindowRenderContext.QuerySurface` | src/vulkan_backend/state_machine.rs:166-213 | the extent chosen from what the surface reported, or the first error in the source's order |
| `WindowContext.WindowRenderContext.ReplaceSwapchain` | src/vulkan_backend/state_machine.rs:220-243 | the old swapchain is destroyed only once the new one exists |
| `WindowContext.WindowRenderContext.CreateViews` | src/vulkan_backend/state_machine.rs:249-272 | a view for each image, or exactly the views made so far are lost |
| `WindowContext.WindowRenderContext.CreateRenderPass` | src/vulkan_backend/state_machine.rs:274-303 | the render pass, still accounted for on failure |
| `WindowContext.WindowRenderContext.CreateFramebuffers` | src/vulkan_backend/state_machine.rs:305-318 | a framebuffer for each view, or exactly those made so far are lost |
| `WindowContext.WindowRenderContext.AllocateCommandBuffers` | src/vulkan_backend/state_machine.rs:320-324 | a command buffer for each image, or none |
| `WindowContext.WindowRenderContext.CreateFrameSyncs` | src/vulkan_backend/state_machine.rs:326-338 | frames are created once; a failure loses exactly the handles made so far |
| `WindowContext.WindowRenderContext.ClearSwapchain` | src/vulkan_backend/state_machine.rs:162-164 | nothing is pending and nothing is left of the last build but swapchain and frames |
| `WindowContext.WindowRenderContext.GetImages` | src/vulkan_backend/state_machine.rs:247 | the number of the swapchain's images |
| `WindowContext.WindowRenderContext.BuildPerImage` | src/vulkan_backend/state_machine.rs:249-340 | success gives as many views, framebuffers and command buffers as images, a render pass and the frames; failure leaves no command buffers once frames exist |
| `WindowContext.WindowRenderContext.BuildSwapchain` | src/vulkan_backend/state_machine.rs:161-341 | from whatever an earlier failure left, success gives a new swapchain of the extent chosen for the wanted size and a complete set for its images; failure reports the surface's error first, and keeps every handle accounted for, the frames and the old swapchain; nothing is pending afterwards |
| `WindowContext.WindowRenderContext.DestroySwapchainResources` | src/vulkan_backend/state_machine.rs:343-364 | after the device is idle exactly the per-swapchain handles are destroyed, each once |
| `WindowContext.WindowRenderContext.Rebuild` | src/vulkan_backend/state_machine.rs:371-376 | a rebuild inside `tick` ends Ready with a new and complete set, or Recreating with its error |
| `WindowContext.WindowRenderContext.WaitForFrame` | src/vulkan_backend/state_machine.rs:378-384 | unless the wait fails, it is without end if and only if the frame is held; afterwards the image semaphore is free if and only if the frame is not stranded |
| `WindowContext.WindowRenderContext.AcquireImage` | src/vulkan_backend/state_machine.rs:386-393 | an acquisition is on a semaphore in use exactly when the frame was stranded, and strands it until it is handed over |
| `WindowContext.WindowRenderContext.HandOver` | src/vulkan_backend/state_machine.rs:416-424 | a reset fence makes the frame held, a failed reset leaves it stranded; the index panics only on an incomplete set |
| `WindowContext.WindowRenderContext.AcquireFrame` | src/vulkan_backend/state_machine.rs:378-425 | the part of a tick after the resize test: the frame's fence is waited for, an image acquired with its semaphore, the fence reset, and the image returned is the one acquired |
| `WindowContext.WindowRenderContext.Tick` | src/vulkan_backend/state_machine.rs:370-425 | from every state, after an image that was not submitted too: the calls made, their arguments, and the result as the device answers them, the returned image being the acquired one; an acquisition is dirty exactly on a stranded frame, and suboptimal acquisitions and failed resets are exactly what strands one; a held frame waits without end or fails; a raised resize or a lost image leads to a new swapchain of the requested or former size; protocol and handle accounting are kept |
| `WindowContext.WindowRenderContext.SubmitDrawing` | src/vulkan_backend/state_machine.rs:428-448 | the submission waits for the frame's image semaphore, signals its other one and its fence, uses live resources only, and is at most the third one pending |
| `WindowContext.WindowRenderContext.SubmitThenPresent` | src/vulkan_backend/state_machine.rs:443-464 | the submission and presentation made, with image, semaphores, fence and resources, and what the device answered; the frame advances also when presentation fails |
| `WindowContext.WindowRenderContext.SubmitAndPresent` | src/vulkan_backend/state_machine.rs:427-473 | any image index: without a command buffer it panics; otherwise that image is submitted and presented and the frame advances, and a swapchain reported out of date is rebuilt; a failed rebuild leaves `state` as it was; a failed submission changes nothing |
| `WindowContext.WindowRenderContext.Drop` | src/vulkan_backend/state_machine.rs:491-507 | what is live afterwards is what others own and what failed creation loops lost |
| `WindowContext.Play` | src/vulkan_backend/state_machine.rs:366-473 | one event of a run keeps the balance of dirty acquisitions and shows only the image acquired last |
| `WindowContext.Session` | src/vulkan_backend/state_machine.rs:128-507 | over every run every device demand is met, at most three submissions are ever pending, and every image shown is the one acquired last before it; dirty acquisitions are as many as suboptimal acquisitions and failed resets, or one fewer, so none without those; a caller that submits between ticks never waits without end; in the end only handles lost by a view, framebuffer or frame creation that failed in the run remain |
| `WindowSwapchain.AtMostThreeInFlight` | src/vulkan_backend/state_machine.rs:427-455 | at most three submissions are pending |
| `WindowSwapchain.CleanUnlessStranded` | src/vulkan_backend/state_machine.rs:386-408 | the image semaphore is free for an acquisition if and only if no tick stranded the frame |
| `WindowSwapchain.FenceArrives` | src/vulkan_backend/state_machine.rs:378-384 | the fence of a frame that is not held is signaled or has a pending submission |
| `WindowSwapchain.UnsubmittedFrameHangs` | src/vulkan_backend/state_machine.rs:378-384 | no completion of pending work signals the fence of a held frame |
| `WindowSwapchain.AtMostThreeSubmitted` | src/vulkan_backend/state_machine.rs:443-448 | the submission for a held frame is at most the third one pending |
| `WindowSwapchain.CompletedKeeps` | src/vulkan_backend/state_machine.rs:378-384 | completing any number of submissions keeps the protocol |
| `WindowSwapchain.AcquiredKeeps` | src/vulkan_backend/state_machine.rs:386-408 | an acquisition strands the frame and keeps the rest of the protocol |
| `WindowSwapchain.ResetKeeps` | src/vulkan_backend/state_machine.rs:416-418 | resetting the fence turns a stranded frame into a held one |
| `WindowSwapchain.PresentedKeeps` | src/vulkan_backend/state_machine.rs:443-464 | submission and presentation pass the protocol on to the next frame |
| `WindowSwapchain.EmptiedKeeps` | src/vulkan_backend/state_machine.rs:343-364 | destroying the per-swapchain handles keeps ownership exact |
| `WindowSwapchain.SwapchainMade` | src/vulkan_backend/state_machine.rs:237-245 | replacing the swapchain keeps protocol and ownership |
| `WindowSwapchain.HandlesLost` | src/vulkan_backend/state_machine.rs:249-338 | a failed loop's handles are live, owned by nobody, and counted as lost |
| `WindowSwapchain.CanSubmit` | src/vulkan_backend/state_machine.rs:427-448 | what a held frame's submission uses is live, its fence free, its wait semaphore signaled and its signal semaphore not |
| `HostObject.CompositorHostRecord.constructor` | native/compositor_host.c:95-125 | a new host has an empty ring and no client |
| `HostObject.CompositorHostRecord.FindClient` | native/compositor_host.c:77-84 | the first active record of the token |
| `HostObject.CompositorHostRecord.AllocClient` | native/compositor_host.c:86-93 | the first inactive record |
| `HostObject.CompositorHostRecord.DropOldest` | native/compositor_host.c:145-150 | the oldest frame leaves the ring and its reference is given back |
| `HostObject.CompositorHostRecord.AppendFrame` | native/compositor_host.c:152-154 | a ring that is not full gets one more frame at its end |
| `HostObject.CompositorHostRecord.PushFrame` | native/compositor_host.c:143-155 | the array ring appends, dropping the oldest frame of a full ring |
| `HostObject.CompositorHostRecord.HandleHello` | native/compositor_host.c:157-188 | a known token's record is updated and its old reference given back, a new token takes a free record, and a full table gives the reference back |
| `HostObject.CompositorHostRecord.HandleGoodbye` | native/compositor_host.c:190-206 | the token's record is freed and its reference given back |
| `HostObject.CompositorHostRecord.HandleFrameSubmit` | native/compositor_host.c:208-235 | a frame of a registered token is pushed, another's reference is given back |
| `HostObject.CompositorHostRecord.PopFrame` | native/compositor_host.c:302-319 | the oldest frame is handed out |
| `HostObject.CompositorHostRecord.ClientCount` | native/compositor_host.c:329-342 | the number of active records |
| `HostObject.CountsActive` | native/compositor_host.c:335-339 | the count is the size of the set of active records |
| `HostObject.CompositorHostRecord.Destroy` | native/compositor_host.c:351-381 | the ring's and the active records' references are given back, no other |
| `HostObject.UnrolledPush` | native/compositor_host.c:152-154 | writing at the tail of a ring that is not full appends to its frames |
| `HostObject.UnrolledPop` | native/compositor_host.c:313-315 | moving the head drops the oldest frame |
| `CompositorHost.StepKeepsPorts` | native/compositor_host.c:143-235 | each message or pop accounts for exactly the reference it brings |
| `CompositorHost.PortsConserved` | native/compositor_host.c:143-319 | over every run the references received are those in the ring, with active clients, handed out, and deallocated |
| `CompositorHost.PortsSettled` | native/compositor_host.c:351-381 | after destruction every reference received was handed out or deallocated |
| `CompositorHost.StepKeepsSound` | native/compositor_host.c:143-206 | the ring stays within its size and active tokens stay unique |
| `CompositorHost.RegistrationAfter` | native/compositor_host.c:157-206 | a goodbye removes its token, a hello adds it unless the table is full of others, and no other registration changes |
| `CompositorHost.RecordAfter` | native/compositor_host.c:157-206 | a hello brings its process id and reply port into its token's record, a goodbye ends it, and no other record changes |
| `CompositorHost.PortsGivenBack` | native/compositor_host.c:143-235 | exactly which reference each event gives back or hands out |
| `CompositorHost.NoticesTellTable` | native/compositor_host.c:185-205 | connect and disconnect callbacks alternate for each token, and it is in the table exactly when the last one said connected |
| `ClientBridge.ClientConnection.Connect` | native/client_bridge.c:65-134 | an unconnected process that gets through all kernel calls sends its hello and is connected under the token; otherwise nothing changes |
| `ClientBridge.ClientConnection.SendSurface` | native/client_bridge.c:136-185 | a frame goes out under the connection's own token only |
| `ClientBridge.ClientConnection.Disconnect` | native/client_bridge.c:187-217 | the connection is closed whether or not the goodbye could be sent |
| `CompositorSystem.EndToEnd` | native/compositor_host.c:143-319 | over every run with distinct tokens, the frames popped for a token are, in order, those it sent with the fate popped; others are on the port, queued, evicted with a full ring of later frames behind them, or rejected after the token's last hello found the table full |
| `CompositorSystem.QuietTable` | native/compositor_host.c:157-206 | when every goodbye could be sent and the port is empty, the table holds only tokens of connected processes, and all of them but those whose hello found it full |
| `CompositorSystem.FrameSent` | native/client_bridge.c:136-185 | a frame goes on the port exactly from a process connected under its token, with a surface, when the send works |
| `CompositorSystem.HelloSent` | native/client_bridge.c:65-134 | a process connects and its hello is out exactly when it was not connected and everything works |
| `CompositorSystem.GoodbyeSent` | native/client_bridge.c:187-217 | a process disconnects from its own token only, always, and its goodbye is out when the send works |
| `CompositorSystem.StepKeeps` | native/client_bridge.c:136-217 | every client call, host step and pop keeps the accounts and the order of each client's messages |
| `CompositorSystem.Marked` | native/compositor_host.c:302-319 | the frame that leaves the ring is the oldest queued one |
| `CompositorSystem.EvictedPressed` | native/compositor_host.c:143-155 | behind every evicted frame stand 256 later frames that the host accepted |
| `CompositorSystem.ProcessKeepsTalk` | native/compositor_host.c:208-218 | a frame is rejected only while its token's last hello stands refused |
| `CompositorSystem.TokenChosen` | native/compositor_host.c:302-319 | choosing by fate and choosing by token commute |
| `CompositorSystem.ChosenSubsequence` | native/compositor_host.c:302-319 | the frames of one fate are a subsequence of those sent |
| `GlBuffers.GlContext.constructor` | src/frameworks/opengl_sys.rs:27-34 | no names, no bindings, next id 1 |
| `GlBuffers.GlContext.GenBuffers` | src/frameworks/opengl_sys.rs:50-68 | n ids counted up from the next one, wrapping at 2^32; short of that they are new names without bytes and nothing else changes |
| `GlBuffers.GlContext.BindBuffer` | src/frameworks/opengl_sys.rs:71-78 | only the target's binding changes, to any name at all |
| `GlBuffers.GlContext.CreateStorage` | src/frameworks/opengl_sys.rs:100-126 | what the name held is destroyed and new storage stands ready, shared with no other name |
| `GlBuffers.GlContext.BufferData` | src/frameworks/opengl_sys.rs:81-139 | the bound name gets exactly the new bytes, or undefined ones; an unbound target, a foreign name or a missing device changes nothing |
| `GlBuffers.GlContext.BufferSubData` | src/frameworks/opengl_sys.rs:142-165 | an in-range sub-range of the bound name is overwritten and nothing else; a name without bytes is left alone |
| `GlBuffers.GlContext.DeleteBuffers` | src/frameworks/opengl_sys.rs:168-187 | the names and their device objects go, the bindings stay |
| `GlBuffers.LiveHandles` | src/frameworks/opengl_sys.rs:92-139 | the live buffers and memory are exactly the non-null handles in the map, each for one name |
| `GlBuffers.ChangeKeeps` | src/frameworks/opengl_sys.rs:92-187 | any change at one name that leaves the others' handles alone keeps the map consistent and the other names' bytes |
| `GlBuffers.DeadStaysDead` | src/frameworks/opengl_sys.rs:58-66 | a deleted generated name never comes back |
| `GlBuffers.StaleBinding` | src/frameworks/opengl_sys.rs:89-100 | updates through a binding left on a deleted generated name change nothing, whatever came in between |
| `GlBuffers.EarlyBinding` | src/frameworks/opengl_sys.rs:71-78 | a name bound before it is generated does reach the buffer generated later |
| `GlBuffers.Isolated` | src/frameworks/opengl_sys.rs:81-187 | a name keeps its bytes through any calls that neither delete it nor update it through a binding |
| `GlBuffers.FullUpdate` | src/frameworks/opengl_sys.rs:92-138 | a full update gives the bound name exactly the new bytes, or undefined ones, whatever it held, and changes nothing else |
| `GlBuffers.AllUpdates` | src/frameworks/opengl_sys.rs:81-165 | after any mix of full and sub-range updates the size is that of the last full one and each byte that of the last update covering it |
| `GlBuffers.NoUpdate` | src/frameworks/opengl_sys.rs:81-165 | updates of nothing, through a binding that reaches no name, or of a part of a name without storage change nothing |
| `GlBuffers.BindReaches` | src/frameworks/opengl_sys.rs:71-78 | a binding changes its own target only, and none for an unknown target |
| `GlBuffers.GenExactly` | src/frameworks/opengl_sys.rs:58-67 | generating adds exactly the next n ids, without bytes |
| `GlBuffers.DeleteExactly` | src/frameworks/opengl_sys.rs:168-187 | deleting takes exactly the given names away and leaves the bindings |
| `GlBuffers.NotReady` | src/frameworks/opengl_sys.rs:52-56 | without the shared device no call but a binding does anything |
| `Timers.EventLoop.constructor` | native/kqueue_event_loop.c:100-103 | no active slot, next id 1 |
| `Timers.EventLoop.FindTimerSlot` | native/kqueue_event_loop.c:47-54 | the first active slot of the id |
| `Timers.EventLoop.AllocTimerSlot` | native/kqueue_event_loop.c:56-63 | the first inactive slot |
| `Timers.EventLoop.AddTimer` | native/kqueue_event_loop.c:165-194 | without interference: a slot, the next id and the registration, or the slot taken back |
| `Timers.EventLoop.RemoveTimer` | native/kqueue_event_loop.c:196-211 | the registration goes, then the slot of the id |
| `Timers.EventLoop.TimerCallback` | native/kqueue_event_loop.c:236-246 | the callback a timer event finds, unless it is null |
| `Timers.StepKeeps` | native/kqueue_event_loop.c:165-211 | every step of any thread keeps slots, adders, registrations and their reasons |
| `Timers.TimersSafe` | native/kqueue_event_loop.c:165-247 | over every interleaving active ids are unique, the event of a registered timer finds the callback it was added with, and a removed id finds none |
| `Timers.AddRecords` | native/kqueue_event_loop.c:177-181 | a new timer's callback is found under its id |
| `Timers.QuietTimers` | native/kqueue_event_loop.c:165-211 | when all threads are idle the active timers are exactly the registered ones |
| `Timers.RollbackIsOwn` | native/kqueue_event_loop.c:186-191 | the rollback, which goes by the slot alone, deactivates its own timer and no other |
| `Timers.IdsNeverReused` | native/kqueue_event_loop.c:177-178 | an id given out is never given out again |

## Left out

- Kernel, Mach, bootstrap, shared-memory, Vulkan and Objective-C calls are abstract state with free outcomes.
- Weak memory: atomics are sequentially consistent. Timeouts and `wait_for_ready` are left out.
- FIFO order among READY slots: the read scan starts at index 0, so there is none.
- Allocation failure from large counts in a bitstream, and lengths near the machine's word size (`len * 8`).
- The bitstream reader in a build without overflow checks, where a trapping shift or subtraction goes on with a wrapped value.
- `parse` reads the file's features with a lossy UTF-8 conversion first; the tags are ASCII and are searched in the bytes.
- `WindowContext.WindowRenderContext.QuerySurface`: which format, present mode and image count the source chooses has no effect on handles or synchronization and is left out.
- `WindowContext.WindowRenderContext.SubmitAndPresent`: demands a held frame, since Vulkan forbids a submission with a signaled fence; the device does not track which images are acquired. After a failed presentation only the handle accounting is promised.
- `WindowContext.Session`: one window on its device; the run ends at a failed submission or presentation, a panic or a wait without end.
- `VulkanDevice.Device.WaitIdle`: nothing is pending afterwards also when the device is lost.
- A failed swapchain creation retires the old swapchain in Vulkan; the model still allows acquiring from it.
- `WindowContext.DestroyResources`: the fields are cleared after the calls, not between them.
- `HostObject.CompositorHostRecord.HandleFrameSubmit`: no receive time and no frame callback, which change no state of the host.
- `HostObject.CompositorHostRecord.HandleHello`: the process id is kept but the client callback gets only token and direction.
- `ClientBridge.ClientConnection.Connect`: the client's own references to its ports are not counted.
- Messages of an unknown id, which the host's dispatch ignores without releasing what they carry.
- `GlBuffers.GlContext.GenBuffers`: promises nothing about the names once the ids reach 2^32, where the source reuses them and loses their buffers.
- `GlBuffers.GlContext.BufferData`: promises nothing about the state after a panic on a failing device; the lock is poisoned then.
- `GlBuffers.GlContext.BufferSubData`: promises nothing after a sub-range outside the bytes of the name, which the source does not test for and Vulkan leaves undefined.
- `glDrawElements`, memory types and buffer usage flags.
- `Timers.EventLoop.AddTimer`: intervals and the user data pointer are left out; file descriptors and Mach messages of the event loop too.
- `native/iosurface_shm_bridge.c` (surface sizing and slot table), `src/vulkan_backend/resource.rs` and `mod.rs`: members that read off one body.
- `src/vulkan_backend/swapchain.rs`: a near copy of the modelled state machine that refers to undefined names.
- `src/shader_jit/mod.rs`: its SPIR-V output copies words, so there is no meaning to preserve.
- File and directory handling of the Python tools, and the user-interface glue.
