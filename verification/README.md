# A model of the 86x64 translator

86x64 rewrites a 32-bit Mach-O i386 program into an x86_64 one. This project models the core that does it and proves
what that core is for: a translated program does what the original did, every reference reaches the same program
point, file and memory layout stay in step, and every table that is read, sized and written again agrees with itself.

`dafny verify dfyconfig.toml` checks everything. One module per component:

- `Arith`, `Images`, `Leb128`: rounding, the growing output file, LEB128 numbers.
- `Blobs`, `Layout`, `Builder`, `SegmentSizes`: section elements, what the layout pass computes, the objects that
  compute it, and the segments without sections.
- `Emit`, `EmitArchive`, `FileHeads`: what each element writes, and the whole file in the order it is written.
- `Resolver`, `Placeholders`, `Translate`, `Link`: pointers to objects that do not exist yet, branch targets as
  zero-size placeholders, the expansion of i386 instructions, and the transformation of a whole archive.
- `Opcodes`, `Decoder`, `OpcodesProof`, `Machine`, `Simulate`, `SimulateExact`: the bytes of the expansions, a decoder
  for them, the two processors, and the simulation of one by the other.
- `References`, `Pipeline`, `StubCode`: references and instructions through expansion, linking, layout and patching, and
  the code of the stub sections.
- `WholeArchive`, `DataBytes`: all passes one after the other, from the sections as parsed to runs of the loaded file
  and to the data in it.
- `Fixups`, `Rebase`, `Bind`, `BindStream`, `DyldOpcodes`, `FunctionStarts`: the link-edit tables, and what each opcode
  byte does.
- `Tries`, `ExportTrie`, `ExportEmit`, `ExportRoundTrip`, `TrieMap`: the export trie and the container it lives in.
- `Rebasify`, `RebasifyEdits`: the worklist analysis that inserts instructions into the list it walks, and what its
  edits amount to.
- `Immediates`: addresses in instructions, from the resolver of the parser to the operand they become.
- `RecordLayout`, `ConvertCode`, `ConvertRun`, `RecordConvert`, `ConvertNumbers`, `ConvertRooms`, `Converter`: the ABI
  converter: record layout, the code it emits and a processor for it, what that code writes, when that is right, which
  numbers arrive, where pointees are put, and the objects that emit it.

Objects that the program updates in place (`BuildEnv`, `Section`, `Segment`, `Archive`, `Image`, `Resolver`, the
placeholder map, both opcode interpreters, the trie map, the analysis, `Conversion`, `MemoryLocation`) are classes. Their methods are
proved against functions, and the theorems are about these functions. Pointers between blobs are identities: `BlobAt`
and `PlaceAt` name what was parsed at an i386 address, `Made(b, k)` is the k-th blob made from `b`. A decoded
instruction is a value with its form, registers, bytes and references, as XED would report them. Failed assertions,
`abort` and exceptions are results (`None`, `Err`), not preconditions.

The main results: `WholeArchive.TranslationSimulates` (if the passes succeed and the file is compact, every run of the
i386 program is matched by a run of the loaded x86_64 file) with `TranslateAndLayOut` and `WriteTranslation` (when the
passes succeed), `WholeArchive.BranchesLead` and `ImmediatesLead` (references survive to the loaded file),
`Link.LinkForwards` (the resolver sets every pointer of the archive), `References.BranchPreserved`,
`ImmediatePreserved` and `PointerPreserved`, `Simulate.RunSimulated` and `SimulateExact.StepSimulatedIff` (runs, and
exactly when one instruction is simulated), `Layout.BuildSegmentsLocked` and `OffsetFindsVmaddr` (layout),
`EmitArchive.FileStands` and `FileHeads.HeadsStand` (the finished file) with `DataBytes.ByteKept` (each byte of data
from the input to the loaded file), `Rebase.ReemissionSame`, `BindStream.LazyRoundTrip` and `StubSelectsBinding`, `DyldOpcodes.UnrolledSame`,
`ExportRoundTrip.EmittedParses` and `ReemissionDenotes`, `FunctionStarts.ReadsBackIff`, `TrieMap.Collect`, `Drain` and
`EraseStepsOnIff`, `Rebasify.RebasifyText` with `RebasifyEdits.MovStands` and `OnlyAsked` (the analysis visits exactly
the values that arrive, and inserts exactly the loads they ask for), `RecordLayout.LeavesFit`, `SystemVLayout` and
`I386SizeIsWalkIff`, `ConvertRun.CodeRuns`, `RecordConvert.ConvertedIff` and `ThereAndBack` (the code emitted for a
type, run to its end: what it writes, exactly when that is right, and that a call's arguments are put back) with
`ConvertNumbers.NumberKeptIff` and `NumberFitsIff` (exactly which numbers arrive).

## Where the code does not do what it seems to promise

Each of these is a theorem below, with the exact condition under which the code does meet the promise.

- A section aligned above a page separates the file and memory cursors (`Layout.AlignAbovePageSeparates`,
  `AlignLockedIff`).
- An inactive stub helper takes room in Build but writes nothing in Emit (`Emit.EmitMeetsBuildIff`).
- `push esp`, `pop esp` and `call esp` are translated to something else, and so is everything that wraps around the
  32-bit stack, and an access to memory at an address that wraps around 4 GiB, copied or expanded
  (`SimulateExact.StepSimulatedIff` for every instruction and state).
- An instruction of rebasify whose displacement cannot be cleared reads from the wrong place after the edit, and one
  that also stores or indexes by its base register uses another number (`RebasifyEdits.AddressKeptIff`,
  `OperandKeptIff`, `OwnIndexIff`).
- The assertion for a call through memory never holds (`Translate.CallMemRejected`).
- do_resolve forgets exactly the pointers whose key is not known yet (`Resolver.ResolvedIff`).
- A list of rebases or bindings that is not empty but has no active element writes DONE outside its space
  (`Rebase.StreamFitsIff`, `BindStream.StreamFitsIff`).
- DO_BIND_ULEB_TIMES_SKIPPING_ULEB passes its skip where the lazy index belongs (`Bind.SkipHonouredIff`).
- The signed LEB128 encoder stores groups after the shift, and bind addends are read unsigned
  (`Leb128.SlebReadsBackIff`).
- A repeated function start is lost, and padding is taken for entries while the address is still the start of the
  segment (`FunctionStarts.ReadsBackIff`).
- Iteration over the trie map misses everything once the empty key is stored (`TrieMap.BeginCoversIff`); `erase` can
  return an entry before the erased one (`TrieMap.EraseMayStepBack`), and returns the next one exactly under the
  condition of `EraseStepsOnIff`.
- On i386 a record is sized with eight-byte alignment and walked with four (`RecordLayout.I386SizeExceedsWalk`); both
  agree exactly when every such member lies at a multiple of eight (`I386SizeIsWalkIff`), unless a sixteen-aligned
  member hides the difference (`I386SizeIsWalk`, `SixteenSwallows`).
- The ABI converter stops at every `long double`, behind pointers too (`RecordConvert.LongDoubleStops`,
  `ConvertCode.CodeIff`). Where it does not stop its code writes what is wanted exactly under the condition
  `RecordConvert.Sound` (`ConvertedIff`), which these break:
  the array loop steps rdi by the x86_64 size and rsi by the i386 size in both directions, so that conversions back to
  i386 read and write the wrong elements (`BackwardLongs`);
  the pointers in an array all get the same room for what they lead to (`PointersShare`);
  in a record behind a pointer a new pointer is stored in the new data instead of its field (`PointerLost`);
  a real is moved eight bytes too low relative to rsp (`RealTooLow`);
  of an unsigned number or a pointer that gets wider only the low half is written (`HalfWritten`).
- A `jmp [address]` in a stub section whose displacement no rebase names loses its target
  (`Immediates.UnrebasedLost`, `JumpLeadsIff`).

## Model

| member | source | states |
|---|---|---|
| Arith.AlignUpIsLeast | include/core/util.hh:89-92 | align_up gives the least multiple not below its argument, and changes nothing exactly when it already is one |
| Arith.AlignUpTogether | src/core/loc.cc:6-9 | two cursors move by the same amount exactly when they agree modulo the alignment |
| Leb128.UlebLength | src/core/leb.c:37-58 | an encoding has at most k bytes exactly when the number has at most 7k bits |
| Leb128.UlebLengthMonotone | include/core/leb.hh:60-68 | a larger number never has a shorter encoding, and 64 bits never need more than ten bytes |
| Leb128.UlebMaxLength | src/core/export_info.cc:47-49 | the bound used by the size predictors is ten |
| Leb128.RoundTrip | src/core/leb.c:5-35 | decoding an encoded 64-bit number, whatever bytes follow, returns the number and its length |
| Leb128.CutShort | src/core/leb.c:11-14 | every proper prefix of an encoding is reported as too short |
| Leb128.UlebIsShortest | src/core/leb.c:37-58 | no byte string that decodes to n is shorter than the encoding of n |
| Leb128.UlebDecode | src/core/leb.c:5-35 | the loop returns the decoder's verdict: length and number, buffer length plus one when short, 0 on overflow |
| Leb128.UlebEncode | src/core/leb.c:37-58 | writes exactly the encoding, or reports buffer length plus one; without a buffer it predicts the length |
| Leb128.Leb128Size | include/core/leb.hh:60-68 | the dry run is the length of what will be written |
| Leb128.Leb128Encode | include/core/leb.hh:93-112 | the image changes exactly at the encoded bytes |
| Leb128.Leb128Decode | include/core/leb.hh:33-57 | number and length, with overflow and a short image as errors |
| Leb128.SlebLength | src/core/leb.c:100-128 | the signed length is minimal in two's complement |
| Leb128.SlebEncode | src/core/leb.c:100-128 | length or buffer length plus one; the bytes written, after-shift groups included |
| Leb128.SlebReadsBackIff | src/core/leb.c:115-123 | a number written signed and read unsigned comes back exactly when it is not negative and all its seven-bit groups agree |
| Images.Image.Copy | include/core/image.hh:27-32 | the image grows to fit and changes nowhere else |
| Blobs.WidenSettles | src/core/instruction.cc:495-543 | widening a rel8 branch settles after one step, never shrinks the instruction and keeps its references |
| Builder.BuildEnv.Allocate | src/core/build.cc:7-11 | moves the file cursor only |
| Builder.BuildEnv.AllocateAt | src/core/build.cc:14-19 | moves both cursors by the same size and returns where they were |
| Builder.BuildEnv.AlignTo | src/core/loc.cc:6-9 | rounds both cursors up to the power of two |
| Builder.BuildEnv.NewSegment | src/core/build.cc:22-25 | rounds both cursors up to a page |
| Builder.BuildEnv.NextSection | src/core/build.cc:28-33 | numbers sections from 1 and refuses the 256th |
| Builder.BuildEnv.TakeLazyBindIndex | src/core/build.cc:36-40 | a running 32-bit index that wraps |
| Builder.BuildInstruction | src/core/instruction.cc:258-266 | widens, allocates, then seats the immediate four bytes before the cursor |
| Builder.BuildElement | src/core/section_blob.cc:45-47 | an active blob gets the cursor and moves it by its size; an inactive one takes no room |
| Builder.Section.BuildContent | src/core/section.cc:94-96 | the loop over the content computes the pure layout of all blobs |
| Builder.Section.Build | src/core/section.cc:90-104 | alignment, content, size and relocation space as the pure layout says |
| Builder.Section.EmitContent | src/core/section.cc:110-117 | the loop writes every active blob at its running offset and stops where relocations begin |
| Builder.Segment.Build | src/core/segment.cc:76-109 | fails exactly where the pure layout does; otherwise the segment and both cursors are as it says |
| Builder.Segment.BuildLinkedit | src/core/segment.cc:112-157 | page-aligned start, file cursor moved over all link-edit tables, sizes from the file cursor |
| Builder.Segment.TryOffsetToVmaddr | src/core/segment.cc:236-243 | the first section that holds the offset decides |
| Builder.Segment.AssignID | src/core/segment.cc:258-263 | a segment takes the next segment number and its sections the next section numbers, and its layout fields stay as they are |
| Builder.Archive.AssignIDs | src/core/archive.cc:102-105 | segments numbered from 0 and sections from 1 through the archive; fails exactly with more than 255 sections |
| Builder.Archive.Build | src/core/archive.cc:86-114 | fails exactly with more than 255 sections or where the pure layout does; else everything is numbered and laid out in load-command order as the pure layout says |
| Builder.Archive.TryOffsetToVmaddr | src/core/archive.cc:179-186 | the first segment whose file range holds the offset decides |
| Layout.PlacedAt | src/core/section.cc:94-96 | blob j is built where the blobs before it end: no gap, no overlap, sizes final when locations are assigned |
| Layout.PlaceAllIff | src/core/instruction.cc:498-505 | the pass stops exactly at a branch whose displacement width it cannot handle |
| Layout.AlignLockedIff | src/core/loc.cc:6-9 | aligning keeps file and memory in lockstep exactly when the cursors agree modulo the alignment |
| Layout.AlignAbovePageSeparates | src/core/section.cc:91 | a section aligned to 8 KiB can break the lockstep |
| Layout.BuildSegmentLocked | src/core/segment.cc:76-109 | with alignments up to a page: cursor, blobs and immediates in lockstep, sections aligned, filesize equal to vmsize, page-aligned end |
| Layout.BuildSegmentsLocked | src/core/archive.cc:107-110 | all segments page-aligned, pairwise disjoint and in order, in the file and in memory |
| Layout.BuildSegmentsIff | src/core/segment.cc:77 | no page-alignment assertion of the pass ever fails: it stops only at a branch it cannot widen |
| Layout.OffsetFindsVmaddr | src/core/archive.cc:167-176 | the file offset of every blob that takes bytes leads back to its vmaddr |
| SegmentSizes.PageZeroCovers | src/core/segment.cc:159-165 | __PAGEZERO covers exactly the addresses below the start of the archive and nothing of the file, and every mapped segment lies above it |
| SegmentSizes.LinkeditHolds | src/core/segment.cc:112-157 | __LINKEDIT starts at the next page, its filesize is the end of its last table and its vmsize the least multiple of a page that holds it |
| SegmentSizes.UnalignedStops | src/core/segment.cc:76-77 | an archive that starts inside a page is not built |
| SegmentSizes.RelocationsFollow | src/core/section.cc:98-103 | relocation entries of eight bytes each stand directly behind the contents of a section |
| Emit.FieldHolds | src/core/opcodes.cc:9-15 | a little-endian field holds its number modulo its width |
| Emit.Signed32Iff | src/core/instruction.cc:221-225 | a displacement survives its field exactly when it fits 32 signed bits |
| Emit.EmitMeetsBuildIff | src/core/stub_helper.cc:68-72 | Emit's offset and Build's agree up to blob j exactly when no inactive stub helper comes before it |
| Emit.EmitAllWrites | src/core/section.cc:112-117 | the bytes of every active blob are still there when the whole section is written |
| Emit.SectionIsWhereBuilt | src/core/section.cc:107-123 | every active blob's bytes stand at the file offset Build gave it, and relocations start at reloff |
| Emit.EmitAllIff | src/core/section.cc:112-117 | a section is written exactly when no active blob follows a null pointer or lacks the field to patch |
| Emit.EmitAllKeeps | src/core/section.cc:112-117 | writing a section changes no byte outside the offsets it runs over |
| EmitArchive.EmitSections | src/core/segment.cc:168-175 | the loop writes every section structure at the running offset and its contents where they were laid out |
| EmitArchive.EmitFile | src/core/archive.cc:117-127 | the loops perform exactly the writes of header, commands, sections and tables, in order, or stop where one cannot be made |
| EmitArchive.FileStands | src/core/archive.cc:117-127 | in the finished file every blob of every section still has its bytes, whatever headers, tables and other sections were written before or after |
| EmitArchive.FileWrittenIff | src/core/archive.cc:117-127 | the file is written exactly when every active blob of every section can be |
| FileHeads.HeadsStand | src/core/archive.cc:117-127 | in the finished file the header stands at its start, every load command behind the commands before it with its section structures one after the other, and every link-edit table at its offset |
| DataBytes.DataParsed | src/core/section_blob.cc:94-96 | a section of plain bytes is read byte by byte, each with its address, and completely |
| DataBytes.ZeroParsed | include/core/section_blob.hh:60-76 | a zero-fill section becomes one blob for each byte |
| DataBytes.DataStands | src/core/section_blob.cc:49-57 | the byte of every data blob, and the eight zeros of every non-lazy pointer, stand at the blob's place in the finished file and at its new address in memory |
| DataBytes.ByteKept | src/core/section_blob.cc:49-52 | end to end: each byte of a section of plain data, as it stands in the i386 file, is the byte in memory at the new address of that byte |
| Emit.EmitInstruction | src/core/instruction.cc:213-255 | copies the patched instruction and lets the immediate overwrite its last four bytes |
| Emit.EmitStub | src/core/stub_helper.cc:56-65 | writes push and jump with the binding's index as the pushed number |
| Emit.EmitBlob | src/core/section_blob.cc:49-57 | every kind of blob writes exactly its bytes, or fails exactly where they cannot be computed; what the bytes are is DataStands, PointerPreserved, BranchReachesIff, StubPushesIndex |
| Emit.BranchReachesIff | src/core/instruction.cc:233-247 | an emitted branch reaches its pointee exactly when the displacement fits 32 bits |
| Emit.MemReachesIff | src/core/instruction.cc:218-231 | likewise for a rip-relative operand |
| Resolver.Resolver.Add | include/core/resolve.hh:30-44 | serves everyone waiting (eager mode), keeps the first pointee, and reports the failed assertion |
| Resolver.Resolver.Resolve | include/core/resolve.hh:46-55 | sets the pointer and runs its callback, or queues both |
| Resolver.Resolver.DoResolve | include/core/resolve.hh:57-70 | from any state every list is taken off and served if its key is known; where each pointer waits for one key, everyone whose key is known gets its pointee, nothing else changes and each callback runs once |
| Resolver.RunAccounts | include/core/resolve.hh:30-55 | after any history each pointer is set to its key's pointee or waits for it, never both; each callback ran once; in eager mode no key is found and pending |
| Resolver.RunOneKey | include/core/resolve.hh:30-55 | after any coherent history every waiting pointer is unset and waits for one key only, which is what DoResolve relies on |
| Resolver.EagerOutcome | include/core/resolve.hh:30-55 | the pointers set are exactly those whose key was ever added |
| Resolver.OrderIrrelevant | include/core/resolve.hh:30-55 | any interleaving of the same calls sets the same pointers to the same objects |
| Resolver.LazyOutcome | include/core/resolve.hh:57-70 | lazy mode with do_resolve at the end reaches what eager mode reaches |
| Resolver.DroppedForGood | include/core/resolve.hh:58 | a pointer dropped by do_resolve stays unset although its key may come later |
| Resolver.ResolvedIff | include/core/resolve.hh:57-70 | after do_resolve and whatever follows, a pointer not asked for again is set exactly when its key had been added before |
| Placeholders.Parse1 | src/core/section.cc:67-82 | the loop cuts the section into the blobs its parser returns |
| Placeholders.ParsedTiles | src/core/section.cc:74-79 | the blobs read tile the section's range, in address order |
| Placeholders.ParseEnv.AddPlaceholder | src/core/parse.cc:57-70 | one placeholder per address, none for address 0 |
| Placeholders.ParseEnv.Parse2 | src/core/section.cc:190-218 | succeeds exactly when every placeholder inside starts a blob; each then stands before that blob and leaves the map |
| Placeholders.MergeInto | src/core/section.cc:193-217 | one walk that only moves forward gives the ordered merge, or fails exactly when some address starts no blob |
| Translate.CallMemRejected | src/core/instruction.cc:360-369 | the assertion on the opcode byte fails for every call through memory |
| Translate.RejectedIff | src/core/instruction.cc:269-447 | of the i386 instructions exactly calls through memory, relative calls of the form CALL_NEAR_RELBRd and addresses outside the three forms that can hold one are refused |
| Link.CopiedIff | src/core/instruction.cc:440-441 | an instruction is copied, and so announced by its constructor, exactly when the rules leave it as it is |
| Link.TransformSection | src/core/section.cc:138-152 | the blobs made are the expansions in order; announcements by the copying constructor, requests and announcements by the section reach the resolver in the code's order; what the expansions do is EmittedImplements and StubCode |
| Link.TransformArchive | src/core/archive.cc:130-136 | the whole archive with one resolver: fails exactly when some instruction cannot be translated, else every pointer is set as the resolver leaves it |
| Link.EventsCoherent | include/core/transform.hh:15-32 | no old object is announced with two new ones, every old object is announced, and each pointer is registered once |
| Link.Answered | include/core/transform.hh:23-32 | a request is answered exactly when the object exists, by the first blob made from it, wherever it is |
| Link.LinkForwards | src/core/section.cc:146-152 | after the archive is transformed every pointer of every new blob leads to the first blob made from its old pointee |
| Link.EachForwarded | src/core/section.cc:146-152 | each pointer variable of a new blob leads to the first blob made from what that variable led to, and nothing else about the blob changes |
| OpcodesProof.StoreDecodes | src/core/opcodes.cc:63-71 | the bytes are mov [rsp], r32 for all sixteen registers |
| OpcodesProof.LoadDecodes | src/core/opcodes.cc:73-81 | the bytes are mov r32, [rsp] for all sixteen registers |
| OpcodesProof.JmpR64Decodes | src/core/opcodes.cc:83-91 | the bytes are jmp r64 for all sixteen registers |
| OpcodesProof.LeaR32Decodes | src/core/opcodes.cc:93-97 | the bytes are lea r32, [rip + disp32] with the patched displacement |
| OpcodesProof.StoreImmDecodes | src/core/instruction.cc:47-49 | the bytes are mov dword [rsp], imm32 |
| OpcodesProof.LeaRspDecodes | include/core/opcodes.hh:36 | the bytes add four to rsp and leave the flags alone |
| OpcodesProof.JmpMemDecodes | include/core/opcodes.hh:40-41 | the bytes are jmp [rip + disp32] with the patched displacement |
| OpcodesProof.LeaR11Decodes | include/core/opcodes.hh:31 | the bytes are lea r11, [rip + disp32] with the patched displacement |
| OpcodesProof.PushR11Decodes | include/core/opcodes.hh:26 | the bytes are the eight-byte push of r11 |
| OpcodesProof.IncDecDecode | src/core/instruction.cc:395-409 | the two-byte forms are inc and dec of the same register |
| OpcodesProof.JccDecodes | src/core/instruction.cc:528-530 | a widened conditional jump keeps its condition |
| OpcodesProof.PushLoads | src/core/instruction.cc:411-426 | for every push of memory but the absolute form, the bytes with the two changed bits are a load of the same operand into r11d, whatever base, index, scale and displacement |
| OpcodesProof.AbsoluteMoves | src/core/instruction.cc:411-426 | the absolute form, which the code rejects before, would be read relative to the instruction |
| OpcodesProof.CopyDecodes | src/core/instruction.cc:440-447 | any i386 encoding of a load, a store or a lea but the absolute ones is one of the same operand in 64-bit mode |
| Pipeline.PushMemLoads | src/core/instruction.cc:411-426 | the bytes Transform makes of a push from memory are that load, and its two assertions always hold |
| References.MergeSections | src/core/archive.cc:44-46 | all sections merge exactly when every placeholder inside a section starts a blob; the rest stay in the map |
| References.PlacePlaceholders | src/core/archive.cc:44-63 | parsing succeeds exactly when every placeholder starts a blob or ends a section; each then stands before that blob, or once, at the end of the first section that ends there, and no two objects share an identity |
| References.PlacedDistinct | src/core/archive.cc:48-59 | wherever sections do not overlap, no placeholder is placed twice |
| References.FinalIs | src/core/archive.cc:86-114 | each new blob after building is the linked expansion of its origin, at the address its name stands for |
| References.TargetKept | src/core/section.cc:211-216 | the placeholder for an address ends up where the blob that started there ends up |
| References.EndKept | src/core/archive.cc:48-59 | the placeholder for the end of a section ends up at the end of the new section |
| References.BranchPreserved | src/core/instruction.cc:190-198 | an emitted call or jump, expanded or widened, reaches the new place of its old target exactly when the displacement fits 32 bits |
| References.ImmediatePreserved | src/core/instruction.cc:300-327 | mov r32, abs32 and jmp [abs32] reach the new place of the blob at the absolute address exactly when the displacement fits |
| References.PointerPreserved | src/core/section_blob.cc:68-73 | a lazy pointer is emitted as the new address of its old pointee, eight bytes wide |
| Simulate.StepSimulated | src/core/instruction.cc:24-82 | one i386 push of a register, a constant or memory, pop, call, ret, jump, move, inc or dec is matched by its expansion: registers but r11, every memory byte, flags, next address |
| Simulate.RunSimulated | src/core/instruction.cc:346-393 | n steps of any i386 program are matched by a run of the translated program |
| SimulateExact.PushSimulatedIff | src/core/instruction.cc:24-36 | the expansion of push r32 is a push exactly for registers other than esp while the stack does not wrap |
| SimulateExact.PopSimulatedIff | src/core/instruction.cc:53-63 | the expansion of pop r32 is a pop exactly for registers other than esp while the stack does not wrap, and for esp on a wrapping stack when the words read happen to differ by four |
| SimulateExact.PushMemSimulatedIff | src/core/instruction.cc:411-426 | push m32 is simulated exactly while the stack does not wrap and the 32-bit and the 64-bit address lead to the same dword |
| Simulate.CopySimulatedIff | src/core/instruction.cc:440-447 | a copied load or store does what it did exactly when the 32-bit and the 64-bit address have the same effect; a copied lea always does |
| SimulateExact.CallRegSimulatedIff | src/core/instruction.cc:349-356 | call r32 is simulated exactly for registers other than esp while the stack does not wrap |
| SimulateExact.RetSimulatedIff | src/core/instruction.cc:380-393 | ret is simulated exactly while the stack does not wrap |
| SimulateExact.StepSimulatedIff | src/core/instruction.cc:24-82 | for every instruction and every state: exactly when running the expansion is executing the instruction |
| Pipeline.NextAddr | src/core/section.cc:146-152 | the blobs made from one instruction follow each other without gap, and the next instruction's blobs, or the end of the section, follow them |
| Pipeline.EmittedImplements | src/core/instruction.cc:269-447 | the emitted bytes of each translated form stand at its new address and implement it, displacements included |
| StubCode.StubPushRuns | src/core/instruction.cc:281-299 | push abs32 in a stub section runs as an eight-byte push of the new address of what stood there |
| StubCode.StubJumpRuns | src/core/instruction.cc:313-327 | jmp [abs32] in a stub section runs as one jump through the eight-byte pointer at the new place |
| StubCode.StubHelperRuns | src/core/stub_helper.cc:56-83 | a stub helper of the input runs as two instructions that push the index of its own binding and go to where its jump led |
| Pipeline.EmittedProgramSimulates | src/core/instruction.cc:269-447 | every run of instructions of any sections, the last of each included, is matched by a run of the processor on memory that holds their emitted bytes |
| WholeArchive.LaidCompiled | src/core/archive.cc:86-114 | what the layout pass makes of the transformed segments is the compiled form of the parts, blob by blob |
| WholeArchive.AtOfDescribes | src/core/section_blob.cc:45-47 | every new blob has one identity and one address, the one Build gave it |
| WholeArchive.LaidIsLaidOut | src/core/archive.cc:86-114 | headers lie below every section, and no two sections, and no section and link-edit table, share a byte of the file |
| WholeArchive.FileIsLoaded | src/core/archive.cc:117-127 | in the memory the finished file is mapped into, every blob's bytes stand at its vmaddr |
| WholeArchive.AddrSpan | src/core/segment.cc:76-109 | every instruction and the one behind it lie between the start address and the top of the last segment |
| WholeArchive.BranchesLead | src/core/instruction.cc:190-198 | in a compact file every relative branch of the input to a blob leads to the new place of that blob |
| Immediates.ParsedIs | src/core/section_blob.cc:13-33 | after sections and rebases are read an immediate refers to what a rebase of it points at, to itself if it is an operand no rebase names, and to nothing otherwise |
| Immediates.UnrebasedLost | src/core/instruction.cc:313-327 | without a rebase the translated jump gets no pointee and its displacement stays 0 |
| Immediates.JumpLeadsIff | src/core/instruction.cc:313-327 | a jump through an address leads to the new place of its target exactly when a rebase names the displacement |
| Immediates.ImmediateBytes | src/core/section_blob.cc:83-92 | the last four bytes of an emitted instruction are its immediate: the number, or the address of what it points to |
| Immediates.ImmediateSeated | src/core/instruction.cc:258-266 | the location Build gives an immediate, and so its rebase, is that of these four bytes |
| WholeArchive.ImmediatesLead | src/core/instruction.cc:300-327 | likewise for every rebased immediate that becomes a rip-relative operand |
| WholeArchive.TranslationSimulates | src/core/instruction.cc:269-447 | for any parsed input, if the passes succeed and the file is compact: every run of the i386 program at its new addresses is matched by a run of the loaded file |
| WholeArchive.TranslateAndLayOut | src/core/archive.cc:44-114 | the passes one after the other, the last of them Build on the objects of the new archive: they succeed exactly when every placeholder can be placed, every instruction translated, every branch widened and every section numbered |
| WholeArchive.WriteTranslation | src/core/archive.cc:117-127 | writing the translation succeeds exactly when every blob has its bytes, and gives the file the other results speak of |
| Fixups.OffsetReadsBack | src/core/rebase_info.cc:185-186 | the segment offset written leads a reader back to the blob's address |
| Fixups.LaidOutInStep | src/core/rebase_info.cc:143 | for everything the layout pass places, file and memory distance from the segment are the same |
| Rebase.RebaseInfo.DoRebaseTimes | src/core/rebase_info.cc:89-97 | the loop appends the whole run and returns the address behind it |
| Rebase.RebaseInfo.Execute | src/core/rebase_info.cc:31-76 | one opcode changes cursor and list as the language of rebase programs says |
| Rebase.RebaseInfo.Parse | src/core/rebase_info.cc:16-79 | the interpreter loop records exactly the denotation of the program, or fails where it does |
| Rebase.UnrolledSame | src/core/rebase_info.cc:53-72 | run-length, scaled and skipping opcodes mean what their unrolled forms mean |
| Rebase.UnrolledAllSame | src/core/rebase_info.cc:23-78 | a whole program and its unrolled form rebase the same pointers in the same order, or fail alike |
| Rebase.InterpAppliesAll | src/core/rebase_info.cc:23-78 | interpreting bytes is reading all opcodes and then running them |
| Rebase.StreamSize | src/core/rebase_info.cc:100-109 | the loop computes the space reserved |
| Rebase.EmitNode | src/core/rebase_info.cc:174-189 | one node writes its three opcodes and changes nothing else |
| Rebase.Emit | src/core/rebase_info.cc:163-171 | the loop with its running offset computes the pure emission |
| Rebase.SizeIsLength | src/core/rebase_info.cc:132-144 | in lockstep the size predicted from file offsets is the number of bytes written from vmaddrs |
| Rebase.StreamFitsIff | src/core/rebase_info.cc:168-170 | the stream with DONE fits its space exactly when the list is empty or has an active node |
| Rebase.EmitWritesStream | src/core/rebase_info.cc:163-189 | the emission is one contiguous stream ended by DONE |
| Rebase.EmittedReadsBack | src/core/rebase_info.cc:16-79 | re-parsing the emitted stream gives the active nodes in order, whatever else the file holds |
| Rebase.ReemissionSame | src/core/rebase_info.cc:163-189 | any valid program and its straight-line re-emission denote the same ordered list of addresses and types |
| Bind.BindInfo.Execute | src/core/dyldinfo.cc:76-147 | one opcode changes cursor and list as the language of bind programs says, as the code runs it |
| Bind.BindInfo.Parse | src/core/dyldinfo.cc:27-149 | the interpreter loop records exactly the denotation, or fails where it does |
| Bind.RunBinds | src/core/dyldinfo.cc:163-173 | a run binds consecutive words |
| Bind.SkipHonouredIff | src/core/dyldinfo.cc:138-143 | the skipping opcode binds the addresses it stands for exactly when it binds at most one or skips nothing |
| Bind.OrLow | src/core/dyldinfo.cc:297-298 | or-ing a four-bit operand into an opcode keeps both |
| BindStream.StreamSize | src/core/dyldinfo.cc:210-219 | the loop computes the space reserved |
| BindStream.EmitNode | src/core/dyldinfo.cc:284-332 | one node writes its opcodes, lazy or not, and changes nothing else |
| BindStream.WriteStream | src/core/dyldinfo.cc:273-281 | the loop with its running offset computes the pure emission |
| BindStream.SizeIsLength | src/core/dyldinfo.cc:222-257 | predicted sizes are the emitted ones, lazy and not |
| BindStream.StreamFitsIff | src/core/dyldinfo.cc:278-280 | the stream with DONE fits its space exactly when the list is empty or has an active node |
| BindStream.EmitWritesStream | src/core/dyldinfo.cc:273-332 | the emission is one contiguous stream ended by DONE |
| BindStream.LazyRoundTrip | src/core/dyldinfo.cc:27-149 | re-parsing the lazy stream records the active nodes with their addresses, ordinals, symbols and flags, type 0, and the index at which their opcodes start |
| BindStream.BuildIndices | src/core/dyldinfo.cc:384-388 | Build gives every node the cumulative size of the nodes before it |
| BindStream.RecordedAtStart | src/core/dyldinfo.cc:82 | the parser records each active node between those before it and those behind it, with the index Build gave it |
| BindStream.IndexSelectsNode | src/core/dyldinfo.cc:311-331 | reading from a node's index to its DONE binds that node and no other |
| BindStream.StubPushesIndex | src/core/stub_helper.cc:56-65 | the last four bytes of the emitted push are the index of the stub's binding |
| BindStream.StubSelectsBinding | src/core/stub_helper.cc:56-65 | the number a stub pushes leads the lazy binder to the opcodes of that stub's own binding |
| BindStream.PlainRoundTrip | src/core/dyldinfo.cc:289-310 | the non-lazy stream reads back with index 0 and each addend as its encoding is read unsigned |
| DyldOpcodes.RebaseBytes | src/core/rebase_info.cc:30-78 | which opcode, with which immediate, each byte 0x00 to 0x8f starts, in terms of its effect on an image |
| DyldOpcodes.RebaseNumbers | src/core/rebase_info.cc:30-78 | what the opcodes with numbers do: where the cursor goes and which pointers are slid |
| DyldOpcodes.RebaseBegins | src/core/rebase_info.cc:15-30 | a rebase stream begins with type 0 at address 0 |
| DyldOpcodes.BindBytes | src/core/dyldinfo.cc:76-148 | which opcode each byte of a bind stream starts |
| DyldOpcodes.BindNumbers | src/core/dyldinfo.cc:76-148 | what the opcodes with numbers do, skips and strides in bytes |
| DyldOpcodes.BindDoes | src/core/dyldinfo.cc:76-148 | each opcode's effect on cursor and bindings |
| DyldOpcodes.UnrolledSame | src/core/dyldinfo.cc:123-143 | the three compound binding opcodes equal programs of single binds and additions, the scaled one with the pointer size as its unit |
| ExportTrie.InfoReadsBack | src/core/export_info.cc:193-232 | regular, re-export and resolver information each reads back what it wrote |
| ExportTrie.FlagsTellKind | src/core/export_info.cc:70-82 | a flags byte with bit 3 is a re-export, without it and with bit 4 a resolver, anything else a regular symbol |
| ExportTrie.InfoBytes | src/core/export_info.cc:192-233 | the bytes of the three kinds, number by number |
| ExportTrie.RegularFindsBlob | src/core/export_info.cc:211-215 | the offset written for a symbol leads a reader of the output to the address of its blob |
| ExportTrie.Parse | src/core/export_info.cc:85-117 | the recursive reader with its running offset builds the trie the image denotes |
| ExportTrie.ParseExpands | src/core/export_info.cc:99-114 | on the image of any radix tree ParseNode builds its character trie |
| ExportTrie.ExpandDenotes | src/core/export_info.cc:107-113 | that trie maps a key to a value exactly when a chain of labels spells the key and ends at the value |
| ExportEmit.SpanWithinSize | src/core/export_info.cc:130-146 | bytes used never exceed NodeSize |
| ExportEmit.BoundsAre | src/core/export_info.cc:47-49 | the bounds of the prediction are those of the longest 64-bit number |
| ExportEmit.WriteSizedInfo | src/core/export_info.cc:156-171 | the fix-point loop ends after at most two passes with the true size written |
| ExportEmit.Write | src/core/export_info.cc:154-190 | the recursive writer computes the pure emission and returns where it ends |
| ExportEmit.EmitNodeEnd | src/core/export_info.cc:189 | the returned offset is the start plus the span of the trie |
| ExportRoundTrip.NodeEmitted | src/core/export_info.cc:154-190 | after EmitNode the whole trie stands in the image and nothing outside its predicted space was touched |
| ExportRoundTrip.EmittedParses | src/core/export_info.cc:85-117 | ParseNode on EmitNode's bytes rebuilds the same trie with the same values |
| ExportRoundTrip.ReemissionDenotes | src/core/export_info.cc:182-187 | re-emitting any radix tree with one-character edges keeps the map from names to values |
| FunctionStarts.Parse | src/core/linkedit.cc:43-66 | the loop reads exactly the denoted addresses and drops those outside all sections |
| FunctionStarts.ContentSize | src/core/linkedit.cc:69-79 | the size predicted is the number of bytes written, padding included |
| FunctionStarts.EmitContent | src/core/linkedit.cc:82-92 | deltas and zero padding, and nothing else in the image changes |
| FunctionStarts.ReadsBackIff | src/core/linkedit.cc:43-92 | ordered starts inside sections read back exactly when none behind the segment start is repeated and a list of nothing but that start has no padding |
| FunctionStarts.EntriesAreVmaddrs | src/core/linkedit.cc:43-75 | what is read for an entry is the address its file offset leads to |
| Tries.SetAtLookup | src/core/export_info.cc:107-113 | hanging a subtree under a path changes exactly the keys that extend the path |
| TrieMap.Map.Begin | include/core/trie.hh:127-140 | points to the first stored value, which is the end if the root itself holds one |
| TrieMap.Map.Next | include/core/trie.hh:20-47 | the stack walk moves to the next stored value or to the end |
| TrieMap.Map.Insert | include/core/trie.hh:71-91 | the emplace loop stores under a free key only, keeps every leaf valued, counts from the starting value, and returns an iterator at the key |
| TrieMap.Map.Erase | include/core/trie.hh:97-125 | removes the value and every node left without use, and returns where the pruning and the descent end |
| TrieMap.AdvanceFrom | include/core/trie.hh:20-47 | from a stored entry ++ leads to the entries after it and to no other |
| TrieMap.EntryIff | include/core/trie.hh:127-140 | a key is enumerated with a value exactly when it is stored with it |
| TrieMap.EntriesDistinct | include/core/trie.hh:20-47 | no key is enumerated twice |
| TrieMap.InsertedLookup | include/core/trie.hh:71-91 | an insertion changes its own key only, and only if it was free |
| TrieMap.InsertedLive | include/core/trie.hh:71-91 | an insertion leaves no leaf without a value |
| TrieMap.InsertedCount | include/core/trie.hh:83-87 | a successful insertion adds exactly one entry |
| TrieMap.PrunedLookup | include/core/trie.hh:97-115 | erase removes exactly one key |
| TrieMap.PrunedLive | include/core/trie.hh:102-113 | erase leaves no leaf without a value |
| TrieMap.PrunedEntries | include/core/trie.hh:97-115 | exactly one entry disappears and the others keep their order |
| TrieMap.PruneUpIs | include/core/trie.hh:102-113 | the upward loop with its stack computes the recursive pruning |
| TrieMap.EraseFirst | include/core/trie.hh:117-124 | erasing what begin points to leaves the iterator where the new begin is |
| TrieMap.Collect | include/core/trie.hh:20-47 | without an empty key, a pass from begin to end meets every stored key once, in preorder |
| TrieMap.Drain | include/core/trie.hh:97-125 | without an empty key, erasing from begin to end terminates with an empty trie and the count down by its entries |
| TrieMap.BeginCoversIff | include/core/trie.hh:127-140 | iteration meets every entry exactly when the empty key has no value |
| TrieMap.EraseMayStepBack | include/core/trie.hh:102-121 | erasing the last of two entries can return the first again |
| TrieMap.EraseStepsOnIff | include/core/trie.hh:97-125 | in every live trie erase returns the next entry exactly when the erased node keeps children, or its whole branch goes with it, or the branch is cut off in front of a later sibling |
| TrieMap.MappedLookup | include/core/trie.hh:161-176 | transform keeps every key and maps its value |
| Rebasify.HandleInstWithin | src/macho-tool/rebasify.cc:185-400 | every value the transfer functions produce stays among finitely many |
| Rebasify.RecordShrinks | src/macho-tool/rebasify.cc:113-132 | recording an unseen state at an address leaves fewer unseen ones |
| Rebasify.Analysis.Apply | src/macho-tool/rebasify.cc:333-374 | inserts the mov of the given number before the instruction, at its vmaddr, marks the displacement to clear and extends the rebase list |
| Rebasify.Analysis.Step | src/macho-tool/rebasify.cc:99-182 | every pass makes no visit and no edit, or one visit and its edit, and sees a new state or brings the worklist nearer to the end of the list |
| Rebasify.Analysis.Run | src/macho-tool/rebasify.cc:88-183 | the loop ends although it inserts into the list it walks; then the visits are the values that arrive, the list is the old one with their edits, and every instruction has been visited |
| Rebasify.TiledIsTidy | src/core/section.cc:74-79 | a section as parsed meets the invariant of the analysis |
| Rebasify.TraceVisit | src/macho-tool/rebasify.cc:113-132 | the first instruction handled at an address is the original one, never an inserted one |
| Rebasify.LoadIff | src/macho-tool/rebasify.cc:300-374 | the transfer function asks for a load exactly in state 2, past the rules for calls, frame slots, copies, zeroing and returns, with its target found: of the base register if it holds the thunk address, else of the second operand |
| Rebasify.EffectIsEdit | src/macho-tool/rebasify.cc:326-374 | what is done to list, displacements and rebase list is the edit that belongs to the visit |
| RebasifyEdits.MovStands | src/macho-tool/rebasify.cc:326-344 | for every visit of an instruction that uses the thunk address, a mov of the right number into the right register stands before it, with nothing but inserted instructions between |
| RebasifyEdits.OnlyAsked | src/macho-tool/rebasify.cc:326-344 | every inserted instruction is one that some visit of the instruction behind it asked for |
| RebasifyEdits.LiveIff | src/macho-tool/rebasify.cc:185-400 | a register holds the thunk address afterwards exactly if it did and is not lost, or is gained: by pop, frame load or copy; lost by call, ret, zeroing or overwriting |
| RebasifyEdits.ProgressIs | src/macho-tool/rebasify.cc:190-213 | call 0 starts over, pop behind it sets the thunk address to its own, ret ends it, nothing else changes either |
| RebasifyEdits.FrameIs | src/macho-tool/rebasify.cc:237-261 | the frame slot is the last one a register with the thunk address was stored to, until something else is or the function returns |
| RebasifyEdits.AbortsIff | src/macho-tool/rebasify.cc:218-241 | the analysis aborts exactly at a call with another register known, or at a use through one |
| RebasifyEdits.PopAfterCall | src/macho-tool/rebasify.cc:190-213 | pop r behind call 0 makes exactly r newly known, with the address of the pop |
| RebasifyEdits.AddressKeptIff | src/macho-tool/rebasify.cc:351-362 | the edited instruction addresses the byte it addressed, whatever its base register holds by now, exactly if the displacement was cleared or zero |
| RebasifyEdits.OwnIndexIff | src/macho-tool/rebasify.cc:351-362 | with the base register as its own index it does so exactly if the displacement times the scale vanishes |
| RebasifyEdits.OperandKeptIff | src/macho-tool/rebasify.cc:318-334 | a register operand is read as before exactly if it is not the base register too or the displacement is zero |
| RebasifyEdits.FirstUse | src/macho-tool/rebasify.cc:185-400 | an instance: call 0, pop ebx, mov eax, [ebx + 0x20] loads ebx with the address plus 0x20 |
| Rebasify.RebasifyText | src/macho-tool/rebasify.cc:88-183 | on any parsed section: termination; an abort only where a value arrives that an instruction aborts on; else the visits are exactly the values that arrive along the flow of control, the section is the old one with exactly the edits of these visits, and every original instruction was itself handled |
| RecordLayout.SizeOfStruct | src/abiconv/typeconv.cc:495-513 | the loop over the fields computes the recursive size |
| RecordLayout.AlignOfRecord | src/abiconv/typeconv.cc:521-540 | the loop computes the maximum of the capped field alignments |
| RecordLayout.AlignIndexIsLeast | include/abiconv/util.hh:41-48 | the least multiple not below an index, on either side of zero |
| RecordLayout.AbiSizes | src/abiconv/typeconv.cc:365-421 | the sizes of all scalar types on both sides are those of the two ABIs |
| RecordLayout.ArraySizes | src/abiconv/typeconv.cc:403-404 | every element adds its size to an array, which is aligned like its elements; pointers have the size of a word |
| RecordLayout.FieldsFit | src/abiconv/typeconv.cc:275-294 | fields are converted at aligned indices, in order, disjoint and inside the record's size, on both architectures |
| RecordLayout.LeavesFit | src/abiconv/typeconv.cc:275-294 | the layout each side has: every scalar at any depth of records and arrays, elements spaced by their own size, lies aligned, in order and inside |
| ConvertCode.CodeIff | src/abiconv/typeinfo.cc:134-135 | convert writes code for a type exactly when no long double and no empty array is to be converted, at any depth and behind any pointer |
| ConvertRun.IntRuns | src/abiconv/typeconv.cc:96-133 | a number moves through rax between any two operands, rsp-relative ones included, with the read and written widths of its kind, and rax is as before |
| ConvertRun.RealRuns | src/abiconv/typeconv.cc:135-156 | a real moves through xmm0, eight bytes below what was meant for an operand relative to rsp |
| ConvertRun.PointerRuns | src/abiconv/typeconv.cc:296-360 | around any code for the pointee: a new pointer stored and the pointee converted behind the old one, or the pointer left alone and the copy converted to where it points |
| ConvertRun.ArrayRuns | src/abiconv/typeconv.cc:224-273 | around any element: the loop runs its code once per element, with the registers a fixed step further each time, and all registers are as before |
| ConvertRun.CodeRuns | src/abiconv/typeconv.cc:163-222 | for every type the converter accepts the emitted code runs to its end, makes exactly the writes of `Moved`, and leaves every register, the stack pointer and the stack as they were |
| RecordConvert.ConvertedIff | src/abiconv/typeconv.cc:163-360 | for every plain type, both conversions of a call and any argument in memory: the code runs, writes what is wanted with the wanted widths in order and nothing else, exactly when no long double is to be converted and the type is sound |
| RecordConvert.WantedIsPairs | src/abiconv/typeconv.cc:275-294 | what is wanted of a type without converted pointers is each scalar of the one layout moved to its place in the other, first to last |
| RecordConvert.ThereAndBack | src/abiconv/abigen.cc:195-263 | if both conversions around a call are sound, the second reads every scalar the first wrote, behind pointers too, and writes it to where the first read it |
| RecordConvert.ForwardStraight | src/abiconv/typeconv.cc:163-294 | from i386 to x86_64 a type without converted pointers is converted scalar by scalar exactly unless a real outside arrays is moved relative to rsp |
| RecordConvert.LongDoubleStops | src/abiconv/typeinfo.cc:134-135 | no code for a long double nor for a pointer to a record with one |
| RecordConvert.PointerStays | src/abiconv/typeconv.cc:338-358 | on the way back a converted pointer itself is not written |
| RecordConvert.PointerLost | src/abiconv/typeconv.cc:311-321 | relative to r11 a new pointer is stored at the same displacement in the new data |
| RecordConvert.PointersShare | src/abiconv/typeconv.cc:258-266 | the pointers of an array of two get the same address |
| RecordConvert.HalfWritten | src/abiconv/typeconv.cc:120-127 | four of the eight bytes of an unsigned long are written |
| RecordConvert.RealTooLow | src/abiconv/typeconv.cc:139-144 | an instance: a double among the arguments on the stack is written eight bytes too low |
| ConvertRooms.RealMoved | src/abiconv/typeconv.cc:135-156 | a float or double is moved at its width, with either operand eight bytes too low exactly if it is relative to rsp |
| ConvertRooms.RoomsApart | src/abiconv/typeconv.cc:296-360 | every converted pointee has room of its own: aligned for its type, as big as it, in order and apart |
| ConvertRooms.PointersLead | src/abiconv/typeconv.cc:311-321 | the new pointers that are written lead to these rooms, one to each, in order |
| ConvertNumbers.NumberWritten | src/abiconv/typeconv.cc:96-133 | the code for a number makes one write: a long is sign-extended on the way to x86_64, everything else is copied at its i386 width |
| ConvertNumbers.NumberKeptIff | src/abiconv/typeinfo.cc:26-55 | from i386 to x86_64 the destination stands for the number read, whatever stood there, exactly for the kinds that are signed in C or do not get wider |
| ConvertNumbers.NumberFitsIff | src/abiconv/typeconv.cc:96-133 | back to i386 a number arrives exactly if i386 has it |
| ConvertNumbers.LongArgument | src/abiconv/typeconv.cc:106-115 | a long argument becomes one sign-extended qword and is wholly converted |
| RecordConvert.BackwardLongs | src/abiconv/typeconv.cc:264-265 | from x86_64 to i386 the second of two longs is read at 4 and written at 8 instead of the other way round |
| Converter.Conversion.ConvertInt | src/abiconv/typeconv.cc:96-133 | copies of the operands below the push; the stream grows by the code for the number, of which IntRuns and ConvertNumbers say what it does |
| Converter.Conversion.ConvertReal | src/abiconv/typeconv.cc:135-156 | copies below the push but the operands used; throws exactly at a long double |
| Converter.Conversion.ConvertPointer | src/abiconv/typeconv.cc:296-360 | the stream grows by the code for the pointer and its pointee and the data cursor by what they take, or it throws |
| Converter.Conversion.ConvertRecord | src/abiconv/typeconv.cc:275-294 | the walk with its two moving cursors writes the code of the record, or throws exactly when a field cannot be converted |
| Converter.Conversion.ConvertConstantArray | src/abiconv/typeconv.cc:224-273 | writes the loop around the code of one element, strides as written |
| Converter.Conversion.Convert | src/abiconv/typeconv.cc:163-222 | writes exactly the code of the type and moves the data cursor behind what it takes, or throws exactly when the type cannot be converted |
| Converter.Conversion.ConvertArgument | src/abiconv/abigen.cc:245-248 | the code just written does what is wanted from every state, exactly when the type is sound |
| RecordLayout.SameLeaves | src/abiconv/typeconv.cc:275-294 | both architectures see the same scalars in the same order |
| RecordLayout.SystemVLayout | src/abiconv/typeconv.cc:495-551 | on x86_64 the layout is that of section 3.1.2 of the System V AMD64 ABI and the last index rounded up is the size |
| RecordLayout.I386SizeExceedsWalk | src/abiconv/loc.cc:66-72 | an instance: an int followed by a long long is walked in 12 bytes and sized at 16 |
| RecordLayout.I386SizeIsWalkIff | src/abiconv/loc.cc:66-72 | for every record without sixteen-aligned members size and walk agree exactly when each member sized with eight-byte alignment lies at a multiple of eight |
| RecordLayout.I386SizeIsWalk | src/abiconv/loc.cc:66-72 | one way for every record: members at multiples of eight make size and walk agree |
| RecordLayout.SixteenSwallows | src/abiconv/loc.cc:66-72 | a long double behind a misplaced long long hides the difference |

## Left out

- Mapping and growing the file with mmap and ftruncate, fat files, the command line, printing: the image is a byte sequence that grows with zeros.
- XED and libclang: decoded instructions and C types are values; patching writes a four-byte little-endian field at a position the instruction carries.
- LinkForwards: archives whose blobs are all distinct objects, which PlacedDistinct proves of every parsed one.
- Simulation covers push r32, push m32, push imm, pop r32, call rel32, call r32, ret, relative jumps, mov r32 with a constant or a rebased address, inc and dec, and of the instructions that are copied unchanged the moves between a register and memory and lea; call through memory is rejected by the code. The eight-byte push and the jump of stub sections belong to the dynamic linker of the new system and have no i386 counterpart; StubCode says what they do.
- TranslationSimulates: files loaded below 4 GiB that span less than 2 GiB; with the default start address 0x100000000 of a 64-bit archive return addresses do not fit the 32-bit stack slots, and the program has to be moved lower first. The stack stays between 4 and 2^32 - 4 bytes (exact conditions in SimulateExact), the stack pointer is not the operand of push, pop or call, and operands do not wrap around 4 GiB.
- A placeholder inside a stub helper, between its push and its jump, is rejected like any other address that does not start a blob.
- Layout offsets and addresses are unbounded integers; wrap-around of 64-bit sums is modelled in the opcode interpreters, LEB128, the counters and the analysis.
- WrittenOut: the bytes of headers, commands and link-edit tables are given; the tables lie in the link-edit segment, which one DONE behind a table of size 0 can leave (see StreamFitsIff). An archive starts at file offset 0, where Emit puts the header whatever offset Build was given. Only segments mapped from the file as text or data are loaded; a segment that follows the link-edit segment would share its addresses.
- Builder.Segment.BuildLinkedit: the link-edit tables are one list of sizes in build order; symbol table, string table, code signature, data-in-code and weak bindings are copied bytes in the code and only sizes here.
- FinalIs and everything built on it up to Pipeline: sections placed anywhere, one PlaceAll each; that whole archives are placed so is in WholeArchive.
- Builder.Archive.Build: the counts in the header are inputs as sizes; numbers of libraries are not part of an archive here.
- Placeholders.Parse1: a blob that would reach past its section is an error at once; the original reads on until decoding fails.
- Link.EventsCoherent: the null announced for an immediate is not among the events; its effect, a pointer that stays null, is that of an unknown key.
- Link.TransformSection: immediates are not objects of their own, so neither the copies announced for them nor the null announced for a rebased one (src/core/instruction.cc:278) is among the calls; likewise for the two instructions inside a stub helper, the bind node a stub refers to, and the segment every copy asks for.
- Alignment of data sections raised to eight for 64 bits (src/core/section.cc:155-167): the alignments of the new segments are given.
- Parsing of the load commands, section flags and section names; which sections hold stubs is a flag.
- Relocation entries: their space is reserved and their start is proved, their content is a copy.
- ExportTrie.Parse: carries a depth bound, since an image whose edges form a cycle makes the original recurse for ever; on every finite tree a bound of its depth is enough, and the results hold for every larger one.
- Children of trie nodes are a list with new children at its end; the original's hash map enumerates them in an order of its own, which no result depends on.
- The trie counter starts from an arbitrary value, because the original leaves it uninitialised.
- LazyRoundTrip and PlainRoundTrip: nodes with library numbers, segment numbers and flags below 16 and names without a terminator inside, as one opcode byte can hold; padding behind the stream is zero, as in a file that was just grown.
- BIND_OPCODE_SET_DYLIB_ORDINAL_ULEB keeps the immediate and drops the number; the model does the same, and no result uses it.
- Order of errors: DO_BIND_ADD_ADDR_ULEB reads its number before binding in the model and after it in the code; both fail together.
- RebasifyText: the values that arrive are those of the code's own rules (LiveIff, FrameIs); whether a register named live holds the thunk address in every run of the program is not part of the model, and instructions that read it as anything but a base register or a second operand are not edited by the code.
- Rebasify.Analysis.Apply: items carry no bytes, so the displacement that xed_patch_disp zeroes in an instruction's bytes is recorded by the instruction's identity; what later steps look at is the decoded form, which is taken to stay as decoded.
- CodeRuns: memory has no contents: what is read is named by where it is, and nothing read is taken to have been overwritten by an earlier write, nor a pushed register by a write through an operand (a real written to [rsp+0..7] hits the saved xmm0; such a type is not sound anyway). Flags and the `movsd` pair around `xmm0` are one push and pop.
- ConvertedIff: arguments in memory; the first arguments of a call are in registers, where the same converter writes a register instead. Of a pointer only the four bytes that i386 has are read, in both directions.
- Converter.Conversion.ConvertConstantArray: arrays of 2^32 elements or more, whose length `mov ecx` cuts off.
- Converter.Conversion.ConvertRecord: unions and packed records, which the code sizes at 0, are outside.
- Converter.Conversion.ConvertPointer: types that contain themselves through a pointer, for which the generator does not stop; which pointees are to be ignored is part of the type.
- Immediates.JumpLeadsIff: the sections are read before the rebase table, as when the load commands of the segments come first.
- Stack data reservation and the printf conversion table of the ABI converter.
