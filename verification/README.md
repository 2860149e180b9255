# BoltsRebuilt protocols, modelled and proved in Dafny

BoltsRebuilt runs a console title's command stream on a desktop graphics API. Between the plumbing sit small protocols
whose correctness arguments live in comments: who owns each page of shared memory, when a cached answer may be used
again, how a listing with jumps becomes structured code, how two threads hand work to each other. This project models
those protocols and proves what the comments promise, for every input, every run and every interleaving of the steps
described below. Where the code does not keep a promise in full, the theorem carries the condition under which it does
and a concrete input shows that the condition matters.

Classes with fields and loops follow the objects and loops of the source; state machines follow its threads. A step of a
state machine is one section under a lock, or one load, store or read-modify-write of one word.

| file | component |
|---|---|
| `ShaderFlow.dfy` | forward jumps and early ends of a shader as flag-guarded straight-line code |
| `ConstantRuns.dfy`, `ConstantLayout.dfy` | constant spans: merged, numbered, printed, parsed, copied |
| `RangeBatch.dfy`, `RequestScan.dfy`, `RequestShortcut.dfy` | byte ranges of a request, the word scan that queues missing pages, and the mirror check before it |
| `PageFlags.dfy`, `PageAuthority.dfy`, `MirrorProtocol.dfy` | valid and GPU-written flags, their lock-free mirror, CPU-write callbacks |
| `Watches.dfy` | watched ranges: bucket lists, range lists and free lists in one storage |
| `UploadShadow.dfy`, `UploadProtocol.dfy` | the shadow of the last uploads, and the loop that skips matching pages |
| `Residency.dfy`, `ResidencyProtocol.dfy` | the command thread's page bitmap and its invalidation queue |
| `MappingTable.dfy` | the generation-tagged probing table |
| `AssetCache.dfy`, `AssetProtocol.dfy` | version stamps around a snapshot |
| `TextureBinding.dfy` | stable grouping of bindings and the memoized sampler |
| `PipelineKey.dfy`, `PipelineRegisters.dfy` | key normalization and the pipeline cache; the state a key asks for, against the builder on decoded registers |
| `ReplayWorker.dfy` | the one-slot replay worker |
| `PresentQueue.dfy` | the ring of presenter words |
| `WatchFastpath.dfy` | the read-only fast-path proofs of the watch loop |
| `Bits.dfy`, `Arithmetic.dfy`, `Wrappers.dfy` | words as sets of bits, quotients, absent values |

## Findings

- **A label named `__end`** (`ShaderFlow`). The translator stands the end of the shader for a label of that name, so a
  listing that has one after a block that ends the shader closes the guard too early. `LabelNamedEndBreaksIt` gives a
  three-block listing that is accepted and translated wrongly; `TranslationPreservesMeaning` covers every listing with
  no early end, and every listing in which no jump goes to such a label and none follows a block that ends the shader.
- **A failed upload after an invalidation** (`UploadProtocol`). A rejected publication leaves the old identity of the
  page in the shadow; only the retry at the end of the call removes it, and the early return on an allocation failure
  skips the retry. `LateFailureLosesBytes` is such a history. `CallFaithfulIff` says exactly which calls do harm: those
  that give up after copying other bytes over a page than the shadow claims, with nothing later in the call that
  publishes or invalidates that page. `SkippingLosesNothingIff` carries this over every history, in both directions.
- **Lookup tokens and generation wrap** (`MappingTable`). `StaleTokenLosesKey` is a run in which a token kept over a whole
  cycle of generations is accepted again and stores a key where no lookup finds it. `TokensHonoured` covers every run
  whose stores present tokens with fewer clears since than the generation tag tells apart, and
  `StoredKeyFoundIffIssued` says for exactly which tokens a store of a new key can be found afterwards.
- **Lost packets** (`PresentQueue`). The comment promises resynchronisation after a lost packet; `TwoLostTakesWrong` is a
  run in which two packets are lost in a row and the third takes another frame's word unnoticed. `AllOwnIffInStep`
  gives the exact runs in which every packet gets its own entry, whatever the tags, and `AlternatingIffCounted` says
  it in counts for two alternating tags: at most one packet lost in a row, unless dropping the oldest entries made up
  for it, and at most 16 outstanding.
- **The frame sweep** (`ResidencyProtocol`). It tells no watch, so it breaks the bitmap exactly where a marked page was
  not GPU-written (`SweepBreaksUnless`, with the run `SweepForgetsUploads`); the bitmap is right again only because the
  next frame's first draw empties it.

## Model

| member | source | states |
|---|---|---|
| ShaderFlow.TranslationPreservesMeaning | tools/ucode2hlsl.py:788-882 | for every accepted block list without a clashing label, every machine and every start state, the emitted flag-guarded lines end in the state the program-counter reading reaches |
| ShaderFlow.ConditionsAreGate | tools/ucode2hlsl.py:829-855 | the conditions collected for a block hold together exactly when its own predicate agrees and, for the conditional kinds, its condition does |
| ShaderFlow.SpelledIff | tools/ucode2hlsl.py:753-763 | a block can be spelled exactly when it has no condition or one that names p0 or a bool constant |
| ShaderFlow.LabelNamedEndBreaksIt | tools/ucode2hlsl.py:876-880 | an accepted listing with a label `__end` that runs a block the shader's end should have skipped |
| ShaderFlow.PlainNamesTranslate | tools/ucode2hlsl.py:808-882 | meaning is preserved for every accepted listing in which no label and no jump carries the name `__end`, or nothing acts after a block that ends the shader |
| ShaderFlow.EveryFlagDeclaredOnce | tools/ucode2hlsl.py:842-844 | every flag an emitted line tests or sets is declared, and none twice |
| ShaderFlow.EndsEarlyIff | tools/ucode2hlsl.py:815-818 | the end flag is used exactly when a jump or an instruction follows a block that ends the shader |
| ShaderFlow.RunGuarded | tools/ucode2hlsl.py:825-840 | lines nested under the open flags run as a whole exactly when no flag is set, and the braces balance |
| ShaderFlow.Simulate | tools/ucode2hlsl.py:819-882 | block by block, the emitted text is level with the program counter, or guarded by the one flag that is lifted where the counter stands |
| ShaderFlow.Translator.ValidateBlocks | tools/ucode2hlsl.py:788-806 | refuses exactly backward jumps, missing labels and instructions inside control-flow blocks, by the first label of a name |
| ShaderFlow.Translator.TranslateBody | tools/ucode2hlsl.py:808-882 | emits exactly the lines and flags the theorem speaks of, and refuses exactly unsupported conditions and rejected block lists |
| ConstantRuns.Runs | tools/ucode2hlsl.py:1106-1123 | at most eight sorted disjoint spans that begin and end at registers read and hold all of them; no closed gap is wider than an open one, and gaps above eight are closed only to get down to eight spans |
| ConstantRuns.ClosedIff | tools/ucode2hlsl.py:1110-1123 | neighbouring registers read lie in one span of the list exactly when no gap between spans is left between them |
| ConstantRuns.MergeTight | tools/ucode2hlsl.py:1118-1122 | closing the smallest gap keeps every closed gap at most as wide as every open one |
| ConstantRuns.PackedConstantMap | tools/ucode2hlsl.py:969-981 | numbers the registers of the spans from zero, back to back, and nothing else; no map and the full span when absolute numbering is kept |
| ConstantRuns.UsedAreNumbered | tools/ucode2hlsl.py:235-246 | every register read has a packed number that names its place in the span list |
| ConstantLayout.ParseBack | src/gpu/native/native_constant_layout.h:25-48 | a printed span list is read back whole exactly when every register is below 256, and refused otherwise |
| ConstantLayout.AcceptedIffBelow256 | tools/ucode2hlsl.py:1126-1131 | a shader's side-file line is accepted exactly when all registers it reads are below 256 |
| ConstantLayout.UnsignedBack | src/gpu/native/native_constant_layout.h:65-70 | a printed number is read back, unless it does not fit 32 bits |
| ConstantLayout.NativeConstantLayoutMetadata.SetRuns | src/gpu/native/native_constant_layout.h:25-48 | takes the whole list and its register total, or nothing, and only once |
| ConstantLayout.NativeConstantLayoutMetadata.SetUpperBound | src/gpu/native/native_constant_layout.h:18-24 | takes one bound up to 256 once; any other attempt marks the metadata invalid and changes nothing else |
| ConstantLayout.CopiedAt | src/gpu/native/native_geometry_pass.cpp:1205-1221 | after the copy, packed register k holds the sixteen bytes of the guest register the span list names |
| ConstantLayout.NativePixelConstantPacket.Build | src/gpu/native/native_constant_reuse.h:27-62 | builds exactly when every byte has a source; then bools, swizzles, samplers and registers stand at their offsets, and every run at its place |
| ConstantLayout.PacketLaidOut | src/gpu/native/native_constant_reuse.h:44-61 | the same of the packet as a value, part by part: zeros without bools or source, the whole file when nothing is packed |
| ConstantLayout.CheckRuns | src/gpu/native/native_constant_reuse.h:36-45 | the runs stay within the register file and add up to the packed count, decided without overflow |
| ConstantLayout.RegistersArrive | src/gpu/native/native_geometry_pass.cpp:1205-1221 | end to end: the line is accepted, the packet is built, and the packed number of every register read finds that register's bytes |
| ConstantLayout.RegistersInPacket | src/gpu/native/native_constant_reuse.h:49-61 | down to the packet: byte j of the packed register is byte j of the guest register, behind the 192 header bytes |
| ConstantLayout.AbsoluteArrives | tools/ucode2hlsl.py:973-974 | with absolute numbering the copy is the whole register file unchanged |
| ConstantLayout.ReadLines | src/gpu/native/native_shader_library.cpp:114-148 | a side file's two lines are accepted exactly when both are readable, the bound is at most 256, and an empty span list comes with bound zero |
| ConstantLayout.BothAcceptedIff | tools/ucode2hlsl.py:1099-1131 | the two lines written for a shader are accepted together exactly when every register it reads is below 256 |
| ConstantLayout.NothingToUpload | src/gpu/native/native_constant_layout.h:49-58 | a shader that reads no register prints an accepted empty list and uploads no register |
| ConstantLayout.NativePixelConstantReuse.Find | src/gpu/native/native_constant_reuse.h:81-86 | answers the published address exactly for the same frame and the same bytes |
| ConstantLayout.NativePixelConstantReuse.BuildCandidate | src/gpu/native/native_constant_reuse.h:98-106 | building or failing to build never changes what is published |
| ConstantLayout.NativePixelConstantReuse.PublishCandidate | src/gpu/native/native_constant_reuse.h:111-116 | publishes the candidate's bytes, or keeps both when there is no address |
| RangeBatch.CanonicalUnique | src/gpu/native/native_range_batch.h:68-82 | a separated list is determined by the bytes it covers, so the unspecified order of equal starts and the storage used cannot matter |
| RangeBatch.NativeRangeBatch.Build | src/gpu/native/native_range_batch.h:50-84 | refuses exactly batches with a non-empty range past the limit; otherwise the sorted, separated list of exactly the requested bytes |
| RangeBatch.MergeSorted | src/gpu/native/native_range_batch.h:69-82 | merging in place keeps the bytes and leaves a gap between ranges |
| RangeBatch.SingleAgreesWithBatch | src/gpu/native/native_range_batch.h:31-41 | the one-range shortcut gives the list and the refusal the batch would |
| RangeBatch.AppendUploadPageRange | src/gpu/native/native_range_batch.h:102-118 | covers the added pages and no others, counts exactly the pages already there, and keeps the order |
| RequestScan.UploadScan.RequestRanges | src/gpu/vendored/src/graphics/shared_memory.cpp:561-760 | queues exactly the invalid pages touched by non-empty ranges, ascending, each once in optimize mode, or nothing when the mirror answers; refuses exactly ranges past the limit and missing backing |
| RequestScan.UploadScan.RequestMerged | src/gpu/vendored/src/graphics/shared_memory.cpp:589-733 | the same for merged ranges: the mirror's answer first, then the backing, then the scan |
| RequestShortcut.RequestThroughMirror | src/gpu/vendored/src/graphics/shared_memory.cpp:602-618 | with every mirrored page valid, the check is true exactly when all pages are mirrored, and then the scan would have queued nothing |
| RequestShortcut.MirroredIsPresent | src/gpu/native/native_shared_residency_mirror.h:60-75 | no page of a range whose pages are all mirrored is missing |
| RequestScan.UploadScan.ScanRange | src/gpu/vendored/src/graphics/shared_memory.cpp:643-705 | one span adds exactly its invalid pages, with the run left open at its end |
| RequestScan.UploadScan.ScanWord | src/gpu/vendored/src/graphics/shared_memory.cpp:675-700 | the inner loop terminates and leaves nothing before the next word but the pages of an open run |
| RequestScan.FirstValid | src/gpu/vendored/src/graphics/shared_memory.cpp:683-693 | the bit that closes a run is the first valid page after its start, also when the run began in an earlier word |
| RequestScan.MissingGrows | src/gpu/vendored/src/graphics/shared_memory.cpp:643-648 | a byte range touches exactly the pages of its page span |
| PageFlags.SectionSteady | src/gpu/vendored/src/graphics/shared_memory.cpp:241-285 | from consistent flags, the mirror stays inside the valid pages after every single update of every section, and all is consistent at its end |
| PageFlags.ValidatingSafe | src/gpu/vendored/src/graphics/shared_memory.cpp:455-468 | the updates of making a span valid keep the mirror inside the valid pages, word by word |
| PageFlags.InvalidatingSafe | src/gpu/vendored/src/graphics/shared_memory.cpp:912-933 | the same for a CPU-write invalidation |
| PageFlags.InvalidateAllSafe | src/gpu/vendored/src/graphics/shared_memory.cpp:241-252 | clears every page of every vector, the mirror first |
| PageFlags.FrameSweepSafe | src/gpu/vendored/src/graphics/shared_memory.cpp:254-261 | leaves exactly the GPU-written pages valid and none mirrored |
| MirrorProtocol.MirrorIsHonest | src/gpu/native/native_shared_residency_mirror.h:32-75 | in every interleaving every mirrored page is valid, every GPU-written page is valid when the lock is free, and a true check was right when it read its first word |
| MirrorProtocol.StepKeeps | src/gpu/native/native_shared_residency_mirror.h:38-46 | one update or one read by any thread keeps the mirror inside the valid pages and the reader's evidence |
| MirrorProtocol.SpanAnswered | src/gpu/native/native_shared_residency_mirror.h:66-73 | the words checked for a page span vouch for every page of it |
| PageAuthority.NativeSharedResidencyMirror.Contains | src/gpu/native/native_shared_residency_mirror.h:60-75 | true exactly when the mirror is in use and every range has bytes, all of them inside the buffer and in mirrored pages |
| PageAuthority.NativeSharedResidencyMirror.PromoteValidWord | src/gpu/native/native_shared_residency_mirror.h:79-86 | adds exactly the valid requested bits of one existing word, and nothing once disabled |
| PageAuthority.NativeSharedResidencyMirror.ClearPages | src/gpu/native/native_shared_residency_mirror.h:92-98 | clears exactly the span's pages that exist |
| PageAuthority.NativeSharedResidencyMirror.Disable | src/gpu/native/native_shared_residency_mirror.h:106-109 | clears every word and stays disabled |
| PageAuthority.MakeValidEffect | src/gpu/vendored/src/graphics/shared_memory.cpp:442-471 | exactly the span becomes valid, GPU-written as asked, and unmirrored; all other pages keep their flags |
| PageAuthority.InvalidateEffect | src/gpu/vendored/src/graphics/shared_memory.cpp:912-933 | exactly the span loses all three flags |
| PageAuthority.WholeSections | src/gpu/vendored/src/graphics/shared_memory.cpp:241-261 | the two whole-vector methods do what their update lists do |
| PageAuthority.SharedPages.MakeRangeValid | src/gpu/vendored/src/graphics/shared_memory.cpp:442-471 | exactly the pages holding a byte of the range inside the buffer become valid, GPU-written as asked and unmirrored, by the update list of that span |
| PageAuthority.SharedPages.SpanTouches | src/gpu/vendored/src/graphics/shared_memory.cpp:446-449 | a page is in the span of a byte range exactly when it holds one of its bytes inside the buffer |
| PageAuthority.SharedPages.MemoryInvalidationCallback | src/gpu/vendored/src/graphics/shared_memory.cpp:850-939 | every page holding a byte of the request loses its flags and lies in the returned extent; the extent holds no other GPU-written page, nothing outside it changes, and an exact request forgets nothing more |
| PageAuthority.CallbackPagesAre | src/gpu/vendored/src/graphics/shared_memory.cpp:868-903 | without the cap the widest pages that spare what the GPU wrote, with it those in the 64 KiB blocks of the request, and just the request when it is exact |
| PageAuthority.SharedPages.InvalidateAllPages | src/gpu/vendored/src/graphics/shared_memory.cpp:241-252 | all vectors end up empty |
| PageAuthority.SharedPages.SetSystemPageBlocksValidWithGpuDataWritten | src/gpu/vendored/src/graphics/shared_memory.cpp:254-261 | valid becomes the GPU-written vector, the mirror empty |
| PageAuthority.WidenExactly | src/gpu/vendored/src/graphics/shared_memory.cpp:868-890 | the widened part has no GPU-written page and stops only at a 64-page block's end or at a GPU-written page |
| PageAuthority.CapExactly | src/gpu/native/native_invalidation_range.h:19-29 | the cap keeps every requested page, adds none, and drops exactly what lies outside the request's 64 KiB blocks |
| PageAuthority.CallbackSpares | src/gpu/vendored/src/graphics/shared_memory.cpp:868-903 | outside the request no GPU-written page is invalidated, nothing leaves its blocks, and the cap holds |
| Watches.OneNodePerBucket | src/gpu/vendored/include/rex/graphics/shared_memory.h:227-258 | a registered range has a node in a bucket exactly when it spans it, and never two |
| Watches.FreeIsApart | src/gpu/vendored/include/rex/graphics/shared_memory.h:262-272 | free nodes are in no bucket and free ranges are not registered |
| Watches.NothingLeaks | src/gpu/vendored/include/rex/graphics/shared_memory.h:227-272 | every node is on the free list or in exactly one bucket, and every range is free or registered |
| Watches.LinkKeeps | src/gpu/vendored/src/graphics/shared_memory.cpp:350-375 | linking the next node of a range keeps all lists, links and free lists |
| Watches.UnlinkKeeps | src/gpu/vendored/src/graphics/shared_memory.cpp:480-498 | unlinking a node keeps the rest of the structure |
| Watches.PushFrontChained | src/gpu/vendored/src/graphics/shared_memory.cpp:369-375 | a node put in front of a bucket leaves links that agree both ways |
| Watches.TakeOutChained | src/gpu/vendored/src/graphics/shared_memory.cpp:483-493 | a node taken out leaves links that agree both ways |
| Watches.WatchTable.WatchMemoryRange | src/gpu/vendored/src/graphics/shared_memory.cpp:314-378 | registers exactly the clipped page span under a handle not in use; an outside range registers nothing |
| Watches.WatchTable.UnlinkWatchRange | src/gpu/vendored/src/graphics/shared_memory.cpp:480-500 | every bucket loses just the range's node, and every other registration stays |
| Watches.WatchTable.UnwatchMemoryRange | src/gpu/vendored/src/graphics/shared_memory.cpp:380-383 | unregisters exactly the handle |
| Watches.MeetsIffShares | src/gpu/vendored/src/graphics/shared_memory.cpp:407 | the test of the walk holds exactly when some watched page is among the given ones |
| Watches.WatchTable.FireWatches | src/gpu/vendored/src/graphics/shared_memory.cpp:385-414 | calls every range that shares a page with the given ones exactly once, with its own data, unregisters them all and keeps every other range |
| Watches.WatchTable.FireBucket | src/gpu/vendored/src/graphics/shared_memory.cpp:399-413 | the walk over one bucket survives the unlinking of the node it stands on and leaves no meeting range there |
| UploadShadow.TokensRetire | src/gpu/native/native_upload_shadow.cpp:37-44 | a token read before any invalidation, reset or initialization is never admitted again, also when the epoch saturates |
| UploadShadow.Shadow.Initialize | src/gpu/native/native_upload_shadow.cpp:9-35 | succeeds exactly for valid geometry, with memory and epochs left, and then starts with an empty ring; a failure leaves no storage; either way nothing is claimed |
| UploadShadow.GeometryOkIff | src/gpu/native/native_upload_shadow.cpp:15-18 | the valid geometries: a page of 4, 8, 16, 32 or 64 KiB and a whole number of pages up to 512 MiB |
| UploadShadow.Shadow.Reset | src/gpu/native/native_upload_shadow.cpp:46-51 | claims nothing, empties the ring and retires the token |
| UploadShadow.Shadow.Invalidate | src/gpu/native/native_upload_shadow.cpp:53-62 | forgets exactly the pages the inclusive byte span touches, or everything when epochs run out |
| UploadShadow.Shadow.Matches | src/gpu/native/native_upload_shadow.cpp:71-77 | true exactly for a full aligned page whose claimed bytes are the given ones |
| UploadShadow.Shadow.NamesIff | src/gpu/native/native_upload_shadow.cpp:64-69 | a request names a page exactly when it begins where a page does and is as long |
| UploadShadow.Shadow.Publish | src/gpu/native/native_upload_shadow.cpp:79-99 | accepted exactly with a live token and a full page; a page new to the ring replaces the oldest, which is counted as evicted, and no other claim changes |
| UploadProtocol.CaptureAgreesIff | src/gpu/vendored/src/graphics/d3d12/shared_memory.cpp:508-531 | after a capture GPU memory equals copying everything exactly when no skipped page was stale |
| UploadProtocol.StepStale | src/gpu/vendored/src/graphics/d3d12/shared_memory.cpp:568-594 | exactly which claims are wrong after a step: a copy of other bytes makes one wrong, and only a publication, an invalidation, a reset or an equal copy ends that |
| UploadProtocol.RunStale | src/gpu/vendored/src/graphics/d3d12/shared_memory.cpp:474-597 | exactly which claims are wrong after any run of events |
| UploadProtocol.CallKeepsFaith | src/gpu/vendored/src/graphics/d3d12/shared_memory.cpp:598-637 | a call that completes, or fails before any invalidation, leaves every claim true and nothing lost |
| UploadProtocol.CallFaithfulIff | src/gpu/vendored/src/graphics/d3d12/shared_memory.cpp:490-637 | a call leaves every claim true exactly when it does not give up on a page it copied other bytes over and neither published nor invalidated since |
| UploadProtocol.SafeIffNothingStale | src/gpu/vendored/src/graphics/d3d12/shared_memory.cpp:508-531 | whatever is captured next, skipping agrees with copying exactly when no claim is wrong |
| UploadProtocol.SkippingLosesNothingIff | src/gpu/vendored/src/graphics/d3d12/shared_memory.cpp:458-637 | over every history skipping agrees with copying at every point, whatever is captured there, exactly when no call does harm |
| UploadProtocol.LateFailureLosesBytes | src/gpu/vendored/src/graphics/d3d12/shared_memory.cpp:490-493 | a call that fails after an invalidation lets the next one skip a page GPU memory does not hold |
| UploadProtocol.ClassifyUploadPages | src/gpu/native/native_upload_shadow_compare.h:19-40 | splits a chunk into matched and changed pages exactly, and captures only the changed ones in direct mode |
| UploadProtocol.CopyRuns | src/gpu/vendored/src/graphics/d3d12/shared_memory.cpp:560-568 | copies exactly the changed pages, in ascending runs that cannot be longer |
| Residency.ResidencyCache.Covers | src/gpu/native/native_geometry_pass.cpp:248-261 | true exactly when the range has bytes, lies in shared memory, and every page holding one of them is marked |
| Residency.ResidencyCache.Add | src/gpu/native/native_geometry_pass.cpp:263-267 | marks exactly the pages holding a byte of the range, or none for a range that runs past the end |
| Residency.ResidencyCache.ClearAddressRange | src/gpu/native/native_geometry_pass.cpp:270-276 | clears exactly the pages holding a byte of the inclusive bounds |
| Residency.PendingInvalidations.ResidencyInvalidated | src/gpu/native/native_geometry_pass.cpp:323-334 | queues the span, or records the overflow past 256, and raises the signal |
| Residency.PendingInvalidations.Drain | src/gpu/native/native_geometry_pass.cpp:337-361 | removes exactly the queued pages, or all on overflow, and empties the queue |
| ResidencyProtocol.BitmapIsHonest | src/gpu/native/native_geometry_pass.cpp:1291-1337 | in every run from an empty bitmap a marked page of the frame is valid or its invalidation is on the way, and valid right after a drain |
| ResidencyProtocol.SweepForgetsUploads | src/gpu/native/native_geometry_pass.cpp:1294-1304 | a run from the start after which a marked page is neither valid nor due to be dropped |
| ResidencyProtocol.RequestMarks | src/gpu/native/native_geometry_pass.cpp:1305-1337 | a draw that uploads what it asked for leaves all of it marked |
| ResidencyProtocol.MarksStay | src/gpu/native/native_geometry_pass.cpp:1291-1337 | within a frame, as long as nobody invalidates, no draw takes a mark away |
| ResidencyProtocol.SweepBreaksUnless | src/gpu/native/native_geometry_pass.cpp:1294-1304 | after the silent frame sweep the bitmap is right exactly where pages were GPU-written or due; the next draw empties it |
| MappingTable.ProbeCorrect | src/gpu/native/native_asset_mapping_table.h:40-59 | probing finds exactly the keys of the map the table stands for, and stops at a place to store |
| MappingTable.AbsentBeyond | src/gpu/native/native_asset_mapping_table.h:44-58 | a key is in no live cell once its probe path ends |
| MappingTable.StoreIsMapUpdate | src/gpu/native/native_asset_mapping_table.h:61-71 | an accepted store is a map update that keeps keys distinct and reachable |
| MappingTable.StoredKeyFoundIffIssued | src/gpu/native/native_asset_mapping_table.h:61-71 | for exactly which tokens a stored key is found again |
| MappingTable.TokensHonoured | src/gpu/native/native_asset_mapping_table.h:38-80 | after every run whose stores present tokens younger than a cycle, lookups answer as the map of accepted stores, the live cells are as many as its keys, and every such token still fits |
| MappingTable.StaleTokenLosesKey | src/gpu/native/native_asset_mapping_table.h:61-80 | a run in which a token kept over one cycle of a three-valued generation is accepted and its key cannot be found |
| MappingTable.StoreGrows | src/gpu/native/native_asset_mapping_table.h:67-69 | the size grows exactly when the key was new |
| MappingTable.ClearRetiresTokens | src/gpu/native/native_asset_mapping_table.h:73-80 | tokens from before a clear are refused after it |
| MappingTable.Table.Find | src/gpu/native/native_asset_mapping_table.h:40-59 | probes as specified, and answers as the map whenever the table stands for one, also across a generation wrap |
| MappingTable.Table.Store | src/gpu/native/native_asset_mapping_table.h:61-71 | for any token: accepts it exactly by slot, generation and key, writes that one cell or nothing, and keeps the table a map when the token fits |
| MappingTable.Table.Clear | src/gpu/native/native_asset_mapping_table.h:73-80 | empties the map whatever was stored before, sweeps the tags exactly when the generation wraps, and says so |
| AssetCache.InvalidationRaises | src/gpu/native/native_asset_cache.cpp:106-121 | a newer stamp on any page of a span raises the span's version |
| AssetCache.PageVersions.Invalidated | src/gpu/native/native_asset_cache.cpp:106-114 | stamps exactly the touched pages with one new version |
| AssetCache.PageVersions.Version | src/gpu/native/native_asset_cache.cpp:115-121 | the largest version of the span's pages |
| AssetCache.AssetPack.Match | src/gpu/native/native_asset_cache.cpp:298-307 | finds an asset with exactly the snapshot's bytes whenever there is one; the fingerprint decides nothing |
| AssetProtocol.BindingIsCurrent | src/gpu/native/native_asset_cache.cpp:246-332 | in every interleaving, an asset answer means each page held its contents, guarded, when its version was read last, for fresh and remembered answers |
| AssetProtocol.OthersKeepVouching | src/gpu/native/native_asset_cache.cpp:106-114 | stamps, writes and protection by other threads keep what a version vouches for |
| AssetProtocol.InvalidatedNeverConcludes | src/gpu/native/native_asset_cache.cpp:298-332 | in every interleaving, an invalidation of a page of the range that ends after the snapshot and before that page's version is read again makes the answer nothing, and nothing is remembered |
| AssetProtocol.UndisturbedResolves | src/gpu/native/native_asset_cache.cpp:246-332 | a resolution nobody disturbs runs to its end, answers with the asset that matched, and remembers it |
| AssetProtocol.UndisturbedRemembers | src/gpu/native/native_asset_cache.cpp:266-284 | in the same frame the next one answers the same from memory |
| AssetProtocol.InvalidationEnds | src/gpu/native/native_asset_cache.cpp:106-114 | an invalidation runs to its end: exactly its pages carry the new stamp and can be written |
| TextureBinding.Group | src/gpu/native/native_texture_binding_cache.h:161-176 | the counting sort puts each constant's bindings, in order, into its range |
| TextureBinding.FillOne | src/gpu/native/native_texture_binding_cache.h:172-175 | placing one binding extends its group and disturbs no other |
| TextureBinding.AgreedIsOriginal | src/gpu/nb_command_processor.cpp:1821-1830 | agreeing over one constant's list equals the original loop over all bindings, with its early stop |
| TextureBinding.NativeTextureBindingCache.Prepare | src/gpu/native/native_texture_binding_cache.h:77-116 | plans exactly the shaders within the limits, under one epoch, and forgets all on a new one |
| TextureBinding.NativeTextureBindingCache.PlanLists | src/gpu/native/native_texture_binding_cache.h:55-65 | a plan's lists are the order-preserving filters of the live bindings |
| TextureBinding.NativeTextureBindingCache.ResolveSampler | src/gpu/native/native_texture_binding_cache.h:124-151 | the memoized answer equals rerunning the original loop over the live bindings, and is remembered for exactly this state of this constant |
| PipelineKey.NormalizedDescribesTheSame | src/gpu/native/native_geometry_pass.cpp:747-852 | the pipeline state, with the both-faces-culled refusal, is the same for a key and its normalized key |
| PipelineKey.NormalizedTwice | src/gpu/native/native_pipeline_key.h:17-72 | normalizing twice is normalizing once |
| PipelineKey.SharedKeysShareState | src/gpu/native/native_pipeline_key.h:3-5 | keys that normalize alike ask for the same state |
| PipelineRegisters.PackedDescribesTheBuild | src/gpu/native/native_geometry_pass.cpp:747-852 | reading the raw words of packed registers gives the state the builder fills in from the registers, field by field |
| PipelineRegisters.SameKeyIffSameState | src/gpu/native/native_pipeline_key.h:17-72 | two keys normalize alike exactly when they ask for the same state, unless refused or one spells out a back face the other copies |
| PipelineKey.NormalizeNativePipelineKey | src/gpu/native/native_pipeline_key.h:17-72 | replaces the words in place and reports exactly whether one changed |
| PipelineKey.PipelineCache.GetPipeline | src/gpu/native/native_geometry_pass.cpp:643-686 | returns what is filed under the key used once finished creations are filed, always built from the requested state; asks for a key that is nowhere when a slot is free; loses nothing; however normalization and the memo are switched |
| PipelineKey.FinishedIsDrawn | src/gpu/native/native_geometry_pass.cpp:665-679 | once a creation has finished, whatever draws and finishes follow, every draw with its key gets just that pipeline |
| PipelineKey.PipelineCache.CreatePipeline | src/gpu/native/native_geometry_pass.cpp:796-935 | files the refusal at once, or the creation when a slot is free |
| PipelineKey.PipelineCache.ReapPipelines | src/gpu/native/native_geometry_pass.cpp:943-959 | files exactly the finished creations with their outcomes, and keeps everything else |
| ReplayWorker.SessionsReachTheQueue | src/gpu/native/native_replay_worker.cpp:37-213 | in every interleaving each session but the last reached the queue as one list of its chunks in order and one signal; the last issued none, its list, or both |
| ReplayWorker.FailedNeverSignals | src/gpu/native/native_replay_worker.cpp:185-213 | a failed session never signals and submits at most its whole list |
| ReplayWorker.FailureIsFinal | src/gpu/native/native_replay_worker.cpp:174-176 | after a latched failure nothing more is accepted, executed or signalled |
| ReplayWorker.SlotIsFrozen | src/gpu/native/native_replay_worker.cpp:62-130 | the stream and the session's references stay put while queued or running |
| ReplayWorker.StepKeeps | src/gpu/native/native_replay_worker.cpp:37-213 | every step of either thread keeps the account of what each session has issued |
| ReplayWorker.NativeReplayWorker.StartJob | src/gpu/native/native_replay_worker.cpp:62-91 | takes the stream exactly when the worker is idle, without session or failure, and the fence value is usable |
| ReplayWorker.NativeReplayWorker.AppendChunk | src/gpu/native/native_replay_worker.cpp:100-114 | reaps first, then takes the chunk exactly when the session can go on |
| ReplayWorker.NativeReplayWorker.FinishSession | src/gpu/native/native_replay_worker.cpp:116-130 | takes the last chunk exactly when the session is open and idle |
| ReplayWorker.NativeReplayWorker.ExecuteJob | src/gpu/native/native_replay_worker.cpp:185-213 | makes the calls of the step machine in order and succeeds exactly when all of them do |
| PresentQueue.AllOwnIffInStep | src/ultrawide/nb_ultrawide.cpp:275-308 | over every run, whatever the tags, each packet takes the entry pushed for it exactly when the two sides stay in step |
| PresentQueue.AlternatingIffCounted | src/ultrawide/nb_ultrawide.cpp:275-285 | with two alternating tags staying in step is counting lost packets and outstanding pushes |
| PresentQueue.NoTwoLost | src/ultrawide/nb_ultrawide.cpp:275-285 | with no two packets in a row lost and at most 16 pushes outstanding, every packet gets its own word |
| PresentQueue.TwoLostTakesWrong | src/ultrawide/nb_ultrawide.cpp:275-308 | a run with two packets lost in a row in which the third takes the first push's word |
| PresentQueue.NothingLost | src/ultrawide/nb_ultrawide.cpp:147-175 | without lost packets and with at most 16 outstanding every packet gets its own word, whatever is presented again |
| PresentQueue.RepresentedWord | src/ultrawide/nb_ultrawide.cpp:171-175 | a frame presented again shares its tag and word, and any of its packets gets that word while its first push is the first queued one with the tag |
| PresentQueue.AgainIsTheSame | src/ultrawide/nb_ultrawide.cpp:147-175 | presenting the last frame again, any number of times and between any packets, pushes its very entry again |
| PresentQueue.RunRemembers | src/ultrawide/nb_ultrawide.cpp:157 | over every run the queue remembers the word pushed last |
| PresentQueue.TakesOwnIff | src/ultrawide/nb_ultrawide.cpp:286-308 | a packet takes its own entry exactly when that is still queued and the first queued one with its tag |
| PresentQueue.PresentRing.PushPresent | src/ultrawide/nb_ultrawide.cpp:147-157 | appends, dropping the oldest of a full ring |
| PresentQueue.PresentRing.TakePresent | src/ultrawide/nb_ultrawide.cpp:286-312 | takes the first entry with the tag, else the oldest, else repeats the last or latched word |
| WatchFastpath.AllNotificationPagesWatched | src/runtime/watch_fastpath.h:17-52 | accepts exactly when the guards hold and every page of the span is watched |
| WatchFastpath.AllGuestPagesImmutable | src/runtime/watch_fastpath.h:63-95 | accepts exactly when the guards hold and the guest page of every host page is immutable |
| WatchFastpath.VisitedIsImage | src/runtime/watch_fastpath.h:82-91 | the guest indices visited are exactly those the 32-bit loop computes, and all lie in the table |
| WatchFastpath.GuestIndexIs | src/runtime/watch_fastpath.h:76-88 | the guest page of a host page is the one whose bounds hold its first byte, less the offset and not below zero, with and without the 32-bit product |
| WatchFastpath.NothingWraps | src/runtime/watch_fastpath.h:31-41 | with the guards met no product of the span wraps and every guest index is in the table |

## Left out

- ShaderFlow.TranslationPreservesMeaning: the condition on the label name goes one way, because which of the listings that break it go wrong depends on whether the paths through their conditions can be taken; instructions are opaque, and a block of the `exec_end` kind, which the parser accepts and the translator handles like `exec`, is not named.
- Watches.WatchTable.FireWatches: callbacks do not edit the lists, as the header demands of them; global watches and the chunks storage grows by are not modelled, and the bucket of a page is its number divided by the pages in a bucket.
- UploadProtocol.SkippingLosesNothingIff: a call captures each page at most once, as its merged ranges promise in optimize mode; the pages of a chunk are steps of their own, and the epochs of a retry's several ranges are one step.
- UploadShadow.Shadow.Publish: the bytes of each slot's region are one entry of a list, so a copy across a region's border cannot be expressed.
- MappingTable.Table.Find: the mask to a power of two is a remainder, and returned pointers are values.
- AssetProtocol.BindingIsCurrent: a page's contents are one value, the mapping table is the finite map it was shown to be, and writing a watched page is assumed to run the invalidation first.
- ResidencyProtocol.BitmapIsHonest: the sweep at a frame's end is assumed to come with the reset, as the one setting that controls both makes it.
- PipelineKey.NormalizedDescribesTheSame: the SDK's register layouts and blend enumerations are not part of this model; field positions are those the masks name and the enumerations are arbitrary maps. Shader blobs and the fields that never depend on the key are constants and left out.
- PageAuthority.NativeSharedResidencyMirror.PromoteValidWord: the count of newly set bits, a statistic, is not returned.
- PageAuthority.SharedPages.MemoryInvalidationCallback: firing the watches is a call of `Watches.WatchTable.FireWatches` and not repeated here; the same holds of the other sections that fire them.
- PageAuthority.SharedPages.MakeRangeValid: switching on the physical access callbacks is part of page protection.
- RequestScan.UploadScan.RequestRanges: 32-bit starts and lengths are naturals, which is exact because the source compares without wrap; the upload itself and sparse allocation are outside.
- ReplayWorker.NativeReplayWorker.StartJob: references and pipeline handles are opaque, so the refusals for null or unresolved ones are not modelled; the same holds of the other two chunk calls.
- ReplayWorker.SessionsReachTheQueue: the replay state carried between chunks is part of the opaque recorded commands, and stopping the thread is not modelled.
- TextureBinding.NativeTextureBindingCache.Prepare: the 16-bit counters are naturals, which the limits of 255 and 127 make exact.
- ConstantRuns.Runs: the registers read come sorted; sorting a set is not modelled.
- Shared-memory creation, physical page protection, upload buffers and resource transitions.
- Instruction translation, texture fetches and text emission of the shader translator.
- Compile-slot admission, wait policies, statistics, clocks and logging.
- The caches of render-target ownership, root parameters and ready pairs, and the offline texture files.
