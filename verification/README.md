# Verification model of the PS5 Vulkan backend's command and report paths

This project models, in Dafny, the parts of the backend whose correctness spans several
functions or whole runs, and proves what they are for. `dafny verify dfyconfig.toml` checks all of it.

- **Command-arena chain.** A render pass that no longer fits one 128 KiB arena is split over an
  ordered chain of up to 512 of them. `CommandArenas` and `DrawBatch` state what every call does as
  functions of the kernel's answers; `ArenaObjects` and `DrawBatchChains` are the same code on fields,
  arrays and a kernel whose every call may fail, proved equal to those functions. `DrawBatchRuns`
  lets any sequence of calls run against any answers; `DrawBatchProperties`, `DrawBatchOwnership` and
  `DrawBatchCapacity` hold the results over all runs, `DrawBatchOutcomes` when each call succeeds.
- **Tiled rectangle clear.** `ColorDetile` and `TexelMap` are the real 64 KiB tiling equation of
  four-byte texels, with its microtile structure and injectivity proved from its bit masks.
  `DmaFill` writes and reads back fill packets. `RectPlan` lists the ranges a clear fills and counts
  them; `RectClear` and `RectClearCall` are the loops, in two passes, and what their packets do to memory.
- **Register packets and view deltas.** `ContextRegisters` groups register writes into packets, gives
  the packets a meaning and shows the grouping is optimal. `ViewTargets` collects the words another
  view moves, `ViewMeaning` shows what they do to the register file, `DrawEmission` what a whole emission
  shows, `ScissorReplay` re-emits three registers.
- **Test reports.** `UpstreamLog` and `UpstreamReports` reassemble a report from numbered chunks,
  `UpstreamFaults` explains refusals; `QpaReport` and `QpaGrammar` parse it, `QpaCases` says which lines
  decide which result; `Acceptance` decides. `Positions` and `NameOrder` hold what they
  share about lines and about lists of names.
- **Log stream.** `LogFormat` formats lines in bounded buffers, `LogRecords` and `LogGreetings` read them back,
  `LogSession` and `LogClient` follow a session over a network that may fail at any byte.
- **Prepared draws and layered images.** `DrawLayout` lays a draw's data out in one allocation,
  `DrawContents` says what its parts hold once all of them are written, `DrawPrepare` writes them and gives
  the allocation back on failure; `LayeredStorage` sizes layered attachments.

`Words` holds machine integers, result codes and a few facts about lists.

## Where the code and its documentation differ

The model follows the code.

- `native/draw_batch_ps5.h` has callers "ask for room before each self-contained emission". Callers that do
  always leave the tail of an arena free (`DrawBatchCapacity.SealingNeverLacksRoom`). Nothing holds them to
  it: the emitters are handed everything up to `end`, tail included, and an emission that uses the tail
  leaves an arena that can never be sealed (`DrawBatchCapacity.FullArenaCannotClose` is the input). Closing
  works exactly when the tail is free (`DrawBatchCapacity.ClosesIffTailFree`).
- A release that has to keep an uncertain arena leaves the cursor of an arena that was never sealed
  in place, although that arena's memory may be gone, and the next reserve hands it out
  (`DrawBatchOwnership.StaleCursorIsGranted`). It happens exactly when an arena is open and some record does
  not clear: it is uncertain already, or the kernel refuses one of the calls it needs
  (`DrawBatchOwnership.StaleIffReleasedOpen`). Runs through such a cursor are not counted as legal.
- The run length of a register packet is a fourteen-bit field the encoder does not check. Lists are read
  back exactly when no run reaches 16384 registers (`ContextRegisters.RoundTrip`).
- The view delta never checks that its two targets have different shapes; `ViewMeaning.ShadowedView` is an
  accepted view whose delta selects the wrong layer. The delta is correct exactly when no register is shadowed
  (`ViewMeaning.DeltaIsCorrectIff`), which a colour and a depth target never are. The only caller
  (`native/graphics_queue_ps5.c`, lines 1795-1815) builds colour targets from the colour builder and depth
  targets from the depth builder, so it never passes such a view.
- An acceptance report can be valid while the expected list repeats a case, but it is never strictly
  verified then: `Acceptance.ValidButNotStrict` is such a report, and `Acceptance.StrictIffValidAnd` says
  what a valid report needs to be strict.

## Model

| member | source | states |
|---|---|---|
| ArenaObjects.CommandArena.Create | native/command_arena_ps5.c:26-43 | creation step by step against a kernel that may fail anywhere asks the calls it needs in order and equals the creation function of the noted answers; success hands out fresh zeroed memory |
| ArenaObjects.CommandArena.Release | native/command_arena_ps5.c:4-25 | the kernel is asked to take back exactly what is held, up to a refusal; a refused call leaves the record uncertain, otherwise it is erased |
| CommandArenas.CallsDecideRelease | native/command_arena_ps5.c:4-25 | a release succeeds exactly when the record is certain and every call it made was agreed to, and then those calls gave back all it held |
| CommandArenas.CallsDecideCreate | native/command_arena_ps5.c:26-40 | a creation succeeds exactly when a usable range was reserved, memory allocated and both mapped, in this order |
| CommandArenas.CallsUndoCreate | native/command_arena_ps5.c:41-42 | a creation refused after its range was reserved asks for that range to be unmapped, and reports a lost device only if that is refused |
| ArenaObjects.CommandArena.Rollback | native/command_arena_ps5.c:41-42 | a clean rollback reports lack of device memory, an unclean one a lost device |
| ArenaOwnership.UnmapKeepsAccounts | native/command_arena_ps5.c:8-13 | undoing a mapping, with any answer, keeps the chain's records and the kernel ledger in agreement |
| ArenaOwnership.FreeKeepsAccounts | native/command_arena_ps5.c:14-17 | the same for giving back memory |
| ArenaOwnership.MunmapKeepsAccounts | native/command_arena_ps5.c:18-21 | the same for giving back the address range |
| ArenaOwnership.ReleaseKeepsAccounts | native/command_arena_ps5.c:4-25 | a whole release, failing anywhere, keeps records and ledger in agreement; success leaves nothing of the slot |
| ArenaOwnership.CreateKeepsAccounts | native/command_arena_ps5.c:26-43 | so does a whole creation, with rollback; a created arena is mapped, allocated and reserved |
| DrawBatchChains.GraphicsAcquire | src/graphics_sync.c:56-64 | ten words or none |
| DrawBatchChains.GraphicsRelease | src/graphics_sync.c:105-121 | eight words naming label and serial, or none when room, serial, label or overlap forbid it |
| DrawBatchChains.DrawBatchChain.CreateNext | native/draw_batch_ps5.c:14-28 | a failed creation joins the chain only if it still owns something; a new arena starts at its first word |
| DrawBatchChains.DrawBatchChain.StartArena | native/draw_batch_ps5.c:14-33 | the stateful start of an arena is its function of the old chain and the kernel's answers |
| DrawBatchChains.DrawBatchChain.SealArena | native/draw_batch_ps5.c:36-50 | sealing writes the release for this arena's own label, records the length and drops the cursor, or changes nothing |
| DrawBatchChains.DrawBatchChain.Open | native/draw_batch_ps5.c:52-59 | opening starts from an erased chain, and refuses a zero serial or a chain in use |
| DrawBatchChains.DrawBatchChain.Reserve | native/draw_batch_ps5.c:61-76 | reserving seals and restarts exactly when the need and the tail do not fit |
| DrawBatchChains.DrawBatchChain.Retry | native/draw_batch_ps5.c:78-90 | a retry moves the origin with the cursor, and is refused on a fresh arena |
| DrawBatchChains.DrawBatchChain.Measured | native/draw_batch_ps5.c:92-95 | the reserve never shrinks |
| DrawBatchChains.DrawBatchChain.Close | native/draw_batch_ps5.c:97-101 | closing seals the open arena |
| DrawBatchChains.DrawBatchChain.Release | native/draw_batch_ps5.c:109-121 | every slot is released once whatever the others answer; the chain is erased only if all succeed |
| DrawBatchChains.DrawBatchChain.Emit | native/draw_batch_ps5.h:29-30 | a caller writes one whole emission at the cursor or nothing |
| DrawBatchRuns.StepKeeps | native/draw_batch_ps5.c:14-121 | every call from a reachable world, with any answers, leads to a reachable one |
| DrawBatchRuns.StartKeeps | native/draw_batch_ps5.c:14-33 | a new arena carries its acquire, has full room, and leaves sealed arenas framed |
| DrawBatchRuns.SealKeeps | native/draw_batch_ps5.c:36-50 | a sealed arena is acquire, whole emissions and its own release |
| DrawBatchRuns.ReleaseKeeps | native/draw_batch_ps5.c:109-121 | release ends empty, or with only erased and uncertain records, every uncertain record reported and kept |
| DrawBatchProperties.StreamRefinement | native/draw_batch_ps5.c:14-101 | over every run, stripping acquire and release from each arena and joining them gives the emissions in order, none split |
| DrawBatchProperties.ArenasAreSubmissions | native/draw_batch_ps5.h:10-14 | over every run each sealed arena is one complete submission whose last packet, read back, signals the serial of the last opening at the word behind the commands; no command word overlaps the label |
| DrawBatchProperties.RunRemembers | native/draw_batch_ps5.c:52-59 | over every run the chain keeps the serial it was opened with, and its reserve is the most measured since, at least 512 |
| DrawBatchProperties.ReleaseReadsBack | src/graphics_sync.c:105-121 | reading a release packet gives its label and its serial |
| DrawBatchOutcomes.OpenOutcome | native/draw_batch_ps5.c:52-59 | opening succeeds exactly on an unused chain with a serial and an agreed creation; other refusals change nothing |
| DrawBatchOutcomes.ReserveOutcome | native/draw_batch_ps5.c:61-76 | every result code of a reserve, from need, room, the number of arenas and the kernel's answers, and when it seals |
| DrawBatchOutcomes.RetryOutcome | native/draw_batch_ps5.c:78-90 | a retry succeeds exactly from the cursor of a used arena with its tail free, below 512 arenas, when the next is created |
| DrawBatchOutcomes.ReleaseOutcome | native/draw_batch_ps5.c:109-121 | releasing the chain succeeds exactly when no record is uncertain and every call made was agreed to |
| DrawBatchOutcomes.UnmappedIsNeverSealed | native/draw_batch_ps5.c:36-44 | nothing is sealed into an arena that is not mapped or uncertain |
| DrawBatchOutcomes.ReleaseRefusedIff | src/graphics_sync.c:105-112 | the release writer refuses exactly missing room, serial or label, an unusable label, and one that shares a byte with the packet |
| DrawBatchOutcomes.UsableIff | native/command_arena_ps5.c:31-32 | a usable range is aligned, not at zero and below the address limit |
| DrawBatchProperties.SealedArenasNeverChange | native/draw_batch_ps5.c:36-50 | no later call changes a sealed arena's words or length, until release |
| DrawBatchOwnership.EveryRangeHasOneOwner | native/draw_batch_ps5.c:19-24 | over every run, each range, memory and mapping the kernel holds is recorded by exactly one slot, and nothing is mapped without its range and memory |
| DrawBatchOwnership.ReleaseFreesAllButUncertain | native/draw_batch_ps5.c:109-121 | after any run, release keeps uncertain records, frees every other willing one, and success leaves the ledger as others had it |
| DrawBatchOwnership.UncertainIsNeverForgotten | native/command_arena_ps5.h:11-13 | an uncertain slot stays as it is through every later call |
| DrawBatchOwnership.ReleaseSucceedsIff | native/draw_batch_ps5.c:113-120 | a release succeeds exactly when no record is uncertain and every call a record needs is answered well |
| DrawBatchOwnership.ReleasedChainReopens | native/draw_batch_ps5.c:119 | a released chain opens like a new one: exactly when the kernel grants the arena, and then with all of its room |
| DrawBatchOwnership.StaleCursorIsGranted | native/draw_batch_ps5.c:109-121 | counterexample: a release that fails leaves its cursor in place and the next reserve grants it |
| DrawBatchOwnership.StaleIffReleasedOpen | native/draw_batch_ps5.c:109-121 | such a cursor stays behind exactly when an arena is open and some record does not clear |
| DrawBatchOwnership.EachSlotReleasedAlone | native/draw_batch_ps5.c:113-118 | what a slot is left with depends on its own answers alone |
| DrawBatchCapacity.StepKeepsGrant | native/draw_batch_ps5.h:48-53 | what a reserve grants is there: an emission within the grant succeeds and leaves the rest of the grant and the tail free |
| DrawBatchCapacity.SealingNeverLacksRoom | native/draw_batch_ps5.h:48-55 | over every run whose emissions stay within what was reserved for them, closing succeeds and a split is refused only for size, kernel or the arena bound |
| DrawBatchCapacity.FullArenaCannotClose | native/draw_batch_ps5.c:42-44 | counterexample: an emission that fills the arena makes it impossible to seal |
| DrawBatchCapacity.ClosesIffTailFree | native/draw_batch_ps5.c:97-101 | over every run an open arena closes exactly when its tail is free |
| DrawBatchCapacity.NoEmptySplit | native/draw_batch_ps5.c:67-70 | reserve and retry seal at most one arena and never one holding only its acquire |
| DrawBatchCapacity.OpenedClosesEmpty | native/draw_batch_ps5.c:97-101 | opening and closing at once submits an arena of acquire and release alone |
| DrawBatchCapacity.ClosesEmptyIff | native/draw_batch_ps5.c:97-101 | a close submits such an arena exactly when the cursor is still behind the acquire |
| DrawBatchCapacity.RetryEnds | native/draw_batch_ps5.h:57-59 | a retry that succeeds reaches a fresh arena from which another retry is refused |
| DrawBatchCapacity.ExhaustedOnlyWhenFull | native/draw_batch_ps5.c:16 | driven by reserves of at most R words, all 512 arenas are sealed only after at least 512 times (capacity - R + 1) payload words |
| ColorDetile.Affine | src/color_detile.c:14-21 | the bit loop is the exclusive or of the masks of the set coordinate bits |
| ColorDetile.TexelOffset | src/color_detile.c:45-72 | the four-byte case of the address function, with its refusals |
| ColorDetile.SelectedBit | src/color_detile.c:14-21 | each address bit is the parity of the coordinate bits whose masks contain it |
| ColorDetile.LocalIsMicro | src/color_detile.c:51-52 | an address inside a tile is a 128-byte microtile, an eight-row line and a texel |
| ColorDetile.MicroInjective | src/color_detile.c:51-52 | different microtiles of a tile have different places |
| ColorDetile.EverySlotIsTexel | src/color_detile.c:51-52 | every dword of a tile's 64 KiB is a texel's |
| TexelMap.OffsetIsDword | src/color_detile.c:67-71 | the address function is four times a dword index built from blocks, lines and texels |
| TexelMap.OffsetIff | src/color_detile.c:45-72 | a texel has an address exactly when it is within the width and its tile ends below 2^64 |
| TexelMap.DwordInjective | src/color_detile.c:45-72 | different texels of a surface lie at different dwords |
| TexelMap.TexelInSurface | src/color_detile.c:36-43 | every texel of a surface has an address, and its whole block ends inside the surface size |
| DmaFill.WriteFill | src/texture_dma.c:2-21 | all the packets of a range from the given word on, or none and zero |
| DmaFill.FillRefusedIff | src/texture_dma.c:4-8 | a fill is written exactly when its range is non-empty, aligned, below the address limit and its packets fit |
| DmaFill.PacketsIsCeiling | src/texture_dma.c:7 | one packet for every chunk begun |
| DmaFill.FillDecodes | src/texture_dma.c:9-19 | reading the packets back gives the chunks of the range |
| DmaFill.ChunksAreExact | src/texture_dma.c:9-19 | the chunks fill each byte of the range once and no other byte |
| DmaFill.OnlyLastWaits | src/texture_dma.c:13-17 | bit 31 of the second word is set in the last packet of a range and in no other |
| DmaFill.AfterFills | src/texture_dma.c:13-17 | fills of one value leave it wherever any of them lands and nothing else changed |
| RectPlan.TileIsBlock | native/color_rect_clear.h:57-60 | the texels of a microtile are exactly its 128-byte block |
| RectPlan.TileExact | native/color_rect_clear.h:54-65 | a tile's ranges hit each dword as often as texels of the clipped tile lie there |
| RectPlan.TileCount | native/color_rect_clear.h:54-65 | a covered tile takes one range, a cut one as many as it has rows met |
| RectPlan.TileRowsExact | native/color_rect_clear.h:53-66 | the tile loops together cover the rectangle, with multiplicity |
| RectPlan.PlanExact | native/color_rect_clear.h:45-67 | over all layers each byte is hit exactly as often as it is due |
| RectPlan.PlanBounded | native/color_rect_clear.h:34-67 | every range is non-empty, aligned and ends within the layers |
| RectPlan.ExactCoverage | native/color_rect_clear.h:39-67 | each byte of a selected texel of the rectangle lies in exactly one range, every other byte in none; on the full-surface path the whole layer |
| RectClear.FillRange | native/color_rect_clear.h:12-23 | one range is refused or counted, and written by the emitting pass only |
| RectClear.FillLines | native/color_rect_clear.h:61-65 | the row loop of a clipped tile deals with its lines in order up to the first refusal |
| RectClear.FillTile | native/color_rect_clear.h:55-65 | a covered tile is one fill, a clipped one its rows |
| RectClear.FillTileRow | native/color_rect_clear.h:54-66 | the column loop, without 32-bit wrap |
| RectClear.FillTileRows | native/color_rect_clear.h:53-66 | the row loop, without 32-bit wrap |
| RectClear.FillLayer | native/color_rect_clear.h:46-66 | a layer is skipped, filled as a whole or tile by tile |
| RectClear.Pass | native/color_rect_clear.h:44-67 | a pass over all layers is the run of the whole plan |
| RectClear.RunAppend | native/color_rect_clear.h:45-67 | running two lists of ranges is running their concatenation |
| RectClearCall.FitsOrNot | native/color_rect_clear.h:42-69 | both passes count the same words: a pass succeeds exactly when seven words a chunk fit, and the dry one writes nothing |
| RectClearCall.AcceptedIff | native/color_rect_clear.h:30-38 | the checks accept exactly the requests whose memory, layers, surface, rectangle and mask can be carried out |
| RectClearCall.RequestIsGood | native/color_rect_clear.h:30-38 | the argument checks make the surface's address map contiguous, injective and in bounds |
| RectClearCall.SmallRequest | native/color_rect_clear.h:31-38 | a clear of an 8x8 corner is one of the accepted requests |
| RectClearCall.SomethingToFill | native/color_rect_clear.h:35-39 | an accepted request always fills something |
| RectClearCall.ColorRectClear | native/color_rect_clear.h:25-70 | zero exactly when refused or too long, with the output untouched; otherwise the exact packets of the plan and their count |
| RectClearCall.PacketsClearTheRectangle | native/color_rect_clear.h:25-70 | executing the emitted packets writes every byte of the request's own texels and layers exactly once with the clear word and no other byte |
| ContextRegisters.RunsAreACut | native/draw_emit_ps5.c:43-54 | the greedy runs cut the list into consecutive registers, in as many pieces as it has gaps and one |
| ContextRegisters.GreedyIsOptimal | native/draw_emit_ps5.c:43-74 | no other cut into consecutive runs has fewer packets or fewer words |
| ContextRegisters.PacketsLength | native/draw_emit_ps5.c:51 | two words a run and one a register |
| ContextRegisters.RoundTrip | native/draw_emit_ps5.c:56-74 | the packets decode to the list exactly when no run is too long for its header |
| ContextRegisters.LongRunIsLost | native/draw_emit_ps5.c:67 | a run of 16384 registers or more is never read back |
| ContextRegisters.ShortListsFit | native/draw_emit_ps5.c:56-74 | shorter lists always fit |
| ContextRegisters.DecodedTakesWords | native/draw_emit_ps5.c:43-54 | no words that decode to a list are fewer than its greedy packets |
| ContextRegisters.PacketsWriteTheList | native/draw_emit_ps5.c:56-74 | executing the packets on any register file is writing the registers one by one |
| ContextRegisters.ContextRunWords | native/draw_emit_ps5.c:43-54 | the count of the packets' words, in 32 bits |
| ContextRegisters.EmitContextRuns | native/draw_emit_ps5.c:56-74 | the exact packets and the cursor behind them, or nothing written when the list is empty or its 32-bit word count exceeds the room |
| ViewTargets.CollectViewLayer | native/draw_emit_ps5.c:85-104 | success exactly for two lists of one builder's shape that differ only in carriers; what is appended, and that nothing before it changes |
| ViewTargets.CollectViewTargets | native/draw_emit_ps5.c:111-126 | both targets' moved words in order, and the words their packets take |
| ViewTargets.AcceptedViewFits | native/draw_emit_ps5.c:209-214 | the emission's scratch is large enough for every accepted view |
| DrawEmission.EmitDraw | native/draw_emit_ps5.c:209-418 | refused before the first word is written, or banks, the view's packets and the rest of the draw in this order, and executing what is before the rest leaves the view's registers; the cursor moves only on success |
| DrawEmission.DrawSelectsTheView | native/draw_emit_ps5.c:370-377 | banks that hold the prepared targets and other state, with the view's packets behind them, leave the view's targets and that state |
| DrawEmission.OutcomeIff | native/draw_emit_ps5.c:209-418 | an emission goes through exactly when the view is accepted, seventeen words and the view's fit, and so do all words |
| DrawEmission.NothingBetween | native/draw_emit_ps5.c:373-377 | no view, or the prepared one, adds nothing |
| ViewMeaning.LayersDifferInAddresses | native/targets_ps5.h:48-60 | two colour targets are accepted exactly when they differ at most in registers 0x318 and 0x390, two depth targets in 0x012, 0x014, 0x01a and 0x01c |
| ViewMeaning.DeltaMoves | native/draw_emit_ps5.c:76-84 | prepared targets, other state and the delta leave the register file the view's targets would |
| ViewMeaning.ShadowedView | native/draw_emit_ps5.c:111-126 | counterexample: an accepted view with two colour-shaped targets whose delta does not select it |
| ViewMeaning.ShadowedShowsWrongLayer | native/draw_emit_ps5.c:111-126 | counterexample family: two targets of one shape where the second hides a moved register |
| ViewMeaning.DeltaIsCorrectIff | native/draw_emit_ps5.c:111-126 | the delta is correct exactly when no register is shadowed; never an issue for a colour and a depth shape |
| ViewMeaning.PacketsSelectTheView | native/draw_emit_ps5.c:373-377 | the encoded delta, executed, selects the view |
| ViewMeaning.DeltaWordsAreCarriers | native/targets_ps5.h:48-60 | every moved word is one of the view's own, a carrier and never pipeline-owned |
| ViewMeaning.NoWordsIffSameLayer | native/draw_emit_ps5.c:106-110 | no word exactly when the view's targets are the prepared ones |
| ViewMeaning.DeltaIsMinimal | native/draw_emit_ps5.c:76-84 | no shorter list of writes selects the view |
| ScissorReplay.EmitScissorReplay | native/draw_emit_ps5.c:128-144 | the last write of each of three registers, in packets, or nothing |
| ScissorReplay.ReplayIsPackets | native/draw_emit_ps5.c:142 | the fixed words are the run encoder's |
| ScissorReplay.ReplayIsIdempotent | native/draw_emit_ps5.c:128-144 | replaying a state just written changes no register |
| UpstreamLog.ScanLines | cts/upstream_runner.py:208-250 | the line loop collects chunks and markers and stops at the first bad chunk |
| UpstreamLog.ScanFinds | cts/upstream_runner.py:208-250 | the scan survives exactly when every chunk is legible and no number repeats, and finds all of them |
| UpstreamLog.Reassemble | cts/upstream_runner.py:282-286 | the chunks in order, or the first missing number |
| UpstreamLog.ParseUpstreamLog | cts/upstream_runner.py:191-305 | the whole parse, with every error in its order |
| UpstreamReports.CompleteLogIsAccepted | cts/upstream_runner.py:191-305 | a report cut into pieces any way, logged in any order among any other lines, comes back whole |
| UpstreamReports.AcceptedLogIsComplete | cts/upstream_runner.py:191-305 | success means one start, end and completion in order, chunk numbers exactly 0 to n-1, each once and inside the window |
| UpstreamReports.AcceptedIffComplete | cts/upstream_runner.py:191-305 | exactly the complete logs are accepted |
| UpstreamFaults.LogFaultsAreTrue | cts/upstream_runner.py:191-305 | every refusal is true of the log's lines: which chunk, which marker count, which order, which number, length or digest, checked in this order |
| QpaReport.Turn | cts/upstream_runner.py:126-179 | one line, on the variables the loop updates |
| QpaReport.ParseLines | cts/upstream_runner.py:125-188 | the loop and its closing checks; never a case open inside a timing section |
| QpaReport.ParseQpaResults | cts/upstream_runner.py:91-188 | the session markers and then the loop, with every error |
| QpaGrammar.ReportIsParsed | cts/upstream_runner.py:91-188 | parsing a rendered report gives its results back |
| QpaGrammar.ParsedIsReport | cts/upstream_runner.py:91-188 | whatever is accepted is one session of closed or terminated cases, closed timing sections and noise |
| QpaGrammar.ParsedIffReport | cts/upstream_runner.py:91-188 | the parser accepts exactly those reports with legible blocks |
| QpaCases.LinesDecideResults | cts/upstream_runner.py:126-179 | in every accepted report the k-th opening and closing line and the text between decide the k-th result: code, fixed details and mark of a terminated case, the block parser's status and details of a closed one |
| QpaCases.FaultsAreTrue | cts/upstream_runner.py:99-187 | every refusal is true: of the marker counts, of the first line at fault and what is open before it, or of what is open at the end |
| QpaGrammar.OneResultPerCase | cts/upstream_runner.py:145-175 | one result for each begin marker, in order |
| Acceptance.VerifyUpstreamAcceptance | cts/upstream_runner.py:327-413 | strictly verified exactly when the exit code is zero, the expected list non-empty and duplicate-free, the names a permutation of it and all passed; validity, tallies, missing, unexpected and duplicate names in order |
| Acceptance.ValidButNotStrict | cts/upstream_runner.py:382-393 | a report that is valid and not strictly verified |
| Acceptance.StrictIffValidAnd | cts/upstream_runner.py:382-393 | a report is strictly verified exactly when it is valid, its cases all passed and the expected list repeats none |
| NameOrder.Sort | cts/upstream_runner.py:351-352 | the names of a set in rising code point order, each once |
| NameOrder.OneList | cts/upstream_runner.py:351-352 | there is one such list |
| Acceptance.Count | cts/upstream_runner.py:364-378 | the four tallies and the failures in order |
| Acceptance.TalliesCount | cts/upstream_runner.py:364-378 | the tallies count the statuses Pass, Fail and the two spellings of not supported, and the fourth everything else |
| Acceptance.FailuresAreThose | cts/upstream_runner.py:364-378 | the failures are path and status of each result that did not pass, in order |
| Acceptance.FindDuplicates | cts/upstream_runner.py:342-349 | the names seen and those seen again |
| Acceptance.SameNames | cts/upstream_runner.py:382-393 | as many different names as expected, and the same ones, are a permutation of a duplicate-free list |
| LogFormat.AppendBytes | cts/ps5log.h:309-315 | as much as fits before the last byte |
| LogFormat.WriteDigits | cts/ps5log.h:321-329 | the decimal digits, and that the scratch holds any 64-bit value |
| LogFormat.WriteHexDigits | cts/ps5log.h:331-342 | the hexadecimal digits, within sixteen |
| LogFormat.AppendSanitized | cts/ps5log.h:344-355 | every byte cleaned, as many as fit |
| LogFormat.FinishLine | cts/ps5log.h:357-364 | newline and terminator at the end of a line cut to leave room for them |
| LogFormat.FormatRecord | cts/ps5log.h:377-391 | the buffer holds the cut content of the record and a newline, and nothing beyond the capacity is touched |
| LogFormat.FormatHello | cts/ps5log.h:393-413 | the same for the greeting |
| LogFormat.FormatBye | cts/ps5log.h:921-929 | the same for the goodbye |
| LogRecords.RecordIsOneLine | cts/ps5log.h:192-194 | for every capacity of at least two, exactly one newline, at the end, below the capacity |
| LogRecords.RecordRoundTrip | cts/ps5log.h:377-391 | number, time and cleaned fields are read back exactly when the record was not cut |
| LogRecords.NumberSurvives | cts/ps5log.h:377-391 | a cut record still shows its number |
| LogGreetings.CleanKeeps | cts/ps5log.h:344-355 | line breaks, and tabs and blanks inside a word, are replaced; every other byte is kept |
| LogGreetings.GreetingReadsBack | cts/ps5log.h:393-413 | an uncut greeting splits back into its words: title, application, boot token, tag, and the next number when resuming |
| LogGreetings.GoodbyeReadsBack | cts/ps5log.h:921-929 | an uncut goodbye splits back into its number and reason |
| LogRecords.LinesSplitBack | cts/ps5log.h:357-364 | a stream of lines and a rest splits back into those lines |
| LogSession.EverySession | cts/ps5log.h:768-936 | every step of every session keeps it: counted lines are sent or dropped, connections are well formed, numbers only go up |
| LogSession.FromTheStart | cts/ps5log.h:838-871 | from the start, the counter equals lines sent plus lines dropped |
| LogSession.ConnectionReads | cts/ps5log.h:753-763 | a connection's complete lines are its greeting, its records and possibly the goodbye; a torn greeting is followed by nothing |
| LogSession.NumbersAreConsecutive | cts/ps5log.h:838-871 | the numbers the server reads on a connection are consecutive from its first, in 64 bits |
| LogSession.RecordsReadBack | cts/ps5log.h:377-391 | number, time, level and text of each record are read from the stream exactly when its line was not cut |
| LogClient.SendAll | cts/ps5log.h:734-751 | everything is delivered, or a proper prefix and failure exactly when the network's last reply was fatal, through any interruptions and short sends |
| LogClient.Logger.Init | cts/ps5log.h:768-796 | a new run restarts the counters, after the goodbye of an open connection; it connects exactly when enabled and given a server, and greets exactly when the network lets it |
| LogClient.Logger.SendHello | cts/ps5log.h:753-763 | a greeting goes out whole, or in part and the channel closes |
| LogClient.Logger.Line | cts/ps5log.h:838-871 | a record takes the next number, zero behind the last of 64 bits; it is delivered whole, torn and counted dropped, or dropped |
| LogClient.Logger.Reconnect | cts/ps5log.h:907-917 | one attempt exactly when initialised, closed and enabled; a new connection greets with the next number under the same identity |
| LogClient.Logger.Close | cts/ps5log.h:919-936 | the goodbye, whole or torn, ends the connection |
| DrawLayout.PlanLayout | native/draw_prepare_ps5.c:199-223 | the loops compute the layout, or refuse what the host cannot address |
| DrawLayout.PlanSets | native/draw_prepare_ps5.c:203-209 | sixteen-byte aligned descriptor tables one behind another |
| DrawLayout.PlanBounces | native/draw_prepare_ps5.c:215-223 | four-byte aligned copies of unaligned spans, with the overflow checks |
| DrawLayout.RegionsArePacked | native/draw_prepare_ps5.c:199-223 | all regions are aligned, one behind another, and end where the allocation does |
| DrawLayout.LayoutIsSound | native/draw_prepare_ps5.c:199-223 | for every mix of needs any two regions are disjoint, aligned and inside the allocation |
| DrawLayout.LayoutNamesRegions | native/draw_prepare_ps5.c:199-223 | each recorded offset is the start of the region it is meant for |
| DrawLayout.PartsAreApart | native/draw_prepare_ps5.c:199-223 | state, vertex table, descriptor tables, push constants and copies share no byte and lie inside |
| DrawLayout.PartsAreTight | native/draw_prepare_ps5.c:199-223 | each part is aligned, no later than its alignment asks, and the next begins where it ends |
| DrawContents.PartsAreIndependent | native/draw_prepare_ps5.c:232-328 | whatever is written in whatever order, each part is what its own writes make of it |
| DrawContents.EverythingHolds | native/draw_prepare_ps5.c:232-328 | after all writes each part holds what it is meant to: state with the push constants' address, push constants, every vertex record and copy, every descriptor table |
| DrawContents.DescriptorReadsBack | src/vertex_descriptor.c:20-27 | a vertex record names address, stride and record count |
| DrawContents.RecordStands | native/draw_prepare_ps5.c:271-324 | a descriptor no later one overlaps is in the finished table |
| DrawContents.VerticesAreRead | native/draw_prepare_ps5.c:246-263 | a binding's record leads to the caller's data, in place or in a copy inside the allocation |
| DrawPrepare.PopulatePush | native/draw_prepare_ps5.c:233-240 | refused outside the window, or the push constants and their address are written |
| DrawPrepare.PopulateBinding | native/draw_prepare_ps5.c:247-262 | refused when the descriptor cannot encode, or the copy and the record are written |
| DrawPrepare.ReachableIff | src/vertex_descriptor.c:30-37 | a table is reachable exactly when it is aligned and the shader rebuilds the address of each of its bytes from its low word |
| DrawPrepare.PushReachableIff | native/draw_prepare_ps5.c:233-239 | push constants are reachable exactly when their low word names them in the third four-gigabyte window |
| DrawPrepare.PopulateVertices | native/draw_prepare_ps5.c:246-263 | the vertex loop: every copy and record, and where the first copy is |
| DrawPrepare.PopulateSet | native/draw_prepare_ps5.c:271-324 | a table is cleared, then its descriptors written up to the first refusal |
| DrawPrepare.PopulateSets | native/draw_prepare_ps5.c:266-327 | the set loop stops at the first unreachable table or refused descriptor |
| DrawPrepare.Populate | native/draw_prepare_ps5.c:232-328 | success exactly when every table is reachable and everything encodes; then every part of the allocation holds what it is meant to |
| DrawPrepare.PrepareDraw | native/draw_prepare_ps5.c:137-332 | a failure leaves the caller's record alone and gives back exactly what was granted; success, exactly when the checks, the allocation, its address, the contents and the flush are good, leaves one live allocation, recorded and filled |
| DrawPrepare.RecordedPartsAreApart | native/draw_prepare_ps5.c:137-332 | the addresses a prepared draw records are disjoint and inside its allocation |
| DrawPrepare.ReleaseDraw | native/draw_prepare_ps5.c:131-136 | the backing is given back once and the record erased |
| LayeredStorage.StrideIsLeast | native/image_ps5.c:52-81 | the stride is the least multiple of the alignment covering one layer's samples, the total one stride a layer without 64-bit wrap |
| LayeredStorage.RefusedIffTooLarge | native/image_ps5.c:74-77 | a supported surface is refused for size exactly when its layers exceed a 64-bit byte count |
| LayeredStorage.SupportedIff | native/image_ps5.c:36-70 | which formats, sizes, layers and sample counts are supported, exactly |
| LayeredStorage.LayerIsItsTiles | native/image_ps5.c:66-72 | a layer of four-byte samples takes what the 64 KiB tiling of the same surface takes |
| LayeredStorage.StencilIsItsTiles | native/image_ps5.c:42-51 | the stencil plane starts at the next multiple of 64 KiB and takes 64 KiB for each 256x256 tile |
| LayeredStorage.LayersAreApart | native/image_ps5.c:75-81 | layers are aligned, disjoint and in bounds |
| LayeredStorage.PlanesAreApart | native/image_ps5.c:42-51 | the two planes of the combined format are aligned, disjoint and fill the reported size |

## Left out

- Null-pointer checks on arguments: a Dafny reference is never null.
- The queue that launches arenas, GPU timing, caches and what the GPU does while a chain is in flight.
- `ps5vk_draw_batch_open_label`: it returns the label that every sealed arena is proved to signal.
- DrawBatchProperties.StreamRefinement: calls through the cursor a failed release leaves behind are excluded, because that memory may no longer exist.
- DrawBatchProperties.ArenasAreSubmissions: stated until the chain is released; afterwards no arena is left to submit.
- DrawBatchChains.DrawBatchChain.Emit: draw emitters are represented by the words they write; which words those are is not modelled here.
- Other texel sizes than four bytes of the tiling equation; the clear uses no other.
- ColorDetile.TexelOffset: coordinates are unbounded naturals; the 32-bit ones of the source are a special case.
- The writers of register banks, shader user data and draw packets are not part of this model.
- ScissorReplay.EmitScissorReplay: the capacity of a draw state is a parameter; PS5_PIPELINE_CX_REGISTERS is not part of this model.
- DrawEmission.EmitDraw: the register banks before the view's words and what follows them are lists of words, or refusals, given to the model.
- Regular expressions, base64, SHA-256 and XML: lines arrive classified, decoding and digest are parameters, a case block's meaning is a parameter.
- Reading files, command-line options and the run-identity comparison of the runner.
- Configuration files, captured standard output, raw writes, the mirror descriptor, datagram mode and socket set-up of the log client.
- LogClient.SendAll: a single call is interrupted by signals only finitely often.
- DrawPrepare.PrepareDraw: the checks before the layout are one given answer, and the descriptor encoders give their words and answers; vertex descriptors are encoded here.
- DrawLayout.PlanLayout: the sums of the small fixed-size parts are taken without wrap; their sizes are bounded by the state block, four tables of 1024 records and 256 bytes.
- `native/draw_state_ps5.c`, blending tables, format tables, register constants and the hardware witnesses are not part of this model.
