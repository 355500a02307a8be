# Verification of acrobe

acrobe drives debug hardware: JTAG chains, serial framings and the memories
behind them. This project models its most intricate logic in Dafny and proves
what that logic is for.

* **JTAG proxy.** `JtagTmsWalker` turns a TMS/TDI stream into ops,
  `JtagOpEncoder` turns ops back into a TMS/TDI stream. `TapController` is the
  16-state controller of clause 6.1 of IEEE Std 1149.1; the trace of a stream is
  the sequence of its events: reset entered, TCK spent in Run-Test/Idle, Capture
  entered, bit shifted, Update entered. `EncoderRefinement`, `JtagProxy`,
  `JtagProxyTdo` and `JtagProxySession` prove that encoder and walker preserve
  traces and TDO; `JtagWire` and `JtagPosts` say what the trace does not show, the
  TCKs on the wire and the ops posted, one by one.
* **JTAG chain.** `ChainDiscovery` and `IrMerge` are the blind probe, `ChainProbe`
  says what it answers on registers of any length,
  `ChainCompiler`, `ChainRefinement` and `ChainAlone` the translation of per-TAP ops
  into whole-chain scans over a hardware model with arbitrary TAP behaviour, and
  `Chain` (with `ChainGeometry`, `ChainLinks`, `ChainOps`, `ChainRefresh`,
  `ChainWiring`) the object that keeps geometry, ownership and the IR cache.
  `ChainPosts` gives the bits posted for an op.
  `ChainWire` and `ChainReadings` follow the hardware event by event and carry the
  translation through the encoder to the wire and the TDO back to the futures;
  `ChainRestart` starts it after a refresh.
* **CRC and HDLC.** `Gf2`, `Crc`, `CrcBytes`, `CrcResidue`, `CrcPatch`, `Hdlc`;
  `CrcFlags` ties the engine to long division of polynomials and each flag and
  parameter to what it means, `HdlcWire` the frames to numbers on the wire.
* **Address spaces.** `MemoryChunks`, `MemoryBatch`, `MemoryLowering`,
  `MemoryPending`: blobs served by register accesses, which `MemoryStream` describes
  as the bus sees them. `I2cMem`: memories whose counters wrap.
* **Smaller cores.** `Allocator`, `BitString`, `JopSession` (with `JopCapture`,
  `JopSchedule` and, on top of the JTAG proxy, `JopProxy`), `StaplParser` (with
  `StaplExpr`, the language of expressions in `StaplGrammar` and `StaplAccepts`, and
  `StaplRoundTrip`, `StaplLiterals` and `StaplTexts`), `Batcher`.

Conventions. Registers, bit strings and bytes at bit level are `seq<bool>`, the
bit nearest to TDO (the LSB) first; a non-negative Python integer of known width
is that bit string. Bytes that are only moved are integers below 256. Exceptions
are a `None`, a `false` or an error value. Python's `&` with a power-of-two mask
and `//` are written with Euclidean `%` and `/`, which agree with Python for
positive divisors. Objects whose identity matters (TAPs) carry an identity
number. The classes `Chain`, `Allocator`, `BitString`, `PendingBlob`, `Parser`,
`Session` and both `Encoder`s state an invariant, `Valid()`; `Batcher` has `Inv`,
and `Walker` and `Receiver` are tied to functions of their state. Methods keep
the invariant in every run of calls, with one exception: inserting or
reattaching a TAP under a controller that has no context, or handing a TAP to
one, raises half done, and a chain keeps its invariant exactly as long as no call
names such a controller (`Chain.Chain.TapInsert`, `Chain.Chain.TapReattach`,
`Chain.Chain.TapSetController`; `Chain.Chain.SetController` is the step they
share).

Where documentation and code disagree the model follows the code:

* A refresh of an unchanged chain is documented as a no-op. It raises exactly
  when two TAPs of the chain look alike. Otherwise it keeps objects, order,
  geometry, controllers and who gates whom, but forgets the cached instruction of
  every attached TAP and may reorder lists of gated TAPs (`Chain.Chain.Refresh`,
  `Chain.UnchangedRefresh`, `ChainRefresh.TwinsAreAmbiguous`).
* Before a DR scan under an instruction all other TAPs are meant to be in BYPASS.
  In every run of any ops they are, except for a TapShift of the BYPASS instruction
  that is cached already while another TAP is cached with something else
  (`ChainAlone.EveryOpServed`, `ChainWiring.EveryPostServed`,
  `ChainRefinement.InPlaceIff`, `ChainRefinement.BypassScanIsElided`).
* Padding is meant to make a DR scan one of its TAP alone. It does for payloads as
  long as the register. Other payloads come behind one zero for every other TAP:
  what they leave is right exactly when they are at least as long, what they read
  exactly when they are at most as long or come back as zeros
  (`ChainAlone.MeansOwn`, `ChainAlone.ShiftInIff`, `ChainAlone.ShiftOutIff`).
* Insertion is documented to leave the IR cache reflecting reality. It does if
  the new TAP is in BYPASS or nothing but BYPASS is cached, and not otherwise
  (`ChainWiring.JoinKeepsCacheIff`, `ChainRefinement.NewcomerSpoilsCache`).
* An empty Shift that is not followed by a Shift clocks one zero
  (`EncoderRefinement.MeaningKeptIffNoStray`,
  `EncoderRefinement.EmptyShiftClocksAZero`).
* The data patch for an edit is documented to keep the CRC. It does if and only if
  bits are popped LSB first or the state delta steps to itself over the pad bits,
  which are fed ahead of the patch and of which orders of whole bytes have none;
  for every edit, if and only if bits are popped LSB first or x to the number of
  pad bits is 1 (`CrcPatch.PatchKeepsCrcIff`, `CrcPatch.PatchAlwaysKeepsIff`,
  `CrcPatch.PatchMisses`).
* A bit read through a slice has no range check: it lies in the slice exactly for
  the slice's own indices (`BitString.BitString.SliceBit`).
* The I2C address bits are not checked against 7-bit addresses
  (`I2cMem.SlaveAddressesFitIff`).
* When the capture queue overflows, a later window takes over what was left of
  the lost one, which shows in the response unless all windows concerned are
  disabled (`JopCapture.IdealIffNoOverflow`, `JopSchedule.OverflowTellsIff`,
  `JopCapture.OverflowMisplaces`).

## Model

| member | source | states |
|---|---|---|
| `JtagOpEncoder.Encoder.EncodeBatch` | acrobe/protocol/jtag_encoder.py:54-99 | appends to the two buffers and the slot list exactly the batch lowering that `EncodeRefines` is about, label included, and raises on the same batches |
| `JtagOpEncoder.Encoder.EmitRunOp` | acrobe/protocol/jtag_encoder.py:109-124 | idle cycles from each rest label, through Update when the label is PAUSE |
| `JtagOpEncoder.Encoder.EmitEnterCapture` | acrobe/protocol/jtag_encoder.py:126-161 | the TMS prefix to either Capture from each label, or a refusal |
| `JtagOpEncoder.Encoder.EmitCaptureExit` | acrobe/protocol/jtag_encoder.py:163-199 | what is clocked after Capture depends on the next op only; label PAUSE may stand for Capture |
| `JtagOpEncoder.Encoder.EmitShiftOp` | acrobe/protocol/jtag_encoder.py:201-255 | entry, payload, exit and trailing idle of a Shift, with its slot at the offset of the payload |
| `JtagOpEncoder.Encoder.ExitShift` | acrobe/protocol/jtag_encoder.py:257-293 | how Shift is left with the last payload bit, or with a zero when there is none |
| `EncoderRefinement.OpLowers` | acrobe/protocol/jtag_encoder.py:66-97 | from every label that describes the TAP, every accepted op drives it through the op's events and leaves a label that describes it again |
| `EncoderRefinement.EncodeRefines` | acrobe/protocol/jtag_encoder.py:66-97 | every batch: raised exactly when illegal; otherwise events, rest state and Shift TCKs are those of the ops |
| `EncoderRefinement.BatchesRefine` | acrobe/protocol/jtag_encoder.py:43-97 | every run of batches: batch boundaries do not change the trace, the final label or the payload TCKs |
| `EncoderRefinement.SlotsCarryPayloads` | acrobe/protocol/jtag_encoder.py:201-255 | one slot per non-empty Shift, in order, each pointing at that Shift's TDI bits |
| `EncoderRefinement.BatchSlotsCarryPayloads` | acrobe/protocol/jtag_encoder.py:201-255 | the same over any number of batches |
| `EncoderRefinement.MeaningKeptIffNoStray` | acrobe/protocol/jtag_encoder.py:230-236 | the stream means what the batch means if and only if every empty Shift is followed by a Shift |
| `EncoderRefinement.EmptyShiftClocksAZero` | acrobe/protocol/jtag_encoder.py:286-288 | a concrete batch whose empty Shift clocks a zero |
| `JtagWire.ResetOnWire` | acrobe/protocol/jtag.py:72-74 | from every label, anywhere in a batch, `Reset(n)` appends exactly max(n, 5) TCKs, each with TMS high and TDI low |
| `JtagWire.SwdToJtagOnWire` | acrobe/protocol/jtag.py:90-104 | by position: 50 TMS ones, the sixteen bits of 0xe73c from the lowest on, 5 ones, TDI low |
| `JtagWire.TckCount` | acrobe/protocol/jtag_encoder.py:109-293 | every other accepted op takes one TCK for each of its events and the silent ones of the shortest way, no more |
| `JtagWire.TdiIsPayload` | acrobe/protocol/jtag_encoder.py:101-293 | TDI is low on every TCK but for the payload bits at the slot of their Shift |
| `JtagTmsWalker.Walker.Process` | acrobe/protocol/jtag_walker.py:91-209 | one call over any bits: the ops posted, the input stretch of each Shift and the state kept for the next call |
| `JtagTmsWalker.Walker.ProcessBit` | acrobe/protocol/jtag_walker.py:122-191 | one TCK of the loop against the abstract walk |
| `JtagTmsWalker.Walker.Flush` | acrobe/protocol/jtag_walker.py:193-209 | what is posted when the input ends inside Shift or Run-Test/Idle |
| `JtagPosts.CallPosts` | acrobe/protocol/jtag_walker.py:122-209 | a call posts one op for every TCK that leaves Shift, idle or reset or enters Capture and one for a stretch left open, no more; resets are of 5 TCKs, runs and shifts of at least one |
| `JtagProxy.StepFollowsTap` | acrobe/protocol/jtag_walker.py:62-68 | the 10-state diagram with its side flag follows the 16-state controller |
| `JtagProxy.StepBalanced` | acrobe/protocol/jtag_walker.py:122-191 | per TCK: events of the posted ops plus events still owed equal events owed before plus events of the TCK |
| `JtagProxy.CallBalanced` | acrobe/protocol/jtag_walker.py:91-209 | the same per call, from any synchronised state |
| `JtagProxy.ProxyPreservesTrace` | acrobe/protocol/jtag_walker.py:91-230 | every stream, cut into any calls, lowered again in any batching, drives the TAP through the same events, short only of a pending final Update or Reset |
| `JtagProxyTdo.Reassemble` | acrobe/protocol/jtag_walker.py:218-230 | the result vector places every Shift's TDO at its input stretch, zeros elsewhere |
| `JtagProxyTdo.CallSpansExact` | acrobe/protocol/jtag_walker.py:122-205 | the stretches recorded are exactly the TCKs whose pre-edge state is Shift |
| `JtagProxyTdo.CallReadsTrueTdo` | acrobe/protocol/jtag_walker.py:91-230 | on any device with any past, a call returns what its peer would have sampled on the TAP itself |
| `JtagProxySession.SessionGoesOn` | acrobe/protocol/jtag_walker.py:91-230 | every run of calls with any batching goes through: no call raises |
| `JtagProxySession.SessionReadsTrueTdo` | acrobe/protocol/jtag_walker.py:91-230 | however a session is cut into calls and its ops into batches, the results of all calls end to end are what the peer would have sampled on the TAP from reset on |
| `ChainDiscovery.DiscoverExact` | acrobe/protocol/jtag.py:741-773 | a register no longer than asked for is read back exactly by the marker probe |
| `ChainProbe.DiscoverIff` | acrobe/protocol/jtag.py:741-773 | for a register of any length: it is answered with r if and only if the first bits out, as many as asked for and 32, are r, the 32 bits of 0xc05a5a03 and zeros only |
| `ChainProbe.DiscoverFails` | acrobe/protocol/jtag.py:753-763 | otherwise it raises: stuck low on zeros only, stuck high on ones only, marker not received back on anything else |
| `ChainProbe.ProbeShifts` | acrobe/protocol/jtag.py:747-751 | what is shifted in, bit by bit: the marker from its lowest bit on, then four zeros more than bits asked for |
| `ChainDiscovery.ReadIdcodes` | acrobe/protocol/jtag.py:822-832 | the loop over the reset DR computes the codes that `IdcodesExact` is about |
| `ChainDiscovery.IdcodesExact` | acrobe/protocol/jtag.py:822-832 | on a compliant chain the codes read are the true ones, None for BYPASS |
| `ChainProbe.IdcodesIff` | acrobe/protocol/jtag.py:822-832 | on any register the codes read are the only ones it spells: 32 bits from a one on, fewer at its end, one zero for a TAP without, none past the end |
| `ChainDiscovery.GroupingIsPlacement` | acrobe/protocol/jtag.py:837-845 | groupings of the segments between 01 patterns are exactly the lengths that place a 01 pattern at every TAP |
| `IrMerge.MergeEnumerates` | acrobe/protocol/jtag.py:847-857 | `ir_merge` lists a sequence if and only if it is the prefix and a grouping of the parts into the wanted number |
| `IrMerge.MergeDistinct` | acrobe/protocol/jtag.py:847-857 | and lists none twice |
| `ChainDiscovery.InferEnumerates` | acrobe/protocol/jtag.py:858-863 | after filtering, the possibilities are exactly the lengths compatible with what was read and registered |
| `ChainDiscovery.ProbeSound` | acrobe/protocol/jtag.py:793-872 | on every compliant chain within reach the probe returns the true codes and lengths in order if and only if no other lengths are compatible, and raises otherwise |
| `ChainProbe.InferIff` | acrobe/protocol/jtag.py:822-872 | inference answers if and only if exactly one placement of lengths is compatible with what was read |
| `ChainProbe.ProbeIff` | acrobe/protocol/jtag.py:775-872 | on any hardware the probe returns v if and only if the marker came back from all three registers it reads and v is the only chain that fits them |
| `ChainProbe.LongResetIff` | acrobe/protocol/jtag.py:793-872 | on a compliant chain with IRs within reach and codes of any length: the probe answers with v if and only if a marker was received and v is the only list that fits the bits before it |
| `ChainProbe.LongResetShows` | acrobe/protocol/jtag.py:741-763 | a reset DR of 544 bits and more hides the marker sent: one is received if and only if its own first 544 bits end in it and zeros |
| `ChainRefinement.PadIsConcat` | acrobe/protocol/jtag.py:1405-1418 | the cases of `__pad_with` are one concatenation |
| `ChainPosts.ShiftPosts` | acrobe/protocol/jtag.py:1338-1389 | bit by bit what a TapShift posts: its instruction among ones if it is not the one cached, its idle cycles, its data among zeros with the later idle cycles, or those alone |
| `ChainPosts.OthersPost` | acrobe/protocol/jtag.py:1327-1394 | a status read posts ones to every IR and reads the place of its TAP; a run posts itself |
| `ChainRefinement.OpRefines` | acrobe/protocol/jtag.py:1303-1403 | any op, with an instruction, BYPASS included, or without, a payload of any length or none, IR scan emitted or elided: every TAP's IR and state, the bits read and the cache are what the op means, and the cache stays truthful |
| `ChainRefinement.RunRefines` | acrobe/protocol/jtag.py:1303-1451 | every run of any ops on a fixed chain from a truthful cache ends with the IRs, states, readings and cache the ops mean one after the other, and with a truthful cache |
| `ChainRefinement.IrInPlace` | acrobe/protocol/jtag.py:1337-1347 | before every DR scan under an instruction other than BYPASS, of any length, the target holds it and all others BYPASS |
| `ChainAlone.EveryOpServed` | acrobe/protocol/jtag.py:1303-1451 | every op of every run, whatever ops came before: it finds a truthful cache, its IRs are in place exactly under the condition of `InPlaceIff`, it has its meaning, and when clear and of fitting length the meaning it has on its TAP alone |
| `ChainAlone.MeansOwn` | acrobe/protocol/jtag.py:1353-1376 | with the IRs in place an op does what it does on its TAP alone when its payload fills the register, and reads what it reads there when the payload does not come out again |
| `ChainAlone.ShiftInIff` | acrobe/protocol/jtag.py:1405-1418 | padding zeros do not show in what is left in every register if and only if the payload is at least as long |
| `ChainAlone.ShiftOutIff` | acrobe/protocol/jtag.py:1405-1418 | nor in what comes out, if and only if it is at most as long or comes back as zeros |
| `ChainAlone.ClearIffCached` | acrobe/protocol/jtag.py:1340-1347 | when an op finds its IRs in place, by what is cached |
| `ChainRefinement.EmptyCacheTruthful` | acrobe/protocol/jtag.py:579-589 | the cache a chain starts with is truthful and uniform |
| `ChainRefinement.InPlaceIff` | acrobe/protocol/jtag.py:1340-1347 | the IRs are in place for the DR scan if and only if the instruction is not BYPASS, or is not the one cached, or every other cached instruction is BYPASS |
| `ChainRefinement.BypassScanIsElided` | acrobe/protocol/jtag.py:1340-1347 | two TAPs on which a BYPASS scan is elided with the other TAP not in BYPASS |
| `ChainRefinement.JoinTruthfulIff` | acrobe/protocol/jtag.py:902-967 | a TAP cached as nothing or BYPASS joins: the cache stays truthful if and only if a cached BYPASS is what it holds, and it is in BYPASS or nothing but BYPASS is cached for the others |
| `ChainRefinement.NewcomerSpoilsCache` | acrobe/protocol/jtag.py:910-914 | two TAPs for which it does not |
| `ChainWiring.ContextIsGeometry` | acrobe/protocol/jtag.py:553-595 | the padding a tiled chain keeps is the padding its hardware needs |
| `ChainWiring.FlushMeans` | acrobe/protocol/jtag.py:1303-1451 | for every batch on a tiled chain the posted ops do to every TAP what the batch means, each future gets the bits its op means, unknown and detached TAPs are refused without effect, and the cached instructions are true again |
| `ChainWiring.EveryPostServed` | acrobe/protocol/jtag.py:1303-1451 | every op of every batch is served as in `EveryOpServed`, or refused |
| `ChainWiring.FlushRefused` | acrobe/protocol/jtag.py:1303-1326 | an op for a TAP without context is refused as unregistered, one for a detached TAP as not attached; nothing is posted or cached |
| `ChainWiring.FlushUniform` | acrobe/protocol/jtag.py:1442-1451 | a batch keeps the cache uniform: nothing cached, or something for every attached TAP |
| `ChainWiring.JoinKeepsCacheIff` | acrobe/protocol/jtag.py:902-967 | for the contexts before and after an insertion or reattachment: exactly when the cached instructions are still true, by the new TAP's instruction and the other entries |
| `ChainWire.ExecFollows` | acrobe/protocol/jtag.py:1303-1403 | running the posted ops on the chain is following their events, TAP controllers and scan registers TCK by TCK, TDO included |
| `ChainWire.FlushSendable` | acrobe/protocol/jtag.py:1303-1403 | what a chain posts is legal from any rest state but reset and has no empty Shift |
| `ChainReadings.SlotsReadShifts` | acrobe/protocol/jtag_encoder.py:201-255 | the TDO sampled on the wire, sliced at the slots, is what the Shifts read, one by one |
| `ChainReadings.WireReads` | acrobe/protocol/jtag.py:1303-1403 | each future gets its part of the slice at the slot of the last Shift its op posted, whatever the TAPs do |
| `ChainReadings.WireMeans` | acrobe/protocol/jtag.py:1303-1403 | from TapOps to the wire and back: a batch flushed, lowered by the encoder and clocked out does to every TAP what the batch means, and the slices of the sampled TDO hold what its ops are to read |
| `Chain.Chain.FlushOps` | acrobe/protocol/jtag.py:1303-1403 | the loop over a batch posts and caches what `FlushMeans` is about; unknown and detached TAPs are refused without effect |
| `Chain.Chain.InvalidateIrCache` | acrobe/protocol/jtag.py:1442-1451 | the target caches what was shifted, every other context BYPASS |
| `ChainGeometry.PaddingAddsUp` | acrobe/protocol/jtag.py:1032-1067 | in a tiled chain pre + own + post is the total, for IR and DR |
| `ChainGeometry.InsertTiles` | acrobe/protocol/jtag.py:1032-1050 | inserting at a boundary keeps the tiling |
| `ChainGeometry.DropTiles` | acrobe/protocol/jtag.py:1052-1067 | removing any TAP keeps it |
| `ChainLinks.SetLinkMutual` | acrobe/protocol/jtag.py:1069-1091 | setting or clearing a controller keeps controller and gated links mutual |
| `ChainLinks.OrphanedMutual` | acrobe/protocol/jtag.py:1000-1010 | so does removal, which frees the gated TAPs |
| `Chain.Chain.ApplyInsertionGeometry` | acrobe/protocol/jtag.py:1032-1050 | the loop over the contexts, in any order |
| `Chain.Chain.ApplyRemovalGeometry` | acrobe/protocol/jtag.py:1052-1067 | likewise |
| `Chain.Chain.SetController` | acrobe/protocol/jtag.py:1069-1083 | both ends of the link, or an error with the field already set |
| `Chain.Chain.TapInsert` | acrobe/protocol/jtag.py:902-938 | a new TAP at any boundary: its place in chain order, the others kept with their cached instructions, and the half-done state when the controller is unknown; the invariant is kept if and only if it is known |
| `Chain.Chain.TapReattach` | acrobe/protocol/jtag.py:940-967 | a detached TAP back at any boundary, refused when unknown or attached, half done when the controller is unknown; the invariant is kept if and only if it is not half done |
| `Chain.Chain.TapSetController` | acrobe/protocol/jtag.py:1013-1028 | a TAP handed over with both ends of the link, refused when unknown, half done when the controller is unknown; the invariant is kept if and only if it is not half done |
| `Chain.Chain.TapDetach` | acrobe/protocol/jtag.py:969-987 | out of the geometry, links kept, idempotent |
| `Chain.Chain.TapRemove` | acrobe/protocol/jtag.py:989-1011 | out of geometry, links and tree; refused when unknown |
| `Chain.DetachLeavesOut` | acrobe/protocol/jtag.py:969-987 | a detached TAP keeps its links and loses its cached instruction; all others are as before but for their padding |
| `Chain.RemoveUnlinks` | acrobe/protocol/jtag.py:989-1011 | the TAPs it controlled have no controller, its controller no longer lists it, and nothing else changes but padding |
| `ChainRefresh.EnabledInOrder` | acrobe/protocol/jtag.py:1200-1202 | sorting the enabled TAPs by their IR padding gives chain order |
| `ChainRefresh.MatchInOrder` | acrobe/protocol/jtag.py:1206-1227 | every slot some TAP fills goes to the first TAP of the walk that fills it; raises if and only if some TAP fills two slots |
| `Chain.Chain.MatchIdentities` | acrobe/protocol/jtag.py:1187-1227 | the same for enabled TAPs in chain order, then detached ones as they were added |
| `Chain.Chain.ApplyRefresh` | acrobe/protocol/jtag.py:1229-1273 | the enabled TAPs in order are exactly the slots, claiming TAPs keep object and controller, other slots get new TAPs, which join the tree in chain order, attached TAPs lose their cached instruction, TAPs left detached keep everything |
| `Chain.Chain.Refresh` | acrobe/protocol/jtag.py:1167-1168 | both together, who gates whom kept; on ambiguity nothing changes; finding the chain as it was raises if and only if two TAPs look alike and otherwise keeps order, tree and contexts but for cached instructions and the order of gated TAPs; nothing but BYPASS is cached afterwards |
| `Chain.Chain.TlrAndRefresh` | acrobe/protocol/jtag.py:1104-1168 | the probe and the refresh together: on compliant chains within reach it succeeds if and only if the lengths are determined and no TAP fills two slots, and then exactly the true devices are enabled, in order; whatever raises, the chain stays as it was |
| `ChainDiscovery.ProbeFindsReal` | acrobe/protocol/jtag.py:837-872 | whatever the hardware shows, the lengths found are positive |
| `ChainDiscovery.ProbeLeavesBypass` | acrobe/protocol/jtag.py:741-820 | the probe leaves every instruction register at ones |
| `ChainRestart.RefreshTruthful` | acrobe/protocol/jtag.py:793-872 | so the cache a refresh leaves is true of the hardware, and the chain is wired like it |
| `ChainRestart.FlushAfterRefresh` | acrobe/protocol/jtag.py:1104-1451 | any batch flushed after a refresh means what its ops mean, whatever was cached before |
| `Chain.UnchangedRefresh` | acrobe/protocol/jtag.py:1104-1108 | the same on contexts: geometry, controllers and gated sets are refound, cached instructions of attached TAPs are forgotten |
| `ChainRefresh.TwinsAreAmbiguous` | acrobe/protocol/jtag.py:1216-1222 | two like TAPs for which it raises |
| `Gf2.AlwaysCloses` | acrobe/util/crc.py:208-223 | every register satisfies the polynomial's own recurrence, which makes multiplication modulo any polynomial commute with stepping |
| `Gf2.MulTimes2` | acrobe/util/crc.py:208-214 | multiplying a stepped register is stepping the product |
| `Crc.StepsInvert` | acrobe/util/crc.py:165-188 | `_forward` and `_backward` undo each other, for every state, bit, polynomial and both bit orders |
| `Crc.RunsInvert` | acrobe/util/crc.py:190-206 | so do runs of them over reversed input |
| `Crc.GfMul` | acrobe/util/crc.py:208-214 | the shift-and-add loop computes the product that `SeekIsSteps` is about |
| `Crc.GfExp` | acrobe/util/crc.py:216-223 | the square-and-multiply loop likewise |
| `Crc.SeekIsSteps` | acrobe/util/crc.py:200-223 | seeking by n zero bits through the power equals n single steps |
| `CrcBytes.ForwardBytes` | acrobe/util/crc.py:190-193 | the byte loop feeds the bits in pop order |
| `CrcFlags.CrcDivides` | acrobe/util/crc.py:165-193 | in both bit orders the register holds the remainder of the message times x to the order, by long division by the polynomial: the XOR of the two is a multiple of it |
| `CrcFlags.InputAt` | acrobe/util/crc.py:126-146 | which bit of which byte is fed when, complemented or not |
| `CrcFlags.ComplementedState` | acrobe/util/crc.py:228-238 | with complement_state set an update is the complement of an update of the complement without it |
| `CrcFlags.PlainState` | acrobe/util/crc.py:228-238 | and with it cleared a plain run over the input bits |
| `CrcFlags.SpilledAt` | acrobe/util/crc.py:267-280 | every bit of the spilled bytes: mirrored or not, in either byte order, zeros above the order |
| `CrcFlags.EmptyCrc` | acrobe/util/crc.py:555-571 | the check sequence of nothing is the initial state |
| `CrcBytes.UnupdateInverts` | acrobe/util/crc.py:228-250 | `unupdate` undoes `update` for every data |
| `CrcBytes.DeltaIsStateXor` | acrobe/util/crc.py:297-316 | the delta of an edit is the XOR of the two CRC states at every later offset, whatever the rest of the data |
| `CrcBytes.EarlyDelta` | acrobe/util/crc.py:297-316 | at an offset before the end of the edit it is the correction that reaches the edit's contribution |
| `CrcPatch.Seek` | acrobe/util/crc.py:252-265 | the seek, bit by bit when input is complemented and through the power otherwise |
| `CrcPatch.SeekIsZeroBytes` | acrobe/util/crc.py:252-265 | seeking 8n bits is updating with n zero bytes, for both input complements |
| `CrcPatch.PatchKeepsCrcIff` | acrobe/util/crc.py:318-337 | edit and patch, wherever the patch lies, leave the CRC as it was if and only if bits are popped LSB first or the pad bits leave the delta alone |
| `CrcPatch.PatchAlwaysKeepsIff` | acrobe/util/crc.py:318-337 | the patch keeps the CRC for every edit if and only if bits are popped LSB first or x to the number of pad bits is 1 modulo the polynomial |
| `CrcPatch.PatchMisses` | acrobe/util/crc.py:318-337 | an edit whose patch misses, for every other polynomial |
| `CrcPatch.PadsMoveUnit` | acrobe/util/crc.py:318-337 | it is not 1 when there are pad bits but fewer than the order, as for orders above 4 that are not whole bytes |
| `CrcPatch.CrcDeltaPatches` | acrobe/util/crc.py:339-350 | XORing the spilled delta into the check sequence of the old payload gives that of the new one |
| `CrcResidue.ValidIffTailIsCrc` | acrobe/util/crc.py:564-580 | a frame passes the residue check if and only if its tail is the CRC of the rest, for every polynomial whose spill order matches its feed order |
| `CrcResidue.HdlcParams` | acrobe/util/crc.py:848-856 | the parameters registered as hdlc are among them |
| `CrcFlags.HdlcNumbers` | acrobe/util/crc.py:848-856 | the registered hdlc parameters, the polynomial being 0x10811 |
| `CrcFlags.HdlcOfZero` | acrobe/util/crc.py:848-856 | under them the check sequence of one zero byte is 0x78 0xf0 |
| `Hdlc.Escape` | acrobe/component/hdlc.py:85-94 | the stuffing loop |
| `Hdlc.StuffedIsTransparent` | acrobe/component/hdlc.py:85-94 | stuffed data contains no flag |
| `HdlcWire.EscapedIff` | acrobe/component/hdlc.py:73 | exactly seven byte values are escaped: 0x03, 0x11, 0x13, 0x7d, 0x7e, 0x91 and 0x93 |
| `HdlcWire.MangledValue` | acrobe/component/hdlc.py:67-92 | what follows an escape differs by 0x20 from the byte it stands for |
| `HdlcWire.PacketOnWire` | acrobe/component/hdlc.py:85-99 | a packet is payload and check sequence between two 0x7e, each escaped byte as 0x7d and itself changed by 0x20, every other as it is |
| `HdlcWire.AnyStuffing` | acrobe/component/hdlc.py:101-117 | inside a frame the receiver undoes whatever stuffing a peer chose, more bytes escaped than needed included |
| `HdlcWire.FrameMeans` | acrobe/component/hdlc.py:101-128 | a new receiver is deaf to what comes before the first flag and delivers p if and only if the first frame, however stuffed, is p with its check sequence |
| `Hdlc.Receiver.FeedBytes` | acrobe/component/hdlc.py:101-128 | the receiver object over one chunk is the step function folded over its bytes |
| `Hdlc.ChunkingIsInvisible` | acrobe/component/hdlc.py:101-117 | chunk boundaries do not show |
| `Hdlc.OnlyGoodFramesDeliver` | acrobe/component/hdlc.py:119-128 | a frame gets through only as payload and its own check sequence |
| `Hdlc.PacketsArriveInOrder` | acrobe/component/hdlc.py:96-128 | from any receiver state and any chunking the packets arrive in order with nothing between them, behind at most one stale frame |
| `MemoryChunks.Chunks` | acrobe/protocol/memory.py:220-249 | peeling yields the greedy tiling: naturally aligned pieces end to end over the range |
| `MemoryChunks.ChunksAreFewest` | acrobe/protocol/memory.py:220-249 | no set of aligned pieces that covers the range is smaller |
| `MemoryLowering.PartsAreNatural` | acrobe/protocol/memory.py:256-294 | every register op a blob becomes has width 1, 2 or 4 and an address divisible by it |
| `MemoryStream.StreamConcat` | acrobe/protocol/memory.py:382-420 | the stream of a batch is that of its ops, one after the other |
| `MemoryStream.PreciseStream` | acrobe/protocol/memory.py:268-276 | the reads posted for a precise read touch exactly the bytes asked for, each once, from low to high, and no cover by aligned pieces is smaller |
| `MemoryStream.OverwideStream` | acrobe/protocol/memory.py:279-294 | those of an overwide one are one aligned word read for each word that meets the range, in order |
| `MemoryStream.WriteStream` | acrobe/protocol/memory.py:256-265 | the writes of either strategy touch exactly the bytes given, as few as can be, and carry them little-endian |
| `MemoryLowering.ReadServed` | acrobe/protocol/memory.py:276-294 | under both strategies a blob read gets the bytes of the memory and leaves it alone |
| `MemoryLowering.WriteServed` | acrobe/protocol/memory.py:256-265 | a blob write stores its bytes |
| `MemoryLowering.PokeStores` | acrobe/protocol/memory.py:116-127 | storing a blob changes no other address |
| `MemoryLowering.BatchRefines` | acrobe/protocol/memory.py:382-425 | every mixed batch, both strategies: the flat stream leaves the memory that whole blobs would, and each op resolves from its own results with the value it would have had |
| `MemoryBatch.PlanRefines` | acrobe/protocol/memory.py:382-398 | the same for any device and any way of serving ops by parts |
| `MemoryBatch.AssembleRight` | acrobe/protocol/memory.py:192-202 | clipping and pasting sub-results in any order makes every covered byte right |
| `MemoryPending.FlushOps` | acrobe/protocol/memory.py:382-420 | the loop builds exactly that flat stream |
| `MemoryPending.ReadOps` | acrobe/protocol/memory.py:276-294 | the parts of a read under either strategy |
| `MemoryPending.PendingBlob.OnDone` | acrobe/protocol/memory.py:174-202 | the blob's future is resolved once, when the last access completes, whichever that is, and never after it was cancelled |
| `MemoryPending.PendingBlob.Buffer` | acrobe/protocol/memory.py:192-202 | the assembly loop |
| `MemoryPending.FailsIffAnyFailed` | acrobe/protocol/memory.py:174-188 | it fails exactly when an access failed, with the failure of one |
| `MemoryPending.FirstToFail` | acrobe/protocol/memory.py:174-181 | the failure reported is that of the access that failed first |
| `MemoryPending.OrderDoesNotShow` | acrobe/protocol/memory.py:174-202 | without failures the order of completion does not show; failing at all never depends on it |
| `MemoryPending.FinalResolves` | acrobe/protocol/memory.py:183-202 | the outcome is the value `BatchRefines` speaks of |
| `I2cMem.Start` | acrobe/component/i2c_mem.py:90-124 | accepts exactly the configurations with a 7-bit address, page dividing bank and a size within reach |
| `I2cMem.EncodeDecodes` | acrobe/component/i2c_mem.py:164-170 | a device with the configured slave address answers, and takes slave address and prefix for the byte |
| `I2cMem.EncodeOnWire` | acrobe/component/i2c_mem.py:164-170 | above the bank bits the slave address is the one configured, below them the bank; without bank bits it is the one configured; the prefix is the place in the bank, highest byte first |
| `I2cMem.SlaveAddressesFitIff` | acrobe/component/i2c_mem.py:90-124 | every slave address used is at most 0x7f if and only if the array fits the banks from the configured address, bank bits cleared, up to 0x7f |
| `I2cMem.EncodeInjective` | acrobe/component/i2c_mem.py:164-170 | different bytes have different wire addresses |
| `I2cMem.ReadChunks` | acrobe/component/i2c_mem.py:243-255 | the loop computes the chunks `FlatRead` is about |
| `I2cMem.WriteChunks` | acrobe/component/i2c_mem.py:257-268 | the loop computes the chunks `FlatWrite` is about |
| `I2cMem.ReadPiecesLongest` | acrobe/component/i2c_mem.py:243-255 | read chunks lie end to end over the range, none crosses a bank or exceeds the limit, and each is as long as limit, bank or range allows |
| `I2cMem.WritePiecesLongest` | acrobe/component/i2c_mem.py:257-268 | write chunks likewise, by pages |
| `I2cMem.FlatRead` | acrobe/component/i2c_mem.py:199-218 | against a device whose read counter wraps in its bank every in-range read gets exactly the bytes of a flat array |
| `I2cMem.FlatWrite` | acrobe/component/i2c_mem.py:220-235 | against a device whose write counter wraps in its page every in-range write stores exactly its bytes and changes no other |
| `I2cMem.LowerRead` | acrobe/component/i2c_mem.py:199-256 | refuses exactly the reads outside the array; the answers to any other make its bytes, whatever the device holds |
| `I2cMem.LowerWrite` | acrobe/component/i2c_mem.py:220-268 | refuses exactly the writes outside the array; the transfers of any other store it |
| `Allocator.SplitAlloc` | acrobe/allocator.py:40-63 | a cut it returns is aligned and inside the block |
| `Allocator.SplitAllocFinds` | acrobe/allocator.py:40-63 | it finds one whenever the block has room at any aligned address |
| `Allocator.SplitAllocLast` | acrobe/allocator.py:40-63 | of all aligned addresses at which the allocation fits in the block it takes the last |
| `Allocator.RoomIffCut` | acrobe/allocator.py:98-111 | some aligned run of free bytes exists if and only if some block can be cut |
| `Allocator.Allocator.BestFit` | acrobe/allocator.py:95-108 | a smallest block that can be cut, or none |
| `Allocator.Allocator.MergeFree` | acrobe/allocator.py:135-143 | two rounds merge a range with both neighbours: bytes added, no two free ranges touch |
| `Allocator.Allocator.Allocate` | acrobe/allocator.py:87-128 | the last aligned range of a smallest admissible block, failing if and only if there is no aligned run of free bytes; free and used still partition the arena |
| `Allocator.Allocator.Free` | acrobe/allocator.py:130-133 | gives exactly the bytes of a used range back |
| `Allocator.FreeDetermined` | acrobe/allocator.py:135-143 | the free list depends only on what is in use, not on history |
| `Allocator.FreeUndoes` | acrobe/allocator.py:87-133 | freeing what was allocated restores the free list |
| `Allocator.AllFreeIsOne` | acrobe/allocator.py:81-143 | with nothing in use there is one block again |
| `BitString.BitString.FromInt` | acrobe/bitstring.py:169-183 | the low bits of any integer, negative ones wrapped |
| `BitStrings.LowBitsAt` | acrobe/bitstring.py:169-183 | bit i of the low bits is that of the integer in two's complement, negative ones included |
| `BitStrings.LowBitsWrap` | acrobe/bitstring.py:169-183 | adding any multiple of 2^n changes nothing |
| `BitString.BitString.FromBytes` | acrobe/bitstring.py:193-213 | the bits of zero-padded bytes, short ones filled with zeros |
| `BitString.FilledAt` | acrobe/bitstring.py:193-213 | short data is filled with zeros behind its last byte |
| `BitString.BitString.Extend` | acrobe/bitstring.py:254-262 | chunks, last byte and cache spell the old bits followed by the new |
| `BitString.BitString.AppendBytes` | acrobe/bitstring.py:224-238 | appending bytes, short ones filled with zeros |
| `BitString.BitString.AppendInt` | acrobe/bitstring.py:240-252 | appending the low bits of an integer, merged with the partial byte as a number |
| `BitString.BitString.Append` | acrobe/bitstring.py:215-222 | appending another bit string, aligned or not |
| `BitString.BitString.Data` | acrobe/bitstring.py:264-273 | the cached bytes are those of the bits |
| `BitString.BitString.Extended` | acrobe/bitstring.py:394-403 | `+=` |
| `BitString.BitString.Plus` | acrobe/bitstring.py:405-429 | `+`: the integer path for up to 256 bits gives what appending gives, operands unchanged |
| `BitString.BitString.Slice` | acrobe/bitstring.py:289-307 | the view taken is the slice of the bit sequence, bounds missing, negative or beyond the ends included |
| `BitString.BitString.SubSlice` | acrobe/bitstring.py:120-141 | a slice of a slice likewise |
| `BitString.SliceTakes` | acrobe/bitstring.py:289-307 | a slice is the run of positions that have reached its start and not its stop, negative bounds counted from the end |
| `BitString.CutsMeet` | acrobe/bitstring.py:289-307 | for every integer k, `s[:k] + s[k:]` is `s` |
| `BitString.BitString.SliceBit` | acrobe/bitstring.py:143-148 | which bit a slice's index reads, or that it raises; it lies in the slice if and only if the index is one of the slice's |
| `BitString.BitString.SliceNumber` | acrobe/bitstring.py:89-105 | a slice's number, read out of the bytes that span it |
| `BitString.BitString.SliceData` | acrobe/bitstring.py:107-119 | a slice's bytes, by either path |
| `BitString.BitString.Bit` | acrobe/bitstring.py:309-316 | indexing, from either end |
| `JopSession.Encoder.EmitWindow` | acrobe/jop/bytestream.py:243-270 | bytes out plus held bits are held bits before, the window, and the padding an EOP asks for; the EOP is on the last byte out |
| `JopSession.Session.Capture` | acrobe/jop/session.py:322-353 | one Shift over any TDO: queue and response bits are those of its TCKs one by one, EOP if one of them ends a window that asks for it |
| `JopSession.Session.PushTdoCapture` | acrobe/jop/session.py:311-318 | scheduling a window, overflow included |
| `JopSession.Session.DoShift` | acrobe/jop/session.py:322-356 | in every run, bytes sent plus held bits are the captured bits of the session, packed LSB first |
| `JopCapture.ClockCuts` | acrobe/jop/session.py:330-348 | the queue, TCK by TCK, captures the windows in turn: each enabled window its own TCKs, padded at its end when it asks for EOP |
| `JopSchedule.SessionCapturesSchedule` | acrobe/jop/session.py:301-353 | every session without overflow captures exactly its windows, each placed at the later of its push and its predecessor's end and cut short by a reset |
| `JopSchedule.ResetParts` | acrobe/jop/session.py:307-310 | a reset parts a session in two: the response is that of the parts end to end, overflow included |
| `JopProxy.Serve` | acrobe/jop/session.py:301-321 | commands dispatched in order take the session through the events of the commands |
| `JopProxy.ProxyEvents` | acrobe/jop/session.py:322-323 | through walker and encoder those events are the ones of a peer that clocks and samples the TAP itself |
| `JopProxy.BytesPackTrueTdo` | acrobe/jop/session.py:301-356 | the whole path, any cut, batching and device: the bytes sent are those of such a peer, and unless the queue is overrun they pack what it samples inside the windows it asked for, placed in its own stream of TCKs and cut short where it cleared them |
| `JopSession.CutsDoNotShow` | acrobe/jop/session.py:322-356 | however the same TCKs are cut into Shifts, the bytes sent and the bits held are the same |
| `JopCapture.IdealIffNoOverflow` | acrobe/jop/session.py:311-318 | the session does at every moment what one with room for every window does, if and only if no window is pushed while the queue is full |
| `JopCapture.TwoAreKept` | acrobe/jop/bytestream.py:74 | two windows pushed at once are captured as they were asked for |
| `JopCapture.ThirdCostsFirst` | acrobe/jop/session.py:311-318 | a third one costs the first, whose TCKs go to the second |
| `JopSchedule.OverflowTellsIff` | acrobe/jop/session.py:311-318 | a push onto a full queue changes the response to some TDO if and only if one of the three windows is enabled |
| `JopSchedule.OverflowShowsInResponse` | acrobe/jop/session.py:311-318 | the first overflow of a session then shows in the response to TCKs that follow it |
| `JopCapture.PushEarlyOrLate` | acrobe/jop/session.py:311-348 | and there it does not matter when a window is pushed, as long as the queue has not run dry |
| `JopCapture.OverflowMisplaces` | acrobe/jop/session.py:312-315 | a queue overflow after which a one-TCK window captures two |
| `StaplParser.Parser.ParseExpression` | acrobe/stapl/parser.py:1303-1318 | the loop over operators: result and position are those `ParsesIff` is about |
| `StaplParser.Parser.ParseUnaryExpression` | acrobe/stapl/parser.py:1333-1359 | prefix operators, `!` not taken from `!=` |
| `StaplParser.Parser.ParsePrimaryExpression` | acrobe/stapl/parser.py:1361-1397 | groups, numbers and names, with the errors raised |
| `StaplParser.Parser.FinishName` | acrobe/stapl/parser.py:1428-1472 | calls, subscripts, ranges and plain names |
| `StaplParser.ParseTextFully` | acrobe/stapl/parser.py:1475-1481 | every printed form is parsed to its expression |
| `StaplAccepts.ParsesIff` | acrobe/stapl/parser.py:1266-1481 | the parser gives e and stops at the end of the text if and only if the text is one of e: any blanks, any parentheses, precedence and left association as in the table |
| `StaplAccepts.ParsedIsText` | acrobe/stapl/parser.py:1303-1481 | whatever is parsed without an error was read off a text of its expression; only what follows that text is ignored |
| `StaplAccepts.TextsAreUnambiguous` | acrobe/stapl/parser.py:1266-1331 | no text is one of two expressions |
| `StaplAccepts.GroupNotClosed` | acrobe/stapl/parser.py:1370-1379 | a missing closing parenthesis is a ValueError |
| `StaplAccepts.CallNotClosed` | acrobe/stapl/parser.py:1428-1448 | in a call it is an AssertionError, or an IndexError at the end of the text |
| `StaplAccepts.IndexNotClosed` | acrobe/stapl/parser.py:1450-1470 | so is a missing closing bracket |
| `StaplAccepts.DollarNotFollowed` | acrobe/stapl/parser.py:1440-1444 | so is a missing parenthesis behind `CHR$` |
| `StaplAccepts.NoOperand` | acrobe/stapl/parser.py:1333-1391 | where an operand is due, the end of the text or a character none begins with is a ValueError |
| `StaplTexts.TwoOperators` | acrobe/stapl/parser.py:1266-1277 | of any two operators between names, the one on the tighter of the ten levels takes its operands first; on one level the left one |
| `StaplTexts.PrefixFirst` | acrobe/stapl/parser.py:1333-1359 | a prefix operator binds tighter than all of them |
| `StaplTexts.NumberOfDigits` | acrobe/stapl/parser.py:1393-1397 | digits are decimal, the first the highest |
| `StaplTexts.Characters` | acrobe/stapl/parser.py:1419-1423 | the characters of names, by enumeration, and the blanks |
| `StaplRoundTrip.ShowRoundTrip` | acrobe/stapl/parser.py:1266-1331 | however parentheses are added to those that precedence and left association need, parsing gives the expression back: the precedence table is implemented as such |
| `StaplRoundTrip.FmtRoundTrip` | acrobe/cli/stapl.py:41-62 | `parse_expr(fmt_expr(e))` is `e`, to the end of the text, when no Boolean literal occurs |
| `StaplLiterals.FmtRoundTripIff` | acrobe/cli/stapl.py:41-62 | for every expression: it is `e` if and only if no Boolean literal occurs, and a ValueError otherwise |
| `Batcher.Batcher.PostOp` | acrobe/engine.py:88-118 | posting, and starting a task unless one is under way |
| `Batcher.Batcher.BeginFlush` | acrobe/engine.py:120-127 | a task takes the lock and the pending ops |
| `Batcher.StepKeepsInv` | acrobe/engine.py:83-143 | every step keeps: all ops in one batch or pending, one lock holder, one waiting task |
| `Batcher.EveryRun` | acrobe/engine.py:83-143 | in every interleaving each op reaches flush_ops once and in post order, flushes never overlap, and pending ops have a waiting task |
| `Batcher.Drains` | acrobe/engine.py:115-143 | from every such state two steps bring all pending ops to flush_ops |
| `Batcher.QuietMeansFlushed` | acrobe/engine.py:115-143 | when no task is under way everything posted was flushed |

## Left out

- asyncio, loop scheduling, logging and events beyond the steps named above; futures are values, and the single last-anchor callback of `Chain.flush_ops` is not modelled.
- Timing: idle cycles after reset, the cJTAG escape sequences and their effects, polling.
- Adapters, listeners, sockets, USB, the node tree, configuration, plugins and the JEP106 table.
- Telnet and RFC 2217 layers, STAPL statements, interpreter and ACA, `MemoryMap`, CRC code generators and reveng parsing.
- Floating point: `shift_discover` takes the top bit with `log2`; the marker's leading 1100 keeps the rounded result exact for the lengths probed, so the model takes the top bit itself.
- CRC order 1: the constructor or the first seek raises, so polynomials of order 2 and up are modelled.
- Chain.Chain.TapReattach: takes a position at a TAP boundary, where the geometry is meaningful.
- Chain.Chain.TapInsert: takes IR lengths of at least one bit and a position at a TAP boundary, where the geometry is meaningful.
- Chain.Chain.Refresh: takes the probed slots as a parameter, which `Chain.Chain.TlrAndRefresh` supplies; the hooks before and after the reset are left out.
- Chain.Chain.TlrAndRefresh: takes what the chain shows after the reset as a parameter, and leaves out the hooks.
- ChainRefinement.InPlaceIff: reads the condition off uniform caches, which are what a fixed chain has; for other truthful caches `ChainAlone.EveryOpServed` has it by the instructions held.
- ChainReadings.WireMeans: starts from a rest other than reset, and takes DR payloads and instructions that are not empty and idle cycles that add up.
- Chain.Chain.FlushOps: instructions come at the IR length of their TAP, where the source truncates an integer to it; ops that are not TapOps are refused by type.
- ChainRefinement.RunRefines: takes instructions as long as the IR of their TAP; a scan without instruction while other TAPs are not in BYPASS is a scan of the whole chain.
- JopCapture.ClockCuts: is about windows pushed before the first TCK; `JopSchedule.SessionCapturesSchedule` places windows pushed at any time.
- JtagTmsWalker.Walker.Process: the results of the posted Shifts enter `JtagProxyTdo.Reassemble` as a parameter; the warning for bundled entries is left out.
- JtagOpEncoder.Encoder.EncodeBatch: the buffers the source passes around are fields of the encoder.
- MemoryPending.PendingBlob.OnDone: a sub-result has the width asked for, and all accesses are attached before one completes, as the expansion does; ops posted without a future lower the same way and resolve nothing.
- RegisterFromBulk, the opposite emulation, which only widens single accesses.
- I2cMem.LowerWrite: EEPROM write-cycle waits are left out.
- Allocator.Allocator.Allocate: alignments are powers of two, for which masking is rounding down.
- BitString.BitString.FromBytes: takes no more bytes than the length needs, zero above it; assignment to bits is left out.
- BitString.BitString.AppendBytes: likewise takes no more bytes than the length needs, zero above it.
- JopSession.Session.DoShift: info replies, loopback and packet framing are left out; TDO of the walker is a parameter, which `JopProxy.BytesPackTrueTdo` ties to the device.
- StaplParser.Parser.ParsePrimaryExpression: reading a Boolean literal is an error value, and character classes are those of ASCII.
- Batcher.EveryRun: no task is cancelled; futures of a batch whose flush raises are not followed.
