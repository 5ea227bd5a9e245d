# OBS WhisperBleep verification

OBS WhisperBleep censors speech in realtime: an audio callback captures blocks, a worker transcribes and matches them,
and a delayed block comes back with the matched stretches replaced. This project models its logic in Dafny and proves
properties of the model. One module stands for one source component:

| area | modules |
|---|---|
| concurrency | `SpscRing`, `AudioFrameQueues`, `ProcessingWorker`, `WorkerOutcomes`, `BridgeMachine`, `BridgeSafety`, `BridgeTiming`, `IngressRing`, `DelayRing` |
| timeline | `AudioTimeline`, `GapRecovery` |
| model activation | `Sha256`, `Sha256Constants`, `Sha256Example`, `ModelPublish`, `ModelManager` |
| meaning of censoring | `PhraseMatcher`, `PhraseMeaning`, `TimestampPlanner`, `CensorScheduler`, `ReplacementRenderer`, `AudioPipeline` |
| codecs | `WavAudioLoader`, `WavVerdict`, `WavPcm`, `Json`, `JsonGrammar`, `LineProtocol`, `LineOutcomes`, `ArgumentQuoting` |

`dafny verify dfyconfig.toml` checks everything.

**How the concurrent parts are modelled.** Each atomic load or store is one step of a step relation, every thread has a
program counter, and a theorem about a run holds for every interleaving. Atomics are sequentially consistent. Two things are
coarser in `BridgeMachine`: a lifecycle call is one step per phase it leads to, and the submit thread's look at the
ingress ring is one step. There is
one producer and one consumer per ring, and lifecycle calls do not overlap the host callback, as the code states. The
bridge's rings appear in `BridgeMachine` as bounded queues, one step for each point at which a ring operation takes
effect; `SpscRing` proves that the index rings refine such queues at those points, and `DelayRing` does the same in place
for the raw delay ring. `IngressRing` puts the two together for the ingress ring: every run of the bridge with that ring
as an array is a run of `BridgeMachine`. For the core queue and the result ring that fit is not itself a theorem. Runs
of the bridge assume a frame counter below 2^63; `BridgeSafety.InStepExactlyWithoutOverflow` says exactly which block
breaks step without it. Gap recovery needs finite samples; `GapRecovery.RecoveryExactly` and
`BridgeSafety.InStepExactlyOnFiniteBlocks` give its exact condition for every stream.

**How the objects are modelled.** Code that changes fields or arrays in loops is a class or a method with the same
fields and loops, proved equal to a specification function; the theorems are lemmas about those functions. The file
system may fail at every operation, the runtime's answers, the transcriber, the transport, the clock and the pipe are
parameters or nondeterministic choices. Samples are real numbers, integers are unbounded with the source's int64, uint64,
uint32 limits written out, and bytes are 0..255.

**Where the code and its stated intent differ** (the model follows the code):

- The raw fallback of the bridge copies the delayed block but returns the current one (src/obs/native_audio_bridge.cpp:570-577): `BridgeSafety.DelayedExactlyWithResult`, `BridgeSafety.UndelayedIsReachable`.
- A block with a non-finite sample passes through before the timeline hears of it (src/core/audio_pipeline.cpp:141-148). Unmarked, it leaves a gap that is not flagged: `GapRecovery.OneNonFinitePacketSticks`. Marked, it takes the mark with it, so that a loss already flagged is forgotten: `BridgeSafety.LossIsForgottenOnNonFiniteBlock`, `GapRecovery.MarkOnNonFiniteIsLost`. The exact condition: `GapRecovery.RecoveryExactly`.
- Frame counter overflow and generation saturation lose the guarantees the epochs give below them: `BridgeSafety.InStepExactlyWithoutOverflow`, `AudioTimeline.OldAnchorsDieExactlyBelowSaturation`.
- Re-selecting the active model reports success without initializing the runtime: `ModelManager.SelectLoadsExactly`, `ModelManager.ReselectAfterFailedRestore`.
- Samples are described as normalized; the largest 32-bit samples reach 1: `WavPcm.WideSamplesRound`.
- The runner's documentation speaks of one request line and one response line per call; a request with an embedded newline is not refused: `LineProtocol.AlignedExactlyAfterOneLineRequests`, `LineProtocol.MisalignedRun`.
- The JSON reader also skips vertical tabs and form feeds, which RFC 8259 does not allow as white space: `JsonGrammar.SpacesExactly`.
- A quoted program path that ends in a backslash, or holds a quote, is not read back as written, and one with an odd number of quotes, or a blank after an odd one, loses arguments: `ArgumentQuoting.ProgramNameRoundTrip`, `ArgumentQuoting.CommandLineRoundTrip`.
- While the runtime is being switched, the records and the loaded file disagree for a moment that other threads can see: `ModelManager.AgreementLapsesExactlyDuringActivation`.
- `result.intervals` omits an interval that spills past the chunk although the renderer clips and paints it: `AudioPipeline.ReportedIntervalsLieInTheChunk`.

## Model

| member | source | states |
|---|---|---|
| SpscRing.EveryRunIsAFifo | src/core/audio_frame_queue.cpp:24-65 | Over every interleaving of producer and consumer atomic steps: items accepted are the items taken followed by the items queued, in order; the length never exceeds the capacity (0 included); finished pushes are exactly accepted plus dropped |
| SpscRing.StepKeepsRunInv | src/core/audio_frame_queue.cpp:31-55 | Each single atomic step keeps that history invariant |
| SpscRing.StepRefinesQueue | src/core/audio_frame_queue.cpp:31-55 | Forward simulation of an abstract bounded FIFO: a push takes effect at the store of the head index, a rejection happens only at an instant when the queue is full and drops the newest item, a pop takes effect at the store of the tail index |
| SpscRing.ProducerAvoidsReadableSlots | src/core/audio_frame_queue.cpp:31-43 | The slot the producer writes is never one the consumer may still read, whatever head the consumer last loaded |
| SpscRing.RacySizeWithinCapacity | src/core/audio_frame_queue.cpp:61-65 | size() loads two indices at different moments; the result is still within 0..capacity, and exact for the consumer |
| SpscRing.LoadTail | src/core/audio_frame_queue.cpp:31-38 | The fullness test reports full exactly when the queue is full at that load, and changes no content |
| SpscRing.DiscardSeen | src/obs/native_audio_bridge.cpp:583-586 | Discarding results removes exactly what was published when the head was loaded and keeps everything published later |
| SpscRing.SuccessorsAgree | src/core/audio_frame_queue.cpp:27-29 | The modular successor of the queue and the compare-and-reset successor of the bridge rings are the same function |
| AudioFrameQueues.AudioFrameQueue.constructor | src/core/audio_frame_queue.cpp:14-25 | capacity + 1 slots, empty contents, no drops |
| AudioFrameQueues.AudioFrameQueue.TryPush | src/core/audio_frame_queue.cpp:31-43 | Appends exactly when below capacity; otherwise contents stay and the drop counter grows by one |
| AudioFrameQueues.AudioFrameQueue.TryPop | src/core/audio_frame_queue.cpp:45-55 | Returns and removes the oldest frame, or nothing exactly when empty |
| AudioFrameQueues.AudioFrameQueue.CapacityOf | src/core/audio_frame_queue.cpp:57-59 | One less than the number of slots |
| AudioFrameQueues.AudioFrameQueue.Size | src/core/audio_frame_queue.cpp:61-65 | The number of queued frames |
| ProcessingWorker.EveryRunKeepsInv | src/core/audio_processing_worker.cpp:16-126 | The combined invariant (gate, lifecycle, drain, history) holds in every state of every interleaving of submit, stop, start, run and a throwing processor |
| ProcessingWorker.StepKeepsInv | src/core/audio_processing_worker.cpp:16-126 | Every single atomic step keeps it |
| ProcessingWorker.DrainedWhenStopReturnsOrRunExits | src/core/audio_processing_worker.cpp:55-126 | When stop() returns or run() exits, every accepted frame has been handed to the processor, in acceptance order; nothing is queued, in hand or about to be pushed |
| ProcessingWorker.HandedIsPrefixOfAccepted | src/core/audio_processing_worker.cpp:72-126 | At every moment the frames handed over, and the frames whose submit returned true, are prefixes of the frames accepted |
| ProcessingWorker.HandedAtMostOnce | src/core/audio_processing_worker.cpp:101-126 | No accepted frame is handed over twice |
| ProcessingWorker.StartNeverBlocksOnJoin | src/core/audio_processing_worker.cpp:16-53 | start() reaches its join only when there is no thread or it has finished |
| WorkerOutcomes.OpenGateAccepts | src/core/audio_processing_worker.cpp:76-99 | A submission made while the worker runs, accepts and is not asked to stop, and the queue keeps room, is accepted and reported as such |
| WorkerOutcomes.ShutGateRefuses | src/core/audio_processing_worker.cpp:76-99 | One made while it is not running, or not accepting, or asked to stop, throughout, is refused and changes nothing |
| WorkerOutcomes.ThrowShutsGate | src/core/audio_processing_worker.cpp:106-118 | From a throw of the processor on, until the thread is joined, the thread is about to shut the gate or it is shut and a stop requested; a processor that returns leaves it as it was |
| WorkerOutcomes.StartOpensGate | src/core/audio_processing_worker.cpp:16-53 | A start on a worker that is not running leaves it running and accepting with a thread at work, unless the thread could not be made |
| WorkerOutcomes.StopAndExitShut | src/core/audio_processing_worker.cpp:55-126 | When stop returns, the worker is not running, accepts nothing and has no thread; when run leaves, it is not running and accepts nothing; stop goes on to the join exactly when no submission stands between its two counter updates |
| WorkerOutcomes.NotRunningBeforeStart | src/core/audio_processing_worker.cpp:11-13 | A worker never started is not running and accepts nothing |
| AudioTimeline.MapsExactlyLiveIntervals | src/core/audio_timeline.cpp:150-175 | A relative interval maps if and only if its anchor is live and it lies inside the chunk; the image lies inside the chunk and keeps its width |
| AudioTimeline.MappingKeepsOrder | src/core/audio_timeline.cpp:158-175 | Order and disjointness of intervals are kept, both ways |
| AudioTimeline.VectorMapsExactlyLiveEntries | src/core/audio_timeline.cpp:211-223 | The vector form returns exactly the images of the entries that map |
| AudioTimeline.GenerationNeverDecreases | src/core/audio_timeline.cpp:37-44 | Over any run of chunks and resets |
| AudioTimeline.AnchorsChain | src/core/audio_timeline.cpp:79-142 | Consecutive anchors of one generation meet end to start, over any run |
| AudioTimeline.SameGenerationIsContiguous | src/core/audio_timeline.cpp:79-142 | All anchors of one generation tile a single contiguous range of frames |
| AudioTimeline.AnchorsDieWithTheirEpoch | src/core/audio_timeline.cpp:79-156 | Below saturation, no anchor issued before a reset, a marked discontinuity or a detected gap ever maps again, whatever follows |
| AudioTimeline.StaleAnchorNeverMaps | src/core/audio_timeline.cpp:150-156 | An anchor of a smaller generation stays dead over every later run |
| AudioTimeline.OldAnchorsDieExactlyBelowSaturation | src/core/audio_timeline.cpp:37-156 | For every state and every event that ends an epoch: no older anchor ever maps again, whatever follows, if and only if the generation is below 2^64 - 1 |
| AudioTimeline.EpochEndsAdvanceGenerationExactlyBelowSaturation | src/core/audio_timeline.cpp:37-44 | An epoch end advances the generation if and only if it is below 2^64 - 1 |
| AudioTimeline.SaturatedAnchorStillMaps | src/core/audio_timeline.cpp:37-44 | The concrete failure at saturation: an old anchor maps after a marked discontinuity |
| AudioTimeline.GapRejectsUntilMarked | src/core/audio_timeline.cpp:99-117 | After a detected gap every unmarked chunk is refused, for as long as none is marked |
| AudioTimeline.AudioTimelineCoordinator.constructor | src/core/audio_timeline.cpp:66-73 | Unanchored, generation 0, rate 0 replaced by 48000 |
| AudioTimeline.AudioTimelineCoordinator.AcceptChunk | src/core/audio_timeline.cpp:79-135 | New state and update are those of the transition function; an issued anchor is live at once |
| AudioTimeline.AudioTimelineCoordinator.ResetTimeline | src/core/audio_timeline.cpp:137-142 | No anchor is live afterwards |
| AudioTimeline.AudioTimelineCoordinator.MapAll | src/core/audio_timeline.cpp:211-223 | The loop computes the vector form |
| GapRecovery.MarkedPacketReanchors | src/core/audio_timeline.cpp:99-134 | A finite, marked packet re-anchors the timeline at its end, whatever was delivered before |
| GapRecovery.UnmarkedPacketExtends | src/core/audio_timeline.cpp:99-134 | An unmarked packet leaves the timeline in step if and only if it was in step with that packet |
| GapRecovery.InStepIffNoOpenBreak | src/core/audio_timeline.cpp:99-134 | Delivering a list of finite packets leaves the timeline in step with the stream if and only if no break of contiguity lies after the last marked packet |
| GapRecovery.ContiguousAfterMarkIsClosed | src/core/audio_timeline.cpp:99-134 | Contiguity from some marked packet on is enough |
| GapRecovery.RecoveryExactly | src/core/audio_pipeline.cpp:136-158 | For every timeline and every list of sound packets, with any marks, gaps and samples: delivery leaves the timeline in step with the stream if and only if no break lies after the last mark among the packets whose samples are all finite |
| GapRecovery.NonFiniteIsUnheard | src/core/audio_pipeline.cpp:141-148 | Delivering a list is delivering its finite packets: a non-finite one changes nothing, and its mark goes unheard with it |
| GapRecovery.MarkOnNonFiniteIsLost | src/core/audio_pipeline.cpp:141-148 | A lost timeline whose mark stands on a non-finite packet stays lost, whatever unmarked packets follow |
| GapRecovery.UninterruptedExactlyForFiniteSamples | src/core/audio_pipeline.cpp:141-148 | In an uninterrupted stretch (contiguous unmarked packets from where an anchored timeline stands on): in step at its end if and only if every packet is finite |
| GapRecovery.OneNonFinitePacketSticks | src/core/audio_pipeline.cpp:141-148 | The concrete failure: one packet with a NaN, and every later unmarked packet is refused |
| BridgeSafety.EveryRunKeepsInv | src/obs/native_audio_bridge.cpp:281-581 | The combined invariant of callback, submit thread, worker and lifecycle (order, identity, delay ring, output) holds in every reachable state, whatever the samples, while the frame counter stays in range |
| BridgeSafety.FiniteRunKeepsRecovery | src/obs/native_audio_bridge.cpp:449-480 | With finite samples the recovery invariant holds too |
| BridgeSafety.StepKeepsInv | src/obs/native_audio_bridge.cpp:281-581 | Every single step keeps the first |
| BridgeSafety.StepKeepsRecovery | src/obs/native_audio_bridge.cpp:281-581 | Every single step keeps the second |
| BridgeSafety.GapNeverSticks | src/obs/native_audio_bridge.cpp:449-480 | In every reachable running state of a stream of finite samples, either a loss is noted (or about to be) in the gap flag, or no break lies after the last discontinuity mark among all packets in flight, and delivering them leaves the timeline in step with the stream |
| BridgeSafety.InStepExactlyOnFiniteBlocks | src/obs/native_audio_bridge.cpp:449-480 | In every reachable state, whatever the samples: delivering all blocks in flight leaves the timeline in step with the stream if and only if no break lies after the last mark among the finite ones |
| BridgeSafety.LossIsForgottenOnNonFiniteBlock | src/obs/native_audio_bridge.cpp:669-701 | When the block that takes the mark is not finite, and no other loss is noted or about to be: the flag is cleared, the block carries the mark, and the timeline as delivered does not change |
| BridgeSafety.NotedLossPersists | src/obs/native_audio_bridge.cpp:669-701 | Once set while the stream is open, the gap flag stays set until a block reaches its marking step |
| BridgeSafety.NotedLossIsRepaired | src/obs/native_audio_bridge.cpp:669-701 | From any moment the gap flag is set, through any interleaving, the first block to reach its marking step carries the mark and enters the chain last; with finite samples its delivery anchors the timeline where the stream stands. A block already past that step may go on the ring unmarked before it |
| BridgeSafety.OutputIsAligned | src/obs/native_audio_bridge.cpp:521-581 | Every processed block returned has the frame id, timestamp and length of the oldest raw block, which is at least 1.5 s old; results are used in strictly increasing order; an undelayed block leaves only when the results seen had none for the oldest block; blocks with non-finite samples included |
| BridgeSafety.DelayedExactlyWithResult | src/obs/native_audio_bridge.cpp:570-577 | In every run a scan ends with the delayed block if and only if a result for the oldest raw block is among the results it saw on the queue; otherwise the current block goes out undelayed, contrary to the stated intent |
| BridgeSafety.ScanKeepsThePresentResult | src/obs/native_audio_bridge.cpp:534-568 | A turn of the scan that goes on neither drops a result for the oldest block nor makes one appear, so what is there at the end is what was there when it began |
| BridgeSafety.ProcessedIsReachable | src/obs/native_audio_bridge.cpp:521-568 | A run in which the first block goes through the worker and comes back delayed and processed |
| BridgeSafety.UndelayedIsReachable | src/obs/native_audio_bridge.cpp:570-577 | A run in which the current block does go out undelayed: the runtime is never ready, and the second of two blocks goes out while the first, 1.512 s old, is dropped |
| BridgeSafety.OldestIsAlwaysThere | src/obs/native_audio_bridge.cpp:528-530 | The empty-ring return is unreachable once the block has been captured |
| BridgeSafety.DelayQueueIsContiguous | src/obs/native_audio_bridge.cpp:635-667 | The delay ring holds at most its capacity, contiguous blocks, ending at the newest one |
| BridgeSafety.NothingInFlightWhenStopped | src/obs/native_audio_bridge.cpp:281-300 | When stopped, ingress ring, core queue, both hands and result ring are empty; the raw delay ring is not cleared by stop |
| BridgeSafety.NothingSurvivesRestart | src/obs/native_audio_bridge.cpp:247-268 | After every start the raw delay ring, all queues and hands and the output log are empty, no loss is noted and the timeline waits for the first block |
| BridgeSafety.ThreadsCanAlwaysMove | src/obs/native_audio_bridge.cpp:417-480 | A callback or submit step once begun always finds in its queue what it needs |
| BridgeSafety.InStepExactlyWithoutOverflow | src/obs/native_audio_bridge.cpp:703-736 | For every stream and every timeline in step with it, delivering the block that begins leaves it in step if and only if the frame counter does not overflow, or the timeline had no position yet |
| BridgeSafety.OverflowRefusesTheNextBlock | src/obs/native_audio_bridge.cpp:703-736 | After an overflow the next block is refused unless marked, though nothing was lost |
| BridgeSafety.OverflowLosesTheTimeline | src/obs/native_audio_bridge.cpp:703-736 | A concrete overflow and its effect |
| BridgeTiming.NeighboursFollow | src/obs/native_audio_bridge.cpp:703-735 | In every reachable state each block of the delay queue starts where the one before it ends, or at most one second later by its timestamp, and carries the next frame id |
| BridgeTiming.JumpExactly | src/obs/native_audio_bridge.cpp:703-735 | In every run, for two blocks begun one after the other in a stream: the second is a discontinuity if and only if its timestamp is before the end of the first or more than one second after it; then the delay queue is emptied and old results are to be dropped, otherwise queue and reset flag stay as they were |
| BridgeTiming.FirstBlockIsNoJump | src/obs/native_audio_bridge.cpp:703-735 | The first block after a start is never one |
| BridgeTiming.JumpTakesEffect | src/obs/native_audio_bridge.cpp:338-360 | Through any interleaving, from the jump to the callback's return: the block is published with the mark, the reset is taken before the delay is judged, every result that was there at the jump is dropped, nothing is returned for the block, and it is alone in the delay queue |
| BridgeTiming.StreamBreaksExactly | src/obs/native_audio_bridge.cpp:703-735 | The same for one block of any stream, counter overflow included |
| BridgeTiming.EndTimeExactly | src/obs/native_audio_bridge.cpp:110-130 | A block ends frames / rate seconds after its timestamp in whole nanoseconds, rounded down, or at the largest timestamp |
| BridgeTiming.SilentExactlyWhileFilling | src/obs/native_audio_bridge.cpp:521-581 | In every run: nothing is returned and the delay queue stays if and only if the block in hand ends less than 1.5 s after the oldest block; otherwise exactly one block is returned and the oldest leaves the queue |
| BridgeTiming.FullQueuePassesThrough | src/obs/native_audio_bridge.cpp:635-667 | A block that finds 96 blocks queued is passed through, the queue is emptied, results are to be dropped and a loss is noted; with room it is appended |
| BridgeTiming.BlocksAreLostExactly | src/obs/native_audio_bridge.cpp:449-518 | The worker loses a block exactly when 95 results wait; the submit thread exactly when the runtime is not ready, submission fails or 96 blocks are queued; nothing else leaves the flow or changes its order |
| BridgeTiming.LifecycleClears | src/obs/native_audio_bridge.cpp:247-300 | Each phase of a stop clears its part (readiness; ingress blocks and noted losses; results and resets), and a start ends the timeline's epoch: a kept timeline goes on with the next generation, a rebuilt one starts over |
| IngressRing.MoveRefines | src/obs/native_audio_bridge.cpp:417-447 | The bridge with its ingress ring as an array ring, one load or store a step: every move is a step of the relation in which that ring is a queue, or changes nothing there |
| IngressRing.EveryConcreteRunIsABridgeRun | src/obs/native_audio_bridge.cpp:417-480 | So every run with the array ring, through all its interleavings, is a run of the bridge relation, and ends in the state that one ends in |
| DelayRing.FillAppends | src/obs/native_audio_bridge.cpp:635-667 | The slot at the write index of a ring that is not full is never valid, so that rejection is unreachable; filling it appends |
| DelayRing.ReleasePopsOldest | src/obs/native_audio_bridge.cpp:521-581 | Releasing the slot at the read index removes the oldest block and keeps the others |
| DelayRing.CallbackState.CaptureRaw | src/obs/native_audio_bridge.cpp:635-667 | Appends exactly when not full; when full, fails and empties the ring |
| DelayRing.CallbackState.PopOldest | src/obs/native_audio_bridge.cpp:521-581 | The oldest block leaves, the rest stays in order |
| DelayRing.CallbackState.ClearRawRing | src/obs/native_audio_bridge.cpp:738-745 | Every slot invalid, contents empty |
| DelayRing.CallbackState.BeginStreamBlock | src/obs/native_audio_bridge.cpp:703-736 | The stream counters take the values of the step relation; it is a discontinuity, and results are to be dropped, exactly when the timestamp lies before the last end or over one second after it, or the frame counter would overflow; a discontinuity empties the ring; otherwise the next frame advances by the block |
| Sha256.Transform | src/model/model_downloader.cpp:93-148 | The in-place 64-word schedule and 64 rounds equal the recursive compression function of section 6.2.2 of FIPS 180-4 |
| Sha256.ScheduleMixesAreStandard | src/model/model_downloader.cpp:88-111 | The shift-and-or expressions of the schedule are the rotations sigma0 and sigma1 of section 4.1.2 |
| Sha256.RoundMixesAreStandard | src/model/model_downloader.cpp:88-130 | The same for the rotations Sigma0 and Sigma1 of the rounds |
| Sha256.Turn | src/model/model_downloader.cpp:121-139 | One turn over the eight registers, assigned one after the other, is the round of section 6.2.2 |
| Sha256.FillSchedule | src/model/model_downloader.cpp:93-111 | The schedule loop computes the message schedule of the standard |
| Sha256.ScheduleStep | src/model/model_downloader.cpp:103-111 | The order in which the loop adds its four terms does not matter modulo 2^32 |
| Sha256Constants.RoundConstantsAreStandard | src/model/model_downloader.cpp:70-87 | Round constant t is the first 32 bits of the fraction of the cube root of the prime that has t primes below it, for all 64 |
| Sha256Constants.InitialValueIsStandard | src/model/model_downloader.cpp:23-26 | Initial word t is the first 32 bits of the fraction of the square root of the prime that has t primes below it, for all 8 |
| Sha256.ChoosesBitwise | src/model/model_downloader.cpp:123-124 | Under every mask where x is all ones the choice has y's bits, where x is all zeros z's |
| Sha256.TakesMajorityBitwise | src/model/model_downloader.cpp:129-129 | Under every mask where two of the words agree the majority has their bits |
| Sha256.LengthIsBigEndian | src/model/model_downloader.cpp:44-57 | The eight bytes after the padding, read as a number, are the length in bits |
| Sha256Example.KnownDigest | src/model/model_downloader.cpp:28-68 | The digest of "abc" is the published one, computed in the proof |
| Sha256.PaddingSplits | src/model/model_downloader.cpp:44-57 | The padded message of sections 5.1.1 and 5.2.1 is the hashed blocks followed by the one or two blocks that final_hex builds |
| Sha256.Hasher.Update | src/model/model_downloader.cpp:28-42 | However data is cut into calls, the state is the fold of compression over the whole blocks of all bytes so far, the rest is buffered |
| Sha256.Hasher.FinalHex | src/model/model_downloader.cpp:44-68 | The 64 hexadecimal digits of the FIPS 180-4 digest of everything fed, for messages under 2^64 bits |
| Sha256.HashFile | src/model/model_downloader.cpp:227-263 | The digest does not depend on how the stream is read; a path that is not regular, does not open, fails to read or has another size is refused, each with its own reason, in that order |
| ModelPublish.Publish | src/model/model_downloader.cpp:430-462 | It succeeds exactly when no rename fails; then the destination holds the temporary file's bytes, the temporary is gone and, unless its removal fails, so is the backup. Otherwise the old bytes are at the destination, or, exactly when the restoring rename failed too, in the backup. At every state in between the old bytes are at destination or backup, or verified ones at the destination |
| ModelPublish.Download | src/model/model_downloader.cpp:343-478 | All or nothing under every failure of any file operation, a throwing transport and cancellation. And, unless a file operation other than a removal fails, each outcome comes exactly when it is due: a refused request with its reason and no file touched; success with nothing changed when the destination is already the catalog's; otherwise success with the transferred bytes at the destination if and only if the transfer delivers the catalog's bytes, and cancelled, failed, unsupported or verification failed as the transfer ends |
| ModelPublish.VerifyAndPublish | src/model/model_downloader.cpp:419-462 | After a transfer: if no file operation other than a removal fails, verified bytes are published and any others are refused as such |
| ModelPublish.ValidExactlyForDigests | src/model/model_downloader.cpp:159-167 | A catalog checksum is accepted if and only if it is the hexadecimal form of some digest, in either case |
| ModelPublish.Abandon | src/model/model_downloader.cpp:463-477 | The failure paths touch neither destination nor backup |
| ModelManager.EveryObservableStateIsConsistent | src/model/model_manager.cpp:114-390 | Over every run, at every release of the state lock and after every answer of the runtime: active and previous ids differ, Active implies an active record, a pending id only while downloading or verifying |
| ModelManager.RuntimeAgreesBetweenCalls | src/model/model_manager.cpp:114-390 | Between calls, over every run, the runtime has the active file loaded unless a restore failed since the last activation |
| ModelManager.AgreementLapsesExactlyDuringActivation | src/model/model_manager.cpp:233-267 | Inside a call that agreement lapses if and only if the call gets as far as asking the runtime for a file and the runtime then has another one than the active one: the records still name the old file at that moment |
| ModelManager.CallKeepsConsistency | src/model/model_manager.cpp:114-390 | Each call keeps the record promises at each of its observable states |
| ModelManager.CallKeepsAgreement | src/model/model_manager.cpp:114-390 | Each call ends with the runtime in agreement if it began so |
| ModelManager.RecordsChangeOnlyOnSuccess | src/model/model_manager.cpp:114-390 | Records change only in the last state of a successful call, and a failed call removes no file |
| ModelManager.ResultIsVisible | src/model/model_manager.cpp:423-428 | Success is exactly ending Active; failure ends in Error with nothing pending |
| ModelManager.RollbackTwiceIsIdentity | src/model/model_manager.cpp:289-369 | Two successful rollbacks restore both records and the loaded file |
| ModelManager.RollbackUndoesSelect | src/model/model_manager.cpp:289-369 | A rollback undoes a successful retaining selection |
| ModelManager.SelectSucceedsExactly | src/model/model_manager.cpp:114-287 | A selection succeeds if and only if it is not cancelled first, the model has an entry and a cache path, and it is active already or is downloaded, not cancelled, verified and taken by the runtime; then exactly these records and this file result |
| ModelManager.SelectShowsItsStages | src/model/model_manager.cpp:133-232 | What others see meanwhile: that model downloading, then verifying, with the old records |
| ModelManager.RollbackSucceedsExactly | src/model/model_manager.cpp:289-369 | A rollback succeeds if and only if there is a previous record whose model has an entry, is verified and is taken by the runtime; then the records have changed places and its file is loaded |
| ModelManager.FailedActivationRestores | src/model/model_manager.cpp:233-267 | A failed activation fails the call, keeps the records, and the answer to the restore decides what is loaded |
| ModelManager.CleanupSparesKept | src/model/model_manager.cpp:156-179 | Cleanup removes exactly the old records' files other than the kept one, and only under selected-only |
| ModelManager.CleanupNeverRemovesActive | src/model/model_manager.cpp:156-180 | No success removes the active file, nor a file a previous record still names |
| ModelManager.ReselectLeavesRuntimeAlone | src/model/model_manager.cpp:144-183 | Re-selecting the active model succeeds without initializing: the runtime agrees afterwards if and only if it agreed before |
| ModelManager.SelectLoadsExactly | src/model/model_manager.cpp:114-287 | For every successful select with a runtime: the active path is loaded afterwards if and only if the model was not already active or its file was already loaded |
| ModelManager.ReselectAfterFailedRestore | src/model/model_manager.cpp:144-183 | The concrete failure: success reported with nothing loaded, after an activation and its restore both failed |
| ModelManager.Manager.SelectModel | src/model/model_manager.cpp:114-287 | The method, step by step, has the outcome and the observable states of the specification |
| ModelManager.Manager.Activate | src/model/model_manager.cpp:269-287 | The records move as the policy says, then the cleanup runs |
| ModelManager.Manager.RollbackModel | src/model/model_manager.cpp:289-369 | The same for rollback |
| ModelManager.Manager.RestoreRuntime | src/model/model_manager.cpp:371-390 | A successful restore has the record's file loaded; a failed one may leave anything loaded and is remembered; without a runtime or a record nothing happens |
| ModelManager.Manager.ActivateRuntime | src/model/model_manager.cpp:326-359 | The runtime block: initialize, and on failure restore and report |
| ModelManager.Manager.ConcludeSelection | src/model/model_manager.cpp:233-287 | From a verified file on |
| CensorScheduler.MergeIsCanonical | src/core/censor_scheduler.cpp:10-37 | The result is strictly sorted with positive gaps and covers exactly the frames of the valid inputs |
| CensorScheduler.CanonicalFormIsUnique | src/core/censor_scheduler.cpp:10-37 | Two canonical lists that cover the same frames are equal |
| CensorScheduler.MergeDecidesSameFrames | src/core/censor_scheduler.cpp:10-37 | Two inputs merge to the same list if and only if they cover the same frames |
| CensorScheduler.MergeIsIdempotentAndOrderIndependent | src/core/censor_scheduler.cpp:10-37 | Merging again changes nothing; permuting the input changes nothing |
| CensorScheduler.SortedPermutationsAgree | src/core/censor_scheduler.cpp:19-25 | The comparison is total enough that any correct sort gives the same result |
| CensorScheduler.MergeIntervals | src/core/censor_scheduler.cpp:10-37 | The loops compute the canonical form |
| ReplacementRenderer.RenderIsPointwise | src/core/replacement_renderer.cpp:56-101 | A frame outside the merged intervals keeps its samples; one inside gets on every channel what the interval gives it, whatever the other intervals are |
| ReplacementRenderer.PaintedSample | src/core/replacement_renderer.cpp:36-98 | Frame k of a clipped stretch is frame k mod R of the replacement, from the same channel, the only one, or the last one there is, times the gain of frame k |
| ReplacementRenderer.StretchRepeatsReplacement | src/core/replacement_renderer.cpp:36-98 | Without a fade and with equal channel counts sample j of a stretch is sample j mod n of the n samples of the replacement |
| ReplacementRenderer.FadeIsLinear | src/core/replacement_renderer.cpp:16-34 | With e the fade or half the stretch if that is less, the gain is 1, 2, .., e parts of e + 1 from either end, and 1 in between |
| ReplacementRenderer.FadeIsSymmetricAndBounded | src/core/replacement_renderer.cpp:16-34 | The gain is in (0, 1], symmetric about the middle, and 1 away from the edges |
| ReplacementRenderer.RenderDependsOnFramesOnly | src/core/replacement_renderer.cpp:56-101 | Interval lists covering the same frames render the same audio |
| ReplacementRenderer.PaintInterval | src/core/replacement_renderer.cpp:75-98 | The two inner loops overwrite exactly the frames of the clipped interval, in place |
| ReplacementRenderer.RenderBuffer | src/core/replacement_renderer.cpp:56-101 | The in-place loops compute the pointwise specification |
| PhraseMatcher.NormalizeText | src/core/phrase_matcher.cpp:19-46 | The loop yields the words of the text joined by single spaces, case folded unless preserved |
| PhraseMatcher.NormalizeIsIdempotent | src/core/phrase_matcher.cpp:19-46 | For every punctuation and case mode |
| PhraseMatcher.NormalizeThrough | src/core/phrase_matcher.cpp:19-46 | Normalizing a normalized text with a mode that separates and folds at least as much is normalizing the text |
| PhraseMeaning.NormalizeAroundSeparator | src/core/phrase_matcher.cpp:19-46 | A separator anywhere splits the text: the two sides are normalized apart, with one space between them unless one is blank |
| PhraseMeaning.NormalizeOfWord | src/core/phrase_matcher.cpp:19-46 | A text without separators is folded byte by byte |
| PhraseMeaning.LawsDetermineNormalize | src/core/phrase_matcher.cpp:19-46 | Whatever function obeys these two laws is normalization |
| PhraseMeaning.SeparatesExactly | src/core/phrase_matcher.cpp:24-28 | The separators are the blanks and, in separator mode, the printable ASCII characters other than letters and digits |
| PhraseMeaning.NoCapitalIsLeft | src/core/phrase_matcher.cpp:35-40 | Unless case is kept no capital letter is left |
| PhraseMeaning.SameNormalFormExactly | src/core/phrase_matcher.cpp:19-46 | Two texts have the same normal form if and only if they are made of the same words, up to the case of ASCII letters unless case is kept |
| PhraseMeaning.CaseIsFolded | src/core/phrase_matcher.cpp:35-40 | Texts that agree byte by byte up to case have the same normal form |
| PhraseMatcher.StoredSpellingNormalizesAlike | src/core/phrase_matcher.cpp:73-88 | The stored spelling normalizes, under any options, as the configured phrase does |
| PhraseMatcher.SetPhrases | src/core/phrase_matcher.cpp:73-88 | The loop keeps each normal form once, with its first spelling |
| PhraseMatcher.DeduplicationLosesNothing | src/core/phrase_matcher.cpp:73-88 | Under case-insensitive options every configured phrase that is not blank still has a stored spelling of the same normal form |
| PhraseMatcher.EffectiveIsExact | src/core/phrase_matcher.cpp:111-126 | The phrases searched for are exactly the non-empty normal forms of the stored spellings |
| PhraseMatcher.FindPhrase | src/core/phrase_matcher.cpp:127-150 | The inner loop adds every hit of one phrase, overlapping ones included |
| PhraseMatcher.SortMatches | src/core/phrase_matcher.cpp:141-150 | Sorting the hits orders them strictly and keeps them all |
| PhraseMatcher.Find | src/core/phrase_matcher.cpp:111-152 | Exactly the (position, phrase) pairs that occur in the normalized text and respect the boundary rule, strictly sorted, no duplicates |
| PhraseMeaning.HitSplitsText | src/core/phrase_matcher.cpp:48-67 | A hit splits the text into what stands before, the phrase, and what stands after; what touches it is free, absent, or not a letter, digit or underscore, as the boundary rule says |
| PhraseMeaning.SpokenInAnyCase | src/core/phrase_matcher.cpp:73-152 | A configured phrase is found in its own words, in whatever case, under every boundary rule |
| PhraseMatcher.ConfiguredPhrasesDecide | src/core/phrase_matcher.cpp:73-152 | From configuration to answer: under case-insensitive options a match exists if and only if some configured phrase, normalized, stands in the normalized text within the boundary rule |
| TimestampPlanner.ToInterval | src/core/timestamp_coordinator.cpp:68-95 | Whatever the arithmetic, only non-empty intervals of non-negative int64 frames at or after the delay come out |
| TimestampPlanner.FrameSurvives | src/core/timestamp_coordinator.cpp:20-37 | With relative rounding error at most 2^-53 in the quotient and in the product, every frame below 2^51 comes back from seconds unchanged, for every non-zero 32-bit sample rate |
| TimestampPlanner.FrameSurvivesExactlyBelowLimit | src/core/timestamp_coordinator.cpp:20-37 | The bound is exact: among frames up to 2^53, those sure to come back under that assumption are exactly those below 2^51 |
| TimestampPlanner.ExactArithmeticRoundsCorrectly | src/core/timestamp_coordinator.cpp:20-37 | The rounding assumption can be met |
| TimestampPlanner.SecondsKeepOrder | src/core/match_planner.cpp:44-48 | Distinct frames stay distinct and ordered as seconds |
| TimestampPlanner.SegmentLands | src/core/timestamp_coordinator.cpp:39-95 | A segment that ends below 2^51 becomes its own frames shifted once by the delay, and is lost if and only if the shift leaves int64; a later one lands where the arithmetic puts its far ends (bounded by the next three rows) |
| TimestampPlanner.NearFramesAreExact | src/core/timestamp_coordinator.cpp:20-95 | Whatever the segment, up to the end of int64: if it lands, then of the frames below 2^51 - 1 (before the shift) it holds exactly its own |
| TimestampPlanner.NearStartLands | src/core/timestamp_coordinator.cpp:39-95 | A segment that starts below 2^51 - 1 and ends by 2^62 does land, for every delay up to 2^61 |
| TimestampPlanner.FarFrameStaysFar | src/core/timestamp_coordinator.cpp:20-37 | A frame from 2^51 on may move in the conversion to seconds and back, but never below 2^51 - 1 |
| TimestampPlanner.CollectedIsShifted | src/core/match_planner.cpp:30-55 | The planned intervals are the landings of the matching segments, in order |
| TimestampPlanner.PlanCensorsExactlyMatchingFrames | src/core/match_planner.cpp:30-55 | For every list of segments the plan covers frame f if and only if some well-formed matching segment lands on f |
| TimestampPlanner.CensorsItsShiftedFrames | src/core/match_planner.cpp:30-55 | and for a segment that ends below 2^51 that is: f - delay lies in it and the shift stays in int64 |
| TimestampPlanner.PlanSpeech | src/core/timestamp_coordinator.cpp:97-108 | The loop merges the intervals of the segments that convert |
| TimestampPlanner.MatchPlanner.constructor | src/core/match_planner.cpp:12-20 | Phrases configured, timestamp settings normalized |
| TimestampPlanner.MatchPlanner.SetPhrases | src/core/match_planner.cpp:22-24 | Only the matcher changes |
| TimestampPlanner.MatchPlanner.Plan | src/core/match_planner.cpp:30-55 | The loop merges the intervals of the segments that match and convert |
| AudioPipeline.OnlyProcessedChangesAudio | src/core/audio_pipeline.cpp:136-187 | Every status other than processed returns the input frame with no transcript and no intervals; each status occurs exactly under its condition; invalid audio leaves the timeline untouched |
| AudioPipeline.InvalidExactly | src/core/audio_pipeline.cpp:37-46 | A chunk is refused as invalid unless it has the configured rate, whole frames, at least one, of at least one channel, finite samples, and a first frame and a length that int64 holds |
| AudioPipeline.OnlyMatchingFramesChange | src/core/audio_pipeline.cpp:136-187 | In a processed frame, for every transcript, a sample changes only if a matching segment lands on its frame; then it is the replacement sample times the fade gain |
| AudioPipeline.ConfiguredPhrasesHoldFrames | src/core/audio_pipeline.cpp:161-177 | From configuration to frame, with case-insensitive matching: a frame is held by a match if and only if a well-formed segment lands on it whose text has a configured phrase, normalized, within the boundary rule |
| AudioPipeline.ReplacementIsAlwaysUsable | src/core/audio_pipeline.cpp:48-82 | For valid audio the replacement chosen (configured or default beep) can always be rendered, so a match is never left audible for want of one |
| AudioPipeline.ReplacementIsChosenExactly | src/core/audio_pipeline.cpp:48-82 | The configured replacement is used if and only if it has the input's rate and is made of whole frames, at least one; otherwise the beep, with the input's channels, as long as the input but at most a quarter of a second |
| AudioPipeline.ReportedIntervalsLieInTheChunk | src/core/audio_pipeline.cpp:160-166 | The reported intervals are exactly the planned ones inside the chunk, moved to absolute frames |
| AudioPipeline.TranscriptIsMoved | src/core/audio_pipeline.cpp:161-166 | The reported transcript is made of the heard segments inside the chunk, text and all, moved to absolute frames |
| AudioPipeline.TranscriptKeepsOrder | src/core/audio_pipeline.cpp:161-166 | in the order heard |
| AudioPipeline.MonoStaysInRange | src/core/audio_pipeline.cpp:55-73 | The mono mix has one sample a frame, within the range of the input |
| AudioPipeline.ChannelsCountAlike | src/core/audio_pipeline.cpp:55-73 | Moving one sample by d moves its frame of the mix by d over the number of channels, and no other frame |
| AudioPipeline.ToMono | src/core/audio_pipeline.cpp:55-73 | The loops compute the mean of the channels |
| AudioPipeline.EndToEndAudioPipeline.ProcessFrame | src/core/audio_pipeline.cpp:136-187 | The method has the outcome and the new timeline of the specification |
| WavAudioLoader.ParseWav | src/replacement/wav_audio_loader.cpp:153-286 | The parse loop equals interpreting the chunk list of the container; on success the data range lies in the file and holds the data chunk's body |
| WavAudioLoader.ScanChunks | src/replacement/wav_audio_loader.cpp:178-233 | The loop over chunk positions, in bounds and terminating, learns what the chunk list says |
| WavAudioLoader.SplitIsLossless | src/replacement/wav_audio_loader.cpp:178-233 | Splitting into chunks loses no byte: the chunks written back plus the rest are the input |
| WavAudioLoader.SplitRecovers | src/replacement/wav_audio_loader.cpp:178-233 | Any serialized list of well-formed chunks, pad bytes included, is recovered with nothing left over |
| WavAudioLoader.ParseRecoversChunkList | src/replacement/wav_audio_loader.cpp:153-286 | Parsing a written RIFF/WAVE file is interpreting the list that was written, whatever bytes follow the container |
| WavAudioLoader.EveryContainerIsAChunkList | src/replacement/wav_audio_loader.cpp:153-286 | Every complete container is such a list plus a malformed tail that decides the error |
| WavAudioLoader.UnknownChunksAreIgnored | src/replacement/wav_audio_loader.cpp:203-233 | Inserting a well-formed chunk of another kind at any boundary changes neither verdict nor format nor data |
| WavVerdict.AcceptedExactly | src/replacement/wav_audio_loader.cpp:153-286 | The parser accepts a file if and only if it is a RIFF/WAVE container, whatever follows it, of chunks with exactly one format chunk and one data chunk that fit each other |
| WavVerdict.VerdictIsExact | src/replacement/wav_audio_loader.cpp:178-286 | The verdict on every chunk list: duplicated, short or empty chunks are refused; then missing format, missing data, a format other than PCM of 1 to 32 channels, 1 to 384000 Hz and 8, 16, 24 or 32 bits, inconsistent rate fields, and incomplete frames, in this order |
| WavVerdict.RefusedHasNoData | src/replacement/wav_audio_loader.cpp:153-286 | A refused file has no data range and no frames |
| WavPcm.LoadsWhatWasWritten | src/replacement/wav_audio_loader.cpp:380-440 | Writing 8/16/24/32-bit PCM for 1 to 32 channels, any length within the limits, and loading it returns each value at its level; without samples it is refused as empty |
| WavPcm.SampleRoundTrip | src/replacement/wav_audio_loader.cpp:288-313 | Each encoded sample decodes to its level wherever it stands |
| WavPcm.NarrowSamplesAreExact | src/replacement/wav_audio_loader.cpp:288-304 | 8, 16 and 24 bits give exactly value / 2^(bits-1), in [-1, 1) |
| WavPcm.WideSamplesRound | src/replacement/wav_audio_loader.cpp:306-309 | 32 bits pass through binary32: exact if and only if the value fits 24 significant bits; below 1 if and only if the value is below 2^31 - 64; never outside [-1, 1] |
| WavPcm.LargestSampleReachesOne | src/replacement/wav_audio_loader.cpp:306-309 | The concrete failure of the half-open range: 2147483647 loads as 1 |
| WavPcm.UnknownChunksKeepTheAudio | src/replacement/wav_audio_loader.cpp:203-233 | Inserted unknown chunks leave the loaded audio as it was |
| WavPcm.LoadWav | src/replacement/wav_audio_loader.cpp:380-440 | The load with its limits; every decode read stays inside the data chunk |
| Json.EscapeJsonString | src/runtime/whisper_runtime.cpp:41-77 | The loop computes the escaped text |
| Json.EscapeRoundTrip | src/runtime/whisper_runtime.cpp:41-77 | Escaped text followed by a quote reads back as the text, for all bytes |
| Json.EscapedHasNoControl | src/runtime/whisper_runtime.cpp:41-77 | Escaped text has no byte below 0x20 |
| Json.PrintRoundTrip | src/runtime/whisper_runtime.cpp:104-239 | Every document, in any spelling of its strings and with white space of its own before each token, parses to its value (last member of a name wins) and leaves what follows, if the number reader takes its numbers where they stand |
| JsonGrammar.ParseExactly | src/runtime/whisper_runtime.cpp:94-269 | parse() succeeds with a value if and only if the input is the text of a document with that meaning: nothing else is accepted |
| JsonGrammar.SpacesExactly | src/runtime/whisper_runtime.cpp:278-283 | White space is what isspace takes in the C locale |
| Json.EscapesAreStandard | src/runtime/whisper_runtime.cpp:41-77 | The escapes written and read are those of section 7 of RFC 8259 |
| Json.UnitReads | src/runtime/whisper_runtime.cpp:205-269 | Four hexadecimal digits of either case are read as the unit they write |
| Json.Utf8Decodes | src/runtime/whisper_runtime.cpp:241-269 | and become UTF-8: as many bytes as the unit needs, which decode to the unit |
| Json.ParseRoundTrip | src/runtime/whisper_runtime.cpp:94-101 | parse() returns the value and consumes all input |
| Json.InitializeRequestRoundTrip | src/runtime/whisper_runtime.cpp:374-379 | For all byte strings the request parses to exactly its three fields |
| Json.InitializeRequestIsOneLine | src/runtime/whisper_runtime.cpp:374-379 | The request holds no control byte, so no raw newline, for all byte strings |
| Json.WriteTranscribeRequest | src/runtime/whisper_runtime.cpp:381-396 | The loop writes the printed samples separated by commas |
| Json.TranscribeRequestIsOneLine | src/runtime/whisper_runtime.cpp:381-396 | A transcribe request holds no control byte if printed numbers hold none |
| Json.TranscribeRequestRoundTrip | src/runtime/whisper_runtime.cpp:381-396 | The request parses to its operation, its rate and its samples, each as printed and in order, for any number reader that takes them whole |
| Json.JsonParser.ParseAnyValue | src/runtime/whisper_runtime.cpp:104-132 | The position-advancing parser agrees with the recursive reading, success and failure, and stops where it stops |
| Json.JsonParser.ParseObject | src/runtime/whisper_runtime.cpp:134-157 | The member loop agrees with the recursive reading of an object; a repeated name keeps its last value |
| Json.JsonParser.ParseArray | src/runtime/whisper_runtime.cpp:159-175 | The item loop agrees with the recursive reading of an array |
| Json.JsonParser.ParseString | src/runtime/whisper_runtime.cpp:191-239 | The string loop agrees with the recursive reading of a literal and its escapes |
| Json.JsonParser.AppendUnicodeEscape | src/runtime/whisper_runtime.cpp:241-269 | Four hexadecimal digits become the UTF-8 bytes of that unit |
| Json.JsonParser.ParseAll | src/runtime/whisper_runtime.cpp:94-101 | parse() succeeds exactly when the whole input is one value |
| LineProtocol.EveryAnswerIsToItsOwnRequest | src/runtime/persistent_process_runner.cpp:69-95 | Over every run of requests, stops, timeouts, failures, restarts and pipe splits, with one-line requests: a returned answer is the current child's answer to that very request |
| LineProtocol.CallKeepsInv | src/runtime/persistent_process_runner.cpp:142-184 | The i-th answer handed out is the child's answer to the i-th line it was sent; a failed exchange leaves no child and no buffered byte |
| LineProtocol.ReadLineIsNextAnswer | src/runtime/persistent_process_runner.cpp:597-639 | However the pipe splits the bytes, a line read is the answer to the first unanswered line |
| LineOutcomes.ReadSucceedsExactly | src/runtime/persistent_process_runner.cpp:597-639 | A line is returned if and only if, after some number of rounds none of which ended the reading, the bytes that have come hold a newline, and until then none and no more bytes than the limit |
| LineOutcomes.RunSucceedsExactly | src/runtime/persistent_process_runner.cpp:74-184 | A request succeeds if and only if it names a command, a child for that very command runs or can be started, the child lives and takes the line, and its answer is complete in time; a refused request changes nothing, any other failure leaves no child |
| LineProtocol.AlignedExactlyAfterOneLineRequests | src/runtime/persistent_process_runner.cpp:142-184 | Over every run: the next answer is the child's answer to the first line of its own request if every request this child has answered was one line, and only if, for every child that counts its lines; equivalently, no line sent is without an answer |
| LineProtocol.AnsweredIsTheHistory | src/runtime/persistent_process_runner.cpp:142-184 | The child has been sent exactly the lines of the requests it answered, and answered one line for each |
| LineProtocol.BacklogGrowsByExtraLines | src/runtime/persistent_process_runner.cpp:159-184 | A success answers the first unanswered line and leaves the request's extra lines unanswered |
| LineProtocol.MisalignedRun | src/runtime/persistent_process_runner.cpp:159-184 | A run in which it happens: the second request gets the answer to the first request's second line |
| LineProtocol.EmbeddedNewlineMisaligns | src/runtime/persistent_process_runner.cpp:159-162 | After such a request the next answer handed out was given before the child saw the request it is handed out for |
| LineProtocol.NoLateAnswers | src/runtime/persistent_process_runner.cpp:597-723 | After a request that failed with a child involved, the next answer is a fresh child's answer to its own request; any other failure changes nothing |
| LineProtocol.RuntimeRequestsAreOneLine | src/runtime/whisper_runtime.cpp:374-396 | Both requests the runtime sends are one line, so the protocol keeps them aligned |
| LineProtocol.InitializeGetsItsAnswer | src/runtime/whisper_runtime.cpp:374-379 | The initialize request is one line and gets its own answer |
| LineProtocol.PersistentProcessRunner.ReadLineLocked | src/runtime/persistent_process_runner.cpp:597-639 | The read loop over its buffer |
| LineProtocol.PersistentProcessRunner.TransactLocked | src/runtime/persistent_process_runner.cpp:142-184 | One exchange, stopping the child on any failure |
| LineProtocol.PersistentProcessRunner.RunRequest | src/runtime/persistent_process_runner.cpp:74-95 | Start on demand, refuse a changed command, then one exchange |
| LineProtocol.PersistentProcessRunner.StopLocked | src/runtime/persistent_process_runner.cpp:680-723 | No child, no command, empty buffer |
| ArgumentQuoting.QuoteWindowsArgument | src/runtime/persistent_process_runner.cpp:207-228 | The loop with its backslash counter computes the quoted form |
| ArgumentQuoting.JoinArguments | src/runtime/persistent_process_runner.cpp:305-309 | The join loop writes the quoted program and, after one space each, the quoted arguments |
| ArgumentQuoting.ArgumentsRoundTrip | src/runtime/persistent_process_runner.cpp:207-228 | Every list of arguments, joined, parses back unchanged under the rules of Microsoft's "Parsing C command-line arguments" |
| ArgumentQuoting.BodyRoundTrip | src/runtime/persistent_process_runner.cpp:212-227 | The quoted form scanned inside its quotes gives the value back, with any pending backslashes |
| ArgumentQuoting.CommandLineRoundTrip | src/runtime/persistent_process_runner.cpp:305-309 | For every program name: every argument list comes back if and only if the name has an even number of quotes and no blank after an odd one; a name without quotes always does |
| ArgumentQuoting.ProgramNameRoundTrip | src/runtime/persistent_process_runner.cpp:305-309 | For every program name: the name comes back if and only if it holds no quote and needs no quotes, is empty, or does not end in a backslash |
| ArgumentQuoting.QuoteInProgramSwallowsArguments | src/runtime/persistent_process_runner.cpp:305-309 | The concrete failure with a quote in the program name |

## Left out

- Weak memory: acquire/release orders are replaced by sequential consistency.
- Wake-up of the ingress condition variable: `notify_one` is called without the mutex, so only safety is claimed, not that the thread always wakes.
- Several producers or consumers on one ring, and lifecycle calls that overlap the host callback.
- OBS API calls, host format checks, settings, Properties, localization, menu, logging, platform paths and installers.
- Failure to create the submit or runtime thread in the bridge's `start` (src/obs/native_audio_bridge.cpp:261-277), and allocation failures everywhere.
- Sample contents in the bridge: a block is its frame id, length, timestamp, mark and finiteness; rate and channels are fixed per bridge, so the copy check is on the frame count alone.
- Binary32 rounding of the gain product and of the channel mean: samples there are real numbers.
- TimestampPlanner.SegmentLands: for a segment that ends at frame 2^51 or later it does not say where the far end lands, because rounding errors may move it (`TimestampPlanner.FrameSurvivesExactlyBelowLimit`); the frames below 2^51 - 1 are exact for every segment (`TimestampPlanner.NearFramesAreExact`). An int64 frame above 2^53 becomes a double before it is divided, so the quotient is taken to carry two rounding errors there.
- NaN and infinite replacement samples: the loader yields none.
- `strtod` numbers and printed floats: how many bytes a number takes is a parameter (that it takes nothing that starts with a closing bracket is assumed), and its value is its text; surrogate pairs in `\u` escapes, which the code encodes unit by unit.
- Reading the response's segments out of the parsed JSON, and how a float is printed in a transcribe request.
- Whisper, Python and NumPy: a transcript is an arbitrary list of segments or a failure.
- Process creation, pipes, signals and timeouts: `LineProtocol` keeps the buffer, the started flag, the command and an abstract child that answers one line per line; stderr text and exit codes are not kept.
- UTF-8 to wide conversion of arguments, and NUL characters, which would end a Windows command line early.
- Path checks before a WAV file is opened (empty, remote, missing, not regular, unreadable) and error message texts.
- URL decoding, local copies and transports: a transfer may leave anything in the temporary file.
- Two downloads or two processes writing the same cache directory at once.
- Asynchronous selection queueing in the manager: calls are serialized by its lock, and each call's observable states are listed.
- std::sort: replaced by insertion, which `CensorScheduler.SortedPermutationsAgree` shows gives the same list; phrase hits are sorted by insertion too, their keys being distinct.
- Case-sensitive completeness for phrases that differ only in case: only the first spelling is kept, by design.
- Equality of `result.intervals` with the frames rendered when an interval spills past the chunk.
- Sine generation of the default beep (its waveform is a parameter), backend selection, latency measurement, catalog tables, update checks and version comparison.
