# HARP protocol core: a verified model

HARP connects a DAW host to an audio device. The device runs a session thread that consumes
messages and an audio thread that renders blocks; objects, audio and state travel over a framed
link, RTP and a content-addressed store. This project models the parts of HARP where several
threads, both ends of a wire, or a fast form and a plain meaning have to agree, and proves that
they do, for all inputs and all interleavings.

| area | modules | main results |
|---|---|---|
| event plane | Events, Segments, RenderLog, Lateness, EventQueue, Session, SessionLoop, Transactions, EventPlane, Determinism, Atomicity, Provenance, Delivery, EventProgress, Bounce | segmented rendering equals a per-sample reference and is the stable sort by position; engine and audio are the fold of exactly the scheduled engine calls; fenced rendering is the same in every interleaving of the two threads and nothing is late; transactions are atomic in every interleaving, and events that were aborted or never committed are never seen, while every other event is applied, queued, underway or counted as lost, once; batched consumption refines per-message consumption; no schedule runs for ever and none hangs; a whole bounce is one schedule of everything handed over |
| object transfer | Credit, CreditRuns, Requests, Endpoint | a request accepts exactly the requested objects the store holds, and a fetch or push that settles has delivered all of them in order; credit is conserved both ways, the clamp is never taken, windows stay bounded, delivery is in order, and every run ends with everything delivered for objects up to half a window, which is the exact limit |
| log | LogRecords, LogRing | the circular byte buffer holds, byte for byte, the longest recent window of everything appended |
| rings | SpscRing | under every interleaving of micro-steps, with stale cursor loads, the consumer sees the producer's stream and no unread slot is overwritten; every whole read and write moves exactly the elements it should |
| network audio | RtpPacket, RtpTracking, RtpFrames, RtpRoundTrip, RtpBuffers | split and reassembly in any order is the identity on what arrived and silence elsewhere; wrapped counters agree with unbounded ones; the codec accepts exactly the packets of the standard's form and reads them back |
| state | LiveRef, CompareAndSwap, Cbor, ParamsBlob, ParamsRoundTrip, ParamsGrammar, ParamsLoops, Closure, Retention | the coalesced live ref refines a written-through one, and a ref move succeeds exactly when the history of the run allows it; the params codec round-trips at byte level and accepts exactly the well-formed documents; the closure check and the archive pruning mean what they should, with their exact limits |
| host-paced input | PacedStream, PacedReader | parsing, demultiplexing and rendered ranges depend on the bytes only, not on how reads fragment them |
| mixing | Mix, VoiceLog, MixTotal, MixBlock, MixLoops | a part is the fold of one render and reclaim per active voice; the main mix is the sum of all parts and own slots carry their part's channels; the per-part renderer and the fast main mix leave the same engine and the same main mix |
| clocks and selection | ClockRecovery, VoicePool, OpRate, ArpSelect | the regression sums are the weighted moments, the fit is the least-squares line and the ratio stays within five percent; voices are stolen oldest first and never early, and each sounds exactly the note-on that took it; admission is bounded by burst plus elapsed time, and a rested bucket admits a whole burst |
| shared | Octets, Modular, Counting, Sizes | bytes, modular and row arithmetic, cardinalities, the device's shape |

State that the source changes in place is a class or an array here, each method proved against a
function; the results about runs are about those functions. Two threads are a state machine over
their atomic actions: a schedule is any sequence of moves, a move that is not possible leaves the
state unchanged, and "for every schedule" means for every interleaving.

Conventions: clocks, the sound engine, floats, object lengths and store lookups are parameters.
Integers are unbounded, and a width is written out where the source depends on it (the 32-bit
segment cast and fence counters, 16-bit sequence numbers, 32- and 64-bit timestamps, header fields).
Where the code and its comments disagree the code is followed: `Closure` keeps the silent stop of
the closure walk below sixteen edges, although its comment speaks of the whole closure.

## Model

| member | source | states |
|---|---|---|
| Segments.SegLen | device/engine.c:1307-1309 | the segment length with its 32-bit cast is at least one sample and never passes the block's end |
| Segments.SegStopsAtEvents | device/engine.c:1298-1309 | a segment never runs past an event that is still queued |
| Segments.RenderRefinesSchedule | device/engine.c:1294-1324 | for every engine, deadline and queue: the segmented render applies exactly what a per-sample reference applies, at the same positions and in the same order, keeps the rest in order, covers every sample once and counts exactly the late applications |
| Segments.RenderTrace | device/engine.c:1294-1324 | trace and remaining queue of the segment loop, by induction over its segments |
| Segments.RenderTiles | device/engine.c:1294-1324 | the segments tile the block and the late counter is the number of late applications |
| Segments.ScheduleIsStableSort | device/engine.c:1084-1269 | the applied trace is the stable sort of the due events by max(ts, pos): positions ascend and ties keep queue order |
| Segments.StableSortUnique | device/engine.c:1084-1269 | that description determines the trace: no other ordering satisfies it |
| Segments.RenderSplit | device/engine.c:1294-1324 | rendering a block in two parts applies the same events at the same positions as in one |
| Segments.RenderLocal | device/engine.c:1084-1269 | audio, trace, segments and engine depend only on queued events stamped before the block's end |
| RenderLog.RenderLogs | device/engine.c:1294-1324 | an engine that also logs its calls renders exactly as it does without, and its log grows by the calls of the block |
| RenderLog.LogIsScheduled | device/engine.c:1294-1324 | the calls of a block are, as applications, exactly the per-sample schedule; as render calls, segments that tile the block; and each render call stands behind one service call at its position and the applications there |
| RenderLog.LogIsMeaning | device/engine.c:1294-1324 | for every engine, the state a block leaves and the audio it returns are the fold of those calls over apply, fire and render; no render call passes the deadline the engine reports at that point, and each ends with the block, at a queued timestamp or at that deadline (blocks and deadlines within the 32-bit difference) |
| Lateness.LatenessIsBacklog | device/engine.c:1094-1101 | the late counter is the number of queued events stamped before the block, zero stamps and ramps excepted; the ramp counter the number of ramps reached whose end lies before their start |
| EventQueue.PushEachKeepsPrefix | device/engine.c:612-626 | a run of pushes keeps exactly the longest prefix that fits |
| EventQueue.EventQueue.Push | device/engine.c:572-582 | append, or drop and count when full |
| EventQueue.EventQueue.PushRun | device/engine.c:612-626 | a run under one lock equals single pushes, with the same drops |
| EventQueue.EventQueue.PushBatch | device/engine.c:589-601 | all of a transaction's events or none |
| EventQueue.EventQueue.ApplyDue | device/engine.c:1084-1269 | the in-place drain applies the due events in queue order, compacts the rest, reports the earliest remaining time, counts lateness and notes whether the patch changed |
| EventQueue.EventQueue.TakeTouch | device/session.c:2198-2200 | the session takes over the noted change exactly once |
| EventQueue.DrainFoldIsDrained | device/engine.c:1090-1264 | the one-event-at-a-time drain is the partition of the whole queue |
| EventQueue.EventQueue.RenderSegment | device/engine.c:1297-1322 | one turn of the loop over the live queue is the specified segment |
| EventQueue.EventQueue.RenderWithEvents | device/engine.c:1294-1324 | the loop over the live queue computes the specified block |
| Session.HandleTracks | device/session.c:2354-2369 | consuming a message keeps the debt: now and after every remaining action the counted messages' blocks have been handed over, in order |
| Session.FlushTracks | device/session.c:1559-1564 | a flush keeps the same debt |
| SessionLoop.SessionLoop.PublishRun | device/session.c:1561-1562 | the logged atomic steps are the push of the run and then its count, in this order, and the visible state is their effect at each point |
| SessionLoop.SessionLoop.StageFlush | device/session.c:1559-1564 | the staged run, if any, is published that way and nothing else is done |
| SessionLoop.SessionLoop.StageAdd | device/session.c:1569-1573 | stage, flushing first at capacity |
| SessionLoop.SessionLoop.TxnFind | device/session.c:1578-1582 | the first open slot with the id |
| SessionLoop.SessionLoop.TxnBegin | device/session.c:1586-1601 | id 0, a duplicate and a full table are rejected and counted, else a free slot is opened |
| SessionLoop.SessionLoop.TxnSubmit | device/session.c:1605-1611 | a tagged event is buffered, or swallowed and counted |
| SessionLoop.SessionLoop.TxnCommit | device/session.c:1616-1635 | flush, then the restamped batch as one push, and the slot is closed |
| SessionLoop.SessionLoop.TxnAbort | device/session.c:1638-1642 | the slot is closed and nothing is pushed |
| SessionLoop.SessionLoop.Immediate | device/session.c:1671-1701 | notes push after the flush; a release or panic that finds the queue full is signalled instead |
| SessionLoop.SessionLoop.Consume | device/session.c:2354-2369 | one message takes exactly the actions of the interleaved machine, in their order, and what the render thread can see is their effect |
| SessionLoop.ActedIsPerformed | device/session.c:2354-2369 | the machine's actions taken without interruption have that effect |
| SessionLoop.EffectIsAct | device/engine.c:572-626 | an action has the same effect in the class and in the interleaved machine |
| Transactions.TableIsReference | device/session.c:1578-1642 | the four-slot table holds exactly the open ids of a set-based reference, each with the events tagged since it was opened |
| Transactions.CommitHandsOver | device/session.c:1616-1635 | a commit hands over, as one block, exactly its transaction's events restamped to the commit instant; an unknown or empty one hands over nothing |
| Transactions.CountersAreReference | device/session.c:1586-1642 | the three counters are the numbers of refused begins, of events a full transaction swallowed, and of messages that name no open transaction, over the set-based reference |
| Provenance.OpenedAt | device/session.c:1586-1601 | an open id was opened by a begin and was not closed since |
| Provenance.BuffersTagged | device/session.c:1605-1611 | it buffers exactly what was tagged with it since |
| Provenance.AcceptedHasOrigin | device/session.c:1578-1642 | in every interleaving each block the queue ever accepted is the event of one untagged message, or exactly the restamped events tagged between a begin and its commit with nothing that closed the id in between |
| Provenance.WithheldNeverVisible | device/session.c:1603-1642 | in every interleaving an event that only came aborted, under an unknown id or never committed is neither queued nor applied at any time |
| Delivery.OwnHandsOver | device/session.c:1692-1702 | the converse of provenance, message by message: an untagged set, a note, a release or a panic hands over exactly its own event as one block; a message that is neither such nor a commit hands over nothing |
| Delivery.HandedContents | device/session.c:1578-1702 | what a stream hands over is exactly the events of its untagged messages and of its committed transactions, each once |
| Delivery.LossesAreCounted | device/session.c:1559-1702 | at every point of every interleaving: untagged events, committed events and panics of the consumed messages are as many as applied, queued and underway events, drops, and signals raised or due |
| Delivery.EveryEventOnce | device/session.c:1559-1702 | in every interleaving without drops and signals, each event of a consumed message is applied, queued or underway, exactly once, and nothing is underway once nothing is staged or still to do |
| Delivery.OwnIsVisible | device/session.c:1692-1702 | so the event of every consumed untagged message is then queued or applied |
| Delivery.PanicsSignal | device/session.c:1685-1699 | every consumed panic raises a signal of its own |
| EventPlane.PendingIsDifference | device/audio_loop.c:164-166 | the wrapped 32-bit comparison is the true one within half the range |
| EventPlane.FenceHolds | device/fence_wait.h:22-37 | a fence holds a frame back exactly while named messages are not yet counted and, in real time, the deadline has not passed; a timeout is counted exactly when a real-time frame goes ahead without them |
| Determinism.CountedIsHanded | device/session.c:2354-2400 | in every interleaving the blocks of the counted messages have been submitted, in message order, and none beyond the consumed ones |
| Determinism.FencedRenderIsReference | device/audio_loop.c:132-188 | in every clean interleaving each finished frame has the trace, audio and lateness of a single thread that queued all messages first |
| Determinism.InterleavingsAgree | device/audio_loop.c:132-188 | two clean interleavings agree on every frame both finished |
| Determinism.NothingLate | device/engine.c:1094-1101 | if the host skips no sample, every event is applied at its own timestamp and none is counted late |
| Determinism.OfflineClean | device/fence_wait.h:22-37 | offline, a run is clean exactly when nothing was dropped and no panic was raised |
| Determinism.OfflineNeverExpires | device/fence_wait.h:22-37 | offline, no fence is ever counted as expired |
| Determinism.DrainedOpensFences | device/audio_loop.c:164-186 | once the session has consumed and flushed everything, every fence is open |
| EventProgress.MovesRunDown | device/audio_loop.c:101-276 | every move that changes anything leaves strictly less to do |
| EventProgress.StuckIsDone | device/audio_loop.c:164-188 | a schedule that can go no further, offline or not, has consumed, counted and handed over everything and finished every frame: no fence hangs |
| EventProgress.BounceIsReference | device/audio_loop.c:138-143 | an offline bounce that dropped nothing ends with every frame as the single-threaded reference renders it |
| Bounce.StreamIsSchedule | device/audio_loop.c:132-188 | in every clean interleaving of contiguous frames, the concatenated traces of the finished frames are the schedule of all events handed over, and engine and concatenated audio are the fold of one log of calls that is that schedule and tiles the range |
| Bounce.BounceIsSchedule | device/audio_loop.c:138-143 | an offline bounce that can go no further and lost nothing has done so up to the end of its last frame |
| Atomicity.BlocksAreAtomic | device/session.c:1578-1642 | in every interleaving, whatever was dropped: the applied events are whole accepted blocks, the queued ones whole blocks in order, each accepted block in exactly one of the two, once |
| Atomicity.AllOrNothing | device/engine.c:589-601 | an accepted block stands uninterrupted in the applied trace at one position, or uninterrupted in the queue |
| Atomicity.AccountDrain | device/engine.c:1084-1269 | a drain takes whole blocks and moves them from the queue to the trace |
| CreditRuns.EveryRun | device/session.c:179-233 | in every run, both directions: granted equals peer credit plus grants and object bytes in flight, the clamp is never taken, windows stay in [8 MiB, 24 MiB), queues are FIFO and what arrived plus what is in flight is what was sent |
| CreditRuns.WayConsumed | device/session.c:2234-2248 | consuming an object and granting below half a window keeps conservation, and the window always covers the object |
| CreditRuns.FlushKeeps | device/session.c:211-233 | a flush takes a prefix, pays for what it sends, and stops only at a head the credit does not cover |
| CreditRuns.HostSendsInv | host/client.c:124-153 | a host send, or its failure that clears the queue, keeps the invariant |
| CreditRuns.HostReceivesInv | host/client.c:79-101 | the host's receive keeps the invariant |
| CreditRuns.DevReceivesInv | device/session.c:2206-2216 | the device's receive, with the flush a grant triggers, keeps the invariant |
| CreditRuns.NothingInFlight | device/session.c:211-233 | with nothing in flight and objects of at most 8 MiB the device queue is empty, all that was sent has arrived, and the host's next send goes through |
| CreditRuns.WorkDecreases | host/client.c:124-153 | every effective move other than a new request strictly reduces the work left |
| CreditRuns.StuckIsDone | device/session.c:179-233 | a run that can go no further has empty queues and channels and everything delivered in order |
| CreditRuns.LargerCanStop | device/session.c:2245-2247 | for every size above 8 MiB some run stops with that object queued, nothing in flight and the credit short |
| Requests.PresentPositions | device/session.c:655-664 | the present hashes of a request are those at exactly the positions whose object the store holds, in request order |
| Requests.PresentCounts | device/session.c:655-664 | each is present as often as it was named, or not at all |
| Requests.HeldIsPresent | device/session.c:648-664 | a request takes the present hashes, the first 256 of them |
| Requests.EnqueueTakes | device/session.c:201-206 | enqueueing appends the longest prefix that fits and counts the rest |
| Requests.MoveAccepts | device/session.c:646-682 | after any run, a request or offer is accepted as far as the queue has room, what does not fit is counted, and no other move accepts anything |
| Requests.RunAccepts | device/session.c:646-682 | a run whose queues never overflowed has accepted exactly what was asked for and held, and exactly what was offered, in order |
| Requests.FlushFates | device/session.c:214-232 | an object that leaves the queue is sent with its length if the store holds it, and lost if not |
| Requests.FetchDelivers | device/session.c:646-682 | a fetch that can go no further and never overflowed has delivered, in request order, exactly the requested objects the store holds |
| Requests.PushDelivers | host/client.c:124-153 | a push that can go no further and never overflowed has delivered exactly the offered objects, in order |
| Requests.FailureClears | host/client.c:131-152 | a push that fails or gives up leaves nothing queued, so no stale order leaks, and sends nothing more |
| Endpoint.Endpoint.Push | device/session.c:201-206 | the ring of 1024 hashes appends, or drops and counts |
| Endpoint.Endpoint.TakeHead | device/session.c:214-232 | one turn of the flush over the ring: lost, sent, or kept because the credit or the link falls short |
| Endpoint.Endpoint.FlushQueue | device/session.c:211-233 | the flush loop over the ring and a link that may fail is the specified flush, with its drop count |
| Endpoint.FlushOverHolds | device/session.c:211-233 | over a link that holds it is the flush of the protocol |
| Endpoint.FlushOverResumes | device/session.c:224-227 | a failing link only cuts it short: queue and credit are kept, and flushing the rest later completes it |
| Endpoint.Endpoint.Received | device/session.c:2243-2247 | the window update and re-grant |
| LogRecords.HeaderFields | device/log_ring.c:77-85 | every header field can be read back from the sixteen bytes |
| LogRecords.Truncated | device/log_ring.c:57-62 | a record keeps its clock, the level's low byte and the longest prefixes of tag and message within 31 and 480 bytes |
| LogRecords.LastLineComesBack | device/log_ring.c:57-155 | the line appended last is the last record of any window whose budget covers it, unchanged within the limits and else with its first 31 and 480 bytes |
| LogRecords.RecentIsLongest | device/log_ring.c:114-130 | the window is a suffix within the budget and no longer suffix is |
| LogRing.WriteExtends | device/log_ring.c:37-45 | writing past a window extends it by what was written, around the wrap |
| LogRing.LogRing.Put | device/log_ring.c:37-45 | the split copy is the circular write |
| LogRing.LogRing.Get | device/log_ring.c:46-54 | the split copy is the circular read |
| LogRing.LogRing.Evict | device/log_ring.c:67-76 | only as many oldest records are evicted as needed, each counted |
| LogRing.LogRing.Append | device/log_ring.c:57-93 | the buffer's bytes are the encoding of the longest recent window of all appended, truncated records; stored plus dropped is appended |
| LogRing.LogRing.Reset | device/log_ring.c:176-181 | an empty log, nothing counted as dropped |
| LogRing.LogRing.Emit | device/log_ring.c:114-155 | the records read back out of the buffer are the longest recent window within the budget |
| SpscRing.ConsumerSeesProducer | shell/ring.h:24-63 | under every interleaving, with stale loads, the output is the input position by position less cleared spans, never ahead of what was published |
| SpscRing.NoUnreadSlotOverwritten | shell/ring.h:38-45 | the slot about to be written holds no element still to be read |
| SpscRing.NothingLostWithoutClear | shell/ring.h:112-126 | without a clear nothing is lost |
| SpscRing.WriteAcceptsPrefix | shell/ring.h:38-45 | a write accepts the prefix that fits |
| SpscRing.WriteDelivers | shell/ring.h:38-45 | a write, from any reachable state and any tail it may see, appends to the stream exactly the longest prefix that fits and publishes it |
| SpscRing.ReadDelivers | shell/ring.h:48-55 | a read, from any reachable state and any head it may see, takes exactly the oldest unread elements, as many as asked for and seen, and releases them |
| SpscRing.ClearDrops | shell/ring.h:59-63 | a clear, from any reachable state, loses exactly what is published and unread |
| SpscRing.CursorsMayWrap | shell/ring.h:26-36 | wrapped cursors give the same slots and distances |
| SpscRing.FloatRing.Write | shell/ring.h:38-45 | an uninterrupted write appends what fits |
| SpscRing.FloatRing.Read | shell/ring.h:48-55 | an uninterrupted read takes the oldest elements in order |
| SpscRing.FloatRing.Clear | shell/ring.h:59-63 | everything readable is dropped and the index returned |
| RtpPacket.UnpackLayout | host/rtp.c:26-48 | every packet of the form of section 5.1 of RFC 3550, with contributing sources and an extension, is read back: header and payload |
| RtpPacket.UnpackPack | host/rtp.c:14-24 | what is packed is what is unpacked |
| RtpPacket.AcceptedIsLaidOut | host/rtp.c:26-48 | whatever is accepted is a packet of the standard's form, any padding bit aside, and what is reported is its header and payload |
| RtpPacket.LaidOutIsAccepted | host/rtp.c:26-48 | and every such packet is accepted and reported so |
| RtpTracking.TrackingIsExact | host/rtp.h:67-72 | with each packet near the high-water mark, the stored number is the true maximum and lost plus forward packets is the span |
| RtpTracking.GapIsDistance | host/rtp.h:67-72 | the 16-bit gap is the true distance on either side |
| RtpTracking.InOrderLosesNothing | host/rtp.h:67-72 | an in-order stream of any length counts no loss |
| RtpTracking.LossCounter.Packet | shell/eth_transport.h:196-204 | the counters move as the tracker |
| RtpTracking.UnwrapIsExact | host/rtp.c:50-53 | over streams of any length, with steps below half the 32-bit range, the extended timestamp is the true index |
| RtpRoundTrip.FrameComesBack | shell/eth_transport.h:227-261 | whatever groups of a frame arrive, in any order and any number of times, the next timestamp yields the sent samples in exactly their columns and zeros elsewhere |
| RtpRoundTrip.NothingLost | device/harp-deviced.c:244-272 | with every group of the split delivered in any order the frame is the original |
| RtpRoundTrip.SplitBands | device/harp-deviced.c:257-271 | the groups are the frame's bands of at most eight columns |
| RtpBuffers.EmitGroups | device/harp-deviced.c:253-272 | the emitting loop produces the split and advances the sequence once per group |
| RtpBuffers.Gather | device/harp-deviced.c:263-266 | the gather loops copy exactly the band's cells |
| RtpBuffers.Reassembler.ScatterInto | shell/eth_transport.h:256-259 | the scatter loops change exactly the group's columns |
| RtpBuffers.Reassembler.Receive | shell/eth_transport.h:227-261 | the receiver's buffer and flush move as specified, malformed groups included |
| LiveRef.RunRefines | device/state.c:420-449 | in every run all readers and callers see what they would if every operation were written through, and a flush makes the stored ref equal to it |
| LiveRef.CrashLosesOnlyGenerations | device/device.h:482-489 | at every point of every run the stored hash and dirty flag are those of the written-through ref and the stored generation is no greater |
| LiveRef.TouchCrashSafe | device/state.c:420-440 | a touch keeps the crash guarantee exactly when it does not clean a dirty ref |
| LiveRef.AlwaysSafeExactly | device/state.c:420-449 | a run is safe at every point exactly when none of its touches cleans a dirty ref; the device's callers never pass false |
| LiveRef.CleaningTouchIsLost | device/state.c:430-432 | the branch no caller takes: a run in which a cleaning touch is lost |
| CompareAndSwap.RunTells | device/state.c:420-449 | hash, dirty flag, birth and generation of the ref can be told from the operations of the run and their replies alone |
| CompareAndSwap.UnforcedSucceeds | device/session.c:865-962 | after any run, an unforced move succeeds exactly when no touch dirtied the ref since the last successful move (or it was clean from the start), the expectation names the hash that move stored, or nothing where there is nothing yet, and nothing later refuses it; it conflicts exactly when one of the first two fails |
| CompareAndSwap.ForcedSucceeds | device/session.c:865-962 | a forced move is refused only for what comes after the comparison |
| CompareAndSwap.MovesWhenTold | device/session.c:859-962 | the ref changes exactly when the reply says so, and then to the hash asked for, clean, one generation on |
| CompareAndSwap.SecondWriterLoses | device/session.c:865-892 | of two clients that name the same hash the second conflicts, whatever touches and flushes come between |
| LiveRef.Device.TouchLive | device/state.c:420-440 | the cached touch |
| LiveRef.Device.FlushLive | device/state.c:442-449 | the write-back |
| LiveRef.Device.TakeSnapshot | device/state.c:471-496 | flush, then move the ref, clean; a failure leaves the flushed ref |
| LiveRef.Device.SetRef | device/session.c:859-962 | compare and swap on the flushed ref: conflict, one of four refusals, or move |
| Cbor.ReadPutHead | core/src/cbor.c:44-72 | a shortest-form head is read back with its argument, whatever follows |
| Cbor.ShortestIsLeast | core/src/cbor.c:44-72 | no form that can carry the argument is shorter than the one written, and none of that length differs from it |
| Cbor.ReadHeadWith | core/src/cbor.c:196-218 | so is any head of definite form |
| Cbor.ReadPutMap | core/src/cbor.c:276-294 | a map head is accepted when its entries can still fit |
| ParamsRoundTrip.GridRoundTrip | device/state.c:35-46 | parsing an encoded grid returns the whole grid, everything present |
| ParamsRoundTrip.DocBack | device/state.c:92-135 | any per-part document parses to its meaning |
| ParamsRoundTrip.FlatIsPartZero | device/state.c:122-132 | a non-empty flat map parses like the same map under part 0 |
| ParamsRoundTrip.ExtraPartIgnored | device/state.c:108-118 | a part out of range, anywhere, changes nothing |
| ParamsRoundTrip.ExtraIdIgnored | device/state.c:66-74 | an unknown id, anywhere, changes nothing |
| ParamsGrammar.DocumentRead | device/state.c:92-135 | every well-formed document, per-part or flat, in any definite form of its heads, is read as what it means, whatever follows it |
| ParamsGrammar.AcceptedIsDocument | device/state.c:76-135 | whatever is accepted starts with such a document and leaves exactly what follows it |
| ParamsGrammar.AcceptsExactly | device/state.c:76-135 | the decoder accepts exactly the inputs that start with a well-formed document |
| ParamsGrammar.CutShortIsRejected | device/state.c:76-135 | a document cut short anywhere is rejected |
| ParamsLoops.EncodeParams | device/state.c:35-46 | the encoding loops emit the document |
| ParamsLoops.DecodePairs | device/state.c:76-90 | the pair loop consumes every pair whole or fails |
| ParamsLoops.DecodeParams | device/state.c:92-135 | the decoder computes the parse, with the grid as filled so far on failure |
| Closure.WalkMeans | device/state.c:502-520 | the walk from a depth says exactly that everything within the remaining edges is present |
| Closure.ShallowWalkIsComplete | device/state.c:502-520 | on structures at most sixteen edges deep the check is completeness |
| Closure.DeepHoleUnnoticed | device/state.c:503 | a missing object goes unnoticed exactly when it is deeper than sixteen edges on a chain |
| Closure.Context.Visit | device/state.c:502-525 | the recursion over the mutated context computes the walk and restores the depth |
| Retention.PruneKeepsNewest | device/session.c:730-786 | pruning leaves exactly the refs with fewer than 32 newer ones under the prefix, those that could not be deleted, and all others |
| Retention.PruneCounts | device/session.c:773-786 | the number deleted is the excess over 32 less what could not be deleted |
| Retention.ExcessCount | device/session.c:773-786 | the names with at least 32 newer ones number the total less 32 |
| Retention.LargestIsTop | device/session.c:737-758 | the bounded buffer holds the largest names seen, ascending |
| Retention.InsertInto | device/session.c:742-747 | the upward shift is the sorted insertion |
| Retention.ReplaceSmallest | device/session.c:749-756 | the downward shift replaces the smallest |
| Retention.Prune | device/session.c:773-786 | both passes compute the pruned store and the count |
| PacedStream.ParseWire | core/src/audio.c:19-43 | a stream of sent frames parses back into those frames, all of them, in order |
| PacedStream.StreamIsSent | device/audio_loop.c:101-276 | for any bytes, the device takes exactly the longest run of whole frames a host could send and stops there |
| PacedStream.StopsWhen | core/src/audio.c:31-43 | why it stops, in the bytes: a wrong version, format, direction or an empty frame ends the stream, and nothing else is malformed |
| PacedStream.RangesDisjoint | device/audio_loop.c:248-276 | for any bytes, rendered ranges are disjoint and increasing exactly when no rendered range that reaches the end of the 64-bit sample space is followed by another |
| PacedStream.SentRangesOrdered | device/audio_loop.c:248-276 | for any sent frames, they are exactly when every header after the first frame that reaches that end is behind the wrapped cursor, which the sender can tell |
| PacedStream.InsideIsOrdered | device/audio_loop.c:248-276 | a host that stays inside the sample space has no range rendered twice |
| PacedStream.WrapRewinds | device/audio_loop.c:275 | a stream of two frames whose cursor wraps, so that an older range follows |
| PacedReader.Reader.Take | device/audio_loop.c:104-126 | exactly n bytes across any fragmentation |
| PacedReader.Reader.TakePayload | device/audio_loop.c:190-237 | the payload is consumed whole, the effect's columns and the looped column placed byte by byte |
| PacedReader.FilledIsDemuxed | device/audio_loop.c:215-228 | column c, sample s of the planar input is the interleaved sample s * slots + c, and likewise for the looped column |
| PacedReader.KeptWord | device/audio_loop.c:219-220 | each kept sample is the one the host sent in the looped slot |
| PacedReader.CopyColumn | device/audio_loop.c:261-268 | the kept column replaces exactly one column of the rendered block |
| PacedReader.Reader.NextFrame | device/audio_loop.c:101-243 | header, fence, payload and input of the next frame are those of the byte stream |
| PacedReader.Reader.PacingLoop | device/audio_loop.c:101-276 | frames, inputs and the reason to stop are a function of the concatenated bytes |
| Mix.VoicesWrite | device/engine.c:878-900 | written fresh, a part's output is the sum of its voices, whatever the buffer held |
| Mix.VoicesAdd | device/engine.c:878-900 | accumulated, it is added to the buffer |
| VoiceLog.PartServes | device/engine.c:878-893 | the calls of a part's turn are voices in index order, each reclaimed right after it is rendered, and a voice is rendered exactly if it is active once the voices before it have been served |
| VoiceLog.PartIsItsLog | device/engine.c:878-900 | for every kernel, the part's new state is the fold of those calls and the buffer holds the sum they rendered, fresh or added |
| Mix.AllAgree | device/engine.c:1337-1455 | after every part both renderers have the same parts and the same mix |
| Mix.AdvancedOnce | device/engine.c:1384-1425 | with the main mix every part is advanced exactly once, from its state at the segment's start; own columns are the sum of the part's voices |
| MixTotal.FastIsTotal | device/engine.c:1310-1322 | after any number of parts, each of them is advanced once and the fast path's mix is, sample by sample, the sum over all of them |
| MixTotal.FastIs | device/engine.c:1310-1322 | so is a whole segment of the fast path |
| MixTotal.SplitIsTotal | device/engine.c:1384-1425 | the per-part renderer with the main mix has the same sum, whatever parts have own slots |
| MixTotal.SlotsAre | device/engine.c:1381-1438 | every sample of every requested output slot: the sum of all parts, the channel of one part, or silence for a part that does not exist |
| MixTotal.SlotsAdvance | device/engine.c:1384-1425 | a part is advanced, once, exactly when the main mix or its own slots ask for it |
| MixBlock.BlockAgrees | device/engine.c:1337-1455 | over whole blocks with events and deadlines: same engine, queue, trace, segments and lateness, and every main-mix column equal |
| MixLoops.RenderPartVoices | device/engine.c:878-900 | the voice loop over a shared buffer |
| MixLoops.RenderMain | device/engine.c:1310-1322 | the part loop of the fast path |
| MixLoops.RenderSlots | device/engine.c:1384-1425 | the part loop of the per-part path, whatever the scratch held |
| MixLoops.PackSegment | device/engine.c:1409-1437 | the packing loops write exactly the requested columns of the segment's rows |
| MixLoops.RenderSlotsSegment | device/engine.c:1381-1438 | a segment of the per-part path over its buffers is the specified one |
| ClockRecovery.SumsAreMoments | host/freerun.c:117-147 | after any history the six sums are the weighted moments about the current origin |
| ClockRecovery.SlopeIsOriginFree | host/freerun.c:128-137 | the fitted slope is the one about any origin, so a shift leaves it unchanged |
| ClockRecovery.FitIsLeastSquares | host/freerun.c:146-149 | no line has a smaller weighted residual than one that solves the normal equations |
| ClockRecovery.PublishedIsBest | host/freerun.c:145-166 | the line computed from the sums is that best line for the whole history, its weight is positive, and the published ratio is the clamped quotient by its slope |
| ClockRecovery.ClampIsNearest | host/freerun.c:163-166 | clamping picks the admissible ratio nearest to the fitted one |
| ClockRecovery.DegenerateHolds | host/freerun.c:145-148 | while the history determines no line, the previous ratio stays |
| ClockRecovery.SmoothingConverges | host/freerun.c:196 | the applied ratio closes in on an unchanged target geometrically, never past it |
| ClockRecovery.RatioWithin | host/freerun.c:163-166 | the published ratio never leaves five percent of nominal |
| ClockRecovery.SmoothedWithin | host/freerun.c:196 | nor does the smoothed one that is applied |
| ClockRecovery.Estimator.Update | host/freerun.c:117-167 | the estimator's fields are the function of its whole history |
| VoicePool.AlwaysAged | device/engine.c:335-349 | active voices always have distinct ages below the clock |
| VoicePool.StealsOldest | device/voice_alloc.h:26-33 | a steal happens only with all eight active and takes the strictly oldest |
| VoicePool.NeverStolenEarly | device/voice_alloc.h:26-33 | a stolen voice has seen at least seven later note-ons before the stealing one |
| VoicePool.SoundsItsNote | device/engine.c:335-357 | a voice sounds exactly while the note-on that last took it has seen neither a note-off of its note nor a panic, and sounds that note |
| VoicePool.ActiveExactly | device/engine.c:335-357 | a voice is taken exactly from the note-on that took it until a panic, or until it is reclaimed after its release |
| VoicePool.NoteOffReleases | device/engine.c:354-357 | a note-off releases exactly the voices its note-ons hold, which stay active for their tail, and touches no other |
| VoicePool.Pick | device/voice_alloc.h:26-33 | the scan finds the first free voice, else the oldest |
| VoicePool.Part.Start | device/engine.c:335-349 | the note-on in place |
| VoicePool.Part.Release | device/engine.c:354-357 | the note-off in place |
| OpRate.AdmissionBound | device/op_ratelimit.h:39-50 | the cost of what is admitted is at most the burst plus the time elapsed |
| OpRate.SlowIsAdmitted | device/op_ratelimit.h:39-50 | requests a full interval apart are all admitted |
| OpRate.BurstIsAdmitted | device/op_ratelimit.h:39-50 | after a rest of a burst's length, as many requests as the burst covers are all admitted, however close together |
| OpRate.Limiter.TryAdmit | device/op_ratelimit.h:39-50 | the bucket's fields move as specified |
| ArpSelect.UpDownMovesByOne | device/arp_select.h:53-60 | in up-down mode consecutive steps are exactly one position apart, also at the turns and the wrap |
| ArpSelect.UpDownVisitsAll | device/arp_select.h:53-60 | a sweep visits both ends once and every other position twice |
| ArpSelect.SweepUp | device/arp_select.h:42-46 | an upward (or as-played) sweep plays the order note by note, octave by octave, an octave above the range dropped |
| ArpSelect.SweepDown | device/arp_select.h:48-52 | a downward sweep plays the same notes from last to first |
| ArpSelect.Arrange | device/arp_select.h:67-75 | the in-place sort leaves a permutation in pitch order, or press order for as-played |
| ArpSelect.Select | device/arp_select.h:38-80 | the chosen latch index and note, with the octave dropped above 127 |

## Left out

- Stream restart: one stream is modelled, from the reset that empties the queue and restarts the fence count.
- Segments.Render: stream positions are unbounded; a block that ends past the 64-bit sample space is not modelled there (PacedStream models that wrap).
- Decoding of event messages: messages enter decoded; a rejected one only counts.
- Determinism of real-time runs whose fences expire: an expiry is counted, and the theorem speaks of runs without one.
- The sound engine's arithmetic, the arpeggiator's step times and the resampler: uninterpreted functions or arbitrary deadlines after the position.
- Float rounding: mixing and clock recovery are over exact reals, so the order of float additions is not captured.
- The regression's residual jitter figure, a diagnostic, and times that run backwards, where the source's unsigned subtraction would wrap.
- Sampling of the closure fetch by the host: at most 64 objects per generation are asked for, so no completeness is claimed for it.
- The host's self-pumping flush appears as its single steps, and its spin cap as the step that gives up.
- LiveRef.Device.FlushLive: the write-backs of touches and flushes succeed; a flush and the write that follows it are one step.
- MixLoops.RenderSlots: the level meters are not modelled, and the parts are a sequence value rather than an array.
- PacedReader.Reader.PacingLoop: the read buffer is a sequence holding one read.
- Retention.Prune: the listing is not disturbed by the deletes.
- VoicePool.Part: voices taken by the arpeggiator keep their old age, so its use is excluded.
- SpscRing.FloatRing: memory ordering is represented by stale cursor loads, not by a weak-memory semantics of the buffer itself.
- Sockets, USB and FunctionFS plumbing, discovery, panel, diagnostics bundles and instrumentation: input and output around the core.
- Parameter automation folding, bandwidth reservations, the USB byte FIFO and the exact-read and write loops of the FunctionFS link: they would only add easier members.
