# A verified model of profinet-rs

profinet-rs is a PROFINET IO-controller. This project models the parts of it that hold protocol state
or move bytes whose place matters, and proves what they are for. Values are functions and lemmas; what
the program updates in place (`RtaSequencer`, `AlarmChannel`, the listener loop, `CyclicDataBuilder`,
the shared state of the cyclic controller) are classes whose methods are proved against those functions,
and its loops are loops. `dafny verify dfyconfig.toml` checks everything.

## What is proved

**Alarms** (`Rta`, `AlarmChannel`, `AlarmTransport`, `AlarmWindow`, `AlarmListener`, `AlarmSystem`,
`Alarms`). The counters of RTA start at 0xFFFF and then run modulo 0x8000; every proof carries the
unbounded index behind each number. A controller and a stop-and-wait device under the same rule, joined
by channels that lose and repeat but never reorder, are shown exactly-once towards the controller and
at-most-once towards the device, for both priorities together, and the loop pass over real Ethernet
frames is shown to be a step of that system. Three habits of the code are kept: a piggybacked
acknowledgment advances the send counter without clearing the pending frame, the payload after a give-up
reuses the number, and the AlarmAck goes to the channel of the alarm's block type. When an AlarmAck is sent
again and when it is given up is exact (`AlarmChannels.ScheduleIsKept`), in units of 100 ms times the
timeout factor.

The proof turned up one limit. A pending AlarmAck is retransmitted byte for byte, with the
acknowledgment it was built with. The code puts no bound on how many alarms may be accepted meanwhile; a
lap of 0x8000 later that old number means an alarm that was never accepted, and the device would drop it.
`AlarmWindow.StaleAckLosesAlarm` is such a run of the listener. Left unbounded, alarms are never lost if
and only if `rta_retries` is zero (`AlarmWindow.NothingLostExactlyWithoutRetries`); with retries, if and
only if at most 0x7FFE alarms are accepted between building an AlarmAck and sending it for the last time
(`AlarmWindow.WindowTheorem`). The device is assumed to keep to that bound itself.

**Cyclic exchange** (`DataBuilder`, `Cyclic`, `CyclicController`, `CyclicRuns`, `Watchdog`,
`RxStatistics`, `Timing`, `SafeStop`, `ProcessData`). Time is an integer number of microseconds, a receive
pass is one step, and transmissions, passes and user calls come in any order. Proved over whole runs: the
double buffer is invisible, consumer status follows the last signal, status callbacks alternate, the
watchdog faults neither late nor early, the statistics are a function of the event trace, counted frames
are conserved across counter wraps. `Timing` restates these in the configured factors and in the bytes on
the wire. Stopping is safe in every interleaving as far as the frames built go. What the device is left
with is another matter. The loop gives up when a STOP frame cannot be sent, so if the first one fails the
device keeps its last output (`SafeStop.LastOutputCanStay`), or gets a frame built before that the
transmit thread still had in hand (`SafeStop.UnsafeOutputCanStay`); the promise at src/cyclic.rs:1088-1093
then fails. `SafeStop.LatchesSafeImageExactlyIf` says for each run when it holds, and
`SafeStop.AlwaysLatchesExactlyIf` when a caller can rely on it beforehand. An image for an unknown
submodule is never applied (`SafeStop.AppliedExactlyIfObjectExists`). After a failed start there is no
transmit thread to join, and the stop sends nothing.

**Layouts** (`Rt`, `Connect`, `ConnectBody`, `ProcessData`). The layout written into the Connect request
and the one the runtime decodes with are built by different code. They are proved equal, exact
partitions of the frame, and stable under the exclusion of submodules without IO data; and data put
at a told offset is proved to arrive under the right submodule, in both directions. The comment at
src/connect.rs:71-74 says that excluding on one side only would shift every offset behind; the code
lays consumer status bytes behind all data, so process data never moves (`Connect.ExclusionKeepsData`),
and a status byte moves by the number of submodules excluded before it
(`Connect.ExclusionKeepsStatusExactlyIf`).

**UDP by hand** (`RawUdp`, `Ethernet`; section 1 of RFC 1071, section 3.1 of RFC 791, RFC 768). Both
checksums, their 32-bit bound, what errors they detect, the frame's round trip, and which packets are taken.

**Records** (`NestedCounts`, `ModuleDiff`, `Identification`, `Rpc`, `RpcResponses`, `WriteMultiple`,
`Dcp`; DCE/RPC framing after chapter 12 of The Open Group C706). Nested counted records under
truncation, a strict and a tolerant reader that agree, requests undone by their parsers, response
matching over any stream, aligned write blocks, and the DCP walks. `Dcp.OverlooksExactlyAnEmptyLast`
says exactly when a DCP block that is present is missed: the loops stop with six bytes left, so an empty
last block is never seen.

Masks and shifts are written with division and remainder. Texts of error messages are dropped: `Err`
carries nothing.

## Model

| member | source | states |
|---|---|---|
| Rta.HeaderRoundTrip | src/alarm_listener.rs:70-130 | An RTA header written to 12 bytes parses back, whatever follows it |
| Rta.FrameRoundTrip | src/alarm_listener.rs:178-200 | A built RTA frame, re-tagged with any number of VLAN tags and with any padding behind, passes the receiver's filter with its priority and parses back to the PDU it was built from, the padding behind its data |
| Rta.OnlyTheDeviceIsHeard | src/alarm_listener.rs:178-200 | Of tagged frames exactly the alarm frames of the device itself pass the filter |
| Rta.RtaSequencer.OnPdu | src/alarm_listener.rs:486-521 | Counters and action after a PDU are those of the pure classification, on which everything below is proved |
| Rta.RtaSequencer.AdvanceSend | src/alarm_listener.rs:478-483 | The send counter moves to its successor in 0xFFFF, 0, 1, ..., 0x7FFF, 0, ... and the old number is kept |
| Rta.SameNumberIffLapsApart | src/alarm_listener.rs:478-483 | Two indices carry the same wrapped number exactly if they are whole laps of 0x8000 apart, the 0xFFFF start being its own number |
| Rta.ClassifyMovesIndices | src/alarm_listener.rs:486-521 | Every PDU moves the unwrapped send and receive indices by at most one; Accept only on the next number, ReAck only on the previous one, the send side exactly on its own number in an ACK or an accepted DATA |
| Rta.KthAcceptedCarriesKthNumber | src/alarm_listener.rs:455-521 | For any PDU stream at all the k-th accepted DATA carries the k-th number of 0xFFFF, 0, 1, ..., 0x7FFF, 0, ..., and the counters stand at the numbers of the counts |
| AlarmChannels.AlarmChannel.Service | src/alarm_listener.rs:557-593 | New channel state and the frames sent, byte for byte, including the retransmission of the stored frame and the give-up |
| AlarmChannels.StepKeepsInv | src/alarm_listener.rs:532-593 | Any service pass, PDU or enqueue keeps the channel invariant: at most one pending frame, copies bounded, queue in order, counters at their indices |
| AlarmChannels.ServiceSendsNewest | src/alarm_listener.rs:564-592 | A service pass sends nothing, one more copy of the pending PDU, or the next queued payload under the current number |
| AlarmChannels.SendDiscipline | src/alarm_listener.rs:557-593 | Over any events: DATA on the wire is 1 to 1 + retries byte-identical copies per payload, not interleaved, in enqueue order, for exactly the payloads no longer queued; the rest is the queue |
| AlarmChannels.PduDecides | src/alarm_listener.rs:486-521 | What any PDU does in unwrapped indices: an ACK of the newest DATA PDU, and nothing else, drops the pending frame; a DATA PDU that asks for it gets an ACK of the last number accepted if it is the next or the last again, a NACK otherwise; all else gets no answer |
| AlarmChannels.QuietForTheInterval | src/alarm_listener.rs:569-592 | After a pass that sent something the channel keeps still exactly until the interval is over, and then sends the same PDU again or, without retries left, gives it up |
| AlarmChannels.ScheduleIsKept | src/alarm_listener.rs:557-593 | Over any events: two transmissions of one payload lie at least the interval apart; a pass resends or gives up exactly when the interval behind the last transmission is over, by the number of copies sent; a queued payload waits for nothing but that |
| AlarmTransport.ReceivedAsMeant | src/alarm_listener.rs:741-778 | Within a safe window an endpoint never refuses a PDU: new DATA is accepted, old DATA acknowledged again, and the send side advances exactly when its own number is meant |
| AlarmTransport.EveryRunIsSafe | src/alarm_listener.rs:455-600 | If the controller never retransmits, or never with an acknowledgment a lap old: in every reachable state of controller, stop-and-wait device and two lossy, repeating, ordered channels the accepted alarms are a prefix of the submitted ones ahead of what the device knows by at most one, and the device accepted a subsequence of the payloads, each at most once |
| AlarmWindow.StaleAckLosesAlarm | src/alarm_listener.rs:564-592 | With at least one retry and no bound below a lap, a run of the listener on frames it can receive, every alarm of them well-formed, in which the device is told that an alarm was accepted which the controller never saw |
| AlarmWindow.WindowTheorem | src/alarm_listener.rs:564-592 | Over all runs of the listener, nothing is ever lost if and only if there are no retries or at most 0x7FFE alarms are accepted between building an AlarmAck and its last transmission |
| AlarmWindow.NothingLostExactlyWithoutRetries | src/alarm_listener.rs:564-592 | The code as it is, unbounded: alarms are never lost if and only if rta_retries is zero |
| AlarmListeners.AlarmListener.ReceiveTimeout | src/alarm_listener.rs:721-729 | The longest wait of at most a second that runs past no retransmission deadline, and never under a millisecond |
| AlarmListeners.QuietByTheFactor | src/alarm_listener.rs:709-710 | In the listener the interval is 100 ms times the timeout factor, 100 ms for a factor of zero |
| AlarmListeners.AlarmListener.RunPass | src/alarm_listener.rs:709-808 | One loop pass over real frames: channels, frames sent in order, and notifications delivered are those of the pass specification |
| AlarmListeners.AlarmListener.Answer | src/alarm_listener.rs:743-778 | ACK, NACK or nothing for each classification, on the channel the frame ID names |
| AlarmListeners.AlarmListener.DeliverAlarm | src/alarm_listener.rs:780-806 | The AlarmAck is queued on the channel of the alarm's block type, serviced at once, and the callbacks see the parsed notification |
| AlarmSystem.AlarmsExactlyOnce | src/alarm_listener.rs:741-806 | With both priorities running together, under the same condition: per priority the callbacks saw exactly the notifications of a prefix of the submitted alarms, lagging by at most one |
| AlarmSystem.PassIsSystemStep | src/alarm_listener.rs:709-808 | A pass of the loop on the device's frame, with any Ethernet padding behind a well-sized PDU, is the corresponding step of the two-priority system: same channels, same PDUs on the same wires, same callbacks |
| AlarmSystem.PrioritiesKeepTheirCounters | src/alarm_listener.rs:739-741 | Whatever bytes arrive, a pass never moves the counters of the other priority |
| Alarms.ParseItems | src/alarms.rs:655-672 | The item loop ends and returns every item up to the first that does not parse |
| Alarms.KindByUsi | src/alarms.rs:405-432 | By the number of the USI: which kind of item it selects, how short is too short, and how far it reaches |
| Alarms.ParseAlarmNotification | src/alarms.rs:605-672 | The notification of the cut block, or an error if it is shorter than its header |
| Alarms.PaddingDoesNotMatter | src/alarms.rs:616-626 | Bytes behind a PDU whose BlockLength is right change nothing |
| Alarms.NotificationRoundTrip | src/alarms.rs:605-672 | Any header and item list, open-ended kinds only last, parses back from its bytes with any padding behind |
| Alarms.TruncatedLastItem | src/alarms.rs:405-595 | A PDU cut inside its last item keeps exactly the items before it |
| Alarms.AckReproducesSpecifier | src/alarm_listener.rs:233-269 | The AlarmAck of a received PDU carries its specifier with only bit 14 cleared, its type and address unchanged, its own block type, length and version, and PNIOStatus OK |
| Ethernet.SkipVlanTags | src/util.rs:94-102 | The offset behind all leading VLAN tags |
| Ethernet.SkipsExactlyTheTags | src/util.rs:94-102 | Exactly the tags are skipped, any number of them |
| Ethernet.OneTag | src/util.rs:83 | Four bytes are a tag exactly if they begin with the TPID of 802.1Q or 802.1ad |
| Ethernet.TagsDoNotMatter | src/util.rs:108-130 | A tagged frame strips to the same payload as an untagged one |
| Rt.FrameRoundTrip | src/rt.rs:480-495 | A built RT frame parses back under any VLAN tags |
| Rt.ParsesExactlyProfinet | src/rt.rs:480-495 | Of tagged frames exactly those with the PROFINET EtherType and room for an RT header parse |
| Rt.BuiltFrameRoundTrip | src/rt.rs:466-495 | The frame the controller builds parses back to the RT frame it was built from |
| Rt.BuildInput | src/rt.rs:377-410 | Objects and length of the input side as the layout prescribes, consumer status bytes counted but not kept |
| Rt.BuildOutput | src/rt.rs:411-453 | Objects and length of the output side, consumer status objects behind the data |
| Rt.BuildIocrConfigs | src/rt.rs:369-455 | Both configurations |
| Rt.LayoutTiles | src/rt.rs:377-453 | The objects follow one another without gap or overlap over the whole layout |
| Rt.TilingIsPartition | src/rt.rs:377-453 | In such a layout every byte has exactly one owner and nothing is outside |
| Rt.LayoutLengthIsSum | src/rt.rs:377-453 | The layout is as long as all data plus one byte per submodule |
| Connect.DataEntries | src/connect.rs:141-157 | The data entries written, their count and the offset behind them are those of the runtime layout |
| Connect.IocsEntries | src/connect.rs:158-171 | The same for the consumer status entries |
| Connect.IocrBlockReq | src/connect.rs:140-211 | The whole IOCRBlockReq |
| Connect.BlockReadsAsLayout | src/connect.rs:140-211 | A device reading the block by its own counts finds every field of the fixed part, timing included, as the setup has it, and exactly the runtime's objects and length |
| Connect.LayoutAgreement | src/connect.rs:140-211 | In both directions the device is told the clock, reduction and watchdog factors, the (slot, subslot, offset) entries and the data length of the runtime configuration |
| Connect.ArReadsBack | src/connect.rs:102-126 | Every field of the ARBlockReq reads back |
| Connect.AlarmCrReadsBack | src/connect.rs:216-231 | Every field of the AlarmCRBlockReq reads back, the timeout factor 1 and 3 retries of the listener's defaults included |
| Connect.LayoutPartitionsFrame | src/connect.rs:140-174 | Data with provider status and consumer status bytes exactly partition the sum of lengths plus the number of slots |
| Connect.ExclusionKeepsData | src/connect.rs:75-83 | Excluding submodules without IO data, even on one side only, moves no process data |
| Connect.StatusIsThere | src/connect.rs:158-171 | The status byte of a submodule stands behind all data and the status bytes of the submodules listed before it |
| Connect.ExclusionShiftsStatus | src/connect.rs:71-83 | One-sided exclusion moves the status byte of a retained submodule forward by exactly the number of submodules excluded before it |
| Connect.ExclusionKeepsStatusExactlyIf | src/connect.rs:71-83 | In either direction every retained submodule keeps its status offset if and only if no excluded one stands before a retained one that has a status byte there |
| Connect.EmptyInFrontMovesStatus | src/connect.rs:71-83 | One empty submodule in front is enough to move it |
| Connect.ExclusionMovesConsumerStatus | src/connect.rs:71-83 | The same in the bytes of a concrete layout |
| ConnectBody.ExpectedSubmoduleBlock | src/connect.rs:239-299 | The whole ExpectedSubmoduleBlockReq, built with one entry per slot |
| ConnectBody.GroupsAreSlots | src/connect.rs:243-280 | Each submodule once, under its slot, in list order; slots in first-seen order; counts sum to the list length |
| ConnectBody.ExpectedBlockReadsBack | src/connect.rs:239-299 | A device decoding the block gets exactly those groups with IO lengths and types |
| ConnectBody.BodyIsFiveBlocks | src/connect.rs:310-340 | Walking the body by block lengths visits 0x0101, 0x0102, 0x0102, 0x0103, 0x0104 and ends at its end; the AR block and the alarm block say what the program passes |
| DataBuilder.CyclicDataBuilder.SetData | src/rt.rs:252-263 | The image after a write, and failure for an unknown submodule |
| DataBuilder.CyclicDataBuilder.GetData | src/rt.rs:266-278 | The bytes of the object in the write buffer |
| DataBuilder.CyclicDataBuilder.SetIops | src/rt.rs:281-292 | One provider status byte |
| DataBuilder.CyclicDataBuilder.SetIocs | src/rt.rs:295-305 | One consumer status byte |
| DataBuilder.CyclicDataBuilder.SetAllIops | src/rt.rs:308-316 | Exactly the provider status bytes of objects with data |
| DataBuilder.CyclicDataBuilder.SetAllIocs | src/rt.rs:318-328 | Exactly the consumer status bytes; dirty only if a byte changed |
| DataBuilder.CyclicDataBuilder.Clear | src/rt.rs:330-335 | Zero image, dirty |
| DataBuilder.CyclicDataBuilder.Swap | src/rt.rs:337-343 | Send buffer becomes the image if dirty |
| DataBuilder.CyclicDataBuilder.Build | src/rt.rs:345-348 | The send buffer |
| DataBuilder.CyclicDataBuilder.Load | src/rt.rs:356-362 | The payload over the start of the image |
| DataBuilder.BuiltLayoutIsSound | src/rt.rs:369-455 | Built layouts keep every object inside the frame and no consumer status byte inside process data |
| DataBuilder.WritesAreSent | src/rt.rs:252-343 | After any write of data or status the next swap sends the image as it is |
| DataBuilder.IocsSetsOneByte | src/rt.rs:295-305 | The byte the submodule's first object names, if any, and no other |
| DataBuilder.IocsLeaveProcessData | src/rt.rs:318-328 | Consumer status updates leave every data and provider status byte alone |
| CyclicControllers.Controller.New | src/cyclic.rs:820-868 | Refused exactly for cycle times under a millisecond, else a controller as below |
| CyclicControllers.Controller.constructor | src/cyclic.rs:842-868 | New state: Idle, zero data, every provider status GOOD |
| CyclicControllers.Controller.Transition | src/cyclic.rs:338-354 | No-op on the same state, else state, callback and the memory of a fault |
| CyclicControllers.Controller.NextOutputFrame | src/cyclic.rs:365-393 | Counter, committed buffer and frame |
| CyclicControllers.Controller.ProcessInputFrame | src/cyclic.rs:398-543 | Whole new shared state for any received bytes |
| CyclicControllers.Controller.ExtractInputs | src/cyclic.rs:498-543 | Input map and callbacks, object by object |
| CyclicControllers.Controller.RecordAccepted | src/cyclic.rs:417-456 | Interval statistics, timer and streak after an accepted frame |
| CyclicControllers.Controller.TrackCycleCounter | src/cyclic.rs:548-581 | Duplicate, late, expected or gap |
| CyclicControllers.Controller.HandleWatchdogTimeout | src/cyclic.rs:586-617 | Counters, consumer status and the escalation to Fault |
| CyclicControllers.Controller.CheckReceiveWatchdog | src/cyclic.rs:749-755 | Timeout and re-arm after a whole period |
| CyclicControllers.Controller.RxPass | src/cyclic.rs:764-800 | One loop pass with a working socket: frame first, watchdog always |
| CyclicControllers.Controller.ReceiveFailed | src/cyclic.rs:768-788 | A receive error: Fault if the link was up and nobody is stopping it |
| CyclicControllers.Controller.SetOutputData | src/cyclic.rs:937-946 | Refused in Stopping, Fault and Stopped; else data and GOOD status |
| CyclicControllers.Controller.SetSafeOutput | src/cyclic.rs:1094-1096 | The registered image is replaced and nothing else |
| CyclicControllers.Controller.ApplySafeOutput | src/cyclic.rs:623-634 | The registered image in both buffers |
| CyclicControllers.Controller.BuildStopFrame | src/cyclic.rs:644-646 | Commit and build one STOP frame |
| CyclicControllers.Controller.SendStopFrames | src/cyclic.rs:639-655 | Up to three STOP frames, the first failed send ends the loop: frames that went out and the state after them |
| CyclicControllers.Controller.Start | src/cyclic.rs:1046-1083 | Allowed from Idle, Stopped and Fault; fresh statistics, fault memory cleared; where it stops if sockets or threads fail |
| CyclicControllers.FailedStartNeedsStop | src/cyclic.rs:1048-1067 | A start whose sockets do not open leaves Starting with the run flag set; no further start is accepted until a stop, and then it is |
| CyclicControllers.Controller.Stop | src/cyclic.rs:1112-1139 | The stop with both threads idle, with or without a transmit thread to join, whichever sends fail |
| CyclicRuns.StartIsReady | src/cyclic.rs:1046-1083 | Starting is possible exactly from Idle, Stopped and Fault, and yields a running controller with fresh statistics, no remembered fault and the committed image: the start every theorem about runs asks for |
| CyclicRuns.NewIsIdle | src/cyclic.rs:842-868 | A new controller is Idle with every provider status GOOD, all else zero, nothing received and nothing reported |
| CyclicRuns.EveryFrameCarriesTheImage | src/rt.rs:337-348 | In every run of transmissions, receptions and writes, skipping the copy of a clean image is invisible: each frame carries the write buffer of that instant |
| CyclicRuns.ConsumerStatusFollowsLastSignal | src/cyclic.rs:482-601 | All consumer status bytes are BAD from a timeout to the next alive frame and GOOD from an alive frame to the next timeout |
| CyclicRuns.RxLeavesProcessData | src/cyclic.rs:398-617 | No receive pass changes process data in the output image |
| CyclicRuns.StatusCallbacksAlternate | src/cyclic.rs:505-541 | Per submodule the status callback reports GOOD, BAD, GOOD, ... strictly alternating from GOOD, over every run |
| CyclicRuns.StateCallbacksChain | src/cyclic.rs:338-356 | Over every run the state callback is told of every change and of nothing else: its reports form one chain from the first state to the present |
| CyclicRuns.TransmitCounterCounts | src/cyclic.rs:365-370 | After k frames the counter is k steps modulo 65536, and its u32 sum never overflows for any factors |
| Cyclic.DisownedTouchesOnlyCounters | src/cyclic.rs:398-480 | A frame that is not alive changes no input, timer, streak, state or output byte |
| Cyclic.AcceptedTouches | src/cyclic.rs:424-483 | An alive frame leaves Fault, re-arms the timer, turns consumer status GOOD and touches no other control state |
| Cyclic.HeardExactlyIfAddressed | src/cyclic.rs:398-417 | A frame under any tags is for this controller exactly if it comes from the device and carries the input frame ID |
| Cyclic.UsableExactlyByItsStatus | src/cyclic.rs:419-483 | On the wire bytes: a frame is usable exactly if DataStatus has bits 2 and 4 and not bit 7 and TransferStatus is zero; otherwise it is counted invalid and no input, callback, timer, streak, state or output byte changes |
| Watchdog.PassAndTimer | src/cyclic.rs:749-801 | Timer, streak and state after any receive pass, by whether it accepted, timed out or neither |
| Watchdog.FaultByDeadline | src/cyclic.rs:586-617 | A running link without alive frames, passes at most d apart, is in Fault within (N - m)(W + d) of the last re-arm after m timeouts, whatever invalid or foreign frames arrive, and stays there |
| Watchdog.NoEarlyFault | src/cyclic.rs:586-617 | A pass that moves to Fault comes at least N(W + 1) after the last accepted frame or the start, and N is not zero |
| Watchdog.UnlimitedNeverFaults | src/cyclic.rs:606-609 | With N = 0 no run of passes and calls ever changes the state |
| Watchdog.RunsWait | src/cyclic.rs:338-354 | In every run Fault implies that a fault is remembered, and the timer bounds the time without data |
| RxStatistics.StatisticsTellTheTrace | src/cyclic.rs:398-480 | Count, sum, minimum and jitter range over exactly the alive-to-alive intervals with nothing in between, the maximum and the last interval over all; received, invalid, duplicate, late and missed counts are those of the event trace |
| RxStatistics.CountersConserve | src/cyclic.rs:548-581 | For a sender that is not overtaken and no gap beyond half the range: received plus gap-counted misses is the index span plus repeats, across every wrap, and nothing is called late |
| RxStatistics.FramesAreConserved | src/cyclic.rs:548-592 | The same for the statistics of whole runs, timeouts taken off |
| Timing.WatchdogElapsesExactly | src/rt.rs:195-207 | In configured numbers the watchdog elapses exactly when more than wd times floor(rr scf 125 / 4) microseconds have passed since it was armed |
| Timing.FaultByConfiguredDeadline | src/cyclic.rs:586-617 | The upper bound on the time to Fault in configured numbers |
| Timing.NoFaultBeforeConfigured | src/cyclic.rs:586-617 | The lower bound in configured numbers |
| Timing.OutputOnTheWire | src/cyclic.rs:365-393 | After any run with k transmissions the next frame, read back from its bytes, has the addresses, tag, frame ID, counter start + (k + 1) scf rr modulo 65536, status 0x35 and the image |
| Timing.StopOnTheWire | src/cyclic.rs:639-650 | A STOP frame reads back with status 0x25 and is no sign of life |
| Timing.FramesAreConservedAsConfigured | src/cyclic.rs:548-592 | Against a device counting in steps of scf rr the missed frames of a run are exactly those sent and not seen |
| Timing.IntervalsAgainstConfiguredCycle | src/cyclic.rs:430-470 | Jitter is measured against floor(rr scf 125 / 4) microseconds |
| SafeStop.BuiltOutputIsSound | src/rt.rs:411-453 | Built output layouts meet the assumption of the safe stop |
| SafeStop.StoppingIsSafe | src/cyclic.rs:1112-1139 | In every interleaving of stop, building, sending, receptions and timeouts, any send failing: everything on the wire after the safe image was applied carries it at its object's offset with status GOOD, save at most the first frame, built before; STOP frames come last and are no sign of life; a stop that goes through was of a running controller and ends Stopped, refusing output data, after one to three attempts at a STOP frame, or with nothing sent if there is no transmit thread to join |
| SafeStop.LatchesSafeImageExactlyIf | src/cyclic.rs:1088-1096 | After the stop, with a transmit thread or without, the last output the device received carries the safe image if and only if the first STOP frame or some cyclic frame built since went out, or the last frame built before already carried it |
| SafeStop.AlwaysLatchesExactlyIf | src/cyclic.rs:1088-1096 | Known before the stop: every interleaving leaves the device with the safe image if and only if the last frame out and the frame in hand, if any, already carry it |
| SafeStop.UnsafeOutputCanStay | src/cyclic.rs:639-655 | A run in which it does not: a frame in hand goes out after the image was applied and the first STOP send fails |
| SafeStop.LastOutputCanStay | src/cyclic.rs:639-655 | With nothing in hand it is enough that the first STOP send fails: the device keeps what it had, whatever that was |
| SafeStop.AppliedExactlyIfObjectExists | src/cyclic.rs:619-634 | The registered image is applied if and only if its submodule has an output object; otherwise nothing changes |
| SafeStop.StopIsTheQuietInterleaving | src/cyclic.rs:1112-1139 | With no interference the interleaved stop is the method Stop, whichever sends fail, with a transmit thread or without |
| SafeStop.TransmittingGoesOn | src/cyclic.rs:667-679 | Until it is joined the transmit thread does what it does in a running controller |
| SafeStop.StoppingTheIdle | src/cyclic.rs:1105-1116 | Stopping what does not run applies the safe image and returns |
| SafeStop.StoppingKeepsChain | src/cyclic.rs:1112-1139 | So it is through a stop |
| ProcessData.InputArrivesAsTold | src/cyclic.rs:498-543 | Data at the offset the device was told in the Connect request arrives, with its status, under its own submodule, in any payload long enough to carry it |
| ProcessData.AcceptedReports | src/cyclic.rs:502-541 | An accepted frame reports exactly the objects it carries whole with bit 7 of their status set, in order, and leaves the entries of all submodules it carries nothing for |
| ProcessData.OutputArrivesAsTold | src/cyclic.rs:937-946 | Data set for a submodule is in the next frame at the offset the device was told, GOOD, and every other byte stays |
| ProcessData.WriteRefusedExactlyIf | src/cyclic.rs:937-946 | Refused exactly in Stopping, Stopped and Fault, or if the submodule does not exist |
| RawUdp.SumBeWords | src/rawudp.rs:27-36 | The sum of big-endian words, without overflow whenever it fits 32 bits |
| RawUdp.FoldChecksum | src/rawudp.rs:40-45 | The fold loop ends on the complement of the residue modulo 65535 |
| RawUdp.Ipv4Checksum | src/rawudp.rs:49-51 | Complement of the residue of the header |
| RawUdp.UdpChecksum | src/rawudp.rs:57-67 | The same with the pseudo-header, 0xFFFF for 0 |
| RawUdp.PseudoHeader | src/rawudp.rs:53-62 | The UDP sum is that of the RFC 768 pseudo-header in front of the datagram |
| RawUdp.NoOverflow | src/rawudp.rs:57-67 | No payload up to 65507 bytes overflows the u32 sum |
| RawUdp.BuildUdpFrame | src/rawudp.rs:73-116 | The built frame, both checksums patched in |
| RawUdp.PacketFields | src/rawudp.rs:82-107 | Every header field of a built packet as its receiver reads it |
| RawUdp.BuiltHeaderVerifies | src/rawudp.rs:86-98 | Every built IPv4 header verifies to 0 |
| RawUdp.BuiltDatagramVerifies | src/rawudp.rs:100-107 | Every built datagram verifies to 0 with its pseudo-header, odd lengths and the substitute for 0 included |
| RawUdp.OneWordErrorDetected | src/rawudp.rs:47-51 | The change of one word of a verifying header is noticed, except 0x0000 against 0xFFFF |
| RawUdp.ParseRecovers | src/rawudp.rs:145-168 | Payload and source port of any unfragmented datagram, IP options and padding included, and only for the wanted addresses |
| RawUdp.TakenExactlyIf | src/rawudp.rs:124-168 | Exactly the whole unfragmented UDP packets of the wanted addresses are taken, cut by the datagram's length |
| RawUdp.FrameRoundTrip | src/rawudp.rs:124-168 | A built frame parses back under any VLAN tags and padding; the sender's own frames do not |
| NestedCounts.ApiWalkCut | src/transport.rs:461-514 | Cutting the input only shortens the list of entries |
| NestedCounts.ApiWalkRecovers | src/transport.rs:461-514 | From well-formed records every submodule is found under its own module and API |
| NestedCounts.StrictApisSound | src/im.rs:935-985 | What the strict walk accepts is exactly the bytes of the records it returns |
| NestedCounts.StrictApisComplete | src/im.rs:935-985 | And it accepts every well-formed record |
| NestedCounts.StrictAndTolerantAgree | src/im.rs:835-985 | Where the strict walk succeeds the tolerant one, behind any prefix, finds the same submodules and stops at the same place |
| ModuleDiff.OursByRange | src/transport.rs:364-422 | The states that count as ours, as ranges; a locked submodule is never ours |
| ModuleDiff.ParseModuleDiffBlock | src/transport.rs:461-514 | Every readable submodule of every ModuleDiffBlock |
| ModuleDiff.TruncationOnlyShortens | src/transport.rs:461-514 | For all bytes and all cuts the cut input yields a prefix |
| ModuleDiff.EverySubmoduleIsFound | src/transport.rs:461-514 | A well-formed response yields every submodule with its slot, whatever other blocks stand between |
| ModuleDiff.ParseIocrBlockRes | src/transport.rs:335-351 | The frame ID of the first matching block |
| ModuleDiff.ParseConnectResponse | src/transport.rs:535-587 | The verdict and the frame IDs |
| ModuleDiff.ConnectSucceedsExactlyIfOurs | src/transport.rs:535-587 | Success exactly if the status is 0 and every listed submodule is ours, and then the frame IDs are the first assigned ones |
| ModuleDiff.CutResponseIsNotRefused | src/transport.rs:535-587 | Cutting an accepted response behind its array header never makes it refused |
| Identification.ParseRealIdentificationData | src/im.rs:835-922 | The readable slots, with and without the API level |
| Identification.WholeRecordIsListed | src/im.rs:835-922 | A whole record lists every slot once, in order, with the API level exactly if both version bytes are at least 1 |
| Identification.TruncationOnlyShortens | src/im.rs:835-922 | For all bytes and all cuts a prefix |
| Identification.ParseInm0Filter | src/im.rs:935-985 | Nested maps of a whole record, an error for a short one |
| Identification.WholeRecordsAreAccepted | src/im.rs:935-985 | Every whole record is accepted |
| Identification.ParsersAgree | src/im.rs:852-985 | On records with API counts that repeat nothing both readers report the same submodules and idents |
| Rpc.PacketRoundTrip | src/transport.rs:158-191 | Every packet in either byte order parses back |
| Rpc.NrdRoundTrip | src/transport.rs:282-294 | The array header parses back in the order it was written in |
| Rpc.RequestHeaderReadsBack | src/rpc.rs:77-110 | Every header field of a request as its receiver reads it |
| Rpc.IodRoundTrip | src/blocks.rs:37-62 | The IOD record parses back |
| Rpc.RequestsRoundTrip | src/rpc.rs:77-225 | The three parsers undo every read, implicit read and write request |
| Rpc.RequestCountsAreConsistent | src/rpc.rs:55-70 | The array header of a request: its length twice, and a maximum of 4000 or the length if that is more |
| RpcResponses.NextRpcResponse | src/transport.rs:238-263 | The first datagram not skipped decides; success only for a response with the expected activity and sequence number |
| RpcResponses.ByteOrderDoesNotMatter | src/transport.rs:223-233 | A packet is taken or skipped by type, activity and number alone, whichever order its sender uses |
| RpcResponses.CControlResponse | src/transport.rs:703-753 | The answer, field by field in the request's byte order |
| RpcResponses.ResponseIsAccepted | src/transport.rs:703-753 | The answer to any request is a response the caller's own matching accepts in both byte orders; it echoes version, order, UUIDs, numbers and maximum count, and says DONE with status zero to the AR and session |
| RpcResponses.AnswerIsTaken | src/transport.rs:238-263 | Behind any requests and foreign responses the matching loop stops at the answer and returns it, whatever follows |
| RpcResponses.ControlRequestReadsBack | src/transport.rs:678-765 | Of control blocks in packets of any kind exactly those in a request to the control operation that say ApplicationReady are extracted, in either order |
| WriteMultiple.IodWriteMultiplePayload | src/blocks.rs:119-156 | The payload with its aligned blocks |
| WriteMultiple.BlocksReadBack | src/blocks.rs:119-156 | Walking by declared length and alignment recovers every write in order with its position modulo 65536 and ends exactly at the end |
| WriteMultiple.MultipleRequestReadsBack | src/rpc.rs:227-245 | The framed request comes apart again down to every write |
| WriteMultiple.ParseWriteMultipleResponse | src/blocks.rs:184-216 | The readable results |
| WriteMultiple.TruncationOnlyShortens | src/blocks.rs:184-216 | For all bytes and all cuts a prefix |
| WriteMultiple.ResponseReadsBack | src/blocks.rs:184-216 | Every reported result is read in order, extra bytes and alignment included |
| Dcp.ParseGetResponse | src/dcp.rs:513-564 | Header checks and first matching block |
| Dcp.ParseIdentifyResponse | src/dcp.rs:644-730 | Header checks and the walk over all blocks |
| Dcp.LearnBlock | src/dcp.rs:693-718 | What one block tells about a device |
| Dcp.WalkSeesEffective | src/dcp.rs:537-561 | The walk sees exactly the blocks but an empty last one, whether or not the length counts the last pad byte, whatever follows |
| Dcp.GetFindsFirst | src/dcp.rs:513-564 | On a well-formed frame, any VLAN tags and padding, the first matching block |
| Dcp.GetJudgesTheHeader | src/dcp.rs:513-535 | For any PROFINET payload: too short is an error, another frame ID or transaction is somebody else's, ours without success is an error, the rest is an answer |
| Dcp.OverlooksExactlyAnEmptyLast | src/dcp.rs:537-540 | A block that is there is reported absent exactly if it is the only one of its kind, last and empty |
| Dcp.IdentifyLearnsAll | src/dcp.rs:644-730 | On a well-formed frame the device is the fold over the blocks |
| Dcp.IdentifyJudgesTheHeader | src/dcp.rs:644-668 | Exactly payloads with the Identify frame ID, a whole header and a success are accepted |
| Dcp.KindsByNumber | src/dcp.rs:693-718 | The blocks a device learns from, by option and suboption number and least length |
| Dcp.LastTextWins | src/dcp.rs:694-703 | Name and type come from the last block about them |
| Dcp.LastAddressWins | src/dcp.rs:704-709 | Addresses come from the last block long enough |
| Dcp.LastIdentityWins | src/dcp.rs:710-716 | So do identity and role |

## Left out

- AlarmTransport.EveryRunIsSafe: assumes no retries or a bound on how stale a retransmitted acknowledgment may be, because without either the property is false; AlarmWindow.WindowTheorem gives the exact condition.
- AlarmSystem.AlarmsExactlyOnce: the same condition, for the same reason.
- CyclicControllers.Controller.Start: does not model starting from Fault while the old threads still run; a stop is assumed first. After a thread could not be spawned the other may be running.
- CyclicControllers.Controller.Stop: the threads are idle; SafeStop has them at work.
- SafeStop.StoppingIsSafe: the transmit thread may start another iteration until it is joined, more often than the code lets it.
- CyclicRuns.ConsumerStatusFollowsLastSignal: says nothing about Fault after a receive error, which does not set consumer status BAD.
- Connect.AlarmCrBlock: only for priority 0 or 1, the values the program passes; a larger one would need the bitwise or of the source.
- Connect.IocrBlockReq: the u16 counters of entries wrap instead of stopping the program, which a debug build does beyond 65535 entries.
- RawUdp.BuildUdpFrame: requires that the 32-bit sum does not overflow, where the source wraps or panics; RawUdp.NoOverflow shows every sendable payload meets it.
- RpcResponses.NextRpcResponse: the receive function is a list of results; its end is a receive error.
- Alarms.ParseItems: the item parsers test each group of fields as they come to it; the model tests the whole fixed length at once, with the same outcome.
- Dcp.ParseIdentifyResponse: texts stay bytes; the lossy UTF-8 decoding is not modelled.
- Check-then-act races inside one receive pass (separate lock acquisitions), mutex poisoning, and time below a microsecond.
- Widths of the statistics counters (u32 and u64), and the transmit-interval statistics. The pace of the transmit loop: transmissions come at any time.
- Registration of callbacks, and callbacks that call back into the controller; what they are told is recorded as logs.
- Failing sends of alarm frames are frames lost on the channel.
- The DCP Set response, Hello and request builders, PDRealData, diagnosis tables, I&M records of fixed size, LLDP and the endpoint mapper: the same walks with less to say.
- GSDML parsing: slot lists are arbitrary input.
- Sockets, captures, threads, randomness, the device facade, the command line and its output.
