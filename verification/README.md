# Slot and sample scheduling of the OAI radio executables, in Dafny

This project models the real-time loops in `executables/` that keep sample timestamps, slot numbers, worker queues and
masks consistent for ever, and proves what they keep over whole runs and in every interleaving.

| module | component |
|---|---|
| `CInts`, `Options` | C integer division and its laws; an option type |
| `FrameParms` (with `SlotGrid`), `SlotClock` | the sample functions of a numerology, and the time grid they form |
| `OfdmSymbols` | OFDM symbols inside slots, the length of a mixed slot's signal, the position of the synchronisation block |
| `UeSlotEngine` | the UE slot loop: reads, writes, timing advance, drift shift |
| `UeSync` | UE capture, synchronisation and slot numbering across resynchronisations |
| `UeTxBarriers` | the chain of UE uplink slots through dynamic barriers |
| `UeTxStrays` | what joins that no slot counts do to that chain |
| `UeTxFlush` | the flush of the worker threads before a resynchronisation, and what it leaves under way |
| `UeWriteReorder` | the reordering of device writes from concurrent uplink slots |
| `UeRadioUnits` | ownership of radio units by UEs and cells, reading and retuning |
| `GnbRing` | the ring of `ru_thread`, `L1_tx_thread` and `L1_rx_thread` with its busy flags |
| `GnbRuTiming` | reception timestamps, counters and transmit timestamps of the gNB radio unit |
| `LteRuTiming` | the same for the LTE radio unit, frame resynchronisation, unwrapped transmit timestamps |
| `LteGather` | the mask that gathers several LTE radio units |
| `LteBurst` | the fail-safe for late commands |
| `LteMailbox` | the one-slot mailbox between the LTE L1 receive and transmit threads |

Loops and objects that change state are methods and classes; each is tied to a function of the old state, and the laws
are proved about that function. Concurrent parts are state machines whose steps are the critical sections (or, for
`late_control`, the single reads and writes) of the threads; a run is any sequence of enabled steps. Device timestamps,
measured drift, timing-advance requests, feedback delays and search results are parameters. The number of slots per frame,
the frame cycle of the UE, the number of barriers and the depth of the receive ring are parameters too.

`FrameParms.ClockIsValid` shows that the program's sample functions form a valid clock for every numerology, so the
statements about an arbitrary clock hold for the program's own arithmetic.

Where the code does not always meet the property one would expect, the exact condition is proved:

- `UeTxStrays`: `tx_wait_for_dlsch` has one entry per slot of a frame and counts a PDSCH once, while every codeword joins a
  barrier found by the feedback delay `k1`. From every reachable state, all interleavings keep the order and the progress of
  uplink slots exactly when there is one codeword and `k1` less the uplink lead has the same remainder by the slots of a
  frame and by the number of barriers (`FeedbackKeepsOrderIff`). With 512 barriers, among the delays within 512 slots of the
  lead, these are the delays of less than one frame past it (`ProgramDelays`). Otherwise there is an interleaving in which a
  slot is left with nothing under way that it waits for.
- `UeTxFlush`: the flush before a resynchronisation never leaves a decoding under way. It waits for the chain of uplink slots
  only while the numbers of their actors increase, so an uplink slot can still be before its join when the barriers are
  reset exactly when the slots issued reach past the next wrap of the actors (`FlushDrainsIff`). The order of uplink slots
  survives the resynchronisation under the same condition (`ResyncKeepsOrderIff`), and one slot more outstanding than there
  are actors breaks it (`ActorsCanBeOutrun`).
- `UeWriteReorder`: the device gets tiling chunks in order in every interleaving exactly when all belong to one uplink slot, or
  the first call is that for the first chunk and every chunk but the last has at least 100 samples (`AlwaysInOrderIff`). A
  short chunk inside a block can be passed too: it can be left in the queue by a failed second trylock, and the next chunk of
  the same thread is then near enough to be written. A chunk stays behind in the queue exactly when it was queued after the
  last pass of the lock holder and its second trylock came before the unlock (`ChunkIsLeftBehindIff`).
- `GnbRuTiming`: initial alignment across the wrap of the frame number leaves the counter at 1024 and the next reception takes
  the mismatch exit; this happens exactly when alignment crosses the wrap (`MismatchExits`), and `CycleIsCrossed` gives such a
  first sample for every clock. The transmit frame number is right exactly when the lead's whole frames vanish modulo 1024.
- `LteRuTiming`: a frame resynchronisation without drift is accepted exactly outside subframe 0; with drift the exact condition is
  `ResynchWithDrift`.
- `LteGather`: a unit running at a wake-up is without a report exactly when some unit started running after it had been marked
  on its behalf, and has made no call of its own since (`RunningHaveReportedIff`).
- `LteBurst`: a fault reported by reception is answered by a stop exactly when it does not fall between the switch and the
  assignment of a skip or restart, which overwrites it (`FaultIsAnsweredIff`).
- `OfdmSymbols`: `siglen` reaches the last downlink symbol and no further exactly when the downlink symbols form a prefix of
  the slot.
- `UeRadioUnits`: a read reaches all radio units exactly when no other unit shares the cell of the UE's unit.

## Model

| member | source | states |
|---|---|---|
| FrameParms.SlotTimestampStep | openair1/PHY/INIT/nr_parms.c:248-270 | the closed-form slot timestamps are the running sum of the slot lengths |
| FrameParms.SubframePeriodic | openair1/PHY/INIT/nr_parms.c:158-207 | timestamps, lengths and first-symbol lengths repeat with the subframe |
| FrameParms.SlotInFrameBounds | openair1/PHY/INIT/nr_parms.c:219-246 | the slot found for a timestamp contains it, for every timestamp |
| FrameParms.ClockIsValid | openair1/PHY/INIT/nr_parms.c:158-278 | for every numerology the sample functions form a clock: running sums, periodic, with an exact inverse |
| SlotClock.SlotOfInverts | openair1/PHY/INIT/nr_parms.c:219-246 | a timestamp is found in a slot of the frame if and only if it lies between that slot's start and the next |
| SlotClock.SplitByFrame | openair1/PHY/INIT/nr_parms.c:248-270 | the timestamp of an absolute slot is whole frames plus the timestamp within the frame |
| SlotClock.FrameAndSlotOf | openair1/PHY/INIT/nr_parms.c:219-246 | frame and slot number computed from a slot's start are those of the slot |
| OfdmSymbols.SlotIsItsSymbols | openair1/PHY/INIT/nr_parms.c:158-168 | a slot is the sum of its 14 symbols, long only at symbols 0 and 7·2^μ of the subframe (section 5.3.1 of 3GPP TS 38.211) |
| OfdmSymbols.FirstSymbolOfSlot | openair1/PHY/INIT/nr_parms.c:170-207 | the first-symbol length of a slot is that of symbol 14 times the slot number |
| OfdmSymbols.SignalLengthIsSymbolSum | executables/nr-ru.c:517-536 | the closed form of siglen is the sum over the first symbols of the slot and at most the slot length |
| OfdmSymbols.MixedSlotSignal | executables/nr-ru.c:517-536 | the counting loop and branches yield the symbol sum over the number of downlink symbols |
| OfdmSymbols.SignalCoversDownlinkIffPrefix | executables/nr-ru.c:517-536 | siglen ends with the last downlink symbol if and only if the downlink symbols form a prefix |
| OfdmSymbols.SyncPositionIsSymbolSum | openair1/PHY/NR_UE_TRANSPORT/nr_initial_sync.c:477-482 | the closed form for the position of a symbol equals the symbol sum before it if and only if the symbol has the short prefix |
| OfdmSymbols.BlocksStartThere | openair1/PHY/INIT/nr_parms.c:28-68 | a symbol starts a block if and only if it is 2 or 8 modulo 14 (cases A and C), 4, 8, 16 or 20 modulo 28 (B and D) or one of eight modulo 56 (E), with every fifth group left out in D and E; 30 kHz is case B exactly in its bands (section 4.1 of 3GPP TS 38.213) |
| OfdmSymbols.BlocksStartInOrder | openair1/PHY/NR_UE_TRANSPORT/nr_pbch.c:451-454 | starts increase with the block index, and the second half frame adds five subframes |
| OfdmSymbols.BlocksStartShort | openair1/PHY/INIT/nr_parms.c:28-68 | no synchronisation block of cases A to E, in either half frame, starts on a symbol with the long prefix |
| OfdmSymbols.BlocksLieInFrame | openair1/PHY/NR_UE_TRANSPORT/nr_pbch.c:451-454 | every block starts within its frame |
| OfdmSymbols.SyncPositionOfBlock | openair1/PHY/NR_UE_TRANSPORT/nr_initial_sync.c:477-482 | for every block the program can decode, sync_pos_frame is the number of samples before it in the frame |
| UeSlotEngine.UeThread.ReadSlot | executables/nr-ue.c:700-712 | the reads of a slot move the device by one slot length less the shift, from first symbol to first symbol |
| UeSlotEngine.UeThread.SizeBlock | executables/nr-ue.c:993-1009 | the block size is the wanted size clamped at zero; the clamp is owed by the timing advance |
| UeSlotEngine.UeThread.ProcessSlot | executables/nr-ue.c:907-1009 | one iteration yields the block and the state of the specification |
| UeSlotEngine.RuWrite | executables/nr-ue.c:275-368 | the chunks written tile the block exactly, each at most one slot long; nothing is written exactly for an empty block |
| UeSlotEngine.BlocksAbut | executables/nr-ue.c:988-1009 | write timestamp plus block size is the next slot's write timestamp, for every change of timing advance, N_TA and shift |
| UeSlotEngine.UplinkTiles | executables/nr-ue.c:942-1009 | over any run the chunks of all slots tile one interval, without gap or overlap, and none is longer than the longest slot |
| UeSlotEngine.BlockLiesOnGrid | executables/nr-ue.c:983-985 | write timestamp plus both advances less the start of the received slot a is timestamp(a + duration) - timestamp(a) |
| UeSlotEngine.RunLiesOnGrid | executables/nr-ue.c:942-985 | over any run every block starts at the grid time of its slot, counted from the slot the run began with, less shifts and advances |
| UeSlotEngine.FrameIsShiftedOnce | executables/nr-ue.c:942-951 | each frame is shifted once, by the last measurement before its last slot or what the frame before left; its last slot leaves a measurement or the drift shift |
| UeSlotEngine.ReceptionFollowsGrid | executables/nr-ue.c:942-981 | over any run reception stands at the grid time of the absolute slot less the shifts applied |
| UeSlotEngine.DebtAfterRun | executables/nr-ue.c:993-1009 | under a fixed request the debt left by the clamp is the initial debt less the slot lengths paid, stopping at zero |
| UeSlotEngine.DebtIsPaid | executables/nr-ue.c:993-1009 | with a positive lower bound on the slot lengths the debt is gone after debt divided by bound slots |
| UeSync.NumberDetermines | executables/nr-ue.c:914-923 | (hfn, frame, slot) are in range and are the only such triple that rebuilds the absolute slot |
| UeSync.NextFrameIsFirst | executables/nr-ue.c:864-871 | the frame chosen is the first one after the current frame with the decoded number |
| UeSync.ResyncIsNextSuchFrame | executables/nr-ue.c:864-875 | the slot after a resynchronisation is slot 0 of the first later frame with the decoded number |
| UeSync.ProcessedIncreases | executables/nr-ue.c:864-875 | across any sequence of slots and resynchronisations the slots processed strictly increase |
| UeSync.ReadFrame | executables/nr-ue.c:632-674 | a capture consumes exactly two frames of samples |
| UeSync.SyncInFrame | executables/nr-ue.c:676-698 | the skip consumes exactly the offset |
| UeSync.Capture | executables/nr-ue.c:815-818 | after a capture and any number of discarded ones the device stands whole frames later, counted by trashed_frames |
| UeSync.ReachBoundary | executables/nr-ue.c:797-864 | the UE stands on a boundary of the air frames that held the block, by the symbols before the block, and the number it uses is that frame's |
| UeSync.Synchronise | executables/nr-ue.c:797-871 | the slot loop resumes at slot 0 of exactly the frame it stands on, one symbol into it, with that frame's number |
| UeTxBarriers.DynamicBarrier.JoinBarrier | common/utils/barrier/barrier.c:27-42 | a join counts, and starts the stored job when the count is reached |
| UeTxBarriers.DynamicBarrier.UpdateBarrier | common/utils/barrier/barrier.c:44-58 | a job starts at once if its joins are in, else it is stored |
| UeTxBarriers.SlotAndFrameIsRemainder | executables/nr-ue.c:1049-1050 | slot_and_frame is the absolute slot modulo the frame cycle |
| UeTxBarriers.IndicesAgree | executables/nr-ue.c:1049-1059 | the barrier a slot joins is the one the next slot is left with, across the wrap of the frame number |
| UeTxBarriers.IndicesAgreeIffDivides | executables/nr-ue.c:1049-1059 | the indices agree for every slot if and only if the barrier count divides the frame cycle |
| UeTxBarriers.RunKeepsInv | executables/nr-ue.c:1049-1061 | every step of every interleaving keeps the account of joins, counts, decodings and order |
| UeTxBarriers.SlotsStartInOrder | executables/nr-ue.c:411-443 | in every reachable state uplink slots have started once each, in order, after the decodings they count, and at most one is before its join |
| UeTxBarriers.NeverStuck | executables/nr-ue.c:1049-1061 | a slot issued and not started waits for a decoding or a slot that can still step |
| UeTxBarriers.FeedbackIsChargedToItsSlot | executables/nr-ue.c:556-566 | the count for a feedback delay is used by the first slot issued with its entry, which is the slot of the feedback if and only if duration <= k1 < duration + slots per frame |
| UeTxStrays.UnbalancedGetsStuck | executables/nr-ue.c:1049-1061 | when a slot's joins differ from its count, the slots before it start and join and it is left issued, not started, with nothing under way |
| UeTxStrays.ComesToRest | executables/nr-ue.c:411-443 | from every state of a run the decodings and uplink slots under way finish and start all that was issued, before a further PDSCH has any effect |
| UeTxStrays.FeedbackKeepsOrderIff | openair1/SCHED_NR_UE/phy_procedures_nr_ue.c:782-786 | from every reachable state all interleavings keep order and progress if and only if there is one codeword and the delay past the lead has equal remainders by the slots of a frame and by the barriers |
| UeTxStrays.ProgramDelays | openair1/PHY/defs_nr_UE.h:51-58 | with 512 barriers that means a delay of less than one frame past the lead |
| UeTxFlush.RunKeepsInv | executables/nr-ue.c:505-512 | every interleaving of the flush with decodings and uplink slots keeps what is still to be waited for |
| UeTxFlush.NextWrapIsFirst | executables/nr-ue.c:88-91 | the wrap is the next slot that runs on the first actor |
| UeTxFlush.FlushDrains | executables/nr-ue.c:505-512 | after the flush no decoding is under way, and no uplink slot before the next wrap of the actors |
| UeTxFlush.FlushDrainsIff | executables/nr-ue.c:505-512 | no interleaving leaves an uplink slot under way if and only if the slots issued end before the actors' numbers wrap |
| UeTxFlush.ResyncKeepsOrderIff | executables/nr-ue.c:893-899 | all interleavings of the flush and of what follows the reset keep order and progress under exactly that condition |
| UeTxFlush.ActorsCanBeOutrun | executables/nr-ue.c:85-95 | for any number of actors below the barriers a reachable state breaks the condition |
| UeWriteReorder.RunIsAStream | executables/nr-ue.c:339-368 | the device writes of any run form a stream for the reordering, chunk by chunk and slot by slot |
| UeWriteReorder.RunKeepsInv | radio/COMMON/common_lib.c:150-265 | every interleaving of writers keeps each chunk in exactly one place and nextTS at the next chunk |
| UeWriteReorder.DeviceGetsChunksInOrder | radio/COMMON/common_lib.c:217-265 | in every interleaving the device gets the chunks in order, each once, and none is lost |
| UeWriteReorder.ChunkIsLeftBehindIff | radio/COMMON/common_lib.c:258-264 | when all calls have returned, the next chunk lies unwritten if and only if it was queued after the last pass and its second trylock failed |
| UeWriteReorder.SecondChunkCanBeMissed | radio/COMMON/common_lib.c:258-264 | for any two chunks of different slots there is a run that leaves the second behind |
| UeWriteReorder.ShortChunkIsOvertaken | radio/COMMON/common_lib.c:217-256 | with more than one slot, the chunk after any chunk below MAX_GAP samples can be written before it, inside a block too |
| UeWriteReorder.AlwaysInOrderIff | radio/COMMON/common_lib.c:217-256 | all interleavings write in order if and only if there is one slot, or the first call is for the first chunk and all chunks but the last have at least MAX_GAP samples |
| UeRadioUnits.ChosenIsUnique | executables/nr-ue-ru.c:373-404 | least distance with the old unit, then the lowest index, preferred on a tie determines the unit |
| UeRadioUnits.DistanceIsTheMove | executables/nr-ue-ru.c:376-381 | the distance is how far the downlink and the uplink carrier have to be moved together |
| UeRadioUnits.RadioUnits.SetFreq | executables/nr-ue-ru.c:373-404 | the search loop picks that unit among the UE's own and all free ones, and moves cell and UE to it |
| UeRadioUnits.MovedKeepsOwned | executables/nr-ue-ru.c:390-404 | a move keeps units, UEs and cells consistently owned |
| UeRadioUnits.OwnershipIsOneToOne | executables/nr-ue-ru.c:373-404 | consistent ownership is one-to-one |
| UeRadioUnits.RetunedKeepsOwned | executables/nr-ue-ru.c:373-404 | any sequence of calls by any UEs keeps ownership consistent |
| UeRadioUnits.RadioUnits.Read | executables/nr-ue-ru.c:435-473 | the UE's unit and, for UE 0, every unit whose cell no UE uses advance by the samples; the timestamp counts from the unit's first sample |
| UeRadioUnits.ReadReachesAll | executables/nr-ue-ru.c:435-473 | a read of the only UE reaches every unit that has a cell if and only if no other unit shares the UE's cell |
| UeRadioUnits.ReadForOneUe | executables/nr-ue-ru.c:435-473 | with any number of UEs no unit is read for two of them |
| UeRadioUnits.RoundKeepsStep | executables/nr-ue-ru.c:435-473 | when every UE reads the same number of samples, every unit with a cell advances by them exactly once |
| UeRadioUnits.ReadKeepsStep | executables/nr-ue-ru.c:435-473 | a read keeps all units with a cell at the same logical time |
| UeRadioUnits.TimeNeverJumps | executables/nr-ue-ru.c:373-473 | over any sequence of reads and retunings the returned timestamps are contiguous |
| GnbRing.WaitFreeRxTti | executables/nr-ru.c:778-801 | the loop over the flag array yields the result and the flags of the function that the ring's steps refine |
| GnbRing.PullsUpToFirstMatch | executables/nr-ru.c:781-800 | jobs are taken up to the first with the wanted index, or all when the queue closes, and exactly their flags are cleared |
| GnbRing.AwaitIsInTheRing | executables/nr-ru.c:778-801 | the result of a call is that of a reception followed by its pulls in the ring, interleaved with any steps of the other threads |
| GnbRing.RunKeepsInv | executables/nr-ru.c:961-1002 | every interleaving of the three threads keeps flags, buffers and jobs consistent |
| GnbRing.AtMostDepth | executables/nr-ru.c:778-801 | jobs with distinct indices number at most the depth |
| GnbRing.BuffersAreNeverReused | executables/nr-gnb.c:156-200 | a flag is set exactly when one uplink job with its index is on its way, at most depth of them, and the receiver always finds its own samples |
| GnbRing.EverySlotIsProcessed | executables/nr-ru.c:992-1002 | in every interleaving each received slot, uplink or not, passes L1_tx_thread and L1_rx_thread once, in order, with its frame and slot, and the uplink ones come back to ru_thread |
| GnbRing.WaitingMakesProgress | executables/nr-gnb.c:113-144 | while ru_thread waits, the awaited job is in the ring, some thread can step and every step does work |
| GnbRing.PulledAreOldest | executables/nr-ru.c:781-800 | a wait takes the oldest jobs on their way, in order and for good, whatever the other threads do |
| GnbRing.WaitIsShort | executables/nr-ru.c:781-800 | a wait still going on has pulled fewer than depth jobs; the flags it cleared were set and are pairwise distinct |
| GnbRuTiming.RuProc.TickCounters | executables/nr-ru.c:907-913 | the counters step through slots and frames |
| GnbRuTiming.RuProc.RxRf | executables/nr-ru.c:355-444 | one reception yields the state of the specification, for any device timestamp |
| GnbRuTiming.NextReception | executables/nr-ru.c:355-444 | for any device timestamp the next reception is the next slot's start, numbers agree and no exit is taken |
| GnbRuTiming.FirstReception | executables/nr-ru.c:410-440 | the first reception ends on a slot boundary with matching counters if and only if alignment does not cross the frame cycle |
| GnbRuTiming.FirstPassNumbers | executables/nr-ru.c:410-440 | the numbers handed on in the first pass are right if and only if the first timestamp is aligned |
| GnbRuTiming.ReceptionsStayOnGrid | executables/nr-ru.c:355-444 | any sequence of device timestamps keeps reception on the grid and the exits unreached |
| GnbRuTiming.OffsetFollowsDevice | executables/nr-ru.c:361-376 | timestamp plus offset is the device's timestamp after every reception but the first, which keeps the offset |
| GnbRuTiming.TransmitOnDeviceTime | executables/nr-ru.c:566-580 | the transmit timestamp plus offset lies the slot lengths ahead after the samples just received, whatever the drift |
| GnbRuTiming.MismatchExits | executables/nr-ru.c:355-444 | over a run with a second reception an exit is taken if and only if alignment crosses the frame cycle |
| GnbRuTiming.CycleIsCrossed | executables/nr-ru.c:422-440 | one sample into the last slot of the frame cycle is a first sample after which the next reception exits, for every clock |
| GnbRuTiming.TimestampTx | executables/nr-ru.c:940-942 | the summing loop yields the function the transmit laws are about |
| GnbRuTiming.TransmitAtSlotStart | executables/nr-ru.c:940-942 | timestamp_tx is the start of the slot sl_ahead later, across frames |
| GnbRuTiming.TransmitNumbers | executables/nr-ru.c:943-944 | the transmit slot number is right; the frame number is right if and only if the lead's whole frames vanish modulo 1024 |
| GnbRuTiming.TransmitSlotsAbut | executables/nr-ru.c:907-942 | timestamp_tx of the next iteration is that of this one plus the length of its slot, whatever the device returns |
| LteRuTiming.RuProc.TickCounters | executables/lte-ru.c:1620-1626 | the counters step through subframes and frames |
| LteRuTiming.RuProc.RxRf | executables/lte-ru.c:525-616 | one reception yields the state of the specification, for any device timestamp and command |
| LteRuTiming.OrdinaryReception | executables/lte-ru.c:553-616 | for any device timestamp the reception is exactly one subframe on, numbers agree and no exit is taken |
| LteRuTiming.FirstReception | executables/lte-ru.c:553-616 | the first reception starts at frame 0, subframe 0 |
| LteRuTiming.ResynchWithoutDrift | executables/lte-ru.c:525-543 | a drift-free resynchronisation is accepted if and only if it is outside subframe 0; it keeps the subframe, takes the commanded frame and a non-negative timestamp |
| LteRuTiming.ResynchWithDrift | executables/lte-ru.c:525-616 | with drift, outside subframe 0 it exits if and only if the drift leaves the subframe or goes below zero; at subframe 0 if and only if the timestamp does not fall back by ten subframes (modulo the frame cycle) |
| LteRuTiming.CountersAgree | executables/lte-ru.c:525-616 | over any run of receptions and clean commands timestamps and counters agree, ending in a stated subframe |
| LteRuTiming.OffsetFollowsDevice | executables/lte-ru.c:544-561 | timestamp plus offset is the device's timestamp after every reception; after the first, if and only if the offset was zero |
| LteRuTiming.OffsetFollowsRun | executables/lte-ru.c:544-561 | the same over any run of receptions and commands, accepted or not |
| LteRuTiming.EndWithoutCommands | executables/lte-ru.c:553-563 | without commands each call is exactly one subframe |
| LteRuTiming.NorthInterface.Receive | executables/lte-ru.c:440-443 | called for the subframes of a stream in turn, it returns the unwrapped timestamp of each and stays ready for the next |
| LteRuTiming.UnwrapCountsWraps | executables/lte-ru.c:440-443 | frame_tx_unwrap is 1024 times the number of wraps received |
| LteRuTiming.UnwrappedIsLinear | executables/lte-ru.c:440-443 | over any number of wraps the timestamp is the subframe count plus a constant, and congruent to frame·10+subframe modulo 10240 |
| LteRuTiming.UnwrappedIncreasesIff | executables/lte-ru.c:402-443 | timestamps increase for every stream if and only if subframe 0 is delivered |
| LteRuTiming.SubframesFollowTheTable | openair1/SCHED/phy_procedures_lte_common.c:729-803 | the subframe types are those of table 4.2-2 of 3GPP TS 36.211 for the supported configurations |
| LteRuTiming.SubframeZeroIsDelivered | openair1/SCHED/phy_procedures_lte_common.c:729-803 | in FDD and every supported TDD configuration timestamp differences are the true ones (section 4.2 of 3GPP TS 36.211) |
| LteGather.Gather.WakeupL1s | executables/lte-ru.c:1079-1140 | the loop marks, releases, resets and wakes as specified, for one subframe's mask |
| LteGather.UnmarkedIff | executables/lte-ru.c:1085-1090 | a call passes over just the running units other than the caller, and the caller while it waits |
| LteGather.WaitEnds | executables/lte-ru.c:1671-1687 | the wait counter counts iterations down and is released one early, except in subframe 9 |
| LteGather.WaitingCallNeverCompletes | executables/lte-ru.c:1079-1105 | the call of a unit that still waits never completes the mask |
| LteGather.CompletionIsWakeUp | executables/lte-ru.c:1109-1140 | a completed mask is a wake-up and every unit running since the last one has reported |
| LteGather.RunKeepsInv | executables/lte-ru.c:1079-1151 | any sequence of calls and moves towards running keeps a running unit unmarked |
| LteGather.EveryResetIsAWakeUp | executables/lte-ru.c:1079-1151 | from the start and through any run, resets are wake-ups and no unit running since the last one is overlooked |
| LteGather.RunningHaveReportedIff | executables/lte-ru.c:1079-1140 | over any run, a unit running at a wake-up is without a report if and only if one that started running while already marked has not called since |
| LteGather.LateStarterMayBeMissed | executables/lte-ru.c:1079-1140 | a run of three units in which a unit that starts late is counted without a report |
| LteBurst.BurstControl.TxRf | executables/lte-ru.c:685-748 | one transmit opportunity without interference, flag, write or skip and new state |
| LteBurst.RunKeepsInv | executables/lte-ru.c:498-748 | every interleaving of faults and single reads and writes keeps log and state in phase |
| LteBurst.RestartFollowsStop | executables/lte-ru.c:685-748 | after END_NO_TIME_SPEC the next other write is a burst start, exactly two skips after the last stop |
| LteBurst.SkipsFollowAStop | executables/lte-ru.c:693-703 | an opportunity is skipped only as first or second after a stop |
| LteBurst.StepsRefineOpportunity | executables/lte-ru.c:685-748 | the single steps without interference do what the whole call does |
| LteBurst.FaultIsRecovered | executables/lte-ru.c:548-551 | from any reachable state before a short read, every run without further faults answers it by stop, two skips and start and has no other stop, unless the fault is overwritten; the stop is the present opportunity or, past its choice, the next |
| LteBurst.ShortWriteIsRecovered | executables/lte-ru.c:744-748 | the same for a write that comes out short in normal state; the next opportunity is the stop |
| LteBurst.FaultIsAnsweredIff | executables/lte-ru.c:687-715 | a fault is answered by a stop if and only if it does not fall between the switch and an assignment that is not a stop |
| LteBurst.FaultCanBeLost | executables/lte-ru.c:687-715 | such a moment is reached in a run |
| LteMailbox.L1RxtxProc.TryWakeupTx | executables/lte-enb.c:493-510 | the producer's section enqueues into the empty queue and else leaves it alone, by the function of the state machine |
| LteMailbox.L1RxtxProc.Complete | executables/lte-enb.c:286-297 | the consumer's section dequeues the payload it returns, by the function of the state machine |
| LteMailbox.RunKeepsInv | executables/lte-enb.c:267-301 | every interleaving, spurious wake-ups included, keeps slot, threads and history consistent |
| LteMailbox.RefinesQueue | executables/lte-enb.c:482-515 | each step is an operation of a queue of capacity one; the payload is unmodified until completion |
| LteMailbox.FifoOfCapacityOne | executables/lte-enb.c:482-515 | payloads are processed once each, in order; the threads never both sleep |
| LteMailbox.OfferedAreTheCalls | executables/lte-enb.c:482-493 | what is offered is exactly what wakeup_tx is called with outside uplink subframes, in order |
| LteMailbox.SleepingProducerIsWoken | openair1/PHY/defs_common.h:1073-1089 | a sleeping producer is woken by the consumer within three of its steps |
| LteMailbox.SleepingConsumerIsWoken | executables/lte-enb.c:495-512 | a sleeping consumer is woken by the producer's next call |

## Left out

- 32-bit and 64-bit wrap-around of sample counts, `absolute_slot` and timestamps: all are unbounded integers here; in a frame resynchronisation the 32-bit product of samples stays in range for frame numbers below 1024.
- UeTxBarriers.SlotsStartInOrder: assumes that fewer uplink slots than barriers are outstanding and that every decoding is counted by the slot whose barrier it joins; `UeTxStrays` proves exactly when the second assumption is met. The RX-to-TX duration is fixed between resynchronisations.
- UeTxStrays.FeedbackKeepsOrderIff: leaves open the case that the counting slot is outside the barriers' window only because slots before it have not started, and a second codeword without a first.
- UeTxFlush.FlushDrainsIff: for at least one uplink actor; with none an uplink slot runs inside the call that starts it. The work of a slot after its join is not modelled.
- UeRadioUnits.TimeNeverJumps: for one UE; with several, `RoundKeepsStep` covers rounds in which every UE reads once between retunings, not arbitrary interleavings of their reads and retunings.
- UeSync.ReachBoundary: takes the offset of the block in the capture and the decoded block index as parameters; the search itself is signal processing.
- LteGather.EveryResetIsAWakeUp: assumes at least one running unit and units that only move towards running, and does not model the timing check between units, which only logs.
- LteBurst.RestartFollowsStop: the signal length and extension of a transmission are not modelled, nor the separate transmit thread of a USRP device.
- NTN timing updates, sidelink branches, the IQ recorder and player, wall-clock deadlines, statistics and tracing.
- UeWriteReorder.DeviceGetsChunksInOrder: models the queue as a set, which covers every placement in its array; a full queue stops the program, and clearing the context at a resynchronisation is not modelled.
- Signal processing and MAC/PHY procedures, and the extended cyclic prefix.
- Thread shutdown and join order, process start-up and configuration.
- The IF4p5 receive loops, `ru_thread_tx` and `wakeup_txfh`, and `executables/lte-ue.c`, whose sample accounting is a simpler form of the NR UE's.
- `ci-scripts/` and the other tooling of the repository.
