# CTU CAN FD driver: model and proofs

The CTU CAN FD Linux driver turns a handful of priority-arbitrated TXT buffers into a FIFO, finds
bit timings by an integer search, and moves frames between `canfd_frame` and hardware words. This
project models these three parts in Dafny and proves what they promise.

Transmit path:

- `Priority` — the TX_PRIORITY word and its rotation.
- `Arbiter` — the core's priority decoder.
- `Rings` — rings read from a moving base.
- `TxRing` — `ctucan_start_xmit`, `ctucan_tx_interrupt` and the TXT buffers as a step system.
- `TxWindow`, `TxInvariant`, `TxControlSteps`, `TxBufferSteps`, `TxSafety` — the invariant, kept by every step.
- `TxTheorems`, `TxProgress` — what follows for every schedule.
- `TxDriver` — both calls as code with loops, locals and early returns. Between any two accesses the
  rest of the system moves; every call is a run of the step system.

Bit timing:

- `Division`, `SamplePoint`, `BitSearch`, `BitTiming` — the calculation and the fix-up, with 32-bit
  wrap-around written out, on a mutable struct.
- `BitTheorems`, `BitResults`, `BitAnswers` — exactness, completeness, validity, fixed points, and the answers field by field.
- `Btr` — the registers BTR and BTR_FD.

Frames:

- `Frames`, `Codec` — frames as words, in the mask style and in the bit field style.
- `TxtBuffers`, `RoundTrip` — TXT buffer memory, and a frame from one end of the bus to the other.
- `RxStream`, `RxDriver` — the RX FIFO and the poll routine, as functions and as code.
- `Timestamp` — the two-register read of a running counter.

## Environment

These are assumed of the hardware and of the kernel, not proved.

- The core has exactly `ntxbufs` TXT buffers, between 1 and 8.
- The arbiter revalidates its choice whenever it is not locked to a transmission. It drops the choice
  on a finish, a retry and bus-off. It picks with the decoder of `src/tx_arbitrator/priority_decoder.vhd`.
- TXNF is set when some buffer is empty. A finish sets TXBHCI in the same step, and a set in the cycle of a clear wins.
- `ctucan_start_xmit` is called one call at a time and only while the queue is awake. The handler is not re-entered.
- A failed transmission may be retried any number of times. Bus-off may strike at any time and fails
  every buffer that is ready or transmitting.
- The word count RWCNT of a received frame is the number of words after the format word: 3 for a remote frame, 5 for
  a classical frame with a code of 8 or more, else 3 plus the data words (`src/rx_buffer/rx_buffer.vhd:584-625`).
- The receiver stores an FD frame with the remote bit clear (`src/can_core/rx_shift_reg.vhd:336-337`).
- A read of the empty RX FIFO returns 0 and does not move it. Frames are committed whole.
- A socket buffer arrives with its frame zeroed.

## Properties that hold only under a condition

- The calculation can refuse a rate that is within reach once there are more than 10 prescalers, or below brpMax bit/s
  (`CompletenessFails`, `CompletenessFailsSlow`). `CalcExact` says exactly when it succeeds; `CalcCandidates` does so for all limits.
- A calculated timing can come without a sample point. `InfeasibleWitness` shows it for a 125 MHz clock, 1 Mbit/s
  and the data limits. `SamplePointLost` says exactly when, from the inputs alone.
- A calculated timing can miss the lower limit of tseg1. `EarlyWitness` shows it for a 4 MHz clock, 1 Mbit/s and a
  sample point of 50.0%. `CalcValid` gives the exact condition under which a result meets the request at all.
- A calculated timing is a fixed point of fix-up if it meets the request, up to 500 MHz. `CalcThenFixup` gives the
  exact condition for all results and all clocks.
- Fix-up cuts the prescaler to 32 bits: `FixupCutWitness` is a time quantum of a second that it accepts. `FixupNoCut`
  excludes that for clocks up to 1 GHz, and `FixupExact` states the answer for all.
- Fix-up accepts timings the register cannot hold (`FixupTooLong`). `RegisterExact` says which ones fit.
- The buffer index survives the wrap of a 32-bit counter exactly if `ntxbufs` divides 2^32 (`IndexSurvivesWrap`).
- An FD remote frame loses its remote flag and carries old buffer content (`FdRemoteIsOld`); `IdExactly` says which
  identifiers come back unchanged.
- A frame of more than 64 bytes takes the branch reported as a bug; `NoBugBranch` says that nothing else does.
- The copy of received data stays in the payload array exactly if `CopyInBounds` says so.

## Model

| member | source | states |
|---|---|---|
| `Priority.RotateMovesNibble` | driver/ctucanfd_base.c:1027-1036 | a rotation moves every buffer's priority to the next buffer and the last one's to the first |
| `Priority.RotatedClosedForm` | driver/ctucanfd_base.c:417-420 | after any number r of rotations of 0x01234567, nibble (r+k) mod n is 7-k, whatever the upper nibbles hold |
| `Arbiter.DecodePicksHighest` | src/tx_arbitrator/priority_decoder.vhd:165-339 | the comparator tree selects a ready buffer of greatest priority, the lowest index among equals, and none exactly when none is ready |
| `TxSafety.XmitKeeps` | driver/ctucanfd_base.c:631-680 | every access of the transmit call keeps the invariant of ring, buffers, echo slots, interrupt flag and log |
| `TxSafety.IrqKeeps` | driver/ctucanfd_base.c:1042-1152 | every access of the handler keeps it, also between tail, rotation and SET_EMPTY |
| `TxSafety.HwKeeps` | src/txt_buffer/txt_buffer_fsm.vhd:253-411 | selecting, locking, finishing, retrying and bus-off keep it |
| `TxTheorems.RunHolds` | driver/ctucanfd_base.c:631-680 | the invariant holds after every schedule of steps, of any length |
| `TxTheorems.FifoOrder` | driver/ctucanfd_base.c:72-78 | over all runs the bus sees the successful frames in submission order, each once, and the handler reports frame k as k-th |
| `TxTheorems.WindowOrder` | driver/ctucanfd_base.c:1058-1125 | in flight: everything older than a buffer that is not ready has finished, at most one buffer transmits, priorities fall strictly with age, and buffer q mod n holds frame q |
| `TxTheorems.InterruptExact` | driver/ctucanfd_base.c:1126-1139 | outside the handler TXBHCI is pending if and only if the oldest frame in flight has finished |
| `TxTheorems.NoBugBranch` | driver/ctucanfd_base.c:646-661 | the only branch reported as a bug that a run takes is the refusal of a frame of more than 64 bytes: for all other frames none is reached, no echo slot is overwritten and none found empty |
| `TxTheorems.FlowControl` | driver/ctucanfd_base.c:1145-1151 | while the queue is awake or a frame is being inserted, the next buffer is empty and the window not full; while it is stopped, all buffers are in use or a wake check is still to come |
| `TxTheorems.EchoConservation` | driver/ctucanfd_base.c:663-671 | an echo slot holds exactly the frame of its in-flight number, plus at most the one being inserted; packets plus drops is the number of frames retired |
| `TxTheorems.WrapInvisible` | driver/ctucanfd_base.c:1062-1063 | the ring with 32-bit counters takes the same schedules and does the same as one with unbounded counters, over runs of any length |
| `TxTheorems.IndexSurvivesWrap` | driver/ctucanfd_base.c:652 | the buffer index steps to its successor over every wrap if and only if the number of buffers divides 2^32 |
| `TxDriver.Device.constructor` | driver/ctucanfd_base.c:417-420 | chip start leaves an initial state of the step system |
| `TxProgress.FinishedStays` | driver/ctucanfd_base.c:1058-1125 | no step of anyone takes back the finish of a frame before the handler retires it |
| `TxProgress.NothingLeft` | driver/ctucanfd_base.c:1062-1064 | when the handler finds its oldest buffer unfinished, or none in flight, every frame known to have finished is retired |
| `TxProgress.OutcomeReported` | driver/ctucanfd_base.c:1069-1103 | a buffer that finishes is that of the oldest frame that has not, and the outcome the hardware gives it is the one the handler reports for that very frame number, whatever happens in between |
| `TxDriver.Device.StartXmit` | driver/ctucanfd_base.c:631-680 | the transmit call, with the rest of the system moving between its accesses, extends the run so far and submits the frame as the next one exactly if its length is at most 64, else refuses it; or it is left spinning on the lock with nothing submitted |
| `TxDriver.Device.TxInterrupt` | driver/ctucanfd_base.c:1042-1152 | the handler's nested loops extend the run so far; when done, every frame that had finished when it began, and there is at least one, is retired, the bug branch was not taken, and the queue is awake unless no buffer is free |
| `TxDriver.Device.ResumeXmit` | driver/ctucanfd_base.c:669-679 | a transmit call left spinning goes on and submits its frame, or is left spinning again |
| `TxDriver.Device.ResumeInterrupt` | driver/ctucanfd_base.c:1058-1151 | a handler left spinning goes on; when done, every frame that was due is retired |
| `TxDriver.Device.RotateTxbPrio` | driver/ctucanfd_base.c:1027-1036 | the buffer about to be freed gets the lowest priority of all, every other buffer moves up by one, and field and register agree |
| `Division.QuotIsDiv` | driver/ctucanfd_linux_defs.c:162-170 | the quotient by repeated subtraction that the model computes with is the source's unsigned division |
| `SamplePoint.UpdateSamplePoint` | driver/ctucanfd_linux_defs.c:84-127 | the probe loop yields the better of the two probes, or leaves its outputs alone |
| `SamplePoint.SplitExact` | driver/ctucanfd_linux_defs.c:95-127 | up to 1000 quanta the two probes find the greatest sample point not above nominal over all allowed splits, and nothing exactly when there is no such split |
| `BitSearch.SearchFinds` | driver/ctucanfd_linux_defs.c:157-192 | the search ends with a candidate whose rate and sample point errors are lexicographically least over the whole range, also when it breaks early; of equals the last visited, or the first if perfect; untouched if there is no candidate |
| `BitTiming.InitialErrorTooFar` | driver/ctucanfd_linux_defs.c:194-204 | the initial error fails the 5.0% test for every bit rate, although the quotient is cut to 32 bits |
| `BitTiming.CanBittiming.Calc` | driver/ctucanfd_linux_defs.c:129-240 | the call returns -EDOM and leaves the struct alone, or returns 0 with the values of the specification function |
| `BitTiming.CanBittiming.FindBest` | driver/ctucanfd_linux_defs.c:157-192 | the loop with its continues and its break computes the specification's search |
| `BitTiming.CanBittiming.Fixup` | driver/ctucanfd_linux_defs.c:248-280 | return code and new struct are those that `BitAnswers.FixupExact` characterises, including partial updates on errors |
| `BitTiming.CalcNoWrap` | driver/ctucanfd_linux_defs.c:235-237 | the last product of the calculation does not wrap |
| `BitTheorems.PrescalerExact` | driver/ctucanfd_linux_defs.c:161-171 | for every number of quanta whose ideal prescaler, rounded down or up, can be in range, one of the two prescalers tried has the least rate error of all in range |
| `BitTheorems.PrescalerStep` | driver/ctucanfd_linux_defs.c:161-165 | the prescaler tried is the ideal one, rounded down or up, and then down to a multiple of the step |
| `BitTheorems.RateErrorMinimal` | driver/ctucanfd_linux_defs.c:157-192 | the final rate error is minimal over all prescalers and numbers of quanta whose ideal prescaler is not beyond the range |
| `BitTheorems.CalcCandidates` | driver/ctucanfd_linux_defs.c:194-207 | for all limits: the call succeeds if and only if some candidate of the loop is within 5.0% |
| `BitTheorems.CalcExact` | driver/ctucanfd_linux_defs.c:157-207 | with prescaler step 1: the call succeeds if and only if some prescaler and number of quanta in range give the rate within 5.0%, counting only numbers of quanta whose ideal prescaler is not beyond the range |
| `BitTheorems.CalcComplete` | driver/ctucanfd_base.c:102-124 | for prescalers 1 to at most 10, as shipped, and bit rates of at least brpMax, the ideal prescaler need not be looked at: the call succeeds if and only if anything in range is within 5.0% |
| `BitResults.CompletenessFails` | driver/ctucanfd_linux_defs.c:161-167 | beyond 10 prescalers it is not so: 84 kHz, 1 kbit/s, prescalers 1 to 20 and 4 quanta are refused although prescaler 20 is within 5.0% |
| `BitResults.CompletenessFailsSlow` | driver/ctucanfd_linux_defs.c:161-167 | nor below brpMax bit/s: 12 Hz, 1 bit/s, prescalers 1 to 2 and 4 quanta are refused although prescaler 2 hits the rate |
| `BitResults.NoCandidateRefused` | driver/ctucanfd_linux_defs.c:165-207 | with no prescaler in range for any number of quanta, every bit rate is refused |
| `BitResults.FeasibleExact` | driver/ctucanfd_linux_defs.c:113-114 | some allowed split meets the nominal point from below if and only if the one with the largest tseg2 does |
| `BitResults.LowerLimitExact` | driver/ctucanfd_linux_defs.c:101-106 | the best split respects the lower limit of tseg1, which the search does not look at, if and only if that smallest tseg1 is out of reach or does not sample later than nominal |
| `BitResults.WinnerIsChosen` | driver/ctucanfd_linux_defs.c:157-192 | the number of quanta chosen is that of the one best candidate, which is decided by the request alone |
| `BitResults.CalcValid` | driver/ctucanfd_linux_defs.c:209-239 | a successful call gives a timing within all limits that meets the request if and only if the chosen number of quanta is sound: it has a feasible split, and the best one respects the lower limit of tseg1. With a feasible split only that limit can be missed; without one the sample point is 0 and the segments are left behind by the search: none, or those of another number of quanta |
| `BitResults.CalcValidLate` | driver/ctucanfd_linux_defs.c:209-239 | with a nominal sample point late enough for the smallest tseg1 (75.0% with the shipped limits), sound means feasible |
| `BitResults.EarlyWitness` | driver/ctucanfd_linux_defs.c:258-261 | 4 MHz, 1 Mbit/s, 50.0% and the nominal limits: success with tseg1 1 below its limit 2, the whole struct stated, and fix-up refuses it |
| `BitResults.CalcAlwaysValid` | driver/ctucanfd_linux_defs.c:95-106 | if, for every number of quanta, the ideal tseg2 is within its limit and the lower limit of tseg1 respected, every successful call gives a timing within all limits that meets the request |
| `BitResults.SamplePointLost` | driver/ctucanfd_linux_defs.c:175-189 | the call ends without a sample point if and only if every candidate of least rate error is infeasible |
| `BitResults.InfeasibleWitness` | driver/ctucanfd_base.c:114-124 | 125 MHz, 1 Mbit/s and the data limits: success with sample point 0, all segments 0 and 125 Mbit/s, for the recommended sample point and for every requested one from 25.0% to 75.1%, the whole struct stated |
| `BitResults.FixupFixedPoint` | driver/ctucanfd_linux_defs.c:263-280 | a valid timing whose time quantum was rounded down is a fixed point of fix-up if and only if it was rounded by little enough |
| `BitResults.CalcThenFixup` | driver/ctucanfd_linux_defs.c:209-280 | fix-up of a calculated timing succeeds and changes nothing if and only if the chosen number of quanta is sound and the time quantum precise enough; the latter always for clocks up to 500 MHz whose quanta fit into 32 bits; a missed lower limit is refused with -ERANGE |
| `BitAnswers.Recommended` | driver/ctucanfd_linux_defs.c:144-154 | a request without a sample point is answered exactly as one that asks for 75.0% above 800 kbit/s, 80.0% above 500 kbit/s, 87.5% otherwise |
| `BitAnswers.Requested` | driver/ctucanfd_linux_defs.c:145-146 | a requested sample point is met from below as closely as any split of the chosen number of quanta allows, if one does |
| `BitAnswers.CalcDetails` | driver/ctucanfd_linux_defs.c:214-237 | of every successful call: the parts of tseg1 differ by at most one, sjw is the greatest width not above the request, its limit and phase segment 2, the bit rate is that of the segments, the time quantum that of the prescaler rounded down |
| `BitAnswers.FixupExact` | driver/ctucanfd_linux_defs.c:248-280 | for every timing: -ERANGE if and only if a segment or sjw is out of its limits, else -EINVAL if and only if the prescaler nearest to the time quantum, cut to 32 bits, is out of range, else 0 with that prescaler and the rate and sample point of the segments; nothing else changes |
| `BitAnswers.FixupNoCut` | driver/ctucanfd_linux_defs.c:270 | the cut to 32 bits is harmless for clocks up to 1 GHz |
| `BitAnswers.FixupCutWitness` | driver/ctucanfd_linux_defs.c:270 | beyond it is not: at 4294967293 Hz a time quantum of 1.000000001 s is taken for prescaler 1 |
| `Btr.LayersAgree` | driver/ctucanfd_hw.c:286-291 | mask style and bit field style pack the same word |
| `Btr.PackLossless` | driver/ctucanfd_kregs.h:351-362 | unpacking recovers the fields if and only if each is within its width |
| `Btr.WordLayout` | driver/ctucanfd_kregs.h:351-362 | the fields lie from bits 0, 7, 13, 19 and 27 up, in both registers |
| `Btr.RedistributeKeeps` | driver/ctucanfd_base.c:247-257 | phase segment 1 keeps as much as its field holds and the struct is left alone if all of it fits; the sum and everything else are kept, and a second call changes nothing |
| `Btr.RegisterExact` | driver/ctucanfd_base.c:247-275 | the register holds the struct's timing if and only if the propagation segment, or what it becomes with the wrap of the 32-bit sum, is within its width; without a wrap, if it and the sum of both segments, as given, are within the widths |
| `Btr.CalcReachesRegister` | driver/ctucanfd_base.c:102-124 | with the shipped limits every calculated timing, leftovers included, reaches the register without loss, and what is there meets the request if and only if the chosen number of quanta is sound |
| `Btr.FixupTooLong` | driver/ctucanfd_linux_defs.c:255-261 | fix-up accepts a timing that the register cannot hold |
| `Btr.Controller.SetBtr` | driver/ctucanfd_base.c:231-278 | -EPERM and no change while enabled; else the struct is redistributed, one register written, the other left alone |
| `Btr.Controller.HwSetNomBittiming` | driver/ctucanfd_hw.c:266-294 | the bit field layer's own redistribution and packing leave the struct and the register as the mask style layer does |
| `Btr.Controller.HwSetDataBittiming` | driver/ctucanfd_hw.c:296-325 | the same for the data bit rate |
| `Codec.LengthRoundTrip` | driver/ctucanfd_linux_defs.c:37-66 | coding and decoding a length gives the least length with a code that is not below it |
| `Codec.CodesInOrder` | driver/ctucanfd_linux_defs.c:37-45 | the sixteen codes stand for the sixteen lengths in increasing order |
| `Codec.LittleEndian` | driver/ctucanfd_base.c:596-598 | the first byte of the payload is the least significant one of its word |
| `Codec.FormatLayout` | driver/ctucanfd_kframe.h:64-76 | the bits of the format word written, one by one, and nothing else |
| `Codec.IdLayout` | driver/ctucanfd_kframe.h:79-81 | base identifier in bits 28 to 18 and extension in 17 to 0 of the identifier word |
| `Codec.FlagsExact` | driver/ctucanfd_base.c:704-710 | bit rate switch and error state are read from an FD frame exactly if their bits are set, from a classical one never |
| `Codec.EncodersAgree` | driver/ctucanfd_hw.c:651-669 | both layers write the same format and identifier words for every frame |
| `Codec.DecodersAgree` | driver/ctucanfd_hw.c:526-558 | both layers find the same identifier, flags, length and payload in the same words, for every format word in bounds |
| `Codec.StampRoundTrip` | driver/ctucanfd_hw.c:675-679 | the two timestamp words written stand for the timestamp given |
| `Codec.IdRoundTrip` | driver/ctucanfd_hw.c:81-112 | the two identifier conversions of the bit field layer are inverse on the valid bits |
| `Codec.CopyInBounds` | driver/ctucanfd_base.c:713-741 | the copy stays in the payload array if and only if the frame is not an FD frame with a long code and more than 16 data words, for every word count of at least 3 |
| `TxtBuffers.Memory.InsertFrame` | driver/ctucanfd_base.c:551-604 | refused exactly for a wrong index, a buffer that is ready, in transmission or with an abort in progress, or an excess length; else memory is that of `InsertWindow` and `InsertPlaces` |
| `TxtBuffers.InsertWindow` | driver/ctucanfd_base.c:589-601 | an insert into a buffer changes no word outside the 0x100 bytes from address 0x100 * (buf + 1) on: no control register and no other buffer |
| `TxtBuffers.InsertPlaces` | driver/ctucanfd_base.c:589-601 | within them the format word is at offset 0, the identifier word at 4, the data words from 16 on, and every other word, the timestamp among them, is left alone |
| `TxtBuffers.Memory.HwInsertFrame` | driver/ctucanfd_hw.c:630-692 | the same refusals for the bit field layer and its four buffers; else memory is the same but for the timestamp |
| `TxtBuffers.StampWindow` | driver/ctucanfd_hw.c:676-680 | which is at offsets 8 and 12, low word first, and stands for the timestamp given |
| `TxtBuffers.ImagesAgree` | driver/ctucanfd_hw.c:671-689 | both layers leave the same memory but for the two timestamp words |
| `RoundTrip.FrameRoundTrip` | driver/ctucanfd_base.c:690-742 | every frame that can be inserted is decoded with its identifier bits, EFF, RTR and BRS, its length rounded up to one with a code, and its payload unchanged |
| `RoundTrip.IdExactly` | driver/ctucanfd_base.c:571-586 | the identifier comes back unchanged if and only if it has no error flag, no bits beyond its mask and is not that of an FD remote frame |
| `RoundTrip.LenExactly` | driver/ctucanfd_base.c:583 | the length comes back unchanged if and only if it has a code |
| `RoundTrip.PaddingIsOld` | driver/ctucanfd_base.c:594-601 | data words that are not written carry what the buffer held before |
| `RoundTrip.FdRemoteIsOld` | driver/ctucanfd_base.c:572-601 | an FD frame with the remote flag comes back as a data frame whose whole payload is old buffer content |
| `RxStream.WordsRead` | driver/ctucanfd_base.c:697-741 | whatever arrives between two reads, the reads after the first word give exactly the rest of the frame, and the last one takes it off RXFRC |
| `RxStream.CommitKeepsPlace` | driver/ctucanfd_base.c:723-741 | a frame committed at any moment leaves the read position where it is, within a frame or between two |
| `RxStream.RxOneMeaning` | driver/ctucanfd_base.c:754-790 | the call delivers the next frame's meaning, or stashes its first word exactly if the allocation fails, or returns -EAGAIN exactly if there is no frame, and keeps the position |
| `RxStream.RxOneEmpty` | driver/ctucanfd_base.c:769-770 | with no frame there and none arriving it returns -EAGAIN and changes nothing |
| `RxStream.StreamCorrect` | driver/ctucanfd_base.c:754-790 | over all sequences of polls, quotas and allocation failures, with frames arriving before any read of a register, the frames delivered are the meanings of a prefix of the frames committed, in order, and the FIFO is at a frame boundary or one stashed word past it |
| `RxStream.PollBounded` | driver/ctucanfd_base.c:966-980 | a poll does at most its quota of work and returns exactly one unit for each frame delivered and one for a failed allocation; it takes nothing back, and ends early only with no frame left at its last look or with a failed allocation |
| `RxStream.NeverAgain` | driver/ctucanfd_base.c:976-980 | inside a poll the call never finds the FIFO empty |
| `RxDriver.RxPath.ReadRxFrame` | driver/ctucanfd_base.c:690-742 | the copy and drain loops consume exactly RWCNT words and leave the decoded frame in the array |
| `RxDriver.RxPath.HwReadRxFrame` | driver/ctucanfd_hw.c:517-571 | the bit field layer consumes the same words, leaves the same frame, and returns the timestamp in them |
| `RxDriver.RxPath.Receive` | driver/ctucanfd_base.c:754-790 | the call does what the specification function says and counts packets and bytes |
| `RxDriver.RxPath.RxPoll` | driver/ctucanfd_base.c:966-980 | the poll loop does what the specification function says, for every schedule, and returns exactly the work of `PollBounded` |
| `Timestamp.ReadTimestamp` | driver/ctucanfd_hw.c:694-708 | a counter that advances by at most 2^32 is read as it was at one of the call's own read instants |
| `Timestamp.AtomicExactly` | driver/ctucanfd_hw.c:694-708 | the value is that of the instant of the low read if and only if the high word is the same there |
| `Timestamp.BoundIsSharp` | driver/ctucanfd_hw.c:694-708 | with an advance of 2^32 + 1 the value can be one of none of the instants |

## Left out

- Register accessors, endianness probing, probe and remove, PCI and platform glue, power management, LEDs, logging: plumbing over kernel interfaces.
- Mode and filter setters, secondary sample point, error reporting and fault state: single-branch readings.
- The dispatch loop of the interrupt service routine, and what happens when it meets a bus error.
- The end of the poll routine: the report of an RX FIFO overflow and the return to interrupts.
- Liveness of polling after a failed allocation: it depends on kernel scheduling.
- Restart, suspend and resume with frames in flight: the echo slots are flushed by kernel code.
- TXT buffer parity and abort commands, which the driver does not use; a buffer may still end as aborted.
- Time-triggered transmission: the mask style layer does not write the timestamp.
- Frames with their payload in the TX step system: a buffer holds a frame as a value there; its words are in `TxtBuffers`.
- TxDriver.Device.TxInterrupt: takes the number of steps of the others as a parameter; a handler that is fed without end does not end.
- Division by a zero bit rate or clock, products beyond 2^32 and a sample point of less than one quantum: excluded by
  `BitSearch.NoOverflow` and `BitTiming.Fixable`, as the arithmetic needs it.
- SamplePoint.SplitExact: for at most 1000 quanta; beyond, one quantum no longer moves a sample point counted per mille.
- BitResults.CalcValid: for at most 1000 quanta and limits with tseg2_min and sjw_max of at least 1, as shipped.
- RWCNT below 3 with a frame present: the word count would wrap; the core does not store such frames.
