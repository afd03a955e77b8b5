# The RTP media path of baresip, in Dafny

This project models how baresip orders, times, counts, recovers, paces and gates
RTP packets, and proves what every run of that code keeps. `dafny verify
dfyconfig.toml` checks all of it.

| file | part of the program |
|---|---|
| `Words.dfy`, `Division.dfy` | C integers of fixed width, 16-bit serial order, floor division |
| `JbufModel.dfy`, `JbufRun.dfy` | the jitter buffer as a transition system, and its runs |
| `JitterBuffer.dfy` | the jitter buffer object, statement by statement, proved equal to the transitions |
| `JbufOrder.dfy` | sequence numbers: the list is a sorted set, deliveries increase |
| `JbufConservation.dfy` | packet structures, payload references and counters balance |
| `JbufTiming.dfy`, `JbufOffset.dfy` | playout times stay between the configured delays; the minimum offset is one |
| `JbufDue.dfy` | when the 32-bit comparison of playout time and clock is right |
| `JbufJitter.dfy`, `JbufSkew.dfy` | the jitter estimator and the skew correction |
| `Nack.dfy` | Generic NACK: what the receiver asks for is what the sender reads |
| `Receiver.dfy`, `ReceiverRun.dfy`, `LossAccounting.dfy` | the receiver, its runs together with the buffer, and its loss counter |
| `Pacer.dfy`, `PacerSlack.dfy`, `Retransmit.dfy`, `VideoTx.dfy` | the video send thread, its pacer and its retransmission queue |
| `Timestamp.dfy` | extension of 32-bit timestamps in the video and audio receivers |
| `TransmitGate.dfy` | when a stream may send |
| `Amr.dfy`, `ConvBuffer.dfy` | AMR bandwidth-efficient packing; the AudioUnit double buffer |

Objects that the program updates in place are classes here. Each method is proved to
have exactly the effect of a function on values (`PutStep`, `PaceStep`, `VideoUpdate`,
...), and the lemmas about runs are about those functions. A section that the program
executes under a mutex is one step. Clock readings, sleeps and the playout clock are
parameters. All machine words wrap as in C; the value 0 keeps its meaning "not set" for
`seq_get`, `p.offset`, `p.last_transit` and `p.active_delay`.

An RTP header carries a field `x` of an arbitrary type for the header fields that the
jitter buffer copies without reading. The lemmas about order let it be the extended
sequence number, those about time the extended timestamp; since the type is arbitrary,
the buffer cannot look at it.

The lemmas about runs name what they ask of the outside world:

- a run is *fair* (`JbufOrder.FairRun`) if, while `seq_get` reads 0, packets come from the
  half cycle above the last delivery, or from one half cycle after a flush; a fair run of the
  receiver (`ReceiverRun.RxFairRun`) also asks that, when the buffer is emptied without a
  new set-up, that half cycle contains the number that `pseq` stands for;
- it is *timely* (`JbufTiming.TimelyRun`) if arrivals do not go back, all offsets lie in a
  window shorter than 2^31, and timestamps in the buffer are less than 2^32 apart; its
  configuration has `mind <= maxd` and `(srate / 1000) * maxd` below 2^31
  (`JbufTiming.SaneLatency`);
- true timestamps are *near* (`Timestamp.Near`) or *smooth* (`Timestamp.Smooth`) if each is
  less than half a cycle away from the last accepted, or the last, one;
- a run of the send thread is *valid* (`Pacer.Valid`) if the clock does not go back and has
  reached `max_burst`, sleeps are not shorter than asked for, packets not longer than
  `PKT_SIZE`, and the bits sent since the last reset, times 10^6, fit 64 bits.

## What turned out not to hold

- The late filter of the jitter buffer is off while `seq_get` reads 0, which it also does
  after number 65536 k has been delivered. An older packet is then accepted and delivered
  out of order (`JbufOrder.SentinelGoesBack`). `JbufOrder.PutKeepsOrderIff` says
  exactly when a put keeps the order.
- A packet exactly 32768 numbers behind the tail triggers no NACK, since the 16-bit
  difference is negative (`Nack.GapNackExact`). In a fair run this cannot happen
  (`Nack.PutReportsGap`).
- The NACK handler walks the queue by position. After a gap in the queue, when the first
  number has left it, or when number 0 sits at a place that was not asked for, it does not
  resend exactly what was requested (`Retransmit.GapBreaksService`); `Retransmit.ServedIff`
  says exactly when it does, in any queue.
- `vtx_thread` reads the clock twice to initialize `start_jfs` and `target_jfs`; the time
  between the readings can be extra credit for the first packets. `PacerSlack.SlackFreeIff`
  says exactly for which first clock readings it is. For bitrates below 3 bit/s the delay
  does not fit the argument of the sleep, and the bound fails for every burst
  (`Pacer.RateBoundIff`).
- The audio receiver stores a timestamp that it rejects; each backward wrap shifts its
  extended timestamp by one cycle for good (`Timestamp.AudioRunDrifts`).
- `stream_set_secure(strm, false)` does not stop a stream that is sending
  (`TransmitGate.InsecureKeepsGateIff`). No caller in the repository passes false.
- The two loss counters differ after number 0, on jumps of 3000 and more, and on first
  set-up by number 0 (`LossAccounting.CountsAgreeIff`, `LossAccounting.SetupCounts`).
- `pseq` of the receiver does not always follow `seq_get` of its buffer: packets up to 100
  below the one that set the receiver up are delivered but not followed
  (`ReceiverRun.ReorderedIsOutOfStep`, `ReceiverRun.RunInStepIff`).
- The jitter accumulator stays at most 16 D - 8 while deviations are at most D, but for
  D = 2^28 only if deviations of 2^28 and of 7 do not both count, since its rounding term can
  wrap otherwise (`JbufJitter.LargestKeptIff`). A deviation of 7 counts at clock rates up to
  7000 only.
- `jbuf_get` compares the playout time with the clock as plain 32-bit words. That is right if
  and only if both lie in the same cycle of 2^32 (`JbufDue.RunGetExactIff`); a packet that is
  to be played just before the wrap and is not fetched in time blocks the buffer until the
  next wrap (`JbufDue.WrapBlocksHead`).

## Model

| member | source | states |
|---|---|---|
| Words.SeqLessUnwrapped | src/jbuf.c:196-201 | `rtp_seq_less` on residues is integer order for numbers less than half a cycle apart, across the wrap, and equality is equality |
| JitterBuffer.Jbuf.constructor | src/jbuf.c:187-243 | a new buffer has all `maxsz` structures, numbered once each, in the pool and everything else zero |
| JitterBuffer.Jbuf.PacketAlloc | src/jbuf.c:117-148 | takes the head of the pool, or steals the oldest buffered packet and gives its payload back |
| JitterBuffer.Jbuf.PacketDeref | src/jbuf.c:154-161 | the packet leaves the list for the tail of the pool, its payload reference is given back, both counters drop |
| JitterBuffer.Jbuf.AdjustDueToJitter | src/jbuf.c:316-357 | the estimator step with its 32-bit wrap-around, its threshold and the reaction to three late packets |
| JitterBuffer.Jbuf.AdjustDueToSkew | src/jbuf.c:360-407 | the skew step: estimate, maximum in the window, and the three possible adjustments |
| JitterBuffer.Jbuf.CalcPlayoutTime | src/jbuf.c:428-471 | the playout time, copied within a frame or computed from the minimum offset and the clamped latency |
| JitterBuffer.Jbuf.SendGnack | src/jbuf.c:474-491 | the NACK sent for a first missing number and a count of further ones, which is cut at 16 |
| JitterBuffer.Jbuf.FindPlace | src/jbuf.c:574-604 | the backward search returns the place behind the last smaller number, or the duplicate |
| JitterBuffer.Jbuf.Insert | src/jbuf.c:553-633 | a packet is appended with a gap report, inserted, or dropped as a duplicate |
| JitterBuffer.Jbuf.Put | src/jbuf.c:503-660 | the whole state, error code and NACK after a put, over all its error paths |
| JitterBuffer.Jbuf.Get | src/jbuf.c:673-740 | the whole state, error code and packet after a get: the head if it is due, EAGAIN if the next one is due too |
| JitterBuffer.Jbuf.Drain | src/jbuf.c:752-784 | the head is delivered whether it is due or not |
| JitterBuffer.Jbuf.Flush | src/jbuf.c:792-829 | all structures are back in the pool, all references given back, playout values and statistics reset but for the flush count |
| JitterBuffer.Drive | src/jbuf.c:503-829 | any sequence of calls on a new buffer object ends in the state of the run that the lemmas are about |
| JitterBuffer.Jbuf.NextPlayTime | src/jbuf.c:865-903 | the delay to the next playout, at least 1 ms when not due, or why there is none |
| JbufModel.Admit | src/jbuf.c:609-633 | whatever the timing, the packet is stored in its place with one new reference, or (skew) list and references are as before and only its structure has moved to the pool |
| JbufOrder.NearestExtends | src/jbuf.c:535-547 | every 16-bit number has exactly one extension in the window around the last delivery, so the runs considered leave no input out but those while `seq_get` reads 0 |
| JbufOrder.LocateSorted | src/jbuf.c:574-604 | on a list sorted by extended number, the search finds the place where everything before is smaller and everything behind is larger, or the equal number |
| JbufOrder.SerialOrderIsTotal | src/jbuf.c:564-585 | on buffered numbers the 16-bit comparison is a strict total order without ties |
| JbufOrder.LateFilterExact | src/jbuf.c:535-547 | near the last delivery the filter rejects a number if and only if it is not above the last delivery and `seq_get` does not read 0 |
| JbufOrder.PutRefinesSortedSet | src/jbuf.c:535-633 | a put is insertion into a bounded sorted set that evicts its minimum when full; each error code says what happened to the set |
| JbufOrder.DeliverOrdered | src/jbuf.c:693-729 | a delivery takes the minimum of the set, which is above everything delivered before |
| JbufOrder.RunOrdered | src/jbuf.c:503-829 | in every fair run buffered numbers lie within half a cycle above the last delivery and increase strictly |
| JbufOrder.DeliveriesIncrease | src/jbuf.c:673-784 | in every fair run any two deliveries between flushes are strictly increasing |
| JbufOrder.PutKeepsOrderIff | src/jbuf.c:535-633 | a put near the last delivery keeps the order if and only if its number is above the last delivery, or `seq_get` does not read 0, or the skew adjustment is negative |
| JbufOrder.FilterOffDeliversAnything | src/jbuf.c:535-547 | with `seq_get` at 0, any number put into an empty buffer is the next one delivered |
| JbufOrder.SentinelGoesBack | src/jbuf.c:537-547 | a run that delivers 65536 and then 65530 |
| JbufConservation.StepBalanced | src/jbuf.c:117-161 | each of put, get, drain and flush keeps structures, references and counters in balance |
| JbufConservation.RunBalanced | src/jbuf.c:503-829 | in every run each structure is in exactly one list, pool structures hold no payload, each payload has one reference per buffered packet and per hand-out, and n_put = n + delivered + overflows + duplicates + skew drops since the last flush |
| JbufTiming.OffsetMinExact | src/jbuf.c:410-419 | `offset_min` is the minimum of two offsets up to 2^31 apart if and only if the second is not exactly 2^31 below the first |
| JbufTiming.OffsetStepInWindow | src/jbuf.c:442-446 | the running minimum offset is the true minimum inside a window shorter than 2^31 |
| JbufTiming.PlayoutStepOnTime | src/jbuf.c:428-471 | every playout time, computed or copied, is within the latency interval; a computed one is sender time plus current minimum offset plus a latency between the configured ones |
| JbufTiming.OnTimeMeans | src/jbuf.c:457-470 | the 32-bit playout time stands for exactly one time of the interval, not later than arrival plus maximum delay |
| JbufTiming.RunTimed | src/jbuf.c:410-471 | in every timely run all buffered packets play no later than arrival plus (srate/1000)*maxd and no earlier than (srate/1000)*mind after the earliest offset |
| JbufOffset.RunMinimal | src/jbuf.c:410-446 | in every run whose offsets lie in a window shorter than 2^31, `p.offset` is 0 or the residue of the smallest offset of the packets timed since it last read 0 |
| JbufDue.ComparisonExactIff | src/jbuf.c:698 | comparing the 32-bit words of two times less than a cycle apart agrees with comparing the times if and only if they lie in the same cycle |
| JbufDue.RunGetExactIff | src/jbuf.c:693-705 | in every timely run a get at time t delivers the head packet just when its time has come if and only if both lie in the same cycle |
| JbufDue.RunDueExactIff | src/rtprecv.c:369-384 | in every timely run draining at time t handles exactly the packets whose time has come if and only if these and the one behind them lie in the cycle of t |
| JbufDue.WrapBlocksHead | src/jbuf.c:698 | a buffer whose head plays at 2^32 - 1 and is not delivered at any later time before 2^33 - 1 |
| JbufJitter.JitterCoreCalm | src/jbuf.c:326-357 | one estimator step keeps the accumulator below any value that counted deviations up to D cannot raise it past, and the adaptive offset below twice its sixteenth |
| JbufJitter.PeakReachedAndKept | src/jbuf.c:316-357 | for every adaptive configuration in which a deviation of D counts, a new buffer reaches accumulator 16 D - 8 by packets whose deviations are D, and keeps it for as long as they come |
| JbufJitter.RunCalm | src/jbuf.c:316-357 | in every run whose deviations are at most D >= 1 the jitter is at most D - 1, the adaptive offset at most 2 (D - 1) and the accumulator at most 16 D - 8, for D = 2^28 provided that deviations of 2^28 and 7 do not both count; with D = 0 all stay 0 |
| JbufJitter.RoundingWraps | src/jbuf.c:334-336 | for every adaptive configuration in which deviations of 2^28 and 7 count, a run with deviations of at most 2^28 after which the accumulator is 2^32 - 1, the rounding term having wrapped |
| JbufJitter.LargestKeptIff | src/jbuf.c:326-340 | all runs of a configuration with deviations of at most D = 2^28 keep the accumulator at most 16 D - 8 if and only if the buffer is not adaptive, has no clock rate, or deviations of 2^28 and of 7 do not both count |
| JbufSkew.SpannedGrows | src/jbuf.c:371-374 | the new delay estimate lies between the smallest and the largest delay seen |
| JbufSkew.PutSkew | src/jbuf.c:619-633 | a put fails with ETIME exactly when the skew adjustment is negative |
| JbufSkew.RunTracked | src/jbuf.c:360-407 | in every run with a monotone clock, non-zero adjustments between flushes are more than 10 s apart and the estimate stays within the delays seen |
| Nack.FillPids | src/video.c:922-932 | the loop fills the table with the asked numbers and 0 elsewhere |
| Nack.MakeGnackDenotes | src/jbuf.c:474-491 | the NACK, read by the bitmask rule, denotes the first missing number and the ones after it, 17 at most |
| Nack.GapNackExact | src/jbuf.c:561-571 | for every gap up to half a cycle: a NACK is sent if and only if something is missing and the gap is not 32768, and it denotes exactly the missing numbers or the first 17 |
| Nack.PutReportsGap | src/jbuf.c:503-571 | in a fair run `jbuf_put` reports nothing if NACKs are off, the packet is refused or late, or the source changed; otherwise exactly the numbers missing behind the tail, or the first 17 |
| LossAccounting.ForwardStep | src/rtprecv.c:242-260 | for a step of up to half a cycle `lostcalc` follows and returns the numbers skipped, or 0 from 3000 on |
| LossAccounting.CountsAgreeIff | src/jbuf.c:706-721 | exactly when `lostcalc` and n_lost count the same |
| LossAccounting.SetupCounts | src/rtprecv.c:456-462 | what is counted for the packet k numbers after the one that set up the receiver or resynchronized it |
| LossAccounting.LossBalance | src/rtprecv.c:242-260 | along increasing deliveries the receiver stays in step; losses plus packets are at most the distance, and equal it if and only if no step reached 3000 |
| LossAccounting.RunLossBalance | src/rtprecv.c:358-391 | the same for the deliveries of every fair run of the jitter buffer, with `pseq` equal to `seq_get` |
| Receiver.DrainIsDuePrefix | src/rtprecv.c:358-386 | draining handles exactly the longest prefix of due packets in order, `drop` set for all but the last, a new source announced with the first that is passed on, each loss counted, each reference given back |
| Receiver.DrainInStep | src/rtprecv.c:369-384 | draining a sorted list keeps `pseq` equal to `seq_get`, and losses plus packets within the distance covered |
| Receiver.RtpReceiver.LostCount | src/rtprecv.c:242-260 | `pseq` and the result after one packet, over all five cases |
| Receiver.RtpReceiver.Decode | src/rtprecv.c:417-497 | disabled or RTCP: nothing; else source and number set-up, flush on a change of source, and the put, or without a buffer the direct call of the handler unless the header extension is corrupt |
| Receiver.RtpReceiver.HandleNext | src/rtprecv.c:372-383 | one pass handles and releases the head packet if it is due, passing it on unless its header extension is corrupt, and ends the loop otherwise |
| Receiver.RtpReceiver.DecodeFrames | src/rtprecv.c:358-391 | the loop ends after the due packets, receiver and buffer are as after draining, and the timer is started with at least 1 ms |
| Receiver.RtpReceiver.SetSsrc | src/rtprecv.c:568-587 | the source changes, numbers and buffer do not |
| ReceiverRun.Drive | src/rtprecv.c:358-587 | any sequence of decode, decode-frames, flush and set-source calls on a new receiver with a new buffer ends in the state of the run that the lemmas are about |
| ReceiverRun.PseqReached | src/rtprecv.c:242-260 | the number that `pseq` stands for after increasing deliveries: the last one, or the one known before while they are up to 100 below it |
| ReceiverRun.StepLinked | src/rtprecv.c:333-391 | every fair call keeps the buffer ordered and `pseq` and the losses reported equal to what `lostcalc` makes of the deliveries of the epoch |
| ReceiverRun.RunInStepIff | src/rtprecv.c:358-497 | in every fair run of a new receiver `pseq` equals `seq_get` if and only if no number was known before the epoch, the deliveries have reached it, or they began more than 100 below it |
| ReceiverRun.RunReportsLoss | src/rtprecv.c:358-497 | in every fair run, what `lostcalc` counted in the present epoch plus the deliveries above the number known before it (or all of them, if it is unknown or they began more than 100 below it) is at most the distance that they cover, and equal to it if and only if no step reached 3000 |
| ReceiverRun.ReorderedIsOutOfStep | src/rtprecv.c:242-260 | three calls on a new receiver after which `pseq` is 9 and `seq_get` is 8 |
| Division.FloorSum | src/video.c:534 | the floor inequality that justifies the + 1 of max_delay |
| Pacer.ChargeWithinDelay | src/video.c:534-571 | after a packet of at most PKT_SIZE octets the next target is at most max_delay away |
| Pacer.NextStep | src/video.c:552-571 | one iteration: resets only raise the virtual send time, the packet does not leave before it, credit is at most a burst |
| Pacer.RateBound | src/video.c:524-571 | for any sends i..j the bits are at most what the bitrate allows from the clock reading of i to the departure of j plus 1 us, plus burst_bits, plus packet j, across all resets; only a window that starts with the first packet gains a surplus, and only if the first clock reading is in the gap |
| Pacer.CapUnreachable | src/video.c:554-562 | target_jfs - jfs never exceeds max_delay, so the branch that drops debt is dead |
| Pacer.PlusOneNeeded | src/video.c:534 | a run in which the delay is max_delay exactly |
| Pacer.TinyBitrateBreaksBound | src/video.c:561 | for bitrates 1 and 2 and every burst a run that breaks the bound |
| Pacer.RateBoundIff | src/video.c:524-571 | all windows of all valid runs respect the bound if and only if the bitrate is at least 3 |
| PacerSlack.NoSlackNeeded | src/video.c:519-571 | a run whose first clock reading is outside the gap, or whose surplus is 1 us and covered by the burst, meets the bound without slack |
| PacerSlack.EagerBreaks | src/video.c:519-571 | a run of one full packet and packets of one octet that breaks the bound without slack as soon as enough of the full packet was not paid for |
| PacerSlack.SlackFreeIff | src/video.c:519-571 | all runs with a given first clock reading meet the bound without slack if and only if it is not in (start + max_burst, target + max_burst], or is only 1 us in and no number of octets leaves more over in whole microseconds than burst_bits |
| VideoTx.Transmitter.Pace | src/video.c:552-571 | the sleep asked for and the new start, target and sent, as the leaky bucket says |
| VideoTx.Transmitter.CleanUp | src/video.c:587-598 | the cleanup loop with its early break |
| VideoTx.Transmitter.SendHead | src/video.c:549-598 | one iteration: bucket, both queues and the sleep |
| VideoTx.Thread | src/video.c:515-603 | the send thread of a new transmitter, in any mix with packets queued, NACKs and the end of the video, takes pacer and retransmission queue through exactly the steps of the trace |
| VideoTx.SendsInOrder | src/video.c:541-585 | while the video runs, the packets sent and those that wait are those queued, in order, and the pacer is charged for each one sent |
| VideoTx.TransmitterKeeps | src/video.c:515-603 | whatever happens between the passes, every valid run respects the rate bound in every window and keeps the retransmission queue exact |
| VideoTx.Transmitter.NackHandler | src/video.c:911-958 | the entries resent and the queue left, as the walk by position says |
| Retransmit.CleanupIsFilter | src/video.c:587-598 | on a queue sorted by deadline the early break equals a full filter |
| Retransmit.RemainingIsLive | src/video.c:942-955 | what is resent leaves the queue, nothing else does, and the order stays |
| Retransmit.ResentExactly | src/video.c:934-955 | in any queue exactly the entries at their distance from `nack_pid`, and numbers 0 at places not asked for, are resent |
| Retransmit.ServedIff | src/video.c:934-955 | in any queue the handler resends exactly the requested entries if and only if each of them is at its distance from `nack_pid` (or is a number 0 where the table holds its default) and no number 0 is met there that was not requested |
| Retransmit.GaplessServedIff | src/video.c:934-955 | on a queue gapless from `nack_pid` on this means: no requested entry waits in front of `nack_pid` (or without it) and no number 0 is in reach at a place not asked for |
| Retransmit.GapIsResent | src/video.c:911-958 | both ends together: exactly the queued packets among the missing ones, up to the 17th, are resent |
| Retransmit.GapBreaksService | src/video.c:942-955 | a run whose queue has a gap, and a request of three packets of which only one is resent |
| Retransmit.RunKept | src/video.c:580-599 | in every run the queue is, in order, what was sent since the last clear, was not resent and is not overdue; no entry is resent twice |
| Timestamp.WrapExactIff | src/timestamp.c:24-41 | the result is the difference of cycles if and only if the distance is below half a cycle or the cycle is not left |
| Timestamp.VideoTracks | src/video.c:705-737 | a timestamp near the last accepted one is accepted unless it wraps backwards, which leaves the state as it was |
| Timestamp.VideoRunTracks | src/timestamp.c:44-86 | in every near run num_wraps * 2^32 + last is the last accepted true timestamp, and the duration is true if and only if it is not negative |
| Timestamp.AudioTracksIff | src/aureceiver.c:315-342 | one packet near the last one keeps the audio receiver on track if and only if it does not wrap backwards, also from just before the first cycle |
| Timestamp.AudioRunDrifts | src/aureceiver.c:315-342 | in every smooth run the extended timestamp is the true one plus 2^32 for each backward wrap |
| Timestamp.Tracker.UpdateVideo | src/video.c:705-737 | the new structure, unchanged on a backward wrap |
| Timestamp.Tracker.UpdateAudio | src/aureceiver.c:315-347 | the new structure, and whether the packet is discarded |
| Amr.RoundTrip | modules/amr/amr.c:226-263 | for every frame of at least two octets, unpacking the packed frame gives it back with four bits cleared |
| Amr.PackedBits | modules/amr/amr.c:226-247 | every bit sent: mode request 15, then F, FT and Q, then the speech bits in order, as in section 4.3 of RFC 4867 |
| Amr.PackBe | modules/amr/amr.c:226-247 | the in-place shift gives the packed form of the frame that was in the buffer and touches nothing behind it |
| Amr.UnpackBe | modules/amr/amr.c:249-263 | the output is the unpacked form of the payload; of a single octet, the header completed with the octet behind it |
| ConvBuffer.ConvBuf.InitDataWrite | modules/audiounit/audiounit.c:79-94 | room is made at the end of the queue; what was queued stays queued exactly unless the 32-bit sum wraps |
| ConvBuffer.ConvBuf.WriteFrames | modules/audiounit/audiounit.c:79-94 | a write appends to the queue or is refused, and never touches the block handed out by the last read; exactly a write whose 32-bit sum wraps would run past the block |
| ConvBuffer.ConvBuf.InitDataRead | modules/audiounit/audiounit.c:97-121 | a read yields the first frames of the queue and leaves the rest, or is refused and changes nothing |
| ConvBuffer.FifoConserves | modules/audiounit/audiounit.c:79-121 | in any mix of operations what was read and what is left is what was written, in order |
| ConvBuffer.Session | modules/audiounit/audiounit.c:46-121 | any mix of writes and reads on a new double buffer yields what the FIFO yields, up to the first write that makes the 32-bit sum wrap |
| ConvBuffer.Hold | modules/audiounit/audiounit.c:79-121 | the block handed out by the last read survives any number of writes and refused reads |
| TransmitGate.StepGated | src/stream.c:196-225 | every step keeps the gate of every stream of the list, if it does not declare one insecure |
| TransmitGate.SendsOnlyWhenOpen | src/stream.c:740-772 | in every run without such a step a stream that sends is not terminated, its NAT module (if it waits) has connected and its encryption (if it waits) is secure |
| TransmitGate.ClosedNeverSends | src/stream.c:280-291 | after `stream_close` a stream never sends again, in any run |
| TransmitGate.InsecureKeepsGateIff | src/stream.c:1393-1406 | declaring a stream insecure keeps the gate if and only if no stream reached is enabled and waits for encryption |
| TransmitGate.InsecureStillSends | src/stream.c:1393-1406 | a stream that sends on after it was declared insecure |
| TransmitGate.StreamList.EnableTransmit | src/stream.c:196-225 | when enabling succeeds, and that nothing changes otherwise |
| TransmitGate.StreamList.PassToMuxed | src/stream.c:1326-1339 | the loops over the list reach exactly the multiplexed streams |
| TransmitGate.StreamList.OnMnatConnected | src/stream.c:462-512 | the list after a NAT module has connected |
| TransmitGate.StreamList.DeclareSecure | src/stream.c:1393-1406 | the list after the secure flag was set |
| TransmitGate.StreamList.UpdateStream | src/stream.c:908-955 | the list after an update: disabled first, enabled again only if ready |
| TransmitGate.StreamList.CloseStream | src/stream.c:280-291 | the stream is terminated and disabled, the others are as before |
| TransmitGate.StreamList.Send | src/stream.c:740-772 | exactly when `stream_send` reaches `rtp_send` |

## Left out

- Thread scheduling and mutexes: a locked section is one step; nothing is said about memory order.
- The library below (lists, sockets, timers, memory objects): lists are sequences, reference counts a multiset, clocks parameters.
- `jbuf_set_srate`, `jbuf_set_type` and `jbuf_set_gnack` after the first packet: the configuration is fixed for a run. A buffer with `maxsz` 0 is not modelled.
- Tracing, debug output and the release build without statistics.
- Receiver.RtpReceiver.Decode: whether the payload type is handled and whether a header extension can be decoded are flags; metrics and the RTP-established callback are left out, because they do not touch the numbers.
- Receiver.RtpReceiver.DecodeFrames: the media handler is left out; its result does not influence the loop. The playout clock stands still during the loop.
- JbufTiming.RunTimed: the clock rate and the delays do not change in a run, and sender timestamps in the buffer are less than 2^32 apart.
- Pacer.RateBound: a run that sends more than 2^64 / 10^6 bits without a reset, or whose microsecond clock exceeds 63 bits, is not covered.
- PacerSlack.SlackFreeIff: clock readings from 2^62 us on are not covered.
- VideoTx.Thread: an iteration is one step, also when it sleeps; what other threads do during the sleep counts as done before or after it. The end of the video during a sleep is not modelled.
- ConvBuffer.ConvBuf.WriteFrames: where the source would write past the block, the model stops. Frames are values; the multiplication by the frame size is left out.
- The transmit gate leaves out the callbacks of NAT, encryption and error handlers (whatever they call is a step of its own), the remote RTCP address, and `natpinhole_handler` and `stream_resend`, which do not pass the gate.
- SIP and SDP handling, accounts, configuration, registries of codecs and devices, user interfaces: table look-ups and text handling around small states.
- Audio and video codecs, device drivers, `aubuf` and floating-point rates and levels.
