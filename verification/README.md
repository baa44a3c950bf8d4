# Verified model of the REAC audio core

REAC is Roland's Ethernet audio transport: 40 channels, 12 samples a frame, a wrapping
16-bit frame counter. This project models the socket-free core that turns REAC frames
into AES67 and Dante RTP streams, and the lock-free ring that hands them to a realtime
audio graph, and proves what that chain keeps of the sample timeline.

| files | what they model |
|---|---|
| `Words`, `Sample24`, `Reac` | machine words, 24-bit samples in planar blocks, frame geometry |
| `RingIndex`, `Ring`, `SourceNode` | the ring as its callers see it: a class over a flat buffer, and the realtime consumer |
| `RingProtocol`, `RingRefinement`, `RingFifo`, `RingRuns` | the same ring as two threads, one step for every index load, slot copy, index store and counter update, in any interleaving |
| `MediaClock`, `PtpClock` | counter to timestamp and loss; TAI instants to timestamps |
| `PlcSpec`, `Plc` | packet loss concealment over 40-sample history rings |
| `ReacDecode`, `RtpL24`, `ReacTx`, `Codec` | decoder, RTP packets, encoder, and the three against each other |
| `Packetizer`, `PacketizerRuns` | window aggregation and channel split, and what a run of frames sends |
| `PipelineSpec`, `Pipeline`, `Timeline`, `PipelineRuns` | raw frames to RTP packets: one call, the object, and every run |
| `SinkNode`, `ReacRx`, `Loopback` | graph quanta to frames, frames to ring, and the two ends joined |
| `PcapLoop`, `PcapSource`, `PcapFiles` | one read of a capture file and when it ends, the reader object, and whole files |

Every C object that changes is a class whose methods are proved against a function on
values; the theorems about runs are lemmas about those functions. Everything sent is a
sequence returned by the call that sends it.

Assumptions. The two threads of the ring interleave their steps as if memory were
sequentially consistent. Float samples are reals (scaling by 2^23 is exact; `lrintf`
rounds half to even). The 64-bit statistics count without bound. libreac is not part of
this repository; its constants are those the repository documents (50-byte header,
1440 bytes of audio, end marker C2 EA, 1492 bytes in all, 40 channels of 12 samples of
3 bytes, counter little-endian at bytes 14 and 15). A mode's audio fits its frame, a
packet holds at most 24 samples a channel, and the fade span stays below 2^16 packets,
which keeps the gain's product inside int32.

Where code and documentation disagree, the model follows the code:

- On overrun the ring drops the newest samples (`pipewire/src/reac_ring.c:60-72`); its
  header says the oldest (`pipewire/src/reac_ring.h:17-19` and `50-52`).
- The ring takes its stride after clamping the count, so the documented layout
  `planar[c*n + s]` is honoured exactly when the count was not clamped or there is one
  channel (`Ring.LayoutHonoured`), and what the clamp discards is not counted as overrun.
- A late or duplicate frame takes a timeline slot of its own
  (`src/media_clock.c:42-50`), and so can a frame after an outage of 32768 frames or
  more, which may read as late. "Sample-counting stays TAI-aligned forever"
  (`src/media_clock.h:33-36`) therefore holds exactly when the samples the clock is ahead
  come to whole timestamp wraps; how many those are is computed from the arrivals alone,
  whatever they are (`PtpClock.AlignedIff`, with `PtpClock.AlignedIffNoDrift` for
  arrivals the counter can tell apart). One duplicate or one long outage breaks it
  (`PtpClock.DuplicateBreaksAlignment`, `PtpClock.OutageBreaksAlignment`). Instants are
  whole nanoseconds, rounded down, so that 44.1 kHz is included; where the rounding costs
  a sample the statements say so.
- "Never silence on live audio" (`README.md:51-52`) does not hold of a long gap, nor of
  a quiet packet: `Timeline.FillSilentIff` says of every packet and every place in a gap
  when its fill is silent. With one loud sample that is when the fade has run out
  (`Timeline.BurstSilentIffFaded`); the quietest packet is gone 159 losses earlier
  (`Timeline.QuietBurstIsSilent`).
- `fseek(f, (long)incl, SEEK_CUR)` (`src/pcap_source.c:66`) seeks backwards where `long`
  has 32 bits, as on one of the supported targets, and the length is 2^31 or more. Both
  widths are modelled. A call ends exactly when its loop comes back to no place it has
  been at (`PcapLoop.EndsIffNoReturn`), always with 64 bits or with lengths below 2^31
  (`PcapLoop.ForwardEnds`); one corrupt length makes it loop for ever
  (`PcapLoop.StuckHeader`).
- A capture record of length zero reads as the end of the file, so a reading loop sees
  every packet exactly when no empty one stands before one it could take
  (`PcapFiles.SeesAllIffNoneEmpty`).
- Hold-last and cold-start silence are never reached through the pipeline
  (`Timeline.RunConceals`); they are modelled and specified all the same.

## Model

| member | source | states |
|---|---|---|
| RingIndex.NextPow2 | pipewire/src/reac_ring.c:8-15 | the least power of two, from 2 up, that holds v, for every v up to 2^31; larger requests wrap to zero |
| RingIndex.CapacityIsLeast | pipewire/src/reac_ring.c:8-15 | no smaller power of two would hold the request |
| RingIndex.DistanceOfTotals | pipewire/src/reac_ring.c:39-44 | `(h - t) & mask`, through the uint32 underflow, is the difference of the unbounded totals behind the two indices |
| RingIndex.Advance | pipewire/src/reac_ring.c:85-85 | masking a stored index after adding k is the slot of the unbounded total k further on |
| Ring.ReacRing.constructor | pipewire/src/reac_ring.c:17-31 | an empty ring of zeros, of the least capacity for the request |
| Ring.ReacRing.Readable | pipewire/src/reac_ring.c:39-44 | the number of samples held |
| Ring.ReacRing.Writable | pipewire/src/reac_ring.c:46-50 | the free room, one slot kept empty |
| Ring.ReacRing.Write | pipewire/src/reac_ring.c:52-86 | every channel's queue grows by the first w samples offered on it, w being what fits; the shortfall is counted, nothing held is touched |
| Ring.ReacRing.ReadPlanar | pipewire/src/reac_ring.c:88-112 | every channel gives up its oldest samples, all channels equally many, then zeros from the same position on; the shortfall is counted |
| Ring.ReacRing.Trim | pipewire/src/reac_ring.c:114-123 | the oldest samples go until at most `keep` remain, on every channel alike |
| Ring.LayoutHonoured | pipewire/src/reac_ring.c:52-57 | the documented source layout is honoured if and only if the count was not clamped or there is at most one channel |
| RingRefinement.NextKeepsInv | pipewire/src/reac_ring.c:52-123 | in every interleaving the slots from tail to head hold exactly the published, unconsumed samples of every channel |
| RingFifo.StepRefinesFifo | pipewire/src/reac_ring.c:52-123 | every step of either thread is a step of a FIFO queue a channel, or invisible to it |
| RingFifo.ReadsAreFifo | pipewire/src/reac_ring.c:88-112 | over every run a read delivers, on every channel, the published samples right after those already taken, then silence |
| RingFifo.InFlightDisjoint | pipewire/src/reac_ring.c:74-85 | no slot of a write in flight is one the reader may still hand over |
| RingFifo.NoSharedSlot | pipewire/src/reac_ring.c:74-103 | the slot being stored and the slot being loaded at one moment differ |
| RingFifo.RunConserves | pipewire/src/reac_ring.c:39-123 | over every run, summed over the calls as they were made: offered (each count, at most the mask) = published + overruns, requested = delivered + underruns, published = delivered + trimmed + readable, and readable never exceeds the mask |
| RingRuns.WriteFillsRoom | pipewire/src/reac_ring.c:52-86 | over every run a write publishes, from the planes its caller gave, min(count, mask) samples or what fits beside those published and not taken when the call loaded the tail, if that is less |
| RingRuns.EmptyHandedWrite | pipewire/src/reac_ring.c:64-72 | a write ends without publishing only if it was asked for samples and the ring it saw was full |
| RingRuns.ReadTakesAvailable | pipewire/src/reac_ring.c:88-112 | over every run a read fills min(channels asked, channels held) planes of the count asked, with as many samples as were published when the call loaded the head and not yet taken |
| RingRuns.TrimLeavesKeep | pipewire/src/reac_ring.c:114-123 | a trim that drops leaves exactly the caller's `keep` of the samples published when it loaded the head |
| RingRuns.OutputIsInput | pipewire/src/reac_ring.c:52-112 | with no trim everything read from a channel, in every interleaving, is everything published to it, from the first sample on, as far as taken |
| RingRuns.UninterruptedWrite | pipewire/src/reac_ring.c:52-86 | a write during which nothing is taken keeps the contract of the sequential ring: of the caller's own samples the queue grows by what fits |
| RingRuns.UninterruptedRead | pipewire/src/reac_ring.c:88-112 | a read during which nothing is published keeps the contract of the sequential ring: the oldest samples, then zeros |
| RingRuns.UninterruptedTrim | pipewire/src/reac_ring.c:114-123 | a trim during which nothing is published keeps the contract of the sequential ring: the newest `keep` stay |
| RingFifo.TrimBoundsLatency | pipewire/src/reac_ring.c:114-123 | a concurrent trim drops if and only if more than `keep` were observed, and then leaves exactly `keep` of them |
| RingFifo.ReaderIsWaitFree | pipewire/src/reac_ring.c:88-123 | whatever the writer does, every reader step shortens the work its call has left |
| SourceNode.ReacSourceNode.OnProcess | pipewire/src/reac_source_node.c:43-77 | one cycle trims to four quanta and reads one; linked ports get their own channel's oldest samples, all planes move on together, and with nothing linked the ring is left alone |
| MediaClock.MediaClock.InitAnchored | src/media_clock.c:6-15 | a clock that has seen nothing and starts at the anchor |
| MediaClock.MediaClock.OnPacket | src/media_clock.c:22-62 | the step of the wrapping counter, with C's unsigned and signed 16-bit arithmetic |
| MediaClock.ClockCountsSlots | src/media_clock.c:22-62 | whatever counters arrive, the timestamp is the anchor plus sps for every slot taken, and slots are packets plus losses |
| MediaClock.GapWindow | src/media_clock.c:35-50 | the signed 16-bit distance is the true one if and only if the index lies in [high - 32767, high + 32768] |
| MediaClock.ClockBelieves | src/media_clock.c:35-61 | whatever true indices arrive, reordered, repeated or out of the counter's reach: timestamp = anchor + sps * (index believed - first + arrivals read as behind), losses and counter as believed, all in their widths |
| MediaClock.ExactDrift | src/media_clock.c:35-61 | with every arrival in [high-water - 32767, high-water + 32768]: timestamp = anchor + sps * (high-water - first + late arrivals), losses = skipped indices, counter = high-water |
| PtpClock.TaiIsSampleCount | src/ptp_clock.c:8-16 | the split, rounded 64-bit computation is the rounded sample count of the instant, mod 2^32 |
| PtpClock.SampleCountIsNearest | src/ptp_clock.c:8-16 | that count is the nearest one to instant * rate / 10^9, a half rounding up |
| PtpClock.CountOfInstant | src/ptp_clock.c:8-16 | n packets later the rounded count is n * sps more, or one less, and when it is which, at any rate up to 1 GHz and with the instant rounded down to nanoseconds |
| PtpClock.WholeInstant | src/ptp_clock.c:8-16 | an instant a whole number of nanoseconds away costs no sample |
| PtpClock.ClockTracksTai | src/media_clock.h:33-36 | whatever arrives, how many samples the clock is ahead of the instant of any index, mod 2^32 |
| PtpClock.TaiAligned | src/media_clock.h:33-36 | with losses but no late frame every timestamp is that of the frame's own instant, plus the sample its rounding cost, at any rate and through all wraps |
| PtpClock.AlignedIff | src/media_clock.h:33-36 | after any arrivals at all the clock is on the timestamp of the instant of index i if and only if the samples it is ahead come to whole timestamp wraps |
| PtpClock.AlignedIffNoDrift | src/media_clock.h:33-36 | for arrivals the counter can tell apart those samples are sps for every late or duplicate frame |
| PtpClock.DuplicateBreaksAlignment | src/media_clock.c:42-50 | one duplicate at 48 kHz leaves the stream 12 samples off |
| PtpClock.OutageBreaksAlignment | src/media_clock.c:40-50 | ten seconds of outage at 48 kHz leave it 479988 samples behind, with no frame late |
| Sample24.LoadStored | src/plc.c:13-23 | loading a stored sample gives it back, clamped to 24 bits |
| Sample24.StoreLoaded | src/plc.c:13-23 | storing a loaded sample gives its three bytes back |
| Sample24.LittleEndian | src/plc.c:13-18 | the three bytes, lowest first, are the sample modulo 2^24 |
| Plc.PlcChan.HistAt | src/plc.c:26-32 | the back-th newest sample, through C's truncating remainder and the ring's wrap |
| Plc.PlcChan.HistPush | src/plc.c:33-38 | the new sample becomes the newest, the oldest of 40 goes |
| PlcSpec.PushAllKeepsNewest | src/plc.c:26-38 | the ring remembers the newest 40 of everything pushed, newest first |
| PlcSpec.PacketReadsBack | src/plc.c:52-60 | a packet pushed onto any history reads back sample for sample |
| Plc.Plc.constructor | src/plc.c:40-50 | tuning with its defaults and caps, and empty histories |
| PlcSpec.Tuned | src/plc.c:40-50 | the caller's fade length and crossfade width, 200 and 8 where they are not positive, the width at most a packet, the flat part a fifth of the fade |
| Plc.Plc.Observe | src/plc.c:52-60 | every channel's history takes its own samples of the packet, in order |
| Plc.Plc.Conceal | src/plc.c:72-120 | every sample of every channel is the concealed value of its tier, stored in 24 bits; the tier returned is the worst of all channels |
| Plc.WorstTierIs | src/plc.c:74-119 | the tier returned, from the histories alone: silence if and only if a channel has none, hold-last if and only if none is empty but one is short, else seam or burst by the loss index |
| PlcSpec.BurstGainFalls | src/plc.c:62-70 | the gain never rises with the loss index |
| PlcSpec.GainIsLine | src/plc.c:62-70 | the gain is 2^15 up to the flat part's end, zero from the fade length on, and in between the line from one to the other, rounded down |
| PlcSpec.BurstFades | src/plc.c:110-116 | inside a burst no sample grows louder from one fill to a later one |
| PlcSpec.BlendBetween | src/plc.c:98-104 | each crossfade sample lies between the last sample and the repeated one |
| PlcSpec.SeamIsLine | src/plc.c:98-107 | it is exactly the line from the last sample to the repeated one, weight (s+1)/(W+1) rounded down to 15 bits and the product rounded down |
| PlcSpec.SeamShare | src/plc.c:98-107 | it has moved from the last sample by its share (s+1)/(W+1) of the step: by less than that plus one, and by more than that less two and the rounding of the weight |
| PlcSpec.SeamMonotone | src/plc.c:98-107 | it moves only on towards the repeated sample, never past it, and from W on is that sample |
| PlcSpec.ShortHistory | src/plc.c:80-91 | with no history a fill is zero; with less than a packet of it, the newest sample under the gain, rounded down |
| PlcSpec.ConcealedInRange | src/plc.c:19-23 | no concealed sample leaves the 24-bit range, so the clamp never acts |
| ReacDecode.AcceptedIff | src/reac_decode.c:11-27 | a frame is accepted if and only if it is 12 address bytes, 88 19, the counter lowest byte first, 1474 bytes and C2 EA |
| ReacDecode.Decode | src/reac_decode.c:45-66 | such a frame's planar block, sample (c, s) from wire place (s, c), and nothing beyond it written; for any other input -1 and nothing written |
| Codec.DecodedBytes | src/reac_decode.c:56-64 | byte by byte: sample s of channel c is read from 50 + 3 * (s * channels + c) |
| RtpL24.HeaderRoundTrip | src/rtp_l24.c:7-21 | a receiver reads back version 2 with no padding, extension or contributing source, marker zero, the 7-bit payload type, sequence number, timestamp and source as given |
| RtpL24.BuildFlow | src/rtp_l24.c:23-55 | header and byte-swapped, interleaved slice, of exactly this length, or -1 and nothing written, which is when the slice does not exist or does not fit |
| Codec.PayloadBytes | src/rtp_l24.c:43-53 | byte by byte: channel fc of time sample s, highest byte first, from sample (ch_start + fc, s) of the planar block |
| Codec.PayloadReversesWire | src/reac_decode.c:45-66 | decode then RTP build is a per-sample byte reversal in place: the two transpositions cancel (section 4.3 of RFC 3551) |
| ReacTx.GridIsExact | pipewire/src/reac_tx.c:22-33 | samples on the 24-bit grid survive encoding exactly |
| ReacTx.QuantisationError | pipewire/src/reac_tx.c:22-33 | the round trip stays within half a step if and only if the input lies within half a step of the 24-bit range |
| ReacTx.QuantisedIsNearest | pipewire/src/reac_tx.c:22-33 | for every input no 24-bit value is nearer than the one stored, and overs clip to the rail they pass |
| ReacTx.QuantisedTiesToEven | pipewire/src/reac_tx.c:22-33 | half way between two of them the even one is stored |
| ReacTx.QuantisedRises | pipewire/src/reac_tx.c:22-33 | a higher sample is never stored lower |
| ReacTx.Build | pipewire/src/reac_tx.c:35-68 | every byte of the frame: header, each channel's quantised sample in its slot, zeros for channels and samples not supplied, end marker |
| Codec.EncodedFrameBytes | pipewire/src/reac_tx.c:35-68 | 1492 bytes: broadcast destination, own source, 88 19, the counter lowest byte first, 34 zeros, the audio, C2 EA |
| ReacTx.ReacTx.Emit | pipewire/src/reac_tx.c:102-118 | the frame goes out under the current counter, which advances mod 2^16 |
| Codec.EncodedFrameIsValid | pipewire/src/reac_tx.c:35-68 | the decoder accepts every encoded frame, with its counter |
| Codec.EncodeDecode | pipewire/src/reac_tx.c:22-68 | every channel of the 40 decodes to the 24-bit value of the sample given for it, and to zero where none was supplied |
| Packetizer.BuildFlows | src/packetizer.c:8-28 | flows that cut the channels into contiguous, non-empty slices no wider than asked, fresh and with consecutive sources; -1 and nothing written if and only if they cannot |
| Packetizer.PartitionCovers | src/packetizer.c:8-28 | every channel lies in exactly one flow |
| Packetizer.Packetizer.constructor | src/packetizer.c:30-45 | an empty window of 1 to 4 frames |
| Packetizer.Packetizer.Push | src/packetizer.c:47-94 | the frame joins the window, in place in the flat buffer; a full window goes out on every flow that exists, under the first frame's timestamp, and the sequence numbers of those flows step |
| PacketizerRuns.RunIsWindows | src/packetizer.c:47-94 | a run of frames sends exactly its full windows, in order, and holds the rest |
| PacketizerRuns.PacketsInOrder | src/packetizer.c:74-92 | the j-th packet of flow i is the i-th of the j-th window in everything sent |
| PacketizerRuns.FlowsReconstruct | src/packetizer.c:62-92 | scattering a window's payloads back gives every sample of every channel, from exactly one flow |
| Pipeline.Pipeline.constructor | src/pipeline.c:7-22 | a fresh clock, tuned empty concealer, zero statistics, sequence number zero, no sink |
| Pipeline.Pipeline.SetPcmSink | src/pipeline.c:24-28 | packets go to this packetizer, or to none; nothing else changes |
| Pipeline.Pipeline.Anchor | src/pipeline.c:30-34 | a fresh clock at the anchor, nothing else changed |
| Pipeline.Pipeline.EmitPcm | src/pipeline.c:48-67 | one RTP packet and one sequence number, or the frame to the packetizer; one count |
| Pipeline.Pipeline.OnFrame | src/pipeline.c:69-107 | anything but a REAC frame returns -1, is counted, sends nothing and leaves clock, history and sequence number alone; a REAC frame moves the clock, sends one fill a loss at the slots before it, then itself, then joins the history |
| Pipeline.Pipeline.FeedAll | src/main.c:158-159 | the loop over captured frames leaves the object in the state, and sends exactly the packets, that the theorems about runs are about |
| Timeline.TimelineIsGapFree | src/pipeline.c:87-101 | over any run of frames, lost, repeated, late or malformed, timeline frame k is stamped anchor + k * sps mod 2^32 |
| Timeline.TimelineKeepsFrames | src/pipeline.c:69-107 | the frames received appear once each, in arrival order, and all else is fill, one frame a loss |
| Timeline.ClockSeesAccepted | src/pipeline.c:80-81 | the clock sees exactly the counters of the accepted frames, so its theorems are the pipeline's |
| Timeline.HistoryIsNewest | src/plc.c:26-38 | over any run each channel remembers the newest 40 of all its samples received, and every channel equally many |
| Timeline.RunConceals | src/pipeline.c:92-104 | in any run the i-th fill of a gap is a fixed function of i and the last packet received; only the first two tiers occur, and none is shown before the first loss |
| Timeline.FillSample | src/plc.c:93-117 | every sample of such a fill: the seam from the packet's last sample into its repeat first, then the packet's own sample under the gain, rounded down |
| Timeline.GapTier | src/pipeline.c:99-99 | the tier on show after a gap: the seam for one loss, the burst for more, unchanged for none |
| Timeline.FillSilentIff | src/plc.c:93-117 | for any packet and any place in a gap, the fill is all zeros if and only if every one of its samples comes to zero, by its blend in the seam and by its gain in the burst |
| Timeline.BurstSilentIffFaded | src/plc.c:62-70 | after a packet with one loud sample that is if and only if the fade has run out |
| Timeline.QuietBurstIsSilent | src/plc.c:110-116 | a packet of ones falls silent at the 41st loss under the default tuning, 159 before the fade ends |
| Timeline.FadedIsSilent | src/plc.c:62-70 | once the fade has run out every fill is digital silence |
| PipelineRuns.RunSplits | src/pipeline.c:48-107 | frame by frame, the pipeline sends what its output side makes of the whole timeline |
| PipelineRuns.Aes67Path | src/pipeline.c:48-67 | over any run packet k carries sequence number k mod 2^16, timestamp anchor + k * sps mod 2^32 and the samples of timeline frame k, real or filled (section 5.1 of RFC 3550) |
| PipelineRuns.Aes67Counts | src/pipeline.c:57-66 | over any run: packets = accepted frames, concealed = losses, rejected = the rest, every packet consumed a sequence number, and the last one sent is on show |
| PipelineRuns.DantePath | src/packetizer.c:47-94 | over any run of raw frames exactly the full windows go out; packet j of flow i has sequence number j, its first frame's timestamp, the OR of its frames' concealment, and byte-reversed sample g mod sps of channel ch_start + fc of timeline frame j * fpp + g / sps |
| PipelineRuns.PartitionIsFresh | src/packetizer.c:8-45 | the flows `dante_build_flows` lays out meet what that theorem asks of a packetizer |
| PipelineRuns.TaiStampedIff | src/pipeline.h:72-75 | for any accepted frames the last one is stamped with the instant of index i if and only if the clock's lead comes to whole timestamp wraps (section 5.2 of RFC 7273) |
| PipelineRuns.TaiStamped | src/pipeline.h:72-75 | with losses but no late frame, the frame just accepted is stamped with its own instant, plus the sample its rounding cost |
| SinkNode.ReacSinkNode.OnProcess | pipewire/src/reac_sink_node.c:51-81 | a cycle's columns are staged and a frame sent for every twelfth, unlinked ports silent; with no port linked or no socket nothing is taken |
| SinkNode.ColumnsArePorts | pipewire/src/reac_sink_node.c:70-77 | channel c of what is staged is the buffer of port c, and zeros where that port is not linked |
| SinkNode.StagedInTwelves | pipewire/src/reac_sink_node.c:45-81 | over any run frame m carries columns 12m to 12m+11 under counter m mod 2^16, and what does not fill a frame waits |
| ReacRx.ReacRx.FeedFrame | pipewire/src/reac_rx.c:35-51 | a valid frame's normalised samples join the ring channel by channel, the newest lost if it is full; any other frame is counted bad and changes nothing |
| Loopback.SinkIgnoresQuanta | pipewire/src/reac_sink_node.c:51-81 | the frames sent depend on the samples fed alone, not on how the graph cuts its quanta |
| Loopback.HeardIsPlayed | pipewire/src/reac_sink_node.c:51-81 | over any cycles, channel by channel, what is staged and encoded is the ports' own buffers end to end, cycles with no port linked left out |
| Loopback.RingDelivers | pipewire/src/reac_rx.c:35-51 | with no overrun, what was read and what still waits are exactly what was fed, by the queue functions the ring's and the feeder's own contracts use |
| Loopback.LoopbackDelivers | pipewire/src/reac_sink_node.c:51-81 | for any quanta, staging, encoder, decoder, feeder, ring calls and reads together deliver on every channel a prefix of what was played to the port of that channel, silence while it is unlinked, each sample at its 24-bit value |
| Loopback.ConcurrentLoopback | pipewire/src/reac_rx.c:35-51 | the same with feeder and reader as two threads, in every interleaving of their steps |
| Loopback.GridIsHeard | pipewire/src/reac_rx.c:18-25 | samples on the 24-bit grid are delivered exactly |
| PcapSource.PcapSource.Open | src/pcap_source.c:20-43 | opens exactly the files whose first 24 bytes are there and start D4 C3 B2 A1, or A1 B2 C3 D4, which swaps every word |
| PcapSource.PcapSource.Next | src/pcap_source.c:45-76 | of a call that ends: the next record that fits the buffer, whole, with its timestamp; 0 at the end, -1 on a short header or body or a failed seek |
| PcapLoop.EndsIffNoReturn | src/pcap_source.c:49-71 | a call ends if and only if its loop comes back to no place it has been at, and then within one turn for every byte of the file and one more |
| PcapLoop.ForwardEnds | src/pcap_source.c:57-69 | with a 64-bit `long`, or with oversized lengths below 2^31, every call ends |
| PcapLoop.StuckHeader | src/pcap_source.c:66-68 | with a 32-bit `long` a length of 2^32 - 16 is read again for ever |
| PcapFiles.DrainsFile | src/pcap_source.c:45-76 | reading a written file in either byte order gives its packets that fit, in order, up to the first empty one, then the end of the file and never an error |
| PcapFiles.DrainsCutFile | src/pcap_source.c:45-76 | a file cut inside a record gives the packets before it as the whole file would, and then -1, unless an empty packet ended the loop before or the record was one to skip |
| PcapFiles.SmallPacketsRead | src/pcap_source.c:45-76 | in a file of packets below 2^31 bytes every such call ends, and reads the same whatever the width of `long` |
| PcapFiles.SeesAllIffNoneEmpty | src/pcap_source.h:25-28 | a reading loop sees every fitting packet if and only if no empty one stands before it |

## Left out

- Weak memory: the acquire and release accesses of the ring are taken as one sequentially consistent interleaving.
- Float32: samples are reals, so rounding below 24 bits, NaN and infinities are not modelled.
- Ring.ReacRing.constructor: does not model a failed allocation, or a capacity above 2^31 (which wraps to zero).
- Plc.Plc.constructor: leaves out fade lengths of 2^16 packets and more, whose gain product overflows int32.
- ReacRx.ReacRx.FeedFrame: leaves out a ring smaller than one frame and a ring with more channels than the mode, which the source never sets up.
- Pipeline.Pipeline.SetPcmSink: takes a packetizer of the pipeline's own geometry, the only sink the repository installs.
- Loopback.LoopbackDelivers: leaves out the consumer's trim, which drops samples by design; `Ring.ReacRing.Trim` says which.
- Loopback.ConcurrentLoopback: leaves out the trim for the same reason, and frames that a full ring cuts short.
- PcapSource.PcapSource.Next: a call that does not end has no result to describe; a read error other than a short file is not modelled.
- Sockets and capture (`src/aes67_send.c`, `src/reac_capture.c`, the send in `reac_tx_emit`): everything sent is returned instead.
- PipeWire registration, port buffers and rate matching; node creation and destruction.
- ubus, LuCI, UCI, packaging, demos and build scripts.
- Wall clocks: `ptp_now_tai`, replay pacing and the feeder's ppm estimate.
- `src/tone.c`, SDP and SAP text, argument parsing: floating-point sines and string formatting.
