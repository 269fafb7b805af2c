# Verified model of the RTCM3 to RTCM 2.3 converter

The converter listens to two NTRIP streams of RTCM3, turns GPS observations and ephemerides into
differential corrections, and puts them on a feed as RTCM 2.3 Type 1 and Type 3 messages. This
project models the path from bytes in to bytes out and proves what it promises.

| file | models |
|---|---|
| `Basics.dfy` | results, bytes, shifts, round-half-even, floored remainder |
| `Bits.dfy` | MSB-first packing at arbitrary widths: `BitWriter`, `BitReader` |
| `Parity.dfy` | the chained 30-bit word code, its receiver, its distance |
| `Rtklib.dfy` | the test suite's second formulation of the word check |
| `Quantise.dfy` | choice of scale factor and integer counts |
| `Rtcm2.dfy` | the bodies of the two message types |
| `Encoder.dfy` | 6-of-8 framing and the stateful encoder |
| `Decoder.dfy` | a word-aligned receiver, and encoder runs read back by it |
| `Framer.dfy` | RTCM3 framing over a buffer consumed in place |
| `Statistics.dfy` | the median over reals |
| `Dgps.dfy`, `DgpsRuns.dfy` | the correction generator, and runs of epochs |
| `Kepler.dfy` | the fixed-point iteration for Kepler's equation |
| `Feeds.dfy` | the feed, as an object and as interleaved steps |
| `Converter.dfy` | the converter object against a state machine |
| `ConverterRuns.dfy` | what every run of the converter keeps |
| `ConverterStream.dfy` | what a receiver hears, rejected messages, upstream chunking |
| `EpochEndToEnd.dfy` | one epoch, from the satellites that pass the gates to what a receiver reads |
| `ConverterLoss.dfy` | exactly when a handler raises, and when that makes the cutting of the upstream matter |
| `ConverterDrift.dfy` | two converters side by side, one with a clock term in every raw correction |
| `ClockRollover.dfy` | a base clock that drifts on across the end of the week |
| `RateRollover.dfy` | what the plain interval does to the range rates at a rollover |
| `LateSubscriber.dfy` | what a late or slow subscriber of the feed still reads |

Objects that the source updates in place are classes (`BitWriter`, `BitReader`, `Rtcm2Encoder`,
`Buffer`, `DgpsGenerator`, `Feed`, `Converter`); each method is proved against a function of the old
state, and the theorems are about runs of those functions. A raised `ValueError` is
`Result.ValueError` or an `ok`/`raised` result, and what the caller's objects look like afterwards is
part of the contract.

Bits are `seq<bool>`, most significant first. A check window is the 32 bits one word's parity depends
on: the two seed bits and the 30 transmitted bits. Scales are exact decimals; `round` is
round-half-even. The sine of the Kepler iteration is any function bounded by 1 and nowhere steeper
than 1.

The main results, from the wire inwards:

- a receiver of everything a converter ever publishes reads exactly the accepted messages, each correction
  under its own satellite and to the nearest count, each position to the nearest centimetre
  (`ConverterStream.ReceiverReadsTheRun`, `Decoder.ReceiverGets`), numbered and paired as promised
  (`ConverterRuns.RunNumbering`, `Type1UnderRecentType3`, `Type3Spacing`);
- what it reads of an epoch is, for each satellite within the limit of the median and no other, the raw value
  above the median and the satellite's own rate above the median rate (`EpochEndToEnd.EpochHeard`), and every
  subscriber's queue is offered it (`Converter.Converter.FeedObs`);
- up to three wrong bits of a word are always noticed, four need not be, and a late or badly seeded
  receiver recovers by its second word (`Parity.DetectsThreeErrors`, `FourErrorsCanHide`, `SelfSynchronises`);
- every frame is extracted and nothing else is (`Framer.EveryFrameIsExtracted`, `ExtractedIsFrame`), and how TCP cuts
  the upstream never matters to the framer (`Framer.ChunkIndependence`, `Framer.UniqueParse`);
  it matters to the converter exactly when a message is rejected and the frames that come after its chunk
  would do something (`ConverterLoss.CuttingMattersExactly`, `ConverterStream.ConverterChunks`);
- a clock term linear in the broadcast time of week changes no byte of output
  (`ConverterDrift.BytesUnchangedByClock`, `DgpsRuns.ClockDriftInvariance`); a clock that drifts on across
  the end of the week shows, where no rated satellite is dropped, in exactly the epochs whose rated
  satellites disagree on the rollovers per second since their last samples (`ClockRollover.DriftShowsExactly`);
- a majority of agreeing satellites is never dropped (`DgpsRuns.MajorityIsKept`), and each satellite's
  rate is its own (`DgpsRuns.HistoryIsLastSample`, `RateIsItsOwn`);
- the Kepler loop stops in time and close to the solution (`Kepler.LoopConverges`, `NearTheSolution`);
- a slow subscriber misses exactly what met its full queue, under every interleaving (`Feeds.Delivery`), and
  a late or slow one reads every word it gets right but the first of a message whose predecessor it missed
  (`LateSubscriber.SubscriberHears`).

One thing the code does differently from its documentation, where the model follows the code:
`docs/conversion.md:328-330` says the interval to the previous epoch is corrected for week rollover, but
`rtcm3to2p3/dgps.py:124-125` uses the plain difference. `DgpsRuns.RateAcrossWeek` says exactly when the two
rates agree, `DgpsRuns.RateAtRollover` gives an epoch where they do not, and
`RateRollover.RolloverStretchesRrc` says what comes out: where the rated satellites share a previous time
across a rollover, every RRC has the wrong sign.

Two properties one might expect are false of the code, each with an input and the exact condition:

- Cutting the observation stream differently can change what the converter does, because an exception ends
  its batch of frames (`rtcm3to2p3/service.py:91-92`). The input is `ConverterLoss.CuttingCanMatter`, a
  refused epoch followed by a station message. `ConverterLoss.CuttingMattersExactly` is the condition: the
  frames completed after the chunk that raises would do something. A chunk raises exactly when an epoch in it
  has over 18 corrections, a PRN or issue of data out of range, or a due position out of range
  (`ConverterLoss.BatchRaisesExactly`).
- A base clock drifting on across the end of the week can show in the output. The input is
  `ClockRollover.DriftShowsAtRollover`, and `ClockRollover.UnchangedExactly`, `UnchangedIffMovesAgree` and
  `DriftShowsExactly` are the conditions.

## Model

| member | source | states |
|---|---|---|
| `Basics.RoundHalfEven` | rtcm3to2p3/rtcm2.py:59-60 | nearest integer, and the even one at a tie |
| `Basics.RoundUnique` | rtcm3to2p3/rtcm2.py:59-60 | those two promises leave one candidate only |
| `Basics.FloorModRange` | rtcm3to2p3/service.py:41 | the source language's remainder of a real lies in [0, m), for negative operands too |
| `Bits.BitWriter.constructor` | rtcm3to2p3/bits.py:14-16 | a new writer holds no bits |
| `Bits.BitWriter.WriteUnsigned` | rtcm3to2p3/bits.py:23-33 | accepts exactly the values that fit the width, appends their bits; a refusal leaves the writer as it was |
| `Bits.BitWriter.WriteSigned` | rtcm3to2p3/bits.py:35-45 | the same for two's complement |
| `Bits.BitWriter.ToBytes` | rtcm3to2p3/bits.py:47-55 | the bytes spell the bits written, then under 8 pad bits of the given value; any other pad value raises |
| `Bits.BitReader.Remaining` | rtcm3to2p3/bits.py:70-73 | position plus remaining is the whole length |
| `Bits.BitReader.ReadUnsigned` | rtcm3to2p3/bits.py:75-87 | raises exactly when the width is under 1 or too few bits remain, without moving; otherwise the value of the next bits at any unaligned position |
| `Bits.BitReader.ReadSigned` | rtcm3to2p3/bits.py:89-94 | the same, as two's complement |
| `Bits.SliceIsShiftAndMask` | rtcm3to2p3/bits.py:75-87 | reading at an unaligned position is shifting and masking the number the whole buffer spells |
| `Bits.FieldRoundTrip` | rtcm3to2p3/bits.py:35-45 | one signed or unsigned field that fits survives encoding |
| `Bits.FieldsRoundTrip` | rtcm3to2p3/bits.py:23-94 | any list of fields of any widths reads back, whatever follows in the stream |
| `Bits.FieldAt` | rtcm3to2p3/bits.py:75-94 | in any list of fields, field i is the number in its width of bits at the sum of the widths before it |
| `Bits.WriteFields` | rtcm3to2p3/rtcm2.py:92-97 | successive writes append all fields; where one does not fit they stop, and the writer keeps those before it |
| `Bits.ReadEach` | tests/test_bits.py:66-74 | successive reads return the fields up to the first read that raises |
| `Bits.WriteThenRead` | tests/test_bits.py:66-74 | write, pad with either bit, read: the same values, for all fields that fit |
| `Parity.ParityBits` | rtcm3to2p3/parity.py:35-53 | raises exactly on a wrong length or a non-bit; otherwise the six parity bits of the mask table and seed |
| `Parity.EncodeWord` | rtcm3to2p3/parity.py:56-70 | the word spells the complemented data and the parity bits, and the next seed is its last two bits |
| `Parity.MaskMembers` | rtcm3to2p3/parity.py:19-26 | the table's rows, position by position, and their lengths |
| `Parity.EncodedPasses` | tests/test_parity.py:63-71 | an encoded word passes the check and gives back its source data |
| `Parity.PassesIffEncoded` | tests/test_rtcm2.py:164-180 | the receiver's check accepts exactly the encoder's words |
| `Parity.ColumnsOdd` | rtcm3to2p3/parity.py:19-28 | with the inversion folded in, each of the 32 window bits enters an odd number of checks |
| `Parity.ColumnsDistinct` | rtcm3to2p3/parity.py:19-28 | and no two bits enter the same set of checks |
| `Parity.OddIsColumn` | rtcm3to2p3/parity.py:19-28 | the 32 columns are all the odd-weight vectors |
| `Parity.SyndromeFlip` | rtcm3to2p3/parity.py:47-70 | a wrong bit, data, parity or seed, adds its column to the failed checks |
| `Parity.DetectsThreeErrors` | rtcm3to2p3/parity.py:47-70 | one to three wrong bits of a window always fail its check |
| `Parity.FourErrorsCanHide` | rtcm3to2p3/parity.py:47-70 | the bound is tight in every window |
| `Parity.OddSyndromeHasOneRepair` | rtcm3to2p3/parity.py:47-70 | a window failing an odd number of checks is one flip, of one bit only, from a code word |
| `Parity.SyndromeTellsOneFromTwo` | rtcm3to2p3/parity.py:47-70 | one wrong bit fails an odd number of checks, two an even non-zero number |
| `Parity.ChainAppend` | rtcm3to2p3/rtcm2.py:185-192 | encoding more words later continues the chain where it stopped |
| `Parity.SeedIsLastTwoBits` | rtcm3to2p3/parity.py:70 | the seed left by any stream is its last two bits |
| `Parity.DecodeUndoesChain` | tests/test_rtcm2.py:164-180 | a receiver finds no violation in any encoded stream and returns its data words |
| `Parity.DecodeIsLocal` | tests/test_rtcm2.py:164-180 | every word is judged on its own window alone |
| `Parity.WrongDataNeverAccepted` | rtcm3to2p3/parity.py:47-70 | up to three wrong bits in a window: the word comes back right or is refused |
| `Parity.SelfSynchronises` | rtcm3to2p3/rtcm2.py:185-192 | a receiver started at any word with any seed agrees from its second word on; a wrong seed always refuses the first |
| `Rtklib.SameParity` | tests/test_parity.py:33-43 | each 32-bit table entry computes the parity bit of its position list |
| `Rtklib.SameDecoder` | tests/test_parity.py:46-55 | the population-count receiver and the position-list receiver agree on every word, good or bad |
| `Rtklib.ReadsEncodedWords` | tests/test_parity.py:63-71 | it accepts every encoded word and recovers its data |
| `Quantise.FineExactlyWhenBothFit` | rtcm3to2p3/rtcm2.py:58-62 | fine scale exactly below 655.35 m and 0.255 m/s, ties outside |
| `Quantise.NoSentinel` | rtcm3to2p3/rtcm2.py:41-42 | -32768 and -128 are never produced |
| `Quantise.QuantiserFaithful` | rtcm3to2p3/rtcm2.py:56-67 | each field within half an LSB, or clamped to the largest magnitude with the input's sign |
| `Quantise.QuantiserIsProjection` | rtcm3to2p3/rtcm2.py:56-67 | encoding what a receiver reads back gives the same scale and counts |
| `Quantise.CoarseStaysCoarse` | rtcm3to2p3/rtcm2.py:56-67 | what needed the coarse scale needs it again after rounding |
| `Rtcm2.CopyAll` | rtcm3to2p3/rtcm2.py:112-118 | the bit-by-bit copy loop appends exactly what the other writer holds |
| `Rtcm2.FillZeros` | rtcm3to2p3/rtcm2.py:119-120 | zero bits up to the total |
| `Rtcm2.ReadDataWords` | rtcm3to2p3/rtcm2.py:122-123 | the 24-bit words spell the stream, in order |
| `Rtcm2.HeaderReads` | rtcm3to2p3/rtcm2.py:101-108 | the header bit position by bit position: 0x66 at 0, type at 8, station at 14, Z-count at 24, number at 37, word count at 40, health at 45 |
| `Rtcm2.RecordCarries` | rtcm3to2p3/rtcm2.py:85-97 | a record has the correction's own PRN, UDRE and IOD, the fine scale exactly below 655.35 m and 0.255 m/s, and both fields to the nearest count of 0.02 m and 0.002 m/s or 0.32 m and 0.032 m/s, or the limit with their sign |
| `Rtcm2.Type1Reads` | rtcm3to2p3/rtcm2.py:70-123 | every accepted Type 1 is a header with its type and word count, at bit 48 + 40 k a record that carries correction k, and zeros to the end of the last word |
| `Rtcm2.CoordFitsExactly` | rtcm3to2p3/rtcm2.py:154-158 | a coordinate is accepted exactly from -21474836.485 up to but not including 21474836.475 m |
| `Rtcm2.Type3Reads` | rtcm3to2p3/rtcm2.py:126-162 | every accepted Type 3 is six words: a header of type 3 and at bits 48, 80 and 112 the x, y and z in centimetres to the nearest |
| `Rtcm2.PackRecords` | rtcm3to2p3/rtcm2.py:83-97 | raises exactly on a PRN, UDRE or IOD out of range; otherwise 40 bits for each correction, in order, which carry that correction |
| `Rtcm2.Assemble` | rtcm3to2p3/rtcm2.py:110-123 | header, records, fill, cut into words |
| `Rtcm2.PackType1Body` | rtcm3to2p3/rtcm2.py:70-123 | raises exactly on a field out of range or over 18 corrections; otherwise the words read, position by position, as that header, those corrections and zero fill |
| `Rtcm2.WriteEcef` | rtcm3to2p3/rtcm2.py:154-158 | raises exactly when a coordinate is out of reach; otherwise appends the three in centimetres to the nearest |
| `Rtcm2.PackType3Body` | rtcm3to2p3/rtcm2.py:126-162 | raises exactly on a field or coordinate out of range; otherwise six words that read as that header and position |
| `Encoder.Reverse6` | rtcm3to2p3/rtcm2.py:165-166 | with 0x40 it is the byte whose low bits are the group reversed |
| `Encoder.Word30ToBytes` | rtcm3to2p3/rtcm2.py:169-175 | five bytes carrying the word's groups, most significant first |
| `Encoder.FrameGroupBack` | tests/test_rtcm2.py:153-161 | de-framing a byte gives its six bits back |
| `Encoder.DeframeUndoesFrame` | tests/test_rtcm2.py:153-161 | the same for any string of groups |
| `Encoder.Rtcm2Encoder.EncodeWords` | rtcm3to2p3/rtcm2.py:185-192 | the bytes are the framed chain from the stored seed, and the seed moves along it |
| `Encoder.Rtcm2Encoder.EncodeType1` | rtcm3to2p3/rtcm2.py:194-205 | accepted exactly when the body is, and then the bytes are the framed chain of bits that read as that header and those corrections; a rejected call keeps the seed |
| `Encoder.Rtcm2Encoder.EncodeType3` | rtcm3to2p3/rtcm2.py:207-218 | the same for the station position, which is accepted exactly within reach of 32-bit centimetres |
| `Encoder.WireAppend` | rtcm3to2p3/rtcm2.py:185-192 | the bytes of two messages in a row are one chain |
| `Decoder.HeaderBack` | tests/test_rtcm2.py:95-104 | the header fields are read back from the first 48 bits |
| `Decoder.RecordBack` | tests/test_rtcm2.py:105-116 | a satellite record is read back, PRN 32 travelling as 0 |
| `Decoder.RecordsBack` | tests/test_rtcm2.py:105-116 | 40-bit records while they fit are exactly the records sent, the fill adding none |
| `Decoder.Type1Shape` | rtcm3to2p3/rtcm2.py:83-123 | for every accepted count, N is the ceiling, the fill is under one word, the records come back |
| `Decoder.RunIsOneChain` | rtcm3to2p3/rtcm2.py:178-218 | one encoder over any calls, rejected ones included, sends one chain of the accepted messages |
| `Decoder.RunDecodes` | rtcm3to2p3/rtcm2.py:70-218 | over any run from any seed a receiver finds no violation and reads one message for each accepted call, with its header and for each correction its PRN, UDRE and IOD and both fields to the nearest count, or the position to the nearest centimetre |
| `Decoder.ReceiverGets` | rtcm3to2p3/rtcm2.py:70-218 | the same call by call: the message at the place of an accepted call carries what that call was given |
| `Decoder.SeedSafety` | rtcm3to2p3/rtcm2.py:181-218 | in every run, rejected calls included, the seed kept is the last two bits sent |
| `Framer.Buffer.Extend` | rtcm3to2p3/service.py:90 | bytes arrive at the end |
| `Framer.Buffer.ExtractFrames` | rtcm3to2p3/service.py:44-61 | the in-place loop returns the frames and leaves the rest that the specification says; each is 0xD3, ten bits of length, that many bytes and three more |
| `Framer.EveryFrameIsExtracted` | rtcm3to2p3/service.py:47-61 | 0xD3, any six reserved bits, the length of any payload of up to 1023 bytes with its high bits first, the payload and any three bytes are extracted as one frame, whatever follows |
| `Framer.ExtractedIsFrame` | rtcm3to2p3/service.py:47-61 | every frame extracted is spelled so |
| `Framer.FindSync` | rtcm3to2p3/service.py:49 | the first 0xD3, or the length |
| `Framer.ExtractResumes` | rtcm3to2p3/service.py:44-61 | extracting from a and then from the leftover followed by b is extracting from a followed by b |
| `Framer.ChunkIndependence` | rtcm3to2p3/service.py:88-97 | any cutting of any stream gives the same frames and the same leftover |
| `Framer.LeavesWaiting` | rtcm3to2p3/service.py:44-61 | what is retained is empty or an incomplete frame from 0xD3 of at most 1028 bytes |
| `Framer.EveryInputParses` | rtcm3to2p3/service.py:47-61 | every input is gaps free of 0xD3 and frames in turn, then the leftover; nothing is lost |
| `Framer.EveryTextIsCut` | rtcm3to2p3/service.py:47-61 | every such text is cut into exactly its frames |
| `Framer.UniqueParse` | rtcm3to2p3/service.py:47-61 | the answer is the only reading of the input, both ways |
| `Statistics.SortSorts` | rtcm3to2p3/dgps.py:115 | the median is taken over a sorted permutation |
| `Statistics.MedianShift` | rtcm3to2p3/dgps.py:115 | a common offset moves the median by itself |
| `Statistics.MedianBreakdown` | rtcm3to2p3/dgps.py:115 | with more than half of the values in an interval the median is in it, odd or even |
| `Statistics.NearestToMedian` | rtcm3to2p3/dgps.py:115 | how far the nearest value is from the median, exactly |
| `Dgps.DgpsGenerator.SetStation` | rtcm3to2p3/dgps.py:84-85 | replaces the base position only |
| `Dgps.DgpsGenerator.AddEphemeris` | rtcm3to2p3/dgps.py:87-88 | replaces one satellite's ephemeris only |
| `Dgps.DgpsGenerator.Corrections` | rtcm3to2p3/dgps.py:90-142 | output and history of an epoch, loops and skips included, are those of the gated satellites: one correction for each within the limit of the median raw value, its raw value above that median, its UDRE by 1, 4 and 8 m, and its own rate above the median rate, 0 without one |
| `Dgps.DgpsGenerator.FromRaw` | rtcm3to2p3/dgps.py:115-142 | the same after the gates |
| `Dgps.DgpsGenerator.EmitSorted` | rtcm3to2p3/dgps.py:128-142 | the last loop remembers every satellite and emits one such correction for each within the limit, and no other |
| `Dgps.EmittedExactly` | rtcm3to2p3/dgps.py:115-138 | the specification of an epoch emits exactly those corrections, for any satellites and rates |
| `Dgps.EmitRight` | rtcm3to2p3/dgps.py:121-138 | and over a history the rate of each is its change of raw value over the time since its own last sample |
| `DgpsRuns.UsableExactly` | rtcm3to2p3/dgps.py:97-110 | a satellite passes exactly with a stored ephemeris, a positive pseudorange, health 0 and a reference time within the limit of the time of transmission in this week, the next or the last |
| `DgpsRuns.GateMembers` | rtcm3to2p3/dgps.py:97-111 | the satellites used are exactly the observations that pass those gates, each with its own raw value and issue of data |
| `DgpsRuns.GateOnePerPrn` | rtcm3to2p3/dgps.py:97-111 | observations keyed by PRN give at most one satellite per PRN |
| `DgpsRuns.RateAcrossWeek` | rtcm3to2p3/dgps.py:124-125 | exactly when the plain difference of times gives the week-corrected rate |
| `DgpsRuns.RateAtRollover` | rtcm3to2p3/dgps.py:124-125 | an epoch just after rollover where it does not |
| `DgpsRuns.LastIsLatest` | rtcm3to2p3/dgps.py:80 | a satellite's last usable sample is the latest epoch in which it passed the gates |
| `DgpsRuns.HistoryIsLastSample` | rtcm3to2p3/dgps.py:128-132 | in every run the history kept for a satellite is its own last usable sample, outlier epochs included |
| `DgpsRuns.RateIsItsOwn` | rtcm3to2p3/dgps.py:121-125 | its rate does not depend on which other satellites were ever present |
| `DgpsRuns.EmissionUnchanged` | rtcm3to2p3/dgps.py:115-138 | an epoch is unchanged when offsets move all its rated satellites' rates alike |
| `DgpsRuns.ClockDriftInvariance` | rtcm3to2p3/dgps.py:115-138 | a clock term b0 + b1 * tow in every raw value of every epoch changes no output of any run |
| `DgpsRuns.SharedPreviousEpoch` | rtcm3to2p3/dgps.py:115-138 | with arbitrary offsets an epoch whose rated satellites share their previous epoch is unchanged |
| `DgpsRuns.OffsetInvariance` | rtcm3to2p3/dgps.py:115-138 | with arbitrary offsets every PRC, UDRE, IOD and drop decision is unchanged |
| `DgpsRuns.EmittedIffNearMedian` | rtcm3to2p3/dgps.py:131-138 | a satellite is emitted exactly when it is within the limit of the median |
| `DgpsRuns.MajorityIsKept` | rtcm3to2p3/dgps.py:115-138 | with more than half of the values in an interval no wider than the limit, none of that interval is dropped and each PRC is at most its width |
| `DgpsRuns.EmptyIffMiddleApart` | rtcm3to2p3/dgps.py:128-142 | exactly when usable satellites give no output; never for an odd count |
| `DgpsRuns.EmittedInPrnOrder` | rtcm3to2p3/dgps.py:130 | corrections come out in PRN order |
| `Kepler.EccentricAnomaly` | rtcm3to2p3/ephemeris.py:71-79 | the loop returns the iterate of the first step that moves by less than 1e-13, or of step 30 |
| `Kepler.KeplerStepBound` | rtcm3to2p3/ephemeris.py:71-79 | step k moves by at most the eccentricity to the k |
| `Kepler.LoopConverges` | rtcm3to2p3/ephemeris.py:71-79 | the break is taken by step 9 up to 0.03 and within 30 steps up to 0.36 |
| `Kepler.BreakUpTo036` | rtcm3to2p3/ephemeris.py:74-78 | the break is taken for every eccentricity up to 0.36 |
| `Kepler.SmallResidual` | rtcm3to2p3/ephemeris.py:71-79 | whenever the break is taken the residual returned is at most the eccentricity times 1e-13 |
| `Kepler.NearTheSolution` | rtcm3to2p3/ephemeris.py:71-79 | whenever the break is taken (1 - e) times the distance to any solution is at most e * 1e-13, so below eccentricity 1 the distance is at most e / (1 - e) * 1e-13 |
| `Kepler.SolutionUnique` | rtcm3to2p3/ephemeris.py:71-72 | below eccentricity 1 there is one solution at most |
| `Kepler.ResidualWithoutBreak` | rtcm3to2p3/ephemeris.py:74-79 | the residual when the 30 steps run out |
| `Feeds.Feed.Subscribe` | rtcm3to2p3/ntrip.py:38-42 | a new empty queue, nothing else changed |
| `Feeds.Feed.Unsubscribe` | rtcm3to2p3/ntrip.py:44-46 | the queue is no longer served but keeps what it has |
| `Feeds.Feed.Publish` | rtcm3to2p3/ntrip.py:48-59 | a non-empty message is offered once to every subscriber, full queues staying as they are, the subscribers and all other queues unchanged; an empty one does nothing |
| `Feeds.OfferAllIs` | rtcm3to2p3/ntrip.py:55-59 | a queue offered messages one after another gains, in order, as many of the first as fit in 512 |
| `Feeds.AfterBoth` | rtcm3to2p3/ntrip.py:48-59 | publishing messages and then more is publishing them all |
| `Feeds.EverySchedule` | rtcm3to2p3/ntrip.py:38-59 | the delivery invariant holds under every interleaving of snapshot, puts, subscribe, unsubscribe and get |
| `Feeds.Delivery` | rtcm3to2p3/ntrip.py:38-59 | what a subscriber took and has queued is an in-order selection of whole messages, at most 512 queued, short of exactly those that met a full queue |
| `Feeds.UninterruptedPublish` | rtcm3to2p3/ntrip.py:48-59 | the steps of a publication nothing interrupts do what the method does |
| `Converter.Converter.Create` | rtcm3to2p3/service.py:67-86 | a station id outside 1..1023 raises; otherwise a converter on the given feeds, in the initial state, with empty buffers |
| `Converter.Converter.constructor` | rtcm3to2p3/service.py:75-86 | the initial state and empty buffers |
| `Converter.Converter.Send` | rtcm3to2p3/service.py:119-121 | an accepted message is published once as one chain step and offered to every subscriber queue; a rejected one publishes nothing, touches no queue and keeps the seed |
| `Converter.Converter.MaybeEmitType3` | rtcm3to2p3/service.py:112-122 | state and exception are those of the step function: the number is taken first, the time only kept on success; every subscriber queue of the feed is offered the bytes, the rest of the feed is unchanged |
| `Converter.Converter.EmitType1` | rtcm3to2p3/service.py:137-143 | the same for the Type 1, which every subscriber queue is offered |
| `Converter.Converter.EmitEpoch` | rtcm3to2p3/service.py:134-143 | Type 3 when due, then Type 1, through the one encoder and offered in that order to every subscriber queue |
| `Converter.Converter.OnEpochFrame` | rtcm3to2p3/service.py:131-143 | an observation epoch: the state of the step function, and its messages offered to every subscriber queue |
| `Converter.Converter.OnObsFrame` | rtcm3to2p3/service.py:124-147 | the same for any frame of the observation stream |
| `Converter.Converter.OnFrames` | rtcm3to2p3/service.py:91-92 | the same for a batch, ended by the first exception |
| `Converter.Converter.FeedObs` | rtcm3to2p3/service.py:88-92 | every subscriber queue of the passthrough feed is offered the bytes read, none of them when there are none, and every one of the output feed the messages of the batch; the buffer is right even when a handler raises |
| `Converter.Converter.FeedEph` | rtcm3to2p3/service.py:94-97 | the ephemeris stream changes nothing but ephemerides and its buffer |
| `Converter.NewestEphemeris` | rtcm3to2p3/service.py:94-97 | what is then stored for a satellite is the ephemeris of the last frame that holds one of its own |
| `Converter.OldEphemeris` | rtcm3to2p3/service.py:94-97 | and without such a frame it is what it was |
| `ConverterRuns.ZcountNear` | rtcm3to2p3/service.py:35-41 | the Z-count is in 0..5999 and within 0.3 s of the time around the hour circle |
| `ConverterRuns.EveryRun` | rtcm3to2p3/service.py:64-152 | the run invariant holds after every run, rejected messages and lost batches included |
| `ConverterRuns.RunNumbering` | rtcm3to2p3/service.py:108-143 | numbers 1, 2, 3, ... modulo 8 across both types, Type 3 first, each Type 3 directly followed by the Type 1 of its time |
| `ConverterRuns.Type1UnderRecentType3` | rtcm3to2p3/service.py:112-143 | at every Type 1 the last Type 3 that went out is under 60 s old, with some number of weeks of 604800 s taken off |
| `ConverterRuns.Type3Spacing` | rtcm3to2p3/service.py:112-122 | no Type 3 is tried within 60 s of the last that went out, whatever number of weeks is taken off |
| `ConverterRuns.RejectedExactly` | rtcm3to2p3/service.py:119-139 | exactly when a message of a run is rejected: a coordinate outside -21474836.485 to 21474836.475 m, over 18 satellites, or a PRN or IOD out of range |
| `ConverterStream.ReceiverReadsTheRun` | rtcm3to2p3/service.py:112-143 | after any run a receiver of all published bytes finds no violation and reads one message for each accepted one, carrying its header, corrections or position; the stored seed is the last two bits sent |
| `ConverterStream.ReceiverCounts` | rtcm3to2p3/service.py:108-143 | with nothing rejected it reads one message per message tried, numbered in order, with the right type and Z-count |
| `ConverterStream.MessagesCounted` | rtcm3to2p3/service.py:141-143 | after any run the count of messages is the number of Type 1 messages that went out |
| `ConverterStream.ReceivedPrcIsClose` | rtcm3to2p3/dgps.py:131-138 | with a residual limit inside the coarse range the PRC received is within half an LSB of the one computed |
| `ConverterStream.RaisedIffRejected` | rtcm3to2p3/service.py:88-143 | a handler raises exactly when a message is rejected |
| `ConverterStream.BatchConcat` | rtcm3to2p3/service.py:91-92 | two batches are one, unless the first raises |
| `ConverterStream.ConverterChunks` | rtcm3to2p3/service.py:88-92 | chunking never changes the buffer nor whether something raises; with nothing raised it changes nothing at all, otherwise chunk by chunk only adds messages |
| `EpochEndToEnd.EpochHeard` | rtcm3to2p3/service.py:131-143 | from any state, an epoch that gives corrections and raises nothing is read as the base position, to the centimetre, when one is due, and a Type 1 with the next number, the time and a record for each gated satellite within the limit of the median, and no other: raw value above the median, own rate above the median rate, each to the nearest count |
| `ConverterLoss.StepRaisesExactly` | rtcm3to2p3/service.py:124-143 | in any state a handler raises exactly on an epoch with corrections of which the encoder refuses a message: due position out of range, over 18, PRN or IOD out of range |
| `ConverterLoss.BatchRaisesExactly` | rtcm3to2p3/service.py:91-92 | a batch raises exactly when some epoch of it is refused in the state the events before it leave |
| `ConverterLoss.NothingEitherWay` | rtcm3to2p3/service.py:88-92 | feeding chunk by chunk has no effect exactly when feeding at once has none |
| `ConverterLoss.CuttingMattersExactly` | rtcm3to2p3/service.py:88-92 | chunking changes nothing exactly when the frames completed after the first raising chunk would do nothing from the state it left |
| `ConverterLoss.StationLost` | rtcm3to2p3/service.py:88-130 | a refused epoch and a station message: fed at once the new position is lost, fed frame by frame it is kept |
| `ConverterLoss.CuttingCanMatter` | rtcm3to2p3/service.py:91-92 | an input, with satellite 33, where the base position depends on the cutting |
| `ConverterDrift.GateDrift` | rtcm3to2p3/dgps.py:97-111 | with b0 + b1 * tow in every raw value the same satellites pass the gates, each with the term added |
| `ConverterDrift.RunDrift` | rtcm3to2p3/service.py:64-152 | a converter with a term b0 + b1 * tow, linear in the broadcast time of week, in every raw correction runs in step with one without |
| `ConverterDrift.BytesUnchangedByClock` | rtcm3to2p3/service.py:64-152 | and puts exactly the same bytes on the feed, over every run of every pair of streams |
| `ClockRollover.UnchangedExactly` | rtcm3to2p3/dgps.py:121-138 | arbitrary offsets leave an epoch unchanged exactly when the rates of the satellites it shows all move as its rate offset does |
| `ClockRollover.UnchangedIffMovesAgree` | rtcm3to2p3/dgps.py:121-138 | where no rated satellite is dropped, exactly when all their rates move alike |
| `ClockRollover.ContinuousMove` | rtcm3to2p3/dgps.py:121-125 | how a clock drifting on through the weeks moves a rate: by the drift, and by the drift times a week per rollover per second of broadcast time |
| `ClockRollover.MovesByDriftIff` | rtcm3to2p3/dgps.py:121-125 | by the drift alone exactly when there is none or the previous sample is of the same week |
| `ClockRollover.SameWeekUnchanged` | rtcm3to2p3/dgps.py:115-138 | an epoch whose rated satellites were all last sampled in the same week is unchanged under any bias and drift |
| `ClockRollover.DriftShowsExactly` | rtcm3to2p3/dgps.py:115-138 | with no rated satellite dropped, a drifting clock leaves an epoch unchanged exactly when the rollovers per second since the previous samples agree |
| `ClockRollover.DriftShowsAtRollover` | rtcm3to2p3/dgps.py:121-126 | an epoch after a rollover where 300 m/s of drift moves two rates apart by over 0.004 m/s and changes the output |
| `Statistics.MedianScale` | rtcm3to2p3/dgps.py:126 | a common factor, negative ones included, scales the median |
| `RateRollover.RolloverStretchesRrc` | rtcm3to2p3/dgps.py:121-138 | with a shared previous time every RRC is the week-corrected one times corrected over plain interval: 1 within half a week, negative across a rollover |
| `LateSubscriber.MessagesHeard` | tests/test_rtcm2.py:164-180 | whatever whole messages of a stream arrive, a receiver reads every word but first words sent with a seed it did not see |
| `LateSubscriber.HeardNeverWrong` | tests/test_rtcm2.py:164-180 | no word is ever read wrong and each message costs one refusal at most |
| `LateSubscriber.SentChains` | rtcm3to2p3/rtcm2.py:185-192 | each message is sent with the seed the one before it left, so after its predecessor none is refused |
| `LateSubscriber.SubscriberHears` | rtcm3to2p3/ntrip.py:38-59 | under every schedule of the feed, that is what a subscriber reads of what it took and has queued, short of the messages that met its queue full |

## Left out

- Floating point: all arithmetic is over exact integers and reals, so `prc / 0.02`, `tow % 3600` and the
  sine are exact; NaN and infinities have no counterpart.
- `raw_correction`, `satellite_position` and `satellite_clock_bias`: straight-line trigonometry, taken as a
  function from ephemeris, base position, time and pseudorange to a real.
- RTCM3 message parsing and CRC checks: a frame's meaning is a function of its bytes, and parsing that
  raises is junk. The field extraction of `rtcm3_input.py`, which could raise outside the guarded parse,
  does not raise here.
- Sockets, TLS, HTTP handling, reconnection, the sourcetable and the caster threads; only the feed is modelled.
- Existence of a solution of Kepler's equation: the theorems are about any solution there is.
- The shipped code has no RTCM 2.3 decoder. The receiver here is word-aligned, after the reference readers of
  the test suite. Re-synchronising at arbitrary bits (`tests/test_rtcm2.py:51-92`) is left out; it can lock
  onto a false preamble (`docs/validation.md:36-41`).
- Queue objects of the feed are named by number, so aliasing of queues is not modelled; a subscriber keeps its
  number after unsubscribing. The model of interleaving has one publisher and one step per queue.
- Observation and ephemeris reads alternate whole: the two upstream threads are not interleaved within a batch.
- The two feeds of a converter are taken to be distinct objects, as the service creates them.
- The dictionary of pseudoranges is a list of pairs in iteration order; theorems that need one entry per PRN
  say so, and `DgpsRuns.GateOnePerPrn` derives it from distinct keys.
- The fields of a message are written from a list by one loop where the source has one call per field.
- Logging, throughput counters, the availability event, command line, configuration, packaging.
- RunDrift: the clock term is linear in the broadcast time of week. A clock that runs on across a rollover can
  change RRCs (`ClockRollover.DriftShowsAtRollover`); its exact conditions are stated for the generator, not for
  the converter's bytes.
- BytesUnchangedByClock: the same.
