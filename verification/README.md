# tcpraw, verified models

tcpraw carries datagrams over segments that look like TCP. Two parts of it do the hard work:

- The **forward error correction layer**. An encoder numbers packets, groups `dataShards` of them
  and adds parity packets; a decoder rebuilds what was lost from whatever arrives late, twice, in
  the wrong order or not at all. It exists twice: the live version (`faketcp/fec.go`) keeps one
  ordered queue; the second (`faketcp/fecv2`) keeps a map of heaps and detects its parameters from
  the traffic.
- The **simulated TCP connection** (`tcp_linux.go`): sequence numbers that follow the peer's
  acknowledgements, a sharded table of flows, and around it the connection table of a listener
  (`faketcp/listener.go`) and the packet filter of the raw socket (`sockfilter.go`).

This project models both in Dafny and proves what they promise. `dafny verify dfyconfig.toml` checks
all of it.

## How it is built

Code that changes state step by step is a class whose methods are proved against a function of the
old state; the properties are then proved about these functions, for whole runs.

| part | files |
|---|---|
| numbers and bytes | `Arith`, `Serial`, `Numbering`, `Base`, `Sets` |
| the codec, its one law, an XOR instance | `Codec`, `XorCodec` |
| what an encoder puts on the wire | `Traffic`, `ShardCache`, `PacketNumbers`, `Encoder`, `TimedEncoder` |
| the queue decoder | `QueueDecoder`, `Recovery`, `Reference`, `QueueRefinement` |
| its runs | `ReferenceRuns`, `DrainOnce`, `Delivery`, `QueueRuns`, `Soundness`, `ExactlyOnce` |
| runs on which it fails | `FarPacket`, `Leftover` |
| the map decoder | `AutoTune`, `Detection`, `Tuning`, `ShardMap`, `ShardMapRuns`, `ShardMapRefinement`, `Agreement`, `AfterWrap` |
| the reading side of a connection | `Reader` |
| simulated TCP | `TcpFlow`, `TcpRuns`, `FlowTable`, `FlowRuns`, `FlowTimes`, `SocketFilter` |
| the listener | `ListenerTable` |

The Reed-Solomon library is a value `Codec` with two functions and one law, `Codec.Erasure`:
equal-length, non-empty data shards always encode, and any `data` shards of the code word determine
the data shards. `XorCodec.XorIsErasure` shows that the law can be met.

A packet is named by its group and its position in the group (`Numbering.Idx`). `Traffic.Sender` is
everything given to one encoder; `Sent(i)` is the packet at index `i`. The wire shows the running number
reduced at a wrap point. Arrivals are sequences of indices, so that loss, repetition and reordering are
simply other sequences.

`Reference.Receive` is a decoder over sets of indices: no queue order, no serial arithmetic, no search
window, no caches. The queue decoder is proved equal to it step by step; the theorems about runs are
then about sets.

## What holds and what does not

- End to end, with less parity than data and arrivals in order, the reader gets exactly what it is owed,
  each payload once and byte for byte, whatever was lost or evicted. With at least as much parity as
  data some payload is handed over twice; the two cases are shown to be exactly `parity >= data`.
- Groups whose payloads are all empty are never handed out from recovery, because the code passes over
  shards of at most two bytes. `Owed` says so (`Lively`).
- With less parity than data and no packet arriving twice, neither decoder returns the shard of a packet
  twice, in any order. The reader can still get a payload twice: once rebuilt and once from its packet
  that came late. The exact count is arrivals plus recoveries.
- The queue decoder works when every arrival is *near* the packets queued. `Numbering.NearExact` shows
  that near packets are exactly those for which the decoder's comparisons come out as send order wants.
  Packets less than 2^31 − 3n sends apart are near (n is the group size), and so are all packets below
  number 2^31; 2^31 − 2n is enough to compare two packets but not for the test against the end of a
  group. `FarPacket` shows, for any stream, a run in order on which an old packet in front of the queue
  hides a whole group, and a payload that is owed is never handed over. An encoder and a decoder on which
  this happens are built with XOR parity; with five data and three parity shards it happens less than
  2^31 − 2n sends apart.
- Recovery is sound for arrivals in any order unless a packet of an earlier pass through the sequence
  numbers is still queued in the arriving packet's group. `Leftover.LeftoverCorrupts` gives the run of an
  encoder on which such a packet makes the decoder hand out a payload that was never sent: what arrives is
  on the wire a run of another stream, whose payload it is. Arrivals less than one pass apart are shown
  never to meet a leftover.
- A failure of the codec makes the live encoder skip the numbers of the parity it does not send. After f
  failures, before the numbers wrap, groups start in step with the decoder exactly if f · parity is a
  multiple of the group size. The second encoder stays in step in every branch.
- The map decoder agrees with the queue decoder until the numbers wrap. After the wrap it compares group
  numbers, which start at 0 again, and refuses everything up to the last group of the new pass.
  `AfterWrap.DecodersDisagree` gives, for every stream that gets past the wrap, a run in order and in reach
  on which the queue decoder returns the lost packet and the map decoder, new at the start, returns nothing.
- Detection is right at every moment of a stream, with whatever was lost, repeated or reordered, unless
  packet 0 was lost and packet 1 was not: then it never finds the stream's parameters, and takes a stream
  with d data shards for one with d − 1.
- Any map decoder whose parameters are not the stream's starts to tune within twice the smaller group size of
  packets without loss. A new one that gets the first 258 packets of a stream without loss has the stream's
  parameters then, and keeps them whatever is lost later.
- The sample buffer takes in block after block of a stream without loss. It takes in nothing any more once its
  first entry is more than 258 numbers behind or within 258 of 2^32.
- A map decoder that has started tuning stays silent for as long as detection confirms the parameters it
  already has. One packet of the wrong type starts tuning. Once the traffic is past the sample buffer, it
  is settled whether tuning ends at the next packet or never. A new decoder that joins a stream past its
  first 258 packets is silent for ever after one such packet.
- A flow keeps its place in the table exactly if every cleaning comes within 60 seconds of its last packet.
- A connection that is closed by the application, and whose ten seconds pass before the listener gets to
  register it, is listed after it was deleted. The entry is never removed: packets from that address go to
  the closed connection for ever.
- Closing a listener can finish exactly if every listed connection that was closed before is about to be
  deleted at once. One that waits for the timer keeps it from finishing if the timer has stopped. If rounds
  of the timer are still to come, it can finish exactly if no deleted connection is listed.

## Model

| member | source | states |
|---|---|---|
| `Serial.DiffIsSerialOrder` | faketcp/fec.go:223-225 | the signed difference is positive exactly when section 3.2 of RFC 1982 calls the first number smaller |
| `Serial.PawsAreWrapPoints` | faketcp/fec.go:378 | both encoders' wrap points are multiples of the group size n, at most 2n below 2^32 |
| `Serial.PawsExact` | faketcp/fecv2/fec.go:372 | the second encoder's wrap point is the largest multiple of n below 2^32, the live encoder's the one before |
| `Serial.WireOrderExact` | faketcp/fec.go:453-457 | two sends compare correctly on the wire if and only if the difference left by the reduction stays below 2^31 |
| `Serial.WireOrder` | faketcp/fec.go:447-457 | any two sends less than 2^31 − 2n apart compare correctly, across the wrap too |
| `Serial.GroupsSurviveWrap` | faketcp/fec.go:378 | no group straddles the wrap point |
| `Numbering.SeqIdIsReduced` | faketcp/fec.go:453-457 | the number a packet carries is its running number reduced at the wrap point |
| `Numbering.SeqIdParts` | faketcp/fec.go:447-457 | the number at position k of a group is congruent to k and lies below the wrap point with its whole group, so an encoder in step marks data exactly where the position asks for it |
| `Numbering.NearExact` | faketcp/fec.go:232-282 | the decoder's comparison of two packets, and its tests against both ends of the group, come out as send order wants if and only if the packets are near |
| `Numbering.CloseIsNear` | faketcp/fec.go:232-282 | packets less than 2^31 − 3n sends apart are near, wherever a wrap falls |
| `Numbering.LowIsNear` | faketcp/fec.go:232-282 | packets of one pass whose groups lie below number 2^31 are near at any distance |
| `Numbering.RangeTestExact` | faketcp/fec.go:280-282 | the two serial comparisons with the ends of a group accept exactly the numbers of that group |
| `XorCodec.XorIsErasure` | faketcp/fec.go:202-205 | a codec with one parity shard that meets the law assumed of the Reed-Solomon library |
| `Traffic.ParseWire` | faketcp/fec.go:213-222 | parsing a packet off the wire gives back what was written |
| `Traffic.WireParse` | faketcp/fec.go:213-222 | and writing what was parsed gives back the bytes |
| `Traffic.WireBytes` | faketcp/fec.go:447-456 | a packet byte by byte: number and type, lowest byte first, then the data |
| `Traffic.PaddedIsShardBytes` | faketcp/fec.go:417-428 | what the codec is given, byte by byte: length of the payload, lowest byte first, the payload, and zeros up to the longest |
| `Traffic.Sender.SentBytes` | faketcp/fec.go:447-456 | bytes 4 and 5 of a data packet are 0xf1 and 0, of a parity packet 0xf2 and 0; a data packet goes on with the length and the payload |
| `Traffic.PaddedShardHoldsPayload` | faketcp/fec.go:95-105 | a padded shard of any length gives its payload back through the length in front |
| `Traffic.Sender.SentInWord` | faketcp/fec.go:416-437 | padding a packet's data to the group's length gives its place in the code word; parity has that length already |
| `Traffic.Sender.WordHoldsPayload` | faketcp/fec.go:95-105 | every data shard of the code word gives back the payload it was made from |
| `Traffic.Sender.SentIsStable` | faketcp/fec.go:400-445 | payloads given later never change a packet already sent |
| `ShardCache.ClearedIsPadded` | faketcp/fec.go:417-428 | a reused row whose tail is cleared is the shard followed by zero bytes, whatever an earlier group left in it |
| `ShardCache.ReducedFollowsStream` | faketcp/fec.go:453-457 | numbering parity one by one with reduction gives the numbers of the stream |
| `ShardCache.GroupBuffer.Collect` | faketcp/fec.go:404-413 | a payload joins the group in the reused rows |
| `ShardCache.GroupBuffer.Encode` | faketcp/fec.go:416-431 | the parity is the codec's answer on the bytes of this group's payloads and zeros up to the longest (`Traffic.ShardBytes`), nothing else |
| `ShardCache.GroupBuffer.Emit` | faketcp/fec.go:416-442 | the parity packets of the group, with their numbers and types, and the number after them |
| `PacketNumbers.NumbersFollowStream` | faketcp/fec.go:447-457 | without a failure of the codec the numbers given out are those of the stream |
| `PacketNumbers.NumbersCountSent` | faketcp/fec.go:431-437 | until the wrap they count all packets but the parity of the groups that failed |
| `PacketNumbers.InStepIff` | faketcp/fec.go:431-437 | after f failures a group starts at position f · data, and in step if and only if f · parity is a multiple of the group size |
| `PacketNumbers.EvenFailuresAlign` | faketcp/fec.go:431-437 | with as much parity as data an even number of failures brings the numbers back in step |
| `Encoder.NewEncoder` | faketcp/fec.go:370-396 | no encoder for shard counts that are not positive or have no codec; otherwise one that starts the stream at number 0, with the live wrap point |
| `Encoder.FecEncoder.Encode` | faketcp/fec.go:400-445 | one payload becomes a data packet with the next number, and at the end of a group its parity with the numbers that follow; the next number is determined by the payloads and the codec's failures so far |
| `Encoder.FecEncoder.EncodeData` | faketcp/fec.go:29-46 | what is sent for a payload are exactly the stream's packets at the positions reached |
| `TimedEncoder.NewTimedEncoder` | faketcp/fecv2/fec.go:364-389 | the same, with the larger wrap point |
| `TimedEncoder.TimedFecEncoder.Encode` | faketcp/fecv2/fec.go:393-474 | one payload becomes the next data packet of the stream, and a group its parity; in step whether parity is sent, the codec fails or the group is not continuous |
| `QueueDecoder.NewDecoder` | faketcp/fec.go:189-211 | no decoder for shard counts that are not positive or have no codec, or a limit below the group size; otherwise an empty one |
| `QueueDecoder.Decoder.FindPlace` | faketcp/fec.go:229-240 | the backward search finds the place or the duplicate that the specification names |
| `QueueDecoder.Decoder.Collect` | faketcp/fec.go:277-296 | the assembly loop leaves in the caches what the specification collects |
| `QueueDecoder.PadShards` | faketcp/fec.go:303-309 | every shard that arrived gets zero bytes up to the longest; missing ones stay empty |
| `QueueDecoder.ForCodecBytes` | faketcp/fec.go:303-309 | the same byte by byte |
| `QueueDecoder.Recover` | faketcp/fec.go:310-316 | the codec's answer at exactly the positions that had not arrived |
| `QueueDecoder.Decoder.Decode` | faketcp/fec.go:228-329 | the queue and the recovered shards are those of the specification `Plan` |
| `Recovery.TooFewGiveNothing` | faketcp/fec.go:301-318 | fewer than `data` shards of a group recover nothing |
| `Recovery.EnoughGiveMissing` | faketcp/fec.go:301-318 | `data` or more shards of a group recover exactly its missing data shards as the encoder padded them |
| `QueueRefinement.ScanFindsPlace` | faketcp/fec.go:229-249 | in a queue in send order a new packet goes where send order wants it, and duplicates are found |
| `QueueRefinement.WindowCoversGroup` | faketcp/fec.go:255-263 | the search window holds every queued packet of the group |
| `QueueRefinement.WindowIsAGroup` | faketcp/fec.go:255-263 | of no queue whatever are more than n packets looked at or collected |
| `QueueRefinement.WindowCollectsGroup` | faketcp/fec.go:265-296 | the windowed assembly equals picking the group out of the whole queue |
| `QueueRefinement.BlockRemoved` | faketcp/fec.go:332-341 | taking a block out removes precisely that group and leaves the rest in order |
| `QueueRefinement.QueueStepRefines` | faketcp/fec.go:228-329 | one packet: the queue stays in send order without repeats, within the limit, with no complete group; it keeps and hands out what the set decoder does |
| `Reference.ReceiveSettles` | faketcp/fec.go:298-328 | after every packet no group has `data` packets left and the limit holds |
| `Reference.ReceiveConserves` | faketcp/fec.go:320-328 | nothing is lost but the earliest packet, and only when a packet that completes nothing arrives at a full queue |
| `ReferenceRuns.CurrentGroupEvolves` | faketcp/fec.go:298-328 | eviction never touches the group being received; it goes out exactly when it reaches `data` packets |
| `ReferenceRuns.HandsOverOnce` | faketcp/fec.go:228-329 | arrivals in order hand over exactly what is owed, each index once, whatever is lost or evicted |
| `DrainOnce.TakenAtMostOnce` | faketcp/fec.go:298-318 | any decoder that only keeps or takes out what arrived, and takes out `data` or more packets of one group at a time, takes each group out at most once when no packet repeats and parity < data |
| `DrainOnce.DrainedAtMostOnce` | faketcp/fec.go:298-318 | so does the set decoder of the queue, in any order and with any evictions; `QueueRuns.QueueDrainsOnce` says it of `Decode` |
| `DrainOnce.RebuiltAtMostOnce` | faketcp/fec.go:298-318 | and it rebuilds nothing twice |
| `DrainOnce.HandedOverTwice` | faketcp/fec.go:298-318 | with as much parity as data, a lossless group is handed over twice |
| `ExactlyOnce.RepeatsIffParityReachesData` | faketcp/fec.go:228-329 | some run hands a payload over twice if and only if parity >= data |
| `Delivery.FeedGenuine` | faketcp/fec.go:82-117 | a genuine packet never stops the program and hands over its payload and those rebuilt |
| `Delivery.FeedStopsIff` | faketcp/fec.go:82-117 | on any bytes whatever the program stops exactly if they are no packet of either type with room for its length, or a recovered shard's length field does not fit it |
| `Delivery.LivelyMeansNonEmpty` | faketcp/fec.go:96-98 | the groups whose rebuilt shards are not passed over are exactly those with a payload that is not empty |
| `Delivery.RunDelivers` | faketcp/fec.go:58-117 | any run in reach: the queue and everything handed over are those of the set decoder |
| `Delivery.CloseRunInReach` | faketcp/fec.go:228-329 | arrivals sent less than 2^31 − 3n apart are such a run |
| `Delivery.EndToEnd` | faketcp/fec.go:21-117 | encoder to reader: exactly the payloads owed, each once, byte for byte |
| `QueueRuns.QueueRunIsExact` | faketcp/fec.go:228-329 | any run in reach: the queue holds what the set decoder holds, and all that `Decode` returned are exactly the shards it rebuilds |
| `QueueRuns.QueueRecoversOnce` | faketcp/fec.go:228-329 | with less parity than data and no repeats, `Decode` never returns the shard of a packet twice, in any order |
| `QueueRuns.QueueDrainsOnce` | faketcp/fec.go:298-318 | under the same conditions `Decode` takes each group out of its queue at most once |
| `QueueRuns.HandedCount` | faketcp/fec.go:82-117 | in any order a data packet is handed over as often as it arrived and was rebuilt together |
| `QueueRuns.DeliveredCount` | faketcp/fec.go:58-117 | so the reader gets a payload twice exactly if its packet arrived and it was rebuilt as well |
| `FarPacket.FarPacketHidesGroup` | faketcp/fec.go:277-282 | a run in order on which an old packet that tests as behind the group hides it: a payload owed is never handed over |
| `FarPacket.FarPacketExists` | faketcp/fec.go:251-282 | an encoder with XOR parity and a decoder on which this happens, for any payload that is not empty |
| `FarPacket.FarPacketWithinTwoGroups` | faketcp/fec.go:251-282 | with five data and three parity shards and the live wrap point it happens less than 2^31 − 2n sends apart |
| `Soundness.SoundStep` | faketcp/fec.go:278-318 | for any queue of genuine packets in any order, a packet recovers only data shards of its own group |
| `Soundness.SoundRun` | faketcp/fec.go:228-329 | under any loss, order, repetition and interleaving every payload handed over is one that was sent, and the program does not stop |
| `Soundness.OnePassHasNoLeftover` | faketcp/fec.go:228-329 | arrivals less than one pass through the numbers apart meet no leftover, so for them recovery is sound without a further condition |
| `Leftover.LeftoverCorrupts` | faketcp/fec.go:282-285 | a run of two packets of an encoder, one pass apart: the reader gets a payload mixed from both passes, right if and only if the leftover equals the lost payload |
| `Leftover.LeftoverExists` | faketcp/fec.go:282-285 | there is such an encoder and decoder, for any bytes |
| `Leftover.SameOnTheWire` | faketcp/fec.go:213-222 | what arrives in that run is on the wire a run of another stream, in which the leftover belongs to the group |
| `AutoTune.Tuner.Sample` | faketcp/fecv2/autotune.go:40-45 | the buffer after a sample |
| `AutoTune.Tuner.FindPeriod` | faketcp/fecv2/autotune.go:62-97 | the two loops compute the specified period |
| `AutoTune.PeriodIsRun` | faketcp/fecv2/autotune.go:62-97 | on any buffer, a positive answer is given exactly for a run of the level with consecutive numbers ended by a real edge |
| `AutoTune.DataShardsFound` | faketcp/fecv2/autotune.go:62-97 | a buffer of a d/p stream from any phase answers d, if the run after the first rise lies in it |
| `AutoTune.ParityShardsFound` | faketcp/fecv2/autotune.go:62-97 | and answers p |
| `AutoTune.StreamIsRecognised` | faketcp/fecv2/autotune.go:40-97 | a whole block of samples without loss gives d and p for every phase with 2d + p and d + 2p below 258 |
| `AutoTune.SampleExact` | faketcp/fecv2/autotune.go:40-45 | which numbers change the buffer: those from its first entry to 258 further, none within 258 of 2^32; and only the place of the number modulo 258 |
| `AutoTune.EveryBlockIsHeld` | faketcp/fecv2/autotune.go:40-45 | a new detector that is offered a stream without loss holds each block of 258 packets in turn, up to the end of the numbers |
| `AutoTune.EveryBlockIsRecognised` | faketcp/fecv2/autotune.go:40-97 | and answers d and p at the end of every block |
| `AutoTune.SamplingStops` | faketcp/fecv2/autotune.go:40-45 | traffic of none of these numbers, over any run, leaves the buffer unchanged: more than a block past the first entry, or wrapped |
| `Detection.BothAnswersAreWhole` | faketcp/fecv2/autotune.go:62-97 | on any buffer, when both levels are answered each answer is the length of a whole run, between two real edges |
| `Detection.AnswersExactly` | faketcp/fecv2/autotune.go:62-97 | at every moment of a stream, with any loss, repetition and order and across the wrap, two answers are its d and p, unless packet 0 is missing before packet 1; then they are d − 1 and p |
| `Detection.NeverMisled` | faketcp/fecv2/fec.go:193-220 | over any run of a stream's packets on which that never happens, a new decoder has its own parameters or the stream's |
| `Detection.LosingFirstMisleads` | faketcp/fecv2/autotune.go:62-97 | the first group without its first packet gives d − 1 and p |
| `Detection.LosingFirstReached` | faketcp/fecv2/autotune.go:40-45 | sampling packets 1 to d + p from the start leads there |
| `Detection.MisledDecoder` | faketcp/fecv2/fec.go:193-220 | and a tuning decoder adopts these parameters, which are not the stream's |
| `Tuning.TuningStartsIff` | faketcp/fecv2/fec.go:174-192 | tuning starts exactly at a packet whose type is not 0xf1 at a data position or not 0xf2 at a parity position; it is not stored |
| `Tuning.TuningStopsIff` | faketcp/fecv2/fec.go:193-220 | and stops exactly when the buffer shows other parameters from 1 to 255 and their codec can be built |
| `Tuning.OtherParametersShow` | faketcp/fecv2/fec.go:184-192 | from any number on, two different pairs of parameters want different types within twice the smaller group size |
| `Tuning.NoticesOtherParameters` | faketcp/fecv2/fec.go:174-192 | so any decoder with parameters that are not the stream's starts to tune within that many packets without loss |
| `Tuning.LearnsStream` | faketcp/fecv2/fec.go:174-220 | a new decoder with any parameters that gets the first 258 packets of a stream without loss has the stream's parameters and their codec, and keeps them over any run that follows |
| `ShardMap.NewShardDecoder` | faketcp/fecv2/fec.go:152-171 | no decoder for shard counts that are not positive or have no codec; otherwise a new one |
| `ShardMap.ShardDecoder.TuneParameters` | faketcp/fecv2/fec.go:193-220 | the parameters, heaps, codec and caches after detection, including a codec that cannot be built |
| `ShardMap.ShardDecoder.DrainHeap` | faketcp/fecv2/fec.go:246-305 | the shards a complete heap gives, and the heap emptied |
| `ShardMap.ShardDecoder.FlushShards` | faketcp/fecv2/fec.go:327-337 | exactly the groups more than three behind are removed |
| `ShardMap.ShardDecoder.Decode` | faketcp/fecv2/fec.go:174-319 | the state and the recovered shards are those of the specification `Step` |
| `ShardMapRuns.EmptiedIsNew` | faketcp/fecv2/fec.go:111-127 | popping everything leaves a heap as good as new, marks included |
| `ShardMapRuns.StepKeepsOrder` | faketcp/fecv2/fec.go:174-337 | every packet whatever keeps the state orderly: live groups within three of the newest, incomplete heaps of their own group with matching marks, codec and caches that fit unless tuning |
| `ShardMapRuns.RunKeepsOrder` | faketcp/fecv2/fec.go:174-337 | so does every run, and the newest group never goes back |
| `ShardMapRuns.StorageIsBounded` | faketcp/fecv2/fec.go:327-337 | at most four heaps and four times `data − 1` packets are ever stored |
| `ShardMapRuns.OutdatedExact` | faketcp/fecv2/fec.go:221-225 | a packet is refused as outdated if and only if its group number is smaller than the newest |
| `ShardMapRuns.StaleRunIsSilent` | faketcp/fecv2/fec.go:221-225 | a run of such packets recovers nothing and leaves no trace but samples |
| `ShardMapRuns.TuningEnds` | faketcp/fecv2/fec.go:193-220 | tuning ends if and only if other parameters are detected and their codec can be built |
| `ShardMapRuns.ConfirmedTuningNeverEnds` | faketcp/fecv2/fec.go:193-220 | while detection confirms the present parameters a tuning decoder stays silent, over any run |
| `ShardMapRuns.TuningEndsNowOrNever` | faketcp/fecv2/fec.go:193-220 | once the traffic is past the sample buffer, tuning ends at the next packet if and only if other parameters are detected now and their codec can be built; otherwise the decoder is silent for good |
| `ShardMapRuns.OneWrongPacketSilences` | faketcp/fecv2/fec.go:174-220 | a new decoder on traffic past the first 258 numbers: after one packet of the wrong type nothing is ever recovered again, whatever follows |
| `ShardMapRuns.AdoptsStream` | faketcp/fecv2/fec.go:193-220 | a tuning decoder whose buffer holds a stream adopts that stream's parameters |
| `ShardMapRefinement.FirstPassIff` | faketcp/fecv2/fec.go:322-324 | for how many groups the group number is the group's index |
| `ShardMapRefinement.YieldIsMissing` | faketcp/fecv2/fec.go:246-305 | a complete heap of genuine packets gives exactly the data packets it lacks |
| `ShardMapRefinement.ShardStepRefines` | faketcp/fecv2/fec.go:174-319 | one genuine packet before the wrap, in any order: the map decoder keeps and hands out what a set decoder does |
| `Agreement.MapRunIsExact` | faketcp/fecv2/fec.go:174-319 | whole runs before the wrap, in any order, repeated or lost: exactly the missing shards of the groups completed, nothing else |
| `Agreement.DecodersAgree` | faketcp/fecv2/fec.go:174-319 | for packets in order before the wrap both decoders hand out the same shards at every packet |
| `Agreement.FirstHalfInReach` | faketcp/fec.go:232-282 | groups below number 2^31 are in reach of each other, in any order |
| `Agreement.DecodersAgreeInFirstHalf` | faketcp/fecv2/fec.go:174-319 | so there both decoders agree at every packet of every run in order |
| `Agreement.MapDrainsOnce` | faketcp/fecv2/fec.go:243-305 | the map decoder too takes each group out at most once when no packet repeats and parity < data |
| `Agreement.MapRecoversOnce` | faketcp/fecv2/fec.go:174-319 | so the map decoder never returns the shard of a packet twice, in any order |
| `AfterWrap.LaterPassIsLost` | faketcp/fecv2/fec.go:221-225 | from any state, genuine packets recover nothing until they reach the newest group number |
| `AfterWrap.NextPassAddsNothing` | faketcp/fecv2/fec.go:221-225 | from a new decoder: after any arrivals of the first pass, packets of a later pass below the newest group number add nothing |
| `AfterWrap.DecodersDisagree` | faketcp/fecv2/fec.go:221-225 | for every stream past the wrap, parameters and codec, a run in order and in reach: the queue decoder returns the lost packet, the new map decoder nothing |
| `AfterWrap.DisagreementExists` | faketcp/fecv2/fec.go:221-225 | there is such a stream for every decoder and wrap point |
| `Reader.FecConn.Push` | faketcp/listener.go:117-125 | a packet is queued and the time noted, or counted as dropped when the channel is full |
| `Reader.FecConn.QueueRecovered` | faketcp/fec.go:94-114 | every recovered payload is queued; the channel is never full |
| `Reader.FecConn.DecodeData` | faketcp/fec.go:58-80 | the next payload, waiting ones first, and exactly which received packets were decoded for it |
| `Reader.NonEmptyOneMore` | faketcp/fec.go:69-71 | empty packets are passed over and nothing else is |
| `Reader.FecConn.Read` | faketcp/listener.go:61-115 | for any buffer sizes, the bytes returned with those left over are the payloads delivered; the buffer is filled or nothing is left |
| `Reader.ReaderGetsStream` | faketcp/listener.go:61-115 | together with the end-to-end theorem: a connection's reader gets the payloads it is owed as one stream of bytes |
| `TcpFlow.Flow.Receive` | tcp_linux.go:385-410 | how a segment moves the two numbers of a flow |
| `TcpFlow.MovesExactly` | tcp_linux.go:385-410 | only an acknowledgement moves an end's number, and only a SYN or the data expected moves what it expects |
| `TcpFlow.Flow.Send` | tcp_linux.go:537-591 | the numbers written and the number after them; a failed write changes nothing |
| `TcpFlow.HandshakeSyncs` | tcp_linux.go:385-394 | a handshake leaves both ends in step, a SYN counting as one number as in section 3.4 of RFC 9293 |
| `TcpFlow.DeliveryKeepsSync` | tcp_linux.go:372-413 | a segment that arrives at once keeps ends in step |
| `TcpFlow.ExchangeResyncs` | tcp_linux.go:372-413 | from any numbers on both sides one segment each way brings both directions back in step |
| `TcpFlow.OneWayResyncs` | tcp_linux.go:372-413 | one segment alone does so exactly if its receiver expected it or had it already |
| `TcpFlow.LossTakesSenderBack` | tcp_linux.go:582-590 | after a burst with any losses the receiver expects the end of the segments before the first loss, and the next reply takes the sender back there |
| `TcpRuns.RunTracks` | tcp_linux.go:372-413 | over any loss, repetition and reordering within 2^32 numbers: acknowledgements only advance, end an unbroken chain of segments really sent, and never pass what was sent |
| `TcpRuns.SyncedStartTracks` | tcp_linux.go:385-394 | ends in step with nothing under way are where every such run may start |
| `TcpRuns.BothDirectionsTrack` | tcp_linux.go:372-413 | the same for both directions of one run at once |
| `FlowTable.Table.GetFlow` | tcp_linux.go:190-202 | lookup in the sharded tables is lookup in one map |
| `FlowTable.Table.LockFlow` | tcp_linux.go:205-227 | so is lookup with creation; a new flow has no connection |
| `FlowTable.Table.Touch` | tcp_linux.go:383-384 | a packet renews the flow's time and nothing else |
| `FlowTable.Table.Bind` | tcp_linux.go:1025-1025 | an accepted connection is recorded in the flow |
| `FlowTable.CleanedExactly` | tcp_linux.go:230-266 | a cleaning keeps exactly the keys whose flow had a packet in the last 60 seconds and closes exactly the connections bound to the others |
| `FlowTable.Table.Clean` | tcp_linux.go:230-266 | the cleaner does this to every shard |
| `FlowTimes.KeptIff` | tcp_linux.go:230-266 | over any run of lookups, packets, bindings and cleanings a key keeps its flow if and only if every cleaning comes within 60 seconds of the flow's last packet |
| `FlowTimes.FreshFlowStays` | tcp_linux.go:230-266 | with a clock that does not go back, a flow with a packet in the 60 seconds before every cleaning is never removed |
| `FlowTable.Table.CloseAll` | tcp_linux.go:612-622 | closing empties every shard and closes every connection bound |
| `FlowRuns.RunSafe` | tcp_linux.go:372-439 | in every interleaving of packets, accepted connections and clean-ups a payload is queued only if a connection was recorded in the flow it found, for that peer |
| `FlowRuns.PacketQueuedIff` | tcp_linux.go:372-436 | in every interleaving a packet's payload is queued exactly once, under its own key and flow, if PSH is set and the flow is bound when it is used, and otherwise never |
| `FlowRuns.RemovalRevokes` | tcp_linux.go:230-266 | once a flow is removed, a later packet of that peer is queued only after a new connection was recorded |
| `FlowRuns.LookupIsLockFlow` | tcp_linux.go:205-227 | the lookup of these runs is what `LockFlow` does to the table |
| `FlowRuns.FinishIsBindOrTouch` | tcp_linux.go:372-413 | finishing a task is `Bind` or `Touch` |
| `FlowRuns.RemoveIsClean` | tcp_linux.go:230-266 | removing the keys without a packet in the last 60 seconds is `Clean`, and all keys `CloseAll` |
| `ListenerTable.EventOk` | faketcp/listener.go:158-176 | whatever happens in whatever order, a registered connection that was not deleted is the one listed under its address |
| `ListenerTable.RemovesOnlyDeleted` | faketcp/listener.go:489-533 | no late deletion, by timer or expiry, ever removes a younger connection from the same address |
| `ListenerTable.StaleExactly` | faketcp/listener.go:451-487 | a deleted connection gets listed only if the timer deletes it between its offer and its registration |
| `ListenerTable.StaleForEver` | faketcp/listener.go:497-533 | and is then never removed, over any run |
| `ListenerTable.StaleReached` | faketcp/listener.go:451-487 | a run from an empty listener on which this happens |
| `ListenerTable.DeletedAfterDeadline` | faketcp/listener.go:509-517 | over any run a closed connection that waits stays listed if and only if no round of the timer came after its deadline; otherwise it is deleted for good |
| `ListenerTable.CloseAllFinishesIff` | faketcp/listener.go:367-384 | closing all connections, with anything but the timer in between, can finish if and only if every listed connection closed beforehand is about to be deleted at once; with rounds of the timer too, if and only if no deleted connection is listed |
| `ListenerTable.RoundIsClose` | faketcp/listener.go:367-375 | a round of closing all is a close begun and ended, and nothing at all for a connection closed before |
| `ListenerTable.OpenEntriesGo` | faketcp/listener.go:367-384 | if none was closed beforehand it takes one round per connection, whichever is picked |
| `ListenerTable.ConnTable.Receive` | faketcp/listener.go:451-487 | a packet finds its connection, or makes, offers and registers one if the channel has room |
| `ListenerTable.ConnTable.Close` | faketcp/listener.go:158-176 | a connection is closed once, and deleted at once or to be deleted ten seconds later |
| `ListenerTable.ConnTable.DelayTick` | faketcp/listener.go:509-517 | exactly the connections whose time has come are deleted |
| `ListenerTable.ConnTable.CollectExpired` | faketcp/listener.go:518-530 | the first phase of expiry lists exactly the connections without a packet in the last 60 seconds, and those can be closed at once |
| `SocketFilter.FilterIsExact` | sockfilter.go:14-26 | the nine instructions let through exactly the packets with byte 9 equal to 6, no fragment offset in bytes 6 and 7, and the port's two bytes in network order behind a header of any length |
| `SocketFilter.FilteredPacketsPass` | tcp_linux.go:301-351 | a packet let through that starts with a valid IPv4 header is cut inside the packet, and the port's two bytes are where the check that follows looks |
| `SocketFilter.ShortPacketsAreFiltered` | tcp_linux.go:316-328 | a packet shorter than its header claims is never let through |

## Left out

- Raw sockets, dialling and listening, iptables rules, TTL and DSCP settings, batch reads, serialisation and checksums of segments: calls into the kernel and libraries.
- Galois-field arithmetic of the Reed-Solomon library: only its law is used.
- Real time: deadlines, tickers and the `rto` test of the second encoder are parameters.
- The sharing of packet buffers through the pool, and that returned parity slices change at the next call: values are copied in the model.
- The queue is a sequence that methods reassign; the shifting of elements inside the Go slice is not modelled step by step. The heaps of the second decoder are values in a map.
- `shardHeap` never calls the heap operations of the library, so its elements are a stack; the model has a stack.
- Counters and statistics, other than the bytes dropped by a full channel.
- The read path without error correction, and the client's `Read`, which keeps no left-over bytes.
- IPv6 addresses. The mask that picks a flow's shard is modelled as a remainder, which is the same for the shard counts in use (1 and 8).
- The classic BPF interpreter covers the instructions of the program; its bit test covers masks of low bits.
- Errors of `send` in `EncodeData`: the model returns what is to be sent.
- TimedEncoder.TimedFecEncoder.Encode: its row buffers have the size of the live version's; packets are limited to 1500 bytes as in the source.
- Reader.FecConn.DecodeData: a call that would wait for a packet returns `Waiting` instead, with everything it did so far kept.
- TcpRuns.RunTracks: holds while less than 2^32 numbers lie between the first position and the furthest one sent; beyond that a repeated old segment can carry the expected number again.
- Agreement.DecodersAgree: holds before the sequence numbers wrap; `AfterWrap.DecodersDisagree` shows that it fails after.
