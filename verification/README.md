# Verified models of the streaming library's core

Dafny models of the parts of the library whose correctness is not obvious from reading them, with
proofs of what they promise. `dafny verify dfyconfig.toml` checks everything.

- **`SingleItem`** (`SingleItemProtocol.dfy`, `SingleItemTheorems.dfy`, `SingleItemBlocking.dfy`,
  `SingleItem.dfy`). The triple
  buffer as a machine of one writer, one reader and a stopper in which each atomic load, store,
  compare-and-swap, wait and notify is a step (`Step`, over `WriterPc`, `ReaderPc`, `StopperPc`);
  `compare_exchange_weak` may fail spuriously and a parked reader may wake spuriously. Every run
  writes a log of commits, takes and returns; the specification is the set of legal logs of an
  atomic register with a fresh bit. The class has the source's fields and non-blocking methods;
  `SoloWrite` and `SoloRead` show that the machine run alone does exactly what they do. What blocking
  reads promise is proved of the machine.
- **`RingBuffer`** (`RingBufferProtocol.dfy`, `RingBufferTheorems.dfy`, `RingBufferBlocking.dfy`,
  `RingBuffer.dfy`). The single-producer single-consumer queue in the same way, with `read_latest`,
  `clear`, blocking reads and `stop`, refined to a FIFO through a ledger of everything written and
  everything that left.
- **Clock synchronisation** (`TimeSyncEstimator.dfy`, `TimeSyncProtocol.dfy`, `TimeSyncDrift.dfy`,
  `TimeSync.dfy`). The interval-merging estimator over unbounded integers; the UDP protocol around it,
  in which packets are lost, duplicated, delayed and reordered at will, true times and offsets are real
  numbers and clocks show whole microseconds; the estimate under drift, with exact conditions; and
  `process_ingest_buffer` as a method with the source's signed and unsigned 64-bit expressions, proved
  equal to the estimator.
- **Keyframe gate** (`FrameGate.dfy`, `FrameOutputs.dfy`). The depth and colour threads of the streaming
  client, end to end over any delta codec that keeps a synchronisation relation, with one sender for each
  serial number, and which messages are written out, told by the messages alone.
- **CBOR** (`CborBytes.dfy`, `Cbor.dfy`, `CborBuffer.dfy`, `CborDecoder.dfy`, `CborExamples.dfy`). RFC
  8949 items as bytes (section 3) in their shortest form, the type-directed encoding and decoding, the
  encoder writing into a buffer whose size is guessed, and the decoding loops.
- **Publish/subscribe** (`PubSub.dfy`). Multipart framing, header bytes, sequence ids, prefix routing.
- **`LinearCongruentialGenerator`** (`Lcg.dfy`). The full-period theorem for modulus 2^k by induction
  on k, instantiated at 2^32, and selection sampling.
- **`RunningStat`** (`RunningStat.dfy`), **RGB-D** (`Rgbd.dfy`), **embedding files** (`EmbedFiles.dfy`),
  **periodic triggering** (`ActionPeriod.dfy`). Shared notions are in `Options.dfy`, `Words.dfy` and
  `Subsequences.dfy`.

## Where the code and its promises differ

- `RunningStat`: after `Clear` and one `Push`, `m_newS` still holds the sum from before the `Clear`.
  `NewSIsExactIff` says after which histories it is right and `NewSCanBeStale` gives one where it is not.
  `Variance` never shows it.
- Clock synchronisation: with a drifting offset the upper bound can miss the true offset
  (`UpperBoundCanMiss`, at the starting rate), because the server may have read its clock before the
  midpoint of the round trip. `UpperHoldsIff` and `MergedUpperHoldsIff` are the exact conditions,
  `DriftingOffsetIsEnclosed` bounds the miss.
- The adaptation of the drift rate can reach 0 (`RateCanReachZero`), and then no doubling leaves it;
  `ProgressIff` says exactly when an estimate still comes, and `ZeroCanBeStuck` gives a window where
  none does.
- Publish/subscribe: a message without frames leaves its multipart message open and swallows the next
  one. `StreamParsesBackIffFramed` is the exact condition.
- CBOR: `serialize_cbor` into a resized buffer fails when frames are too small for their heads;
  `EstimateFitsIff` is the exact condition for lists of frames. It also fails for an 8-bit number that takes
  two bytes and a text of fewer than two (`NumberFitsIff`, `StringFitsIff`). A struct field that is missing from a map is logged but not
  reported, and ends the struct (`MissingFieldEndsQuietly`, `NoneIsAbsentIff`).
- RGB-D: the interface says that points outside the image are coloured (0,0,0), but coordinates between
  -1 and 0 truncate to 0 and count as inside (`ColourOfProjected`, `PointOutsideIsColoured`).
- Sampling: the header says the indices range up to `out.size()`; the code ranges up to
  `collection_size` (`RangeHoldsIff`, `IndexCanPassOutSize`).

## Model

| member | source | states |
|---|---|---|
| SingleItemProtocol.FlipExchangesRoles | concurrency/single_item.h:16-30 | in every state the transition table gives distinct roles; a write exchanges the W and 0 slots and a read the R and 0 slots, leaving the other side's slot alone |
| SingleItemProtocol.StepKeepsInv | concurrency/single_item.h:35-152 | every atomic step of writer, reader or stopper, including spurious exchange failures and wake-ups, keeps the protocol invariant (slot ownership, legal log, wake-up accounting) |
| SingleItemProtocol.RunKeepsInv | concurrency/single_item.h:35-152 | so does every interleaving |
| SingleItemTheorems.ReachableInv | concurrency/single_item.h:155-159 | the invariant holds in every state reachable from the initial members |
| SingleItemTheorems.SlotsAreExclusive | concurrency/single_item.h:16-30 | the slot the writer may touch is never the slot the reader may touch |
| SingleItemTheorems.RunsAreLegal | concurrency/single_item.h:63-71 | every run's log is a history of an atomic register with a fresh bit: each read returns exactly what its exchange found there |
| SingleItemTheorems.LegalIsAccounted | concurrency/single_item.h:132-152 | in a legal log the register holds the newest commit since the last take, and nothing when there was none |
| SingleItemTheorems.DeliveredInOrderOnce | concurrency/single_item.h:63-81 | items received are committed items, in strictly increasing commit order: none twice, none out of order |
| SingleItemTheorems.ReadReturnsNewest | concurrency/single_item.h:94-115 | a read succeeds if and only if some write committed between the last delivered item and the read's exchange, and then returns the newest |
| SingleItemTheorems.EveryReadReturnsNewest | concurrency/single_item.h:63-115 | the same for every read that returns an item or none in any run; what a blocking read may return is under SingleItemBlocking |
| SingleItemTheorems.BuffersAreConserved | concurrency/single_item.h:56-61 | with swap_write and swap_read only, the multiset of buffers in the slots and the two callers' hands never changes |
| SingleItemTheorems.NoLostWakeup | concurrency/single_item.h:94-121 | whenever a reader is parked and an item or a stop is there for it, its counter value is stale with a notify due, or someone is between publishing and increasing the counter |
| SingleItemTheorems.FinishingTheCallWakes | concurrency/single_item.h:83-121 | in each such state, finishing that one call unparks the reader, which then finds the counter changed |
| SingleItem.WritePublishes | concurrency/single_item.h:42-47 | a write makes its item the register's and leaves the reader's slot as it was |
| SingleItem.ReadConsumes | concurrency/single_item.h:63-71 | a read empties the register and leaves the writer's slot as it was |
| SingleItem.SoloWrite | concurrency/single_item.h:42-61 | the machine's write, run alone, has exactly the effect of the methods Write and SwapWrite |
| SingleItem.SoloRead | concurrency/single_item.h:63-81 | the machine's non-blocking read, run alone, has exactly the effect of Read and SwapRead, on a full and on an empty register |
| SingleItemBlocking.BlockingReadReturnsItemOrStop | concurrency/single_item.h:94-108 | whatever the other threads do, a blocking read has no result until it ends, and then exactly one: an item, or a report of a stop that has been called; it never gives up for want of an item |
| SingleItemBlocking.PlainReadNeverWaits | concurrency/single_item.h:109-115 | a non-blocking read never waits and never reports a stop: exactly one result, an item or none |
| SingleItemBlocking.StopReportsAreTrue | concurrency/single_item.h:98-98 | in every run a stop is reported only once it has been called |
| SingleItemBlocking.SoloStop | concurrency/single_item.h:83-87 | the machine's stop run alone has exactly the effect of the method, and notifies |
| SingleItemBlocking.SoloBlockingRead | concurrency/single_item.h:63-108 | a blocking read run alone reports a stop and touches nothing, returns and consumes the item of a full register, and parks on an empty one |
| SingleItemBlocking.BlockingReadWaits | concurrency/single_item.h:97-107 | on an empty register that is not stopped it never returns by its own steps, however often it wakes spuriously |
| SingleItemBlocking.WokenReaderReturns | concurrency/single_item.h:105-107 | a woken reader, alone, returns the item or reports the stop it was woken for |
| SingleItemBlocking.ParkedReaderReturns | concurrency/single_item.h:83-121 | in every run a parked reader with something to return for does return it once the one call that made it so is finished and it moves itself |
| SingleItem.SingleItem.BeginReadOrFinishWrite | concurrency/single_item.h:132-152 | the exchange loop ends after any number of spurious failures with one transition of the role table |
| SingleItem.SingleItem.FinishWrite | concurrency/single_item.h:117-121 | one write transition and one counter increment, nothing else |
| SingleItem.SingleItem.Write | concurrency/single_item.h:42-47 | the whole new state after a write |
| SingleItem.SingleItem.SwapWrite | concurrency/single_item.h:56-61 | likewise, returning what the write slot held |
| SingleItem.SingleItem.BeginRead | concurrency/single_item.h:109-114 | one read transition, and whether the register held something |
| SingleItem.SingleItem.Read | concurrency/single_item.h:63-71 | returns what the register holds if and only if it holds something, and empties it |
| SingleItem.SingleItem.SwapRead | concurrency/single_item.h:73-81 | likewise, leaving the caller's object in the slot |
| SingleItem.SingleItem.Stop | concurrency/single_item.h:83-87 | sets the flag and increases the counter, nothing else |
| RingBufferProtocol.FullAndEmpty | concurrency/ring_buffer.h:31-32 | full means size - 1 items, empty means none |
| RingBufferProtocol.AdvanceTailAppends | concurrency/ring_buffer.h:47-50 | advancing tail appends the item in its slot to the contents, at any wrap-around |
| RingBufferProtocol.MoveHeadDrops | concurrency/ring_buffer.h:94-101 | moving head by d drops exactly the d oldest items |
| RingBufferProtocol.StepKeepsInv | concurrency/ring_buffer.h:26-149 | every atomic step of producer, consumer or stopper keeps the invariant |
| RingBufferProtocol.RunKeepsInv | concurrency/ring_buffer.h:26-149 | so does every interleaving |
| RingBufferTheorems.ChecksNeverFire | concurrency/ring_buffer.h:47-49 | the CHECKs of end_write, end_read and block_until_stopped_or_nonempty cannot fire |
| RingBufferTheorems.SlotsAreExclusive | concurrency/ring_buffer.h:42-45 | the slot being written is never the slot being read |
| RingBufferTheorems.ItemsLeaveInOrder | concurrency/ring_buffer.h:42-149 | FIFO of capacity size - 1: the i-th item to leave is the i-th written, and the rest are the contents, in order |
| RingBufferTheorems.ReadsReceiveEverything | concurrency/ring_buffer.h:104-113 | a consumer that only calls read receives exactly the written items, in order, none skipped |
| RingBufferTheorems.LatestIsNewestAtItsLoad | concurrency/ring_buffer.h:90-96 | from read_latest's load of tail, whatever the other threads do meanwhile, it takes in hand the item that was newest then, and has dropped just the older ones, each marked as dropped |
| RingBufferTheorems.ClearKeepsLaterItems | concurrency/ring_buffer.h:146-149 | clear drops exactly the items written before its load of tail, each marked as dropped, and keeps the later ones |
| RingBufferTheorems.RefusalsAreTrue | concurrency/ring_buffer.h:42-93 | at its deciding loads a call gives up if and only if the queue is full or empty, or stopped is set; that a blocking call waits before it gets there is under RingBufferBlocking |
| RingBufferTheorems.NoLostWakeup | concurrency/ring_buffer.h:74-81 | a parked consumer with an item or a stop waiting has a notify due or a caller between publishing and the counter |
| RingBufferTheorems.FinishingTheCallWakes | concurrency/ring_buffer.h:26-54 | finishing that call unparks the consumer, which then finds the counter changed |
| RingBuffer.SoloWrite | concurrency/ring_buffer.h:42-63 | the machine's write, run alone, has exactly the effect of the method |
| RingBuffer.SoloRead | concurrency/ring_buffer.h:83-113 | so has its non-blocking read, on a stopped, an empty and a nonempty queue |
| RingBuffer.SoloReadLatest | concurrency/ring_buffer.h:90-133 | and read_latest, where there is an item to read |
| RingBuffer.SoloClear | concurrency/ring_buffer.h:146-149 | and clear |
| RingBufferBlocking.BlockingReadReturnsItemOrStop | concurrency/ring_buffer.h:74-96 | whatever the other threads do, a blocking read or read_latest has returned nothing until it ends, and then exactly one item, the one in the caller's hand, unless a stop has been called |
| RingBufferBlocking.PlainReadNeverWaits | concurrency/ring_buffer.h:83-96 | a non-blocking call never comes near the wait |
| RingBufferBlocking.BlockingReadWaits | concurrency/ring_buffer.h:74-81 | on an empty queue that is not stopped a blocking call never returns by its own steps, however often it wakes spuriously |
| RingBufferBlocking.SoloStop | concurrency/ring_buffer.h:26-30 | the machine's stop run alone has exactly the effect of the method, and notifies |
| RingBufferBlocking.SoloBlockingRead | concurrency/ring_buffer.h:74-133 | a blocking call run alone returns nothing on a stopped queue, the oldest or the newest item of a nonempty one, and parks on an empty one |
| RingBufferBlocking.WokenConsumerReturns | concurrency/ring_buffer.h:76-80 | a woken consumer, alone, ends its call with the item, or with none on a stop |
| RingBufferBlocking.ParkedConsumerReturns | concurrency/ring_buffer.h:26-81 | in every run a parked consumer with something to return for ends its call once the one call that made it so is finished and it moves itself |
| RingBuffer.RingBuffer.Stop | concurrency/ring_buffer.h:26-30 | sets the flag and increases the counter, keeps the contents |
| RingBuffer.RingBuffer.IsFull | concurrency/ring_buffer.h:31-31 | true if and only if size - 1 items wait |
| RingBuffer.RingBuffer.IsEmpty | concurrency/ring_buffer.h:32-32 | true if and only if no item waits |
| RingBuffer.RingBuffer.NumSlotsFilled | concurrency/ring_buffer.h:34-40 | the number of waiting items |
| RingBuffer.RingBuffer.BeginWrite | concurrency/ring_buffer.h:42-45 | the tail slot unless full |
| RingBuffer.RingBuffer.EndWrite | concurrency/ring_buffer.h:47-54 | appends what the slot holds |
| RingBuffer.RingBuffer.Write | concurrency/ring_buffer.h:56-63 | appends the item if and only if fewer than size - 1 wait |
| RingBuffer.RingBuffer.BeginRead | concurrency/ring_buffer.h:83-88 | the slot of the oldest item unless stopped or empty |
| RingBuffer.RingBuffer.BeginReadLatest | concurrency/ring_buffer.h:90-96 | drops all but the newest item |
| RingBuffer.RingBuffer.EndRead | concurrency/ring_buffer.h:98-102 | drops the oldest item |
| RingBuffer.RingBuffer.Read | concurrency/ring_buffer.h:104-113 | splits the contents into the returned head and the new contents |
| RingBuffer.RingBuffer.ReadLatest | concurrency/ring_buffer.h:124-133 | returns the newest item and leaves none |
| RingBuffer.RingBuffer.PeekFront | concurrency/ring_buffer.h:135-138 | the oldest item |
| RingBuffer.RingBuffer.PeekBack | concurrency/ring_buffer.h:140-144 | the newest item |
| RingBuffer.RingBuffer.Clear | concurrency/ring_buffer.h:146-149 | leaves nothing |
| TimeSyncEstimator.MergeIsTightest | time_sync/time_sync.cpp:273-279 | the merged bounds are the tightest over all samples and each is attained by a sample |
| TimeSyncEstimator.MergeIgnoresOrder | time_sync/time_sync.cpp:235-280 | the merge depends only on the set of samples |
| TimeSyncEstimator.MoreSamplesNeverWiden | time_sync/time_sync.cpp:235-280 | adding samples never widens the interval |
| TimeSyncEstimator.WidthIsBounded | time_sync/time_sync.cpp:254-279 | the width is at most a sample's round trip plus twice its drift, for every sample |
| TimeSyncEstimator.CheckFailsIff | time_sync/time_sync.cpp:243-263 | a CHECK stops the program if and only if some sample was not sent, received and looked at in that order |
| TimeSyncEstimator.HalfTruncates | time_sync/time_sync.cpp:303-303 | the estimate is half the sum of the bounds, rounded towards zero |
| TimeSyncEstimator.OnePass | time_sync/time_sync.cpp:235-308 | a pass is decided by three samples, those with the highest lower bound, the lowest upper bound and the shortest round trip: it publishes exactly if the interval is wider than half that round trip, with these numbers, and doubles the rate, keeps it, or takes nine tenths of it, rounded down |
| TimeSyncEstimator.PublishedWidthIsPositive | time_sync/time_sync.cpp:286-308 | every published width exceeds half the observed round trip, so its conversion to unsigned is exact |
| TimeSyncEstimator.WidthIsMonotone | time_sync/time_sync.cpp:269-294 | a faster drift rate gives no narrower an interval over the same window |
| TimeSyncEstimator.EnoughRateIsEnough | time_sync/time_sync.cpp:286-294 | from a computable rate on, the window yields an estimate |
| TimeSyncEstimator.PassesUntilEstimate | time_sync/time_sync.cpp:286-294 | over a fixed window, at any nondecreasing clock readings, the doubling of the rate ends: this many passes double it and publish nothing, and the next publishes |
| TimeSyncEstimator.ProgressIff | time_sync/time_sync.cpp:286-294 | at any nondecreasing clock readings, doubling ever leads to an estimate if and only if the rate is not 0 or the window needs no correction for drift |
| TimeSyncEstimator.RateCanReachZero | time_sync/time_sync.cpp:296-300 | a window over which the factor 0.9 takes a rate of 1 to 0 |
| TimeSyncEstimator.ZeroCanBeStuck | time_sync/time_sync.cpp:286-294 | a window that yields no estimate at rate 0, now or later |
| TimeSyncEstimator.MergeWithoutDrift | time_sync/time_sync.cpp:269-276 | at rate 0 the merged bounds do not depend on when they are merged |
| TimeSyncProtocol.StepKeepsInv | time_sync/time_sync.cpp:313-344 | each packet ever in flight, queued or in the window was stamped by the server at a local instant within its round trip, whatever the network does; times are real, clocks show whole microseconds and may lag by a grain |
| TimeSyncProtocol.RunKeepsInv | time_sync/server.cpp:27-41 | so in every run of clients' and server's steps |
| TimeSyncProtocol.RefillKeepsTheRecent | time_sync/time_sync.cpp:178-228 | the new window holds, in order and once each, exactly the old samples that are at most the duration old and then everything queued, stamped with the present |
| TimeSyncProtocol.RoundTripPublishes | time_sync/time_sync.cpp:216-344 | one undisturbed exchange on an empty window publishes an estimate: the round trip and twice the drift about the difference of the server's time and the middle, and nine tenths of the rate |
| TimeSyncProtocol.ChecksNeverFire | time_sync/time_sync.cpp:243-263 | the three CHECKs on the window hold in every run, and for each sample send <= recv <= now and the server read its clock at a local time from send to recv (plus the grain of ours) |
| TimeSyncProtocol.ConstantOffsetIsEnclosed | time_sync/time_sync.cpp:248-276 | a constant true offset, any real number, lies in the merged interval widened by the grain of each clock: in the interval itself when the clocks are exact |
| TimeSyncProtocol.PublishedEstimatesAreAccurate | time_sync/time_sync.cpp:302-308 | every estimate ever published is within half the published width, rounded up, and a grain, of a constant true offset |
| TimeSyncDrift.ClockDriftsAtStartingRate | time_sync/time_sync.cpp:350-359 | a clock that drifts by exactly the starting 40 us/s: the hypothesis on drift is met by clocks that do drift |
| TimeSyncDrift.DriftIsRoundedDown | time_sync/time_sync.cpp:269-271 | the code's drift term is the drift since the midpoint of the round trip, rounded down |
| TimeSyncDrift.DriftingSample | time_sync/time_sync.cpp:254-276 | with true drift at most the estimated rate, itself at most 1 us/us, one sample's lower bound misses the offset by less than 1 us, its upper bound by less than 1 us and half a round trip's drift (and the grains) |
| TimeSyncDrift.DriftingOffsetIsEnclosed | time_sync/time_sync.cpp:265-276 | the same for the merged interval in every run, with the longest round trip |
| TimeSyncDrift.UpperHoldsIff | time_sync/time_sync.cpp:254-276 | one sample's upper bound holds for all clocks that may have led to it if and only if the drift term covers the server's grain and the drift since sending |
| TimeSyncDrift.UpperNeedsInstantTrip | time_sync/time_sync.cpp:269-276 | at any positive rate that is never so for a round trip of 2 us or more |
| TimeSyncDrift.LowerHoldsIff | time_sync/time_sync.cpp:258-276 | the lower bound holds for all such clocks if and only if the drift term covers our clock's grain and the drift since receiving |
| TimeSyncDrift.MergedUpperHoldsIff | time_sync/time_sync.cpp:273-276 | the merged upper bound holds for all clocks that may have led to the window if and only if for some sample the highest offset it allows is within the bound |
| TimeSyncDrift.UpperBoundCanMiss | time_sync/time_sync.cpp:269-276 | a run at the starting rate with exact clocks whose merged upper bound is 2 us when the true offset is 4 us |
| TimeSync.SafeMinusIsExact | app/timing.h:16-28 | safe_minus is the true difference if and only if that fits a signed 64-bit integer |
| TimeSync.FixedWidthIsExact | time_sync/time_sync.cpp:230-308 | with stamps below 2^61 us and drift products below 2^64, the mixed signed and unsigned 64-bit code computes the unbounded estimator's result, rate and failed checks |
| TimeSync.ServerTimestampIsExact | time_sync/time_sync.cpp:99-132 | adding the offset modulo 2^64 gives the true sum if and only if that is a timestamp, for either sign |
| TimeSync.ReceivePong | time_sync/time_sync.cpp:319-344 | the receive thread's write into a queue of size 40 is the machine's receiving step: it queues up to 39 and drops what comes then |
| TimeSync.IngestContext.RemoveOldSamples | time_sync/time_sync.cpp:186-202 | keeps, in order and once each, exactly the samples that are at most the duration old |
| TimeSync.IngestContext.Ingest | time_sync/time_sync.cpp:221-226 | moves everything queued into the window in order, leaving the queue empty unless it was stopped |
| TimeSync.IngestContext.MergeSample | time_sync/time_sync.cpp:235-280 | one loop body: joins the sample's 64-bit bounds, or stops at a CHECK |
| TimeSync.IngestContext.MergeWindow | time_sync/time_sync.cpp:230-280 | the loop computes the fold of the whole window, and stops exactly if some sample fails a CHECK |
| TimeSync.IngestContext.EstimateOffset | time_sync/time_sync.cpp:230-308 | the result and the new drift rate are those of the 64-bit specification, which FixedWidthIsExact relates to the estimator |
| TimeSync.IngestContext.ProcessIngestBuffer | time_sync/time_sync.cpp:216-309 | the new window, again without those older than the duration, the drift rate and the result of the whole call |
| FrameGate.DiffIsDeltaCodec | realsense_streaming/client.cpp:139-142 | the assumption on codecs can be met |
| FrameGate.GateIsCorrect | realsense_streaming/client.cpp:107-162 | a genuine message is written out if and only if it is flagged as a keyframe or follows the last one fed, what is written is the source picture of its id, no CHECK fires and no decode fails |
| FrameGate.DecoderIsFedAKeyThenConsecutiveIds | realsense_streaming/client.cpp:204-239 | for any messages of any streams, unless the thread has aborted, each serial number's context is that of its own messages alone, and its decoder's state is what decoding exactly a keyframe and then consecutive ids from new gives |
| FrameGate.ContextIsOfItsMessages | realsense_streaming/client.cpp:90-118 | streams do not disturb each other: the thread's context for a serial number depends on that number's messages only |
| FrameGate.EveryOutputIsTheSource | realsense_streaming/client.cpp:76-163 | for any drops, duplicates and reordering over many senders, the thread never aborts and only source pictures are written; which, is stated by OutputsAreTheWrittenPictures |
| FrameGate.KeyframeResynchronises | realsense_streaming/client.cpp:109-135 | whatever came before, a keyframe and the consecutive messages after it are all written out, in order |
| FrameOutputs.OutputsAreTheWrittenPictures | realsense_streaming/client.cpp:76-163 | for any drops, duplicates and reordering over many senders, the pictures written are, in order and once each, the source pictures of exactly the messages that are flagged as keyframes or whose id is one more than that of the previous message of their serial number, itself written |
| FrameOutputs.ContextsRemember | realsense_streaming/client.cpp:107-135 | a serial number's context remembers its last message's id if that was written, and none otherwise |
| FrameOutputs.BrokenMessageStopsTheThread | realsense_streaming/client.cpp:79-88 | a message of the wrong version or sizes stops the thread for good, and nothing is written from there on |
| FrameOutputs.FalseKeyframeStopsTheThread | realsense_streaming/client.cpp:127-132 | so does, on the depth stream, a first message that is flagged as a keyframe and is not one |
| FrameOutputs.UndecodableKeyframe | realsense_streaming/client.cpp:144-237 | a first keyframe that does not decode is not written; it stops the colour thread and not the depth thread |
| FrameGate.StreamThread.HandleMessage | realsense_streaming/client.cpp:166-271 | one turn of either thread's loop, with the checks of version and frame sizes, has the specified effect on contexts, outputs and aborting |
| FrameGate.StreamThread.Run | realsense_streaming/client.cpp:79-163 | the loop's state is that of the specification the theorems above are about |
| CborBytes.BigEndianRoundTrip | serialization/primitives.cpp:30-48 | k big-endian bytes read back |
| CborBytes.HeadRoundTrip | serialization/primitives.cpp:14-71 | heads of RFC 8949 section 3 parse back, in each of the five length classes |
| CborBytes.HeadLength | serialization/primitives.cpp:14-71 | a head takes 1, 2, 3, 5 or 9 bytes for arguments below 24, 256, 65536, 2^32 and 2^64 |
| CborBytes.HeadIsShortest | serialization/primitives.cpp:14-71 | no shorter bytes parse as the same head |
| CborBytes.ItemRoundTrip | serialization/make_serializable.hpp:48-131 | the bytes of an item, nested to any depth, parse back to it and leave what follows |
| CborBytes.ItemsRoundTrip | serialization/make_serializable.hpp:69-81 | so do those of a sequence of items |
| CborBytes.EncodingIsShortest | serialization/make_serializable.hpp:48-131 | of all bytes that parse as an item, nested to any depth, its encoding is the shortest |
| CborBytes.EncodingsAreShortest | serialization/make_serializable.hpp:69-81 | so for sequences of items |
| CborExamples.UnsignedExamples | serialization/primitives.cpp:18-28 | unsigned integers of up to 16 bits as in appendix A of RFC 8949 |
| CborExamples.LongUnsignedExamples | serialization/primitives.cpp:26-32 | and of 32 and 64 bits |
| CborExamples.NegativeExamples | serialization/primitives.cpp:34-48 | negative integers as there |
| CborExamples.FloatExamples | serialization/primitives.cpp:64-71 | floats as there |
| CborExamples.StringExamples | serialization/primitives.cpp:50-62 | byte strings and texts as there |
| CborExamples.ListExamples | serialization/make_serializable.hpp:69-81 | lists as there |
| CborExamples.StructExample | serialization/make_serializable.hpp:82-123 | a struct with a nested list as the map given there |
| Cbor.IntRoundTrip | serialization/primitives.cpp:92-140 | integers of each width and sign survive the 64-bit item and the narrowing cast |
| Cbor.ValueRoundTrip | serialization/make_serializable.hpp:216-389 | decoding an encoded value gives it back, whatever the receiving object held: sized ints, floats, text, resizable and fixed byte arrays, enums by name, vectors, arrays and structs |
| Cbor.RoundTrip | serialization/make_serializable.hpp:391-418 | the same from bytes to bytes, with any bytes following |
| Cbor.RepresentationDecodes | serialization/make_serializable.hpp:216-389 | a value decodes alike from every item that represents it: at every depth, struct maps may be in any order and hold unrelated entries |
| Cbor.EncodingRepresents | serialization/make_serializable.hpp:48-131 | the encoding is one such item |
| Cbor.StructIgnoresOrderAndStrangers | serialization/make_serializable.hpp:343-379 | in particular from any map with distinct keys that has the entries that were encoded |
| Cbor.MissingFieldEndsQuietly | serialization/make_serializable.hpp:336-381 | for every map: the members up to the first absent name come from the map, all later ones keep their old values, and decoding fails only at a member that it takes |
| Cbor.NoneIsAbsentIff | serialization/make_serializable.hpp:358-370 | all members come from the map if and only if every field name is a key of it |
| Cbor.AnyIntegerDecodes | serialization/primitives.cpp:92-140 | from any item at all an integer type takes exactly the integers of the signs it allows, and gives the number of the type congruent to it |
| Cbor.OnlyItsOwnItemDecodes | serialization/make_serializable.hpp:223-301 | doubles, texts, byte strings and enums decode from no item but the one that encodes the result: other kinds, lengths and names are refused |
| CborDecoder.DecodeValue | serialization/make_serializable.hpp:216-389 | the recursion on the type computes the specification's result, with its aborts |
| CborDecoder.DecodeList | serialization/make_serializable.hpp:303-335 | the loop fills the resized list element by element |
| CborDecoder.DecodeFields | serialization/make_serializable.hpp:342-381 | the loop over the fields, ended by the first missing one |
| CborDecoder.DeserializeCbor | serialization/make_serializable.hpp:391-418 | whenever the buffer begins with a value's encoding, returns that value |
| CborBuffer.CborEncoder.Append | serialization/primitives.cpp:50-62 | appends the bytes if and only if they fit, else changes nothing |
| CborBuffer.CborEncoder.EncodeValue | serialization/make_serializable.hpp:48-131 | appends the value's encoding, and succeeds if and only if it fits |
| CborBuffer.CborEncoder.EncodeList | serialization/make_serializable.hpp:69-81 | likewise for a list |
| CborBuffer.CborEncoder.EncodeMembers | serialization/make_serializable.hpp:82-123 | likewise for a struct as a map |
| CborBuffer.CborEncoder.EncodeElements | serialization/make_serializable.hpp:76-78 | the loop appends the encodings of all elements, and succeeds if and only if they all fit |
| CborBuffer.CborEncoder.EncodeFields | serialization/make_serializable.hpp:93-116 | likewise for the fields of a struct with their names |
| CborBuffer.CborEncoder.EncodeField | serialization/make_serializable.hpp:101-113 | a name and a value, both or failure |
| CborBuffer.EstimateCborSize | serialization/make_serializable.hpp:133-170 | the recursion and its loops add up payload and name sizes |
| CborBuffer.EstimateElements | serialization/make_serializable.hpp:150-157 | the loop over a list's elements |
| CborBuffer.SerializeCbor | serialization/make_serializable.hpp:197-212 | succeeds if and only if the encoding fits in floor(1.5 estimate) bytes, and then returns exactly it |
| CborBuffer.FramesPayForTheirHeads | serialization/make_serializable.hpp:133-170 | frames of at least 4 bytes, however many and long, leave a byte each to spare for the list's own head |
| CborBuffer.EstimateFitsIff | app/pubsub_recorder.cpp:97-101 | recording a message of any number of frames of any lengths fits if and only if the frames have at least twice the bytes that all the heads take, whose lengths HeadLength gives |
| CborBuffer.EstimateSufficesForFrames | app/pubsub_recorder.cpp:97-101 | recording a message with at least one frame, each of at least 4 bytes, always fits |
| CborBuffer.EstimateIsTight | app/pubsub_recorder.cpp:97-101 | in particular a single frame fits if and only if it has at least 4 bytes, a 4-byte frame leaves no byte to spare, and a message without frames never fits |
| CborBuffer.NumberFitsIff | serialization/make_serializable.hpp:133-212 | a single number fits the buffer made for it, but for an 8-bit one below -24 or above 23 |
| CborBuffer.StringFitsIff | serialization/make_serializable.hpp:133-212 | a text, a byte string or an enumerator fits if and only if it has at least two bytes |
| CborBuffer.WideNumberStructFits | serialization/make_serializable.hpp:133-212 | a struct of any number of numbers of at least 16 bits, with names of at least four bytes, always fits |
| PubSub.HeaderRoundTrip | app/pubsub_message.h:11-18 | the 32 bytes of a header read back to its six fields |
| PubSub.HeaderLayout | app/pubsub_message.h:11-18 | each of the 32 bytes: three 64-bit and three 16-bit little-endian fields at their offsets, and padding |
| PubSub.PartsOfMessage | app/pubsub.cpp:106-123 | topic, header and frames in order, all but the last frame announcing more, so that a message without frames announces more at its end |
| PubSub.ReceiveTakesToTheEnd | app/pubsub.cpp:234-268 | of any parts, genuine or not, the receive loop takes those up to the first that announces nothing more, as topic, header and frames; it stops at a topic that announces nothing and at a header of the wrong size |
| PubSub.ReceiveWaits | app/pubsub.cpp:234-268 | and waits while every part announces more |
| PubSub.StreamParsesBackIffFramed | app/pubsub.cpp:234-268 | the subscriber recovers exactly the published messages if and only if each has a frame |
| PubSub.SubscriberRecoversRequests | app/pubsub.cpp:88-123 | end to end from requests: topics, headers and frames in order, under the same condition |
| PubSub.IdsAreConsecutive | app/pubsub.cpp:93-104 | the message of request i stands after those before it, with its topic and frames; unless overridden its header holds the process, the clock reading, protocol version 0, the request's version and flags, and as id the number of ids taken before it, modulo 2^64 |
| PubSub.SubscriptionsReceiveTheirTopics | app/pubsub.cpp:283-297 | each subscription receives, from when it is made and in order, just the messages whose topic has its prefix, less those that found its buffer full |
| PubSub.RequestsReachSubscriptions | app/pubsub.cpp:88-297 | from requests through framing, parsing and routing: each subscription receives, in order and once each, exactly the published messages whose topic has its prefix and for which its buffer has room |
| PubSub.Publisher.Serve | app/pubsub.cpp:80-123 | binds an address, or sends exactly one message's parts with their more flags and advances the id unless overridden; stops if and only if a request has both an address and a topic |
| PubSub.Publisher.Send | app/pubsub.cpp:106-123 | the part-by-part loop sends a message's framing |
| PubSub.Publisher.Run | app/pubsub.cpp:61-141 | the loop sends the stream that the theorems above parse, up to the first request that a CHECK refuses |
| PubSub.BoundAddresses | app/pubsub.cpp:80-86 | the addresses bound are those of exactly the requests that have one, in order |
| PubSub.Subscriber.AddSubscription | app/pubsub.cpp:206-224 | adds one with nothing received |
| PubSub.Subscriber.RouteMessage | app/pubsub.cpp:283-297 | the routing loop delivers to each matching subscription and no other |
| PubSub.Subscriber.ReceiveMessage | app/pubsub.cpp:234-268 | the part-by-part loop computes the parse the theorems are about, with its aborts |
| Lcg.Displacement | random/linear_congruential_generator.cpp:7-9 | n steps move a value by a geometric sum times its first displacement |
| Lcg.SumHasTheTwosOfItsLength | random/linear_congruential_generator.cpp:7-9 | for a = 1 mod 4, 2^k divides the geometric sum of n terms if and only if it divides n |
| Lcg.ReturnsOnlyAfterFullPeriod | random/linear_congruential_generator.cpp:7-9 | for any a = 1 mod 4, odd c and k, n steps return modulo 2^k if and only if 2^k divides n |
| Lcg.ReachesEverything | random/linear_congruential_generator.cpp:7-9 | and every residue is reached in fewer than 2^k steps |
| Lcg.FullPeriod | random/linear_congruential_generator.cpp:7-9 | the source's constants: from every seed all 2^32 words are reached within 2^32 steps, and the seed returns exactly at multiples of 2^32 |
| Lcg.SelectionIsCompleteAndIncreasing | random/linear_congruential_generator.cpp:13-37 | whatever the draws, exactly the number wanted of strictly increasing indices below collection_size is taken |
| Lcg.SelectionRule | random/linear_congruential_generator.cpp:20-36 | an index is taken if and only if some are still missing and its own draw is at most the ratio of those missing to those left |
| Lcg.FirstSeeds | random/linear_congruential_generator.cpp:7-9 | the first four seeds from 0 |
| Lcg.RangeHoldsIff | random/linear_congruential_generator.cpp:13-37 | all indices are below out.size() for every seed if and only if nothing or everything is wanted (collections below 2^32, exact quotients) |
| Lcg.IndexCanPassOutSize | random/linear_congruential_generator.cpp:28-35 | a seed from which one of two picks the second |
| Lcg.LinearCongruentialGenerator.Generate | random/linear_congruential_generator.cpp:6-11 | advances the seed by the recurrence and returns its draw |
| Lcg.LinearCongruentialGenerator.GenerateSampleIdxs | random/linear_congruential_generator.cpp:13-37 | fails if and only if more is wanted than there is; the inner CHECK never fails, out is filled with the selection above, and the generator has drawn once for each index up to the last one taken |
| RunningStat.Recentre | math/running_stat.h:24-25 | how a sum of squared deviations changes with its centre |
| RunningStat.MeanStep | math/running_stat.h:24-24 | the recurrence gives the mean of one more value |
| RunningStat.DeviationStep | math/running_stat.h:25-25 | and the sum of squared deviations about the new mean |
| RunningStat.HistoryIsDescribed | math/running_stat.h:14-31 | after every history of Push and Clear the members describe the values since the last Clear |
| RunningStat.StatisticsAreExact | math/running_stat.h:33-37 | the count, Mean and Variance are those of exactly the values pushed since the last Clear |
| RunningStat.NewSIsExactIff | math/running_stat.h:14-31 | the member m_newS is the sum of squared deviations if and only if two values were pushed since the last Clear, or the newest earlier stretch of two or more was of equal values |
| RunningStat.NewSDescribesLastLong | math/running_stat.h:14-31 | after every history m_newS is the sum of squared deviations of the newest stretch between Clears that reached two values, 0 if none did |
| RunningStat.NewSCanBeStale | math/running_stat.h:14-31 | a history after which it is not |
| RunningStat.RunningStat.Clear | math/running_stat.h:14-14 | the state of the history with a Clear |
| RunningStat.RunningStat.Push | math/running_stat.h:16-31 | the state of the history with a Push |
| RunningStat.RunningStat.NumDataValues | math/running_stat.h:33-33 | the number of values since the last Clear |
| RunningStat.RunningStat.Mean | math/running_stat.h:35-35 | their mean, 0 for none |
| RunningStat.RunningStat.Variance | math/running_stat.h:37-37 | their sample variance, 0 for fewer than two |
| Rgbd.ApplyOfMul | rgbd/rgbd.cpp:148-149 | a product of matrices acts as one after the other |
| Rgbd.ReturnedPointIsOnRay | rgbd/rgbd.cpp:22-56 | the returned point solves the homogeneous system for its pixel, at the given depth |
| Rgbd.UnprojectThenProject | rgbd/rgbd.cpp:16-57 | unprojecting a pixel at any depth and projecting back gives that pixel |
| Rgbd.ProjectThenUnproject | rgbd/rgbd.cpp:16-57 | projecting a point and unprojecting its image at its depth recovers it, exactly when neither check stops the program |
| Rgbd.PointsAreThePixels | rgbd/rgbd.cpp:112-137 | the points are, in row-major order, those of the pixels that pass the filters: each at its pixel's depth times the scale, unprojected from the pixel's centre, and the origin for a pixel without depth |
| Rgbd.EmittingIff | rgbd/rgbd.cpp:115-128 | a pixel passes the filters if and only if its depth times the scale is within the limits given, or it has none and zeros are kept |
| Rgbd.PointsStopIff | rgbd/rgbd.cpp:34-40 | the program stops if and only if unprojecting one of those pixels fails a check |
| Rgbd.PixelStep | rgbd/rgbd.cpp:115-135 | one turn of the inner loop with its continue statements and checks; it skips exactly the pixels outside the limits and unwanted zeros |
| Rgbd.MakeXyzsFromDepthImage | rgbd/rgbd.cpp:103-138 | the nested loops compute the points of the whole image, or stop at the first failed check |
| Rgbd.ColoursArePointwise | rgbd/rgbd.cpp:159-185 | each point's colour depends on that point alone |
| Rgbd.ColouringNeverStops | rgbd/rgbd.cpp:174-188 | the index checks hold for every point when the image has the size it claims |
| Rgbd.InBoundsIff | rgbd/rgbd.cpp:167-170 | a coordinate counts as inside if and only if it lies above -1 and below the size |
| Rgbd.TransformedThenProjected | rgbd/rgbd.cpp:148-163 | a point's image coordinates are those of the transformed point, projected |
| Rgbd.ColourOfProjected | rgbd/rgbd.cpp:159-185 | a projected point takes the colour of an image pixel if and only if both coordinates lie so, and is black otherwise |
| Rgbd.PointOutsideIsColoured | rgbd/rgbd.cpp:167-185 | a point half a pixel outside takes the colour of the first pixel |
| Rgbd.MakeRgbsFromXyzs | rgbd/rgbd.cpp:140-189 | the loop computes the colours of all points |
| Rgbd.MakeXyzsAndRgbsFromRgbd | rgbd/rgbd.cpp:191-197 | both together |
| Rgbd.PixelKeepsItsColour | rgbd/rgbd.cpp:140-189 | with one camera the point of a pixel of nonzero depth takes that pixel's colour |
| Rgbd.EachPixelGetsItsColour | rgbd/rgbd.cpp:191-197 | with identical cameras and the identity transform each kept pixel of nonzero depth has its own colour, and its depth times the scale, in row-major order, and colouring never stops |
| EmbedFiles.SplitStopsAt | tools/embed_files.py:66-75 | a search stops at an inserted pattern if and only if no occurrence begins earlier |
| EmbedFiles.NoMatchStraddles | tools/embed_files.py:7-8 | no occurrence of the closing sequence straddles the end of the text |
| EmbedFiles.LexerYieldsTextIff | tools/embed_files.py:66-75 | a raw-string lexer ends at the emitted terminator and yields a newline and the text if and only if the closing sequence is not in the text |
| EmbedFiles.AcceptedIff | tools/embed_files.py:61-71 | a text is refused if and only if it has a NUL or an occurrence of the closing sequence |
| EmbedFiles.EmittedText | tools/embed_files.py:73-75 | the declaration of a text, character for character |
| EmbedFiles.ReadsDecimal | tools/embed_files.py:85-85 | decimal numerals of any size read back |
| EmbedFiles.ListReadsBack | tools/embed_files.py:78-95 | the emitted byte list, with its line breaks, reads back to the data and a final 0, for every byte string |
| EmbedFiles.LinesOfTwelve | tools/embed_files.py:83-91 | a line of the list holds twelve numbers, indented by four spaces, and the list goes on with the lines of the rest |
| EmbedFiles.OneLine | tools/embed_files.py:83-91 | the last line holds what is left |
| EmbedFiles.HeaderReadsBack | tools/embed_files.py:98-111 | a header of any number of accepted text and binary files reads back to all their symbols and contents |
| EmbedFiles.Header.EmitReadable | tools/embed_files.py:50-75 | writes the declaration, or nothing exactly when a check fails |
| EmbedFiles.Header.EmitBinary | tools/embed_files.py:78-95 | the loop with its line counter writes the declaration that ListReadsBack reads |
| ActionPeriod.ActsOnFirstPollOfEachNewWindow | app/timing.cpp:86-99 | a poll is true if and only if a multiple of the period, shifted by the phase, lies after every earlier poll and after the stored time, and not after it; even if the clock jumps back |
| ActionPeriod.ActionPeriod.ShouldAct | app/timing.cpp:86-99 | the same for each call |
| ActionPeriod.WindowIsLaterIff | app/timing.cpp:87-91 | an index is greater than another if and only if such a multiple lies between the two times |

## Left out

- Weak memory: steps are sequentially consistent; the release and relaxed orders at concurrency/single_item.h:147-151 and concurrency/ring_buffer.h:52 are not modelled. The wait counters are unbounded, so their wrap-around at 2^64 is not.
- SingleItem.SingleItem.BeginRead: non-blocking mode only. Blocking reads are steps of the machine, because alone on an empty object such a call does not return.
- SingleItem.SingleItem.Read: non-blocking mode only, likewise.
- SingleItem.SingleItem.SwapRead: non-blocking mode only, likewise.
- RingBuffer.RingBuffer.BeginRead: non-blocking mode only, likewise.
- RingBuffer.RingBuffer.BeginReadLatest: non-blocking mode only, likewise.
- RingBuffer.RingBuffer.Read: non-blocking mode only, likewise.
- RingBuffer.RingBuffer.ReadLatest: non-blocking mode only, likewise.
- write_func, move_write and move_read: a move is a copy (what a moved-from slot holds is unspecified), and write_func stores an arbitrary item.
- Racer (concurrency/ring_buffer.h:154-194): nothing in the repository uses it.
- The destructors of both structures, which only call stop.
- TimeSync.FixedWidthIsExact: the drift term and the factor 0.9 are exact integer arithmetic; rounding of doubles above 2^53 is not modelled.
- TimeSyncEstimator.PassesUntilEstimate: the window stays the same over the passes, each of its samples at least 1 us old; arrivals and expiry between passes are not considered.
- TimeSyncEstimator.ProgressIff: likewise.
- TimeSyncDrift.DriftingOffsetIsEnclosed: the true drift is assumed to be at most the estimated rate, and that at most 1 us/us.
- Clock synchronisation: the thread that republishes estimates, the map of other processes' offsets, the overload at time_sync/time_sync.cpp:134-138, socket errors.
- FrameGate: a codec is an assumption (keyframes decode from a fresh decoder, other packets from one in sync); a sender that restarts its ids under one serial number, and ids of 2^64 - 1, are excluded; a colour packet gives exactly one image; image conversion and topic bookkeeping are not modelled.
- Cbor: bool (it has no decoder), views into the buffer, double-to-single conversion, indefinite lengths, and the CBOR library's own error codes (all are None); decoding returns a new value where the source writes through a reference.
- PubSub.SubscriptionsReceiveTheirTopics: which buffers are full when a message arrives is given, since other threads drain them; single-item outputs, which keep only the newest message, are not modelled.
- PubSub.Subscriber.RouteMessage: likewise.
- PubSub: connecting, ZeroMQ's own filtering and queues, recording, and the publisher's request queue and its clear flag. Delivery keeps all parts in order.
- Lcg: conversion to float is any function to at most 1 with equal counts giving ratio 1.
- Lcg.RangeHoldsIff: quotients are exact and collections have fewer than 2^32 entries.
- RunningStat and Rgbd: exact reals; StandardDeviation. A matrix inverse is assumed to be one.
- Rgbd: make_xyzs_from_depth_image_coordinates and lift_xys_to_xyzs; what a platform makes of division by w = 0 is a parameter; negative sizes count as 0.
- EmbedFiles: argument parsing, UTF-8 decoding, the two comment lines at the top of the header; whether a byte above 127 may initialise a plain char is the compiler's business.
- ActionPeriod: the conversion of seconds to whole milliseconds, and a period below 1 ms, which divides by zero.
- clipped_minus: a plain unsigned difference behind one comparison.
- Graphics, user interface, camera and video libraries, files, configuration: input, output and foreign calls.
- Small string, colour, path and job-state helpers: they keep no state between calls and promise nothing beyond their one expression.
