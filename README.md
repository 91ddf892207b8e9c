# ED247 data plane in Dafny

This project models the data plane of the ED247 library, which carries avionics bus traffic over UDP in the frame and stream formats of EUROCAE ED-247A. The buses are ARINC 429, AFDX/A664, CAN/A825, serial, discrete, analog, NAD and VNAD. Each core source file becomes one Dafny module and keeps the source's form: classes with `modifies` clauses where the source updates fields in place, and datatypes, functions and lemmas where it computes values.

- **Sample stores** (`samples.dfy`, `circular_buffer.dfy`, `fifo.dfy`): the bounded `Sample`, the `StreamSampleRingBuffer` and the older `CircularStreamSampleBuffer`. They are proved to be FIFOs that drop the oldest sample on overflow, against the bounded queue of `fifo.dfy`.
- **Stream codecs** (`data_timestamps.dfy`, `stream_wire.dfy`, `streams.dfy`, `stream_round_trip.dfy`, `swaps.dfy`, `signal_swaps.dfy`): the per-protocol encode and decode of a stream payload, the optional data-timestamp prefix with its 32-bit sample offsets, and the in-place byte swaps. The main result is the round trip `StreamRoundTrip.EncodeThenDecode`.
- **Signal packing** (`assistants.dfy`): the fixed-layout and VNAD stream assistants. Their write/push and pop/read are proved to be inverses.
- **Frame headers** (`frame_header.dfy`, `legacy_header.dfy`): the 12-byte header with its 16-bit sequence number, and the older header that counts missed frames per producer.
- **Channels and context** (`channel.dfy`, `context.dfy`): MultiChannel framing `[uid][size][payload]`, the send loop, decoding with unknown UIDs skipped, and the context loops over channels.
- **Transport bookkeeping** (`cominterface.dfy`): address predicates, hash and equality, the reference-counted socket map, direction dispatch, and the status logic of `wait_frame`/`wait_during`.
- **Registries and iterators** (`signals.dfy`, `client_list.dfy`, `client_iterator.dfy`, `cursors.dfy`, `internals.dfy`): iterators that return null after the last element and then restart.
- **Configuration rules** (`xml_rules.dfy`): signal sizes, `Dimensions` parsing, offset checks, sorting and numbering, VNAD sizing, and direction consolidation.
- **Conversions, C API, logs** (`conversions.dfy`, `api.dfy`, `logs.dfy`, `types.dfy`).
- **ARINC 429 word helpers** (`a429.dfy`): label, SDI, SSM, BNR and parity.

Source paths below are relative to the repository root.

## Model

| member | source | states |
|---|---|---|
| Types.StatusCode | src/ed247/ed247.h:67-72 | the four status codes are the numbers 0 to 3 |
| Types.DirOr | src/ed247/ed247.h:153-158 | the union of two direction masks has the IN bit exactly when one of them has it, and the OUT bit likewise |
| Types.ReadBE16Inverse | src/ed247/ed247_frame_header.cpp:32-59 | reading two bytes in network order gives back the 16-bit value `htons` wrote |
| Types.ReadBE32Inverse | src/ed247/ed247_stream.h:344-348 | reading four bytes in network order gives back the 32-bit value `htonl` wrote |
| Types.ReadLE16Inverse | src/ed247/ed247_stream.cpp:543-573 | the SERIAL size prefix stored in host order reads back as the size written |
| Swaps.ReverseInvolution | src/ed247/ed247_bswap.h:9-27 | byte-reversing an element twice gives it back |
| Swaps.SwapAllInvolution | src/ed247/ed247_stream.cpp:872-927 | swapping every whole element twice gives the bytes back |
| Swaps.SwapAllOfBytes | src/ed247/ed247_stream_assistant.cpp:14-16 | swapping one-byte elements changes nothing, so a one-byte type is a plain copy |
| Swaps.SwapWidth | src/ed247/ed247_xml.cpp:571-586 | the element width is one of 0, 1, 2, 4, 8 and is the NAD type's size |
| Swaps.SwapNadRegionInvolution | src/ed247/ed247_stream.cpp:872-927 | `swap_nad` applied twice to a region restores it, for every NAD type |
| Swaps.SwapNadInPlace | src/ed247/ed247_stream.cpp:872-927 | the region of `count` elements at the offset is swapped as `SwapNadRegion` says and every byte outside it is unchanged |
| Swaps.SwapElementsInPlace | src/ed247/ed247_stream.cpp:877-925 | the element loop leaves each whole element of the range reversed and the rest of the array unchanged |
| Swaps.SwapCopy | src/ed247/ed247_stream_assistant.cpp:10-38 | succeeds exactly when the type has a size or there is nothing to copy; the destination then holds the source with each element reversed at the offset, and nothing else changes |
| Swaps.CopyElementsSwapped | src/ed247/ed247_stream_assistant.cpp:19-36 | the copy loop writes every element of the source reversed into the destination and leaves the rest unchanged |
| Swaps.WriteRange | src/ed247/ed247_stream_assistant.cpp:15 | `memcpy` of bytes into an array at an offset: that range holds them and the rest is unchanged |
| Samples.Sample.Empty | src/ed247/ed247_sample.h:20-21 | a sample built empty has no buffer, no payload and no capacity |
| Samples.Sample.constructor | src/ed247/ed247_sample.h:17 | a sized sample owns a fresh buffer of that capacity and an empty payload |
| Samples.Sample.Move | src/ed247/ed247_sample.cpp:8-16 | the new sample takes the other's buffer, size and capacity, and the other is left null, empty and without capacity |
| Samples.Sample.IsEmpty | src/ed247/ed247_sample.h:36 | true exactly when the payload holds no byte |
| Samples.Sample.Copy | src/ed247/ed247_sample.cpp:18-27 | succeeds exactly when the bytes fit the capacity; the payload is then those bytes and the buffer past them is unchanged; a refusal changes nothing |
| Samples.Sample.Allocate | src/ed247/ed247_sample.cpp:29-38 | the capacity is assigned in every case; it fails when a buffer exists or the capacity is 0, and otherwise leaves a fresh zero-filled buffer and an empty payload |
| Samples.Sample.SetSize | src/ed247/ed247_sample.h:44 | only the size changes, to the value given |
| Samples.Sample.Reset | src/ed247/ed247_sample.h:45 | the payload becomes empty and the buffer is kept |
| Samples.StreamSample.constructor | src/ed247/ed247_sample.h:59-64 | a fresh empty payload of the capacity, default data and receive timestamps and default frame details |
| Samples.StreamSample.SetDataTimestamp | src/ed247/ed247_sample.h:84 | the data timestamp takes the value and the other metadata is unchanged |
| Samples.StreamSample.SetRecvTimestamp | src/ed247/ed247_sample.h:85 | the receive timestamp takes the value and the other metadata is unchanged |
| Samples.StreamSample.SetFrameDetails | src/ed247/ed247_sample.h:86 | the frame details take the value and the timestamps are unchanged |
| Samples.StreamSample.CopyFrom | src/ed247/ed247_sample.cpp:45-52 | succeeds exactly when the other payload fits; then payload and all metadata are the other's; a refusal touches no metadata |
| Samples.Slots | src/ed247/ed247_sample.h:141-144 | the queued slots, oldest first, are the `size` slots from the read index around the ring |
| Samples.PushCursor | src/ed247/ed247_sample.cpp:71-81 | after `push_back` the indices are consistent again and the count grows by one up to the capacity |
| Samples.PushSlots | src/ed247/ed247_sample.cpp:71-81 | `push_back` appends the written slot to the queue and drops the oldest one when the ring was full |
| Samples.PushIsBoundedPush | src/ed247/ed247_sample.cpp:71-81 | the slots after `push_back` are the bounded FIFO push of the written slot |
| Samples.PopCursor | src/ed247/ed247_sample.cpp:83-93 | `pop_front` returns the read slot, which is the oldest queued, and removes it; an empty ring is unchanged |
| Samples.PopAllIsSlots | src/ed247/ed247_sample.cpp:83-93 | popping until empty returns exactly the queued slots in order |
| Samples.FifoUnderOverflow | src/ed247/ed247_sample.cpp:71-93 | after `k` pushes into an empty ring of `n` slots, popping everything returns the slots of the last min(k, n) pushes, oldest first |
| Samples.PushesSlots | src/ed247/ed247_sample.cpp:71-81 | after `k` pushes the queue holds the slots of the last min(k, n) pushes |
| Samples.PushesSlotsBelow | src/ed247/ed247_sample.cpp:75-79 | before the ring fills, every slot handed out is still queued |
| Samples.PushesSlotsAbove | src/ed247/ed247_sample.cpp:75-77 | once the ring is full, the last `n` slots handed out are queued |
| Samples.PushesSize | src/ed247/ed247_sample.h:114-116 | after `k` pushes the size is min(k, n) |
| Samples.StreamSampleRingBuffer.constructor | src/ed247/ed247_sample.cpp:58-68 | `cap` fresh empty samples of `samplesCap` bytes, all indices 0 |
| Samples.StreamSampleRingBuffer.Capacity | src/ed247/ed247_sample.h:112 | the number of slots |
| Samples.StreamSampleRingBuffer.Empty | src/ed247/ed247_sample.h:115 | true exactly when no slot is queued |
| Samples.StreamSampleRingBuffer.Full | src/ed247/ed247_sample.h:116 | true exactly when every slot is queued |
| Samples.StreamSampleRingBuffer.Front | src/ed247/ed247_sample.h:130 | on a non-empty ring, the oldest queued sample |
| Samples.StreamSampleRingBuffer.Back | src/ed247/ed247_sample.h:134-137 | on a non-empty ring, the newest queued sample |
| Samples.StreamSampleRingBuffer.At | src/ed247/ed247_sample.h:141-144 | for `i` below the size, the sample `i` places after the oldest |
| Samples.StreamSampleRingBuffer.PushBack | src/ed247/ed247_sample.cpp:71-81 | the indices move as `PushCursor` says and the slot returned is the one at the old write index |
| Samples.StreamSampleRingBuffer.PopFront | src/ed247/ed247_sample.cpp:83-93 | the indices move as `PopCursor` says and the slot returned is the one at the old read index |
| Fifo.KeepLast | src/ed247/ed247_stream.h:59-71 | the newest `m` elements: a suffix of the input of length min(|s|, m) |
| Fifo.BoundedPush | src/ed247/ed247_stream.h:59-71 | pushing onto a queue of fewer than `m` entries appends; onto a full queue it drops the oldest and appends |
| Fifo.PushAll | src/ed247/ed247_stream.h:59-71 | pushing a run of samples never leaves more than `m` queued |
| Fifo.PushAllKeepsNewest | src/ed247/ed247_stream.h:59-71 | pushing a run keeps exactly the newest `m` of the old queue followed by the run |
| Fifo.PushAllSnoc | src/ed247/ed247_stream.h:59-71 | pushing one more sample after a run is one bounded push onto the result |
| CircularBuffer.IncrementBelowBound | src/ed247/ed247_stream.h:61-64 | below the bound, `increment` moves the write index on, the distance grows by one and the written slot joins the queue |
| CircularBuffer.IncrementAtBound | src/ed247/ed247_stream.h:66-69 | at the bound, both indices move on, the distance stays and the written slot replaces the oldest |
| CircularBuffer.CircularStreamSampleBuffer.Queue | src/ed247/ed247_stream.h:49-52 | the queue has `size` samples |
| CircularBuffer.CircularStreamSampleBuffer.constructor | src/ed247/ed247_stream.h:126-131 | a new stack has no slot, indices 0 and bounds 0 |
| CircularBuffer.CircularStreamSampleBuffer.Allocate | src/ed247/ed247_stream.h:102-114 | `maxNumber + 1` empty slots, both indices 0, the bounds recorded, nothing queued |
| CircularBuffer.CircularStreamSampleBuffer.NextWrite | src/ed247/ed247_stream.h:54-57 | the slot at the write index, whose payload fits the bound |
| CircularBuffer.CircularStreamSampleBuffer.StoreNext | src/ed247/ed247_stream.h:54-57 | writing through `next_write` replaces only the write slot and leaves the queue unchanged |
| CircularBuffer.CircularStreamSampleBuffer.Increment | src/ed247/ed247_stream.h:59-71 | the queue becomes the bounded push of the write slot, and the result is true exactly when the queue is then full |
| CircularBuffer.CircularStreamSampleBuffer.PopFront | src/ed247/ed247_stream.h:73-85 | on a non-empty stack, returns the oldest sample and removes it, `empty` telling whether none is left; on an empty one returns the read slot, reports empty and changes nothing |
| CircularBuffer.CircularStreamSampleBuffer.Front | src/ed247/ed247_stream.h:87-90 | the oldest queued sample, or nothing when empty |
| CircularBuffer.CircularStreamSampleBuffer.At | src/ed247/ed247_stream.h:92-95 | the sample `index` places after the oldest, or nothing past the newest |
| CircularBuffer.CircularStreamSampleBuffer.Back | src/ed247/ed247_stream.h:97-100 | the newest queued sample, or nothing when empty |
| CircularBuffer.CircularStreamSampleBuffer.Full | src/ed247/ed247_stream.h:121-124 | true exactly when `maxNumber` samples are queued |
| CircularBuffer.QueueOf | src/ed247/ed247_stream.h:92-95 | the `size` slots from the read index around the ring, oldest first |
| CircularBuffer.QueueOfSkipsWrite | src/ed247/ed247_stream.h:54-57 | the write slot is not queued, so storing into it keeps the queue |
| CircularBuffer.GrowQueue | src/ed247/ed247_stream.h:61-64 | below the bound, committing the write slot is a bounded push |
| CircularBuffer.RollQueue | src/ed247/ed247_stream.h:66-69 | at the bound, committing the write slot and moving the read index is a bounded push that drops the oldest |
| CircularBuffer.QueueOfDrop | src/ed247/ed247_stream.h:79-81 | moving the read index on drops the oldest queued slot |
| CircularBuffer.OverflowScenario | src/ed247/ed247_stream.h:59-71 | with room for 4 samples, pushing 1 to 5 leaves 2, 3, 4, 5 |
| DataTimestamps.Wrap32 | src/ed247/ed247_stream.h:327-329 | what a `uint32_t` store keeps: congruent to the value modulo 2^32, and the value itself when it already fits |
| DataTimestamps.ToInt32 | src/ed247/ed247_stream.h:353 | the `int32_t` reading of a word lies in the signed 32-bit range and wraps back to the word |
| DataTimestamps.TruncDiv | src/ed247/ed247_stream.h:356-357 | C division by a positive divisor truncates toward zero for both signs |
| DataTimestamps.OffsetWord | src/ed247/ed247_stream.h:327-329 | when the distance from the first stamp fits in 32 signed bits, the offset word read as `int32_t` is that distance in nanoseconds |
| DataTimestamps.TimestampBytes | src/ed247/ed247_stream.h:318-321 | the first stamp takes 8 bytes, seconds then nanoseconds, big-endian |
| DataTimestamps.ReadTimestampInverse | src/ed247/ed247_stream.h:344-348 | reading the 8 bytes of a stamp gives the stamp back |
| DataTimestamps.AsWrittenOffsetDoesNotCarry | src/ed247/ed247_stream.h:353-357 | the source's offset arithmetic turns base (0 s, 900 ms) and a sample at (1 s, 100 ms) into (0 s, 1100 ms): the nanoseconds are not carried |
| DataTimestamps.ApplyOffset | src/ed247/ed247_stream.h:353-358 | the corrected arithmetic of Findings row 4: the base moved by the offset with the nanoseconds carried, always normalized (nanoseconds below 10^9) |
| DataTimestamps.ApplyOffsetRecovers | src/ed247/ed247_stream.h:322-358 | a normalized stamp within a signed 32-bit nanosecond distance of the first is decoded exactly as it was sent |
| DataTimestamps.AsWrittenAgreesWithoutCarry | src/ed247/ed247_stream.h:353-357 | when no carry or borrow is needed the source's arithmetic gives the same stamp as `ApplyOffset` |
| DataTimestamps.EncodeStamp | src/ed247/ed247_stream.h:309-333 | at index 0 the full stamp, which becomes the base; later the offset word when sample offsets are on, else nothing; fails exactly when the bytes do not fit |
| DataTimestamps.DecodeStamp | src/ed247/ed247_stream.h:336-361 | at index 0 the full stamp read from 8 bytes, which becomes the base; later the base moved by the offset word with the corrected, carrying `ApplyOffset` when sample offsets are on, else the base; short frames are told apart from offset words past the end |
| StreamWire.CheckSampleSize | src/ed247/ed247_stream.cpp:299-303 | a sample must be exactly the configured size for A429, A664, A825, SERIAL and AUDIO, and at most that size for DISCRETE, ANALOG, NAD and VNAD |
| StreamWire.BufferSize | src/ed247/ed247_stream.cpp:413-427 | room for every sample with its length prefix, plus 8 bytes for the first timestamp and 4 per further sample when data timestamps are on |
| StreamWire.SignalRegion | src/ed247/ed247_stream.cpp:929-955 | an ANALOG signal swaps its 4-byte field at its offset; a NAD signal swaps whole elements at its offset, and a NAD type of size 0 gives no region |
| StreamWire.SwapRegion | src/ed247/ed247_stream.cpp:787-811 | the payload keeps its length, and the swap is undefined exactly when the region straddles the payload's end |
| StreamWire.SwapSignals | src/ed247/ed247_stream.cpp:787-811 | swapping every signal's region keeps the payload's length |
| StreamWire.VnadSwap | src/ed247/ed247_stream.cpp:1019-1060 | the walk over `[length][body]` entries keeps the payload's length |
| StreamWire.VnadSwapInvolution | src/ed247/ed247_stream.cpp:1019-1120 | the decoder's VNAD walk undoes the encoder's, because the length prefixes are read unswapped |
| StreamWire.VnadSwapOf | src/ed247/ed247_stream.cpp:1030-1045 | one entry of the walk: its body is swapped by the first signal's type and the walk goes on with the next signals |
| StreamWire.SwapPayload | src/ed247/ed247_stream.cpp:929-955 | payload swaps keep the length, and types other than ANALOG, NAD and VNAD are sent as they are |
| StreamWire.EncodeOne | src/ed247/ed247_stream.cpp:245-265 | one sample's timestamp part and body fit the frame, and the new base is the sample's stamp at index 0 and the old base otherwise |
| StreamWire.EncodeBodyFits | src/ed247/ed247_stream.cpp:331-346 | an encoded body never runs past the frame |
| StreamWire.EncodeFrom | src/ed247/ed247_stream.cpp:318-353 | at least one sample is taken from a non-empty stack and never more than it holds; the bytes fit the frame |
| StreamWire.DecodeBody | src/ed247/ed247_stream.cpp:365-380 | a body read lies within the frame and is no larger than the configured sample size |
| StreamWire.DecodeOne | src/ed247/ed247_stream.cpp:267-297 | a decoded sample ends within the frame; a failure is either a malformed frame or a read past its end |
| StreamWire.DecodedFits | src/ed247/ed247_stream.cpp:276-281 | a decoded payload fits the receive-stack slot it is copied into |
| StreamWire.AsWrittenDecodedStamp | src/ed247/ed247_stream.cpp:285-286 | the stamp the decoders store is the payload's first stamp |
| StreamWire.AsWrittenDropsOffset | src/ed247/ed247_stream.cpp:285-286 | a second A429 sample sent 5 ns after the first decodes to (7 s, 5 ns), but the decoder stores (7 s, 0) |
| StreamWire.AsWrittenDecodeOne | src/ed247/ed247_stream.cpp:267-297 | the source's decoder rejects what `DecodeOne` rejects and keeps the same payload and position, but stores the first stamp where `DecodeOne` keeps the decoded one |
| StreamRoundTrip.StampRoundTrip | src/ed247/ed247_stream.h:309-361 | the timestamp part `decode_data_timestamp` reads is what `encode_data_timestamp` wrote, and both move the base the same way |
| StreamRoundTrip.BodyRoundTrip | src/ed247/ed247_stream.cpp:245-1120 | for every stream type, the body read back at an index is the payload written there, and it ends where the written body ends |
| StreamRoundTrip.FixedBodyRoundTrip | src/ed247/ed247_stream.cpp:245-297 | A429, DISCRETE, ANALOG and NAD: the fixed-size body reads back as the payload, its swaps undone |
| StreamRoundTrip.RawBodyRoundTrip | src/ed247/ed247_stream.cpp:339-386 | A664 without message sizes: the body is the rest of the frame and reads back as the payload |
| StreamRoundTrip.ByteBodyRoundTrip | src/ed247/ed247_stream.cpp:430-502 | A825 and AUDIO: the 8-bit size and the payload read back |
| StreamRoundTrip.SerialBodyRoundTrip | src/ed247/ed247_stream.cpp:526-598 | SERIAL: the host-order 16-bit size and the payload read back |
| StreamRoundTrip.WordBodyRoundTrip | src/ed247/ed247_stream.cpp:1019-1120 | A664 with message sizes and VNAD: the big-endian 16-bit size and the payload, its swaps undone, read back |
| StreamRoundTrip.OneRoundTrip | src/ed247/ed247_stream.cpp:245-297 | decoding the bytes one sample was encoded to gives its payload and the timestamp the receiver sees, and stops where the encoding stopped |
| StreamRoundTrip.DecodeOneOf | src/ed247/ed247_stream.cpp:267-297 | a sample decodes when its timestamp part and its body both read |
| StreamRoundTrip.FirstDecoded | src/ed247/ed247_stream.cpp:267-297 | the first sample of an encoded run decodes to its payload and stamp, and the rest of the frame decodes from the new base |
| StreamRoundTrip.RunRoundTrip | src/ed247/ed247_stream.cpp:245-297 | decoding the bytes of an encoded run gives back every sample taken, in order, and consumes the frame |
| StreamRoundTrip.RunStampsExact | src/ed247/ed247_stream.h:322-358 | with data timestamps and sample offsets, every decoded sample has the stamp it was sent with when the stamps lie within a signed 32-bit nanosecond distance of the first |
| StreamRoundTrip.RunStampsShared | src/ed247/ed247_stream.h:359-362 | without sample offsets every decoded sample gets the first sample's stamp |
| StreamRoundTrip.EncodeThenDecode | src/ed247/ed247_stream.cpp:245-297 | the whole payload round trip: what `encode` takes off the send stack comes back from `decode`, payloads in order, each stamp exact with sample offsets and the first stamp without |
| Streams.Remove | src/ed247/ed247_stream.h:244-256 | erasing the first occurrence of a callback: the list without it, one shorter when it was there |
| Streams.RemoveAt | src/ed247/ed247_stream.h:246-253 | erasing at the index `find_if` returns is `Remove` |
| Streams.RemoveKeepsDistinct | src/ed247/ed247_stream.h:244-256 | in a list without duplicates, unregistering leaves no duplicate and no copy of the callback |
| Streams.RemoveRegistered | src/ed247/ed247_stream.h:231-256 | unregistering a callback just registered restores the list |
| Streams.Stream.constructor | src/ed247/ed247_stream.h:165-170 | a new stream has its configuration, no callbacks and two distinct, empty stacks |
| Streams.Stream.AllocateStacks | src/ed247/ed247_stream.cpp:201-215 | both stacks are allocated empty, and the call fails exactly on an invalid direction |
| Streams.Stream.PushSample | src/ed247/ed247_stream.cpp:76-92 | accepted exactly on an OUT stream with a sample within the maximum size; the send stack is then the bounded push of the sample, with the given data timestamp, and `full` says whether it is full; a refusal leaves the stack unchanged |
| Streams.Stream.PopSample | src/ed247/ed247_stream.cpp:94-101 | nothing on a stream without IN; otherwise the oldest received sample is removed and returned, `empty` telling whether none is left |
| Streams.Stream.FindCallback | src/ed247/ed247_stream.h:233-236 | the first index holding the pair, or the length when it is absent |
| Streams.Stream.RegisterCallback | src/ed247/ed247_stream.h:231-242 | a pair already registered fails and changes nothing; otherwise it is appended, and the list stays without duplicates |
| Streams.Stream.UnregisterCallback | src/ed247/ed247_stream.h:244-256 | succeeds exactly when the pair is registered; the list loses its first occurrence |
| Streams.Stream.RunCallbacks | src/ed247/ed247_stream.h:291-307 | true exactly when every callback is set and returns SUCCESS |
| Streams.Stream.Encode | src/ed247/ed247_stream.cpp:245-265 | the frame holds the bytes `EncodeFrom` gives for the send stack from the data timestamp base, the samples taken are off the stack, the rest of the frame is unchanged, and the outcome is the size written or the error met |
| Streams.Stream.EncodeLoop | src/ed247/ed247_stream.cpp:249-263 | the `do … while(!empty)` loop writes exactly the run `EncodeFrom` describes |
| Streams.Stream.EncodeTurn | src/ed247/ed247_stream.cpp:250-262 | one turn pops the oldest sample and appends its encoding to the frame |
| Streams.Stream.Commit | src/ed247/ed247_stream.cpp:276-292 | the decoded sample is copied into the next receive slot with its timestamps and details, and pushed |
| Streams.Stream.Decode | src/ed247/ed247_stream.cpp:267-297 | the receive stack is the bounded push of the samples `DecodeFrom` gives, each carrying its payload, stamp, simulation time and header details; the result is true exactly when the frame is consumed and every callback succeeds |
| Streams.Stream.DecodeTurn | src/ed247/ed247_stream.cpp:271-292 | one turn decodes the sample at the index and commits it, or ends the call with the status `DecodeFrom` gives |
| Streams.StreamPool.Names | src/ed247/ed247_stream.cpp:175-181 | the names of the streams, in pool order |
| Streams.StreamPool.constructor | src/ed247/ed247_stream.cpp:145-161 | a new pool holds no stream |
| Streams.StreamPool.IndexOf | src/ed247/ed247_stream.cpp:150-151 | the first stream with the name, or the count when none has it |
| Streams.StreamPool.GetByName | src/ed247/ed247_stream.cpp:175-181 | null exactly when no stream has the name; otherwise a stream of the pool with that name |
| Streams.StreamPool.Get | src/ed247/ed247_stream.cpp:145-161 | refused exactly for a name already in the pool, an unsupported type or an invalid direction; otherwise a fresh stream with empty stacks is appended |
| SignalSwaps.SwapRegionByLength | src/ed247/ed247_stream.cpp:929-955 | whether a region can be swapped depends only on the payload's length, not its bytes |
| SignalSwaps.SwapSignalsByLength | src/ed247/ed247_stream.cpp:929-955 | whether a payload's signals can be swapped depends only on its length |
| SignalSwaps.SwapRegionInvolution | src/ed247/ed247_stream.cpp:872-927 | swapping one region twice gives the payload back |
| SignalSwaps.SwapRegionOutside | src/ed247/ed247_stream.cpp:872-927 | a region swap leaves every byte outside the region as it was |
| SignalSwaps.SwapRegionInside | src/ed247/ed247_stream.cpp:872-927 | inside the region the bytes are the region's bytes swapped |
| SignalSwaps.SwapRegionKeeps | src/ed247/ed247_stream.cpp:929-955 | a swap leaves the bytes of a disjoint region as they were |
| SignalSwaps.SwapRegionsCommute | src/ed247/ed247_stream.cpp:929-997 | swaps of disjoint regions can be done in either order |
| SignalSwaps.SwapRegionPastSignals | src/ed247/ed247_stream.cpp:929-997 | a region apart from every signal can be swapped before the signals' swaps as well as after |
| SignalSwaps.SwapSignalsInvolution | src/ed247/ed247_stream.cpp:929-997 | with signals that share no byte, the decoder's swaps undo the encoder's |
| SignalSwaps.DisjointSignalsUndo | src/ed247/ed247_stream.cpp:787-851 | for ANALOG and NAD streams whose signals share no byte, every swappable payload comes back from the round trip |
| SignalSwaps.VnadUndo | src/ed247/ed247_stream.cpp:1019-1120 | every VNAD payload the walk accepts comes back from the round trip |
| Assistants.SwapCopied | src/ed247/ed247_stream_assistant.cpp:10-38 | a copy keeps the source's length |
| Assistants.SwapCopiedMeans | src/ed247/ed247_stream_assistant.cpp:10-38 | `swap_copy` raises exactly for an unknown type and a non-empty source, runs past the source exactly for a size that is not a whole number of elements, and otherwise leaves the bytes `swap_nad` would |
| Assistants.SwapCopiedTwice | src/ed247/ed247_stream_assistant.cpp:10-38 | copying the copy back gives the original bytes |
| Assistants.CopyInto | src/ed247/ed247_stream_assistant.cpp:10-38 | the destination holds the copied bytes at the offset and nothing else changes |
| Assistants.Placed | src/ed247/ed247_stream_assistant.cpp:70 | the written range holds the bytes and every other byte is kept |
| Assistants.FixedUnpack | src/ed247/ed247_stream_assistant.cpp:93-117 | a fixed-layout pop keeps the buffer's length |
| Assistants.WriteAll | src/ed247/ed247_stream_assistant.cpp:63-73 | writing every signal keeps the buffer's length |
| Assistants.WriteAllKeeps | src/ed247/ed247_stream_assistant.cpp:63-73 | a signal apart from every written one keeps its bytes |
| Assistants.WriteAllHas | src/ed247/ed247_stream_assistant.cpp:63-73 | after the writes each signal holds its data swap-copied |
| Assistants.UnpackKeeps | src/ed247/ed247_stream_assistant.cpp:108-115 | a pop leaves a signal apart from every popped one as it was |
| Assistants.UnpackHas | src/ed247/ed247_stream_assistant.cpp:108-115 | after a pop each signal holds its bytes of the payload swap-copied |
| Assistants.UnpackSucceeds | src/ed247/ed247_stream_assistant.cpp:108-115 | a pop succeeds when every signal lies in the payload and copies |
| Assistants.FixedRoundTrip | src/ed247/ed247_stream_assistant.cpp:63-117 | with signals that share no byte, writing every signal, pushing and popping reads back exactly the bytes written |
| Assistants.SizeAt | src/ed247/ed247_stream_assistant.cpp:199-200 | a size field is a 16-bit number |
| Assistants.VnadPack | src/ed247/ed247_stream_assistant.cpp:144-167 | a VNAD push never builds more bytes than the buffer holds |
| Assistants.UnpackCopies | src/ed247/ed247_stream_assistant.cpp:196-212 | a turn of the VNAD pop that copies yields the signal's bytes and goes on with the next signal |
| Assistants.VnadRoundTrip | src/ed247/ed247_stream_assistant.cpp:144-212 | popping a packed VNAD payload gives every signal's bytes back, when each fits its signal and the 16-bit size field |
| Assistants.PackLays | src/ed247/ed247_stream_assistant.cpp:152-163 | the payload of a VNAD push holds its samples in the `[size][bytes]` layout |
| Assistants.LaidUnpacks | src/ed247/ed247_stream_assistant.cpp:196-212 | popping samples laid out that way decodes every one of them |
| Assistants.FixedAssistant.constructor | src/ed247/ed247_stream_assistant.cpp:57-61 | the assistant's buffer is zero-filled and the stream's sample size |
| Assistants.FixedAssistant.Write | src/ed247/ed247_stream_assistant.cpp:63-73 | refused for data longer than the signal; otherwise the data is swap-copied into the buffer at the signal's offset |
| Assistants.FixedAssistant.Read | src/ed247/ed247_stream_assistant.cpp:85-90 | the signal's bytes, of its maximum size |
| Assistants.FixedAssistant.Push | src/ed247/ed247_stream_assistant.cpp:75-82 | refused exactly on a stream without OUT; otherwise the whole buffer is pushed onto the send stack |
| Assistants.FixedAssistant.Pop | src/ed247/ed247_stream_assistant.cpp:93-117 | FAILURE without IN, NODATA with nothing received; otherwise the oldest sample is popped and unpacked as `FixedUnpack` says |
| Assistants.FixedAssistant.UnpackInto | src/ed247/ed247_stream_assistant.cpp:108-115 | the buffer becomes what `FixedUnpack` gives, or the call stops as it says |
| Assistants.VnadAssistant.constructor | src/ed247/ed247_stream_assistant.cpp:126-132 | an empty sample per signal |
| Assistants.VnadAssistant.Write | src/ed247/ed247_stream_assistant.cpp:134-142 | accepted exactly when the data fits the signal; only that signal's sample changes |
| Assistants.VnadAssistant.Read | src/ed247/ed247_stream_assistant.cpp:169-175 | the signal's sample, within its maximum size |
| Assistants.VnadAssistant.Push | src/ed247/ed247_stream_assistant.cpp:144-167 | refused without OUT; otherwise the samples are packed as `VnadPack` says, reset, and the packed bytes pushed |
| Assistants.VnadAssistant.PackAll | src/ed247/ed247_stream_assistant.cpp:152-163 | the buffer holds what `VnadPack` gives, or the loop stops as it says |
| Assistants.VnadAssistant.PackTurn | src/ed247/ed247_stream_assistant.cpp:153-162 | one turn writes the k-th sample and resets it, or stops as the packing does |
| Assistants.VnadAssistant.PackOne | src/ed247/ed247_stream_assistant.cpp:155-159 | the size, truncated to 16 bits, big-endian, then the sample's bytes swap-copied |
| Assistants.VnadAssistant.Pop | src/ed247/ed247_stream_assistant.cpp:177-212 | FAILURE without IN, NODATA with nothing received; otherwise the oldest sample is popped and unpacked as `VnadUnpack` says |
| Assistants.VnadAssistant.UnpackTurn | src/ed247/ed247_stream_assistant.cpp:197-211 | one turn reads a size, checks it against the signal, and swap-copies its bytes, or stops |
| Assistants.VnadAssistant.UnpackAll | src/ed247/ed247_stream_assistant.cpp:196-212 | the samples become what `VnadUnpack` gives, or the loop stops as it says |
| A429.ToBits | utils/lib/a429_tools.cpp:29-37 | the bit list of a number has the length asked for and holds only bits |
| A429.FromToBits | utils/lib/a429_tools.cpp:29-37 | a number below 2^k is read back from its k bits |
| A429.ToFromBits | utils/lib/a429_tools.cpp:29-37 | a list of bits is rebuilt from its value |
| A429.Reverse8 | utils/lib/a429_tools.cpp:29-37 | the label's bit reversal: bit k of the result is bit 7 - k of the input |
| A429.Reverse8Involutive | utils/lib/a429_tools.cpp:29-37 | reversing the bits twice gives the byte back |
| A429.CLength | utils/lib/a429_tools.cpp:9 | `strlen` counts the characters before the first NUL, and stops at it |
| A429.CLengthWhole | utils/lib/a429_tools.cpp:9 | a string without NUL is read whole |
| A429.Octal3 | utils/lib/a429_tools.cpp:41-74 | every table entry is three octal digits |
| A429.LabelEncode | utils/lib/a429_tools.cpp:5-38 | the loop computes the label number of a valid octal label and 0 for anything else |
| A429.OctalDigitsValue | utils/lib/a429_tools.cpp:17-28 | the digits are weighted 64, 8 and 1 from the left, as the `digits` array stores them |
| A429.LabelDecode | utils/lib/a429_tools.cpp:76-79 | the decoded label is a three-character string |
| A429.LabelDigitsOfThree | utils/lib/a429_tools.cpp:9-14 | three characters without a NUL pass the length check unchanged |
| A429.Octal3OfValue | utils/lib/a429_tools.cpp:24-28 | three octal digits up to "377" are the octal form of their value |
| A429.ValueOfOctal3 | utils/lib/a429_tools.cpp:41-74 | the three digits of a table entry have the value they name |
| A429.LabelEncodeOfDecode | utils/lib/a429_tools.cpp:5-79 | encoding the decoded label gives the label number back, for all 256 numbers |
| A429.LabelDecodeOfEncode | utils/lib/a429_tools.cpp:5-79 | every three-digit octal label up to "377" is encoded and decoded back to itself |
| A429.LabelNumberRejectsLength | utils/lib/a429_tools.cpp:9-14 | an empty string, a four-character string not starting with '0', and five or more characters are rejected |
| A429.LabelNumberRejectsDigits | utils/lib/a429_tools.cpp:17-25 | a non-octal digit, or a leading digit above 3 in three digits, is rejected |
| A429.LabelNumberCPrefix | utils/lib/a429_tools.cpp:10-13 | the C prefix "0" in front of three digits is ignored |
| A429.SdiFromString | utils/lib/a429_tools.cpp:105-111 | the SDI read from a string is one of the four SDI values |
| A429.SdiFromStringOfName | utils/lib/a429_tools.cpp:105-111 | every SDI is read back from its name whatever follows it, and any other string reads as SDI 00 |
| A429.SdiGet | examples/utils/a429_tools.h:51-53 | the SDI is a 2-bit value |
| A429.SsmGet | examples/utils/a429_tools.h:63-65 | the SSM is a 2-bit value |
| A429.LabelSet | examples/utils/a429_tools.h:30-35 | `a429_label_get` reads back the label set, and the other bytes are unchanged |
| A429.SdiSet | examples/utils/a429_tools.h:48-53 | `a429_sdi_get` reads back the SDI set; the other six bits of byte 2 and the other bytes are unchanged |
| A429.SsmSet | examples/utils/a429_tools.h:60-65 | `a429_ssm_get` reads back the low two bits of the SSM; the other bits of byte 0 and the other bytes are unchanged |
| A429.BnrFieldsRoundTrip | examples/utils/a429_tools.h:87-100 | a word whose three value fields hold a value within 19 bits reads back that value, negative values included |
| A429.BnrSet | examples/utils/a429_tools.h:78-100 | the value's 19 low bits go to the three fields, the SDI, the top three bits of byte 0 and the label stay, and `a429_bnr_get` reads back any value within 19 bits |
| A429.AsInt32 | examples/utils/a429_tools.h:103-107 | the `uint32_t` argument seen as `int32_t`: a 32-bit signed value congruent to it modulo 2^32 |
| A429.Set | examples/utils/a429_tools.h:103-108 | the getters read back the label number (0 for an invalid label), the SDI and, within 19 bits, the value; SSM and the parity bit are 0 |
| A429.XorBound | utils/lib/a429_tools.cpp:94 | the xor of two k-bit numbers is a k-bit number |
| A429.OddOnesXor | utils/lib/a429_tools.cpp:94 | the xor of two numbers has an odd number of ones exactly when one of them does |
| A429.OddOnesHighBit | utils/lib/a429_tools.cpp:84-87 | setting a bit above a number flips the parity of its ones |
| A429.ParityBlock | utils/lib/a429_tools.cpp:84-86 | a block of level k built by the `P2`/`P4`/`P6` macros has 4^k entries |
| A429.ParityTable | utils/lib/a429_tools.cpp:82-88 | the table has 256 entries |
| A429.ParityBlockQuarter | utils/lib/a429_tools.cpp:84-86 | an entry of a block is the entry of the lower-level block of its quarter, flipped in the two middle quarters |
| A429.OddOnesQuarter | utils/lib/a429_tools.cpp:84-86 | an index in a middle quarter has one more set bit than its offset within the quarter |
| A429.ParityBlockAt | utils/lib/a429_tools.cpp:84-86 | entry i of a block for n is n flipped exactly when i has an odd number of ones |
| A429.ParityTableAt | utils/lib/a429_tools.cpp:82-88 | `a429_parity_table[i]` is 1 exactly when i has an odd number of one bits |
| A429.ParityIndex | utils/lib/a429_tools.cpp:94 | the parity of the looked-up index is the parity of the 31 bits other than the parity bit |
| A429.ByteParity | utils/lib/a429_tools.cpp:82-88 | a table entry is 0 or 1 |
| A429.ParityUpdated | utils/lib/a429_tools.cpp:91-97 | the update changes the parity bit and nothing else |
| A429.ParityUpdate | utils/lib/a429_tools.cpp:91-97 | the word becomes what `ParityUpdated` says |
| A429.ParityMatchParity | utils/lib/a429_tools.cpp:99-103 | a word matches exactly when its parity bit is set iff the parity of its other 31 bits equals the kind |
| A429.ParityBitCounts | utils/lib/a429_tools.cpp:93-95 | byte 0's parity is that of its low seven bits flipped by the parity bit |
| A429.WordParityOfIndex | utils/lib/a429_tools.cpp:91-103 | the parity of the whole word is that of its other 31 bits flipped by the parity bit |
| A429.ParityIndexIgnoresBit | utils/lib/a429_tools.cpp:93-101 | clearing the parity bit does not change the looked-up index |
| A429.ParityUpdatedParity | utils/lib/a429_tools.cpp:91-103 | an updated word matches its kind, and the number of ones in it has the opposite parity of the kind |
| A429.ParityOddGivesEven | utils/lib/a429_tools.cpp:91-97 | the zero word updated for ODD parity stays zero and has an even number of ones |
| A429.ParityIntended | utils/lib/a429_tools.cpp:91-97 | the corrected update changes only the parity bit |
| A429.ParityIntendedParity | utils/lib/a429_tools.cpp:91-97 | the corrected update gives the word the parity of the kind |
| Api.Upper | src/ed247/ed247.cpp:150 | `::toupper` maps a lower-case letter to its capital and leaves every other character alone |
| Api.ToUpper | src/ed247/ed247.cpp:150 | `std::transform` upper-cases every character and keeps the length |
| Api.ToUpperIdempotent | src/ed247/ed247.cpp:150 | upper-casing twice is upper-casing once |
| Api.LenientYesNo | src/ed247/ed247.cpp:145-164 | the C API's yes/no parse ignores case, agrees with the strict parse wherever that succeeds, reads back both names, and does not trim blanks |
| Api.LenientSpellings | src/ed247/ed247.cpp:151-163 | "no" and "0" read as NO, "yEs" and "1" as YES, and "2" is invalid |
| Api.ListNext | src/ed247/ed247.cpp:322-353 | FAILURE for a null list or a null out-pointer, without moving the cursor; otherwise SUCCESS, one step further through the unchanged items, yielding the element the walk reaches or null past the end |
| Api.ListSize | src/ed247/ed247.cpp:385-415 | FAILURE for a null list or a null out-pointer; otherwise SUCCESS with the number of items |
| Api.ListFree | src/ed247/ed247.cpp:356-383 | FAILURE for a null list; otherwise SUCCESS, the list deleted exactly when it is not managed |
| Api.ListWalk | src/ed247/ed247.cpp:346-347 | the first call yields the first element, or null on an empty list, and a call past the end yields null |
| Api.StreamSamplesNumber | src/ed247/ed247.cpp:1914-1946 | SUCCESS exactly for a stream, an out-pointer and a direction of IN or OUT, with the size of the receive or send stack; FAILURE and 0 otherwise |
| Api.StreamPopSample | src/ed247/ed247.cpp:1833-1880 | FAILURE for a null stream or out-pointer; NODATA and nothing changed on an empty receive stack; otherwise SUCCESS with the oldest sample and its size, which leaves the stack, and `empty` telling whether it is now empty |
| Api.OffsetMonotone | src/ed247/ed247.cpp:1793-1797 | `sum_size` never decreases along the loop |
| Api.Slices | src/ed247/ed247.cpp:1793-1797 | the loop cuts n slices |
| Api.SlicesCoverData | src/ed247/ed247.cpp:1793-1797 | the slices, concatenated, are the first `sum_size` bytes of the data, and slice i has `samples_size[i]` bytes |
| Api.AcceptedWithin | src/ed247/ed247_stream.cpp:76-92 | every pushed slice is one of the slices and fits the stream's maximum sample size, and no more are pushed than cut |
| Api.AcceptedAll | src/ed247/ed247_stream.cpp:76-92 | when every slice fits, every slice is pushed |
| Api.SlicesStep | src/ed247/ed247.cpp:1794-1795 | one turn of the loop adds the next slice, pushed exactly when it fits |
| Api.Payloads | src/ed247/ed247_stream.cpp:76-92 | the payloads of a queue are one per sample |
| Api.PayloadsOfPush | src/ed247/ed247_stream.cpp:76-92 | the payloads after a bounded push are the payloads pushed the same way |
| Api.PayloadsOfPushAll | src/ed247/ed247.cpp:1793-1797 | the payloads after a run of bounded pushes are the payloads pushed the same way |
| Api.PushingStep | src/ed247/ed247.cpp:1793-1797 | one turn of the loop keeps the loop's invariant |
| Api.AsWrittenCounter | src/ed247/ed247.cpp:1793 | the `uint32_t` loop counter after k increments is below 2^32 |
| Api.AsWrittenCounterCounts | src/ed247/ed247.cpp:1793 | below 2^32 increments the counter equals the number of turns |
| Api.AsWrittenPushLoop | src/ed247/ed247.cpp:1793-1797 | below 2^32 samples the loop runs exactly `samples_number` turns; from 2^32 samples the counter is always below `samples_number` and wraps to 0 after 2^32 turns, so the loop never ends |
| Api.PushSlices | src/ed247/ed247.cpp:1792-1797 | the send stack becomes the bounded push of the pushed samples, which are exactly the slices that fit, and `full` tells whether the stack is at its capacity after the last push |
| Api.StreamPushSamples | src/ed247/ed247.cpp:1760-1800 | FAILURE exactly for a null stream, data or sizes; on a stream without OUT nothing changes; otherwise the send stack's payloads become those pushed, in order, keeping the last `max_number` |
| Api.TimeSample.constructor | src/ed247/ed247.h:209-212 | a time sample starts at zero |
| Api.UpdateTime | src/ed247/ed247.cpp:791-800 | FAILURE for a null time sample; otherwise SUCCESS with both fields set |
| Channels.BuildPorts | src/ed247/ed247_channel.cpp:43-60 | raises exactly when two configured streams share a UID (naming that UID); otherwise keeps every stream and sizes the buffer as the header plus each stream's maximum size, with 4 bytes more per stream on a multichannel |
| Channels.Block | src/ed247/ed247_channel.cpp:157-165 | a block is its 4-byte UID and size header followed by the payload |
| Channels.FrameSnoc | src/ed247/ed247_channel.cpp:138-167 | one more stream's block goes at the end of the frame |
| Channels.Drop | src/ed247/ed247_channel.cpp:138-167 | after a pass each stream that had outgoing samples has one fewer, and the others are unchanged |
| Channels.DropShrinks | src/ed247/ed247_channel.cpp:111-175 | a pass never adds samples to send, and removes at least one as soon as a stream has any, so the do/while ends |
| Channels.HeadBytes | src/ed247/ed247_frame_header.cpp:20-46 | a pass's header takes the header size when enabled and nothing otherwise |
| Channels.TransmitStep | src/ed247/ed247_channel.cpp:111-175 | what a channel sends is the frame of the first pass, when it is not empty, followed by what the next passes send when one is needed |
| Channels.OutgoingQuiet | src/ed247/ed247_channel.cpp:141-144 | streams without OUT or without outgoing samples write no block |
| Channels.TransmitFrames | src/ed247/ed247_channel.cpp:132-175 | every frame a multichannel sends is a header followed by the blocks of one pass over its streams |
| Channels.DemultiplexFrame | src/ed247/ed247_channel.cpp:196-227 | decoding the blocks of a frame hands each payload to its stream when the stream is known, skips unknown ones, and succeeds when every known stream accepts its payload |
| Channels.DemultiplexAfter | src/ed247/ed247_channel.cpp:197-227 | a written block in front of decodable blocks decodes as its delivery followed by theirs |
| Channels.DemultiplexCons | src/ed247/ed247_channel.cpp:197-227 | one block read at its position in front of the others extends the deliveries |
| Channels.DemultiplexStep | src/ed247/ed247_channel.cpp:204-226 | one block: skipped for an unknown UID, ending the frame as an error when its stream refuses it, and otherwise delivered before the blocks after it |
| Channels.DecodeBlock | src/ed247/ed247_channel.cpp:197-227 | one turn of the multichannel loop moves forward and keeps the deliveries so far, or ends with what the whole loop decodes |
| Channels.BlockAt | src/ed247/ed247_channel.cpp:204-210 | a written block is read back where it was written: its UID, its size and its payload |
| Channels.MultichannelRoundTrip | src/ed247/ed247_channel.cpp:106-231 | a frame a multichannel sends, received by a channel with the same header configuration, gives back the header and delivers every block to the receiver's own streams when they accept them |
| Channels.SendAdvance | src/ed247/ed247_channel.cpp:111-175 | one pass takes its frame off what is left to send, and a pass that asks for another one has strictly less pending |
| Channels.WriteUnder | src/ed247/ed247_channel.cpp:157-165 | writing the payload after room for the block header, then the block header, leaves header and payload one after the other and changes nothing before them |
| Channels.Channel.constructor | src/ed247/ed247_channel.cpp:36-69 | a channel holds its streams, a buffer of the computed capacity, and nothing to send |
| Channels.Channel.Queue | src/ed247/ed247_stream.cpp:76-92 | a push adds the payload at the end of that stream's outgoing samples only |
| Channels.Channel.Take | src/ed247/ed247_channel.cpp:158 | a stream's `encode` hands out its oldest outgoing payload, which fits its maximum size, and removes it |
| Channels.Channel.GetStream | src/ed247/ed247_channel.cpp:94-104 | the first stream of that name, or none when no stream has it |
| Channels.Channel.WriteBlock | src/ed247/ed247_channel.cpp:157-165 | a non-empty payload leaves its block at the index; the bytes before the index are unchanged |
| Channels.Channel.OpenFrame | src/ed247/ed247_channel.cpp:146-149 | the frame header goes at the start of the buffer and the sequence number advances modulo 2^16 when the header is enabled |
| Channels.Channel.EmitBlock | src/ed247/ed247_channel.cpp:151-165 | the stream's next payload is written as a block after the previous ones, when not empty, and the remaining streams still have room |
| Channels.Channel.Open | src/ed247/ed247_channel.cpp:146-149 | the header is written when the pass meets its first active stream |
| Channels.Channel.Emit | src/ed247/ed247_channel.cpp:151-166 | the k-th stream's block keeps the pass's invariant |
| Channels.Channel.PassStep | src/ed247/ed247_channel.cpp:138-167 | one turn of the stream loop keeps the pass's invariant: inactive streams are skipped, the header comes once, then each block |
| Channels.Channel.MultiPass | src/ed247/ed247_channel.cpp:132-169 | the buffer holds the pass's frame, each active stream hands out one payload, and another pass is needed exactly when some stream still has samples |
| Channels.Channel.SimplePass | src/ed247/ed247_channel.cpp:119-131 | the buffer holds the header and the stream's payload when it has one, and another pass is needed exactly when it has more |
| Channels.Channel.SendPass | src/ed247/ed247_channel.cpp:117-173 | one pass, and its frame sent when not empty |
| Channels.Channel.SendStep | src/ed247/ed247_channel.cpp:111-175 | one turn of the do/while keeps what has been sent a prefix of the whole transmission and has strictly less pending when it asks for another |
| Channels.Channel.EncodeAndSend | src/ed247/ed247_channel.cpp:106-176 | every stream is drained and the frames sent are exactly the passes' frames |
| Channels.Channel.Decode | src/ed247/ed247_channel.cpp:180-231 | a frame shorter than an enabled header fails with nothing changed; otherwise the header details are read, then the simple channel's stream gets the whole rest and a multichannel's blocks are demultiplexed |
| Channels.ChannelSet.Names | src/ed247/ed247_channel.cpp:249-262 | the registered names, one per channel |
| Channels.ChannelSet.constructor | src/ed247/ed247_channel.cpp:238-242 | no channels |
| Channels.ChannelSet.Create | src/ed247/ed247_channel.cpp:36-53 | raises (null, no channel registered) exactly on a stream name already in the context's stream set or repeated in the channel, a UID used twice or a channel name already registered (lines 249-255); otherwise the stream names join the stream set and a fresh channel with that configuration, a zero sequence number and default received details is appended |
| Channels.ChannelSet.RegisterStreams | src/ed247/ed247_stream.cpp:145-161 | the stream set's `create` for each stream in turn: fails exactly when the names, added after those already in the set, repeat; otherwise the set is extended by them in order |
| Channels.ChannelSet.Find | src/ed247/ed247_channel.cpp:257-262 | a channel of that name is found exactly when one is registered |
| Channels.ChannelSet.Get | src/ed247/ed247_channel.cpp:257-262 | null exactly when no channel has that name, otherwise the registered channel of that name |
| ClientIterators.ClientListContainer.constructor | src/ed247/ed247_client_iterator.h:34 | a new list has no container and owns nothing |
| ClientIterators.ClientListContainer.Free | src/ed247/ed247_client_iterator.h:58-61 | the container is deleted exactly when owned, left alive otherwise, and forgotten either way |
| ClientIterators.ClientListContainer.Wrap | src/ed247/ed247_client_iterator.h:37-42 | the previous container is freed as `free` says, then the given vector itself is walked from its end, not owned |
| ClientIterators.ClientListContainer.Copy | src/ed247/ed247_client_iterator.h:45-51 | the previous container is freed as `free` says, then a fresh live copy of the vector is walked from its end, owned |
| ClientIterators.ClientListContainer.Size | src/ed247/ed247_client_iterator.h:53-55 | the number of elements truncated to 32 bits |
| ClientIterators.ClientListContainer.ResetIterator | src/ed247/ed247_client_iterator.h:68-70 | the cursor goes back to the end and nothing else changes |
| ClientIterators.ClientListContainer.GetCurrent | src/ed247/ed247_client_iterator.h:72-75 | null at the end, otherwise the element under the cursor |
| ClientIterators.ClientListContainer.GetNext | src/ed247/ed247_client_iterator.h:77-84 | one step of the looping cursor (from the end to the first element, past the last back to the end), then the current element |
| ClientLists.SharedGet | src/ed247/ed247_client_list.h:25-32 | the shared pointer of a plain entry, the `second` member of a map pair |
| ClientLists.Visible | src/ed247/ed247_client_list.h:25-32 | the elements a list hands out, one per entry, in container order |
| ClientLists.ClientListContainer.Wrap | src/ed247/ed247_client_list.h:60-62 | the context's container itself, walked from its end, not owned |
| ClientLists.ClientListContainer.Copy | src/ed247/ed247_client_list.h:65-67 | a fresh live copy of the container, walked from its end, owned |
| ClientLists.ClientListContainer.Size | src/ed247/ed247_client_list.h:73-75 | the number of entries truncated to 32 bits |
| ClientLists.ClientListContainer.Free | src/ed247/ed247_client_list.h:78-81 | the container is deleted exactly when owned, left alive otherwise, and forgotten either way |
| ClientLists.ClientListContainer.ResetIterator | src/ed247/ed247_client_list.h:87-89 | the cursor goes back to the end |
| ClientLists.ClientListContainer.GetCurrent | src/ed247/ed247_client_list.h:91-95 | null without a container or at the end, otherwise the element under the cursor |
| ClientLists.ClientListContainer.GetNext | src/ed247/ed247_client_list.h:97-105 | null without a container; otherwise one step of the looping cursor, then the current element |
| ComInterfaces.Swap16 | src/ed247/ed247_cominterface.cpp:461 | `htons` exchanges the two bytes of a 16-bit value |
| ComInterfaces.Swap32 | src/ed247/ed247_cominterface.cpp:453 | `htonl` exchanges the halves of a 32-bit value and the bytes of each half |
| ComInterfaces.Swap16Involution | src/ed247/ed247_cominterface.cpp:459-467 | `ntohs` undoes `htons` |
| ComInterfaces.Swap32Involution | src/ed247/ed247_cominterface.cpp:450-467 | `ntohl` undoes `htonl` |
| ComInterfaces.AddressParts | src/ed247/ed247_cominterface.cpp:443-457 | a constructed address has the port given, is the any-address for an empty IP string, and otherwise holds what `inet_addr` gives |
| ComInterfaces.AnyAddrIsZero | src/ed247/ed247_cominterface.cpp:474-476 | the any-address is exactly the host address 0 |
| ComInterfaces.MulticastRange | src/ed247/ed247_cominterface.cpp:464-472 | multicast is exactly the range 224.0.0.0 to 239.255.255.255 in host order, and unicast everything else |
| ComInterfaces.Hash | src/ed247/ed247_cominterface.cpp:95-99 | the hash of an address is a 32-bit value |
| ComInterfaces.HashRespectsEquality | src/ed247/ed247_cominterface.cpp:95-105 | two addresses compare equal exactly when they are the same address and port, and then they hash alike |
| ComInterfaces.AcquiredCounts | src/ed247/ed247_cominterface.cpp:110-142 | acquiring counts one more use of that address only, and keeps the socket already bound to it |
| ComInterfaces.ReleasedCounts | src/ed247/ed247_cominterface.cpp:145-158 | releasing counts one use fewer of a known address, erases it at zero, and ignores an unknown one |
| ComInterfaces.ReleaseUndoesAcquire | src/ed247/ed247_cominterface.cpp:110-158 | releasing what was just acquired restores the table |
| ComInterfaces.SocketMap.constructor | src/ed247/ed247_cominterface.cpp:182-186 | the map starts empty |
| ComInterfaces.SocketMap.Create | src/ed247/ed247_cominterface.cpp:110-142 | the socket already bound to the address, its use counted, or a new socket no other address holds, with a count of one |
| ComInterfaces.SocketMap.Release | src/ed247/ed247_cominterface.cpp:145-158 | the table becomes what `Released` gives |
| ComInterfaces.SocketMap.AssertSocketsFreed | src/ed247/ed247_cominterface.cpp:161-170 | passes exactly when no socket is in use |
| ComInterfaces.PlanRules | src/ed247/ed247_cominterface.cpp:212-241 | a socket of neither direction raises; a receiver listens on the destination, on the multicast interface for a multicast group; an emitter sends from its source address, replaced by the multicast interface only for an any-address source and a multicast destination |
| ComInterfaces.Plans | src/ed247/ed247_cominterface.cpp:212-241 | one plan per UDP socket, in order |
| ComInterfaces.OneTransceiverEach | src/ed247/ed247_cominterface.cpp:212-241 | a loadable configuration gives exactly one transceiver per UDP socket, each bound to one address |
| ComInterfaces.PrefixStep | src/ed247/ed247_cominterface.cpp:212-241 | one more socket extends the emitters, receivers and addresses by what it gives |
| ComInterfaces.Fanout | src/ed247/ed247_cominterface.cpp:244-249 | one datagram per emitter, in order, each the same payload from that emitter's socket to its destination |
| ComInterfaces.StaysBound | src/ed247/ed247_cominterface.cpp:110-115 | a use more in the table keeps every transceiver bound to its socket |
| ComInterfaces.InstallCounts | src/ed247/ed247_cominterface.cpp:110-142 | installing an endpoint adds one use of its address |
| ComInterfaces.InstalledOne | src/ed247/ed247_cominterface.cpp:218-236 | the transceiver of a planned endpoint joins the receivers or the emitters, bound to the socket of its address |
| ComInterfaces.LoadedStep | src/ed247/ed247_cominterface.cpp:212-241 | one turn of the load loop extends what the earlier sockets loaded |
| ComInterfaces.MaxFd | src/ed247/ed247_cominterface.cpp:358-365 | `nfds` is above every receiver's socket and is one more than some receiver's socket |
| ComInterfaces.Terminal | src/ed247/ed247_cominterface.cpp:389-407 | the select loop goes on while select reports data or an interruption and ends at the first timeout or failure |
| ComInterfaces.Combined | src/ed247/ed247_cominterface.cpp:417-437 | FAILURE exactly when some wait failed, else SUCCESS exactly when some wait received, else NODATA |
| ComInterfaces.FrameStatuses | src/ed247/ed247_cominterface.cpp:426-434 | one status per wait |
| ComInterfaces.ReceiverSet.constructor | src/ed247/ed247_cominterface.cpp:346-351 | no receivers and `nfds` 0 |
| ComInterfaces.ReceiverSet.Emplace | src/ed247/ed247_cominterface.cpp:358-365 | the receiver is appended and `nfds` grows to cover its socket |
| ComInterfaces.ReceiverSet.Serve | src/ed247/ed247_cominterface.cpp:396-402 | some receiver receives exactly when one of the set's sockets is ready |
| ComInterfaces.ReceiverSet.WaitFrame | src/ed247/ed247_cominterface.cpp:368-415 | the status the select outcomes give: TIMEOUT without sockets, SUCCESS after data, FAILURE on a select error |
| ComInterfaces.ReceiverSet.WaitDuring | src/ed247/ed247_cominterface.cpp:417-437 | the status combined from the waits as `Combined` says |
| ComInterfaces.ComInterface.constructor | src/ed247/ed247_cominterface.h:162-181 | no emitters and nothing sent |
| ComInterfaces.ComInterface.Install | src/ed247/ed247_cominterface.cpp:214-240 | the planned endpoint's transceiver is installed, or false (a raise) when it has no plan |
| ComInterfaces.ComInterface.Load | src/ed247/ed247_cominterface.cpp:199-242 | succeeds exactly for a loadable configuration, and then adds every planned emitter and receiver in order, each bound to the socket the map keeps for its address, with one use per socket |
| ComInterfaces.ComInterface.SendFrame | src/ed247/ed247_cominterface.cpp:244-249 | the payload goes from every emitter in turn |
| Contexts.Apart | src/ed247/ed247_context.cpp:51-56 | distinct channels share no header, so sending on one changes no other |
| Contexts.Flush | src/ed247/ed247_context.cpp:53-55 | one turn of the loop: channel k encodes and sends, and the earlier and later channels keep their states |
| Contexts.LoadableStep | src/ed247/ed247_context.cpp:46-48 | a channel can follow the earlier ones exactly when its stream names are new to the context and distinct, its UIDs are distinct and no earlier channel has its name; otherwise the whole configuration cannot load |
| Contexts.StreamNamesStep | src/ed247/ed247_channel.cpp:46-48 | the stream set after channel k is the one before it followed by channel k's stream names, and a name repeated there is repeated in the whole configuration |
| Contexts.CreateChannel | src/ed247/ed247_context.cpp:47 | the k-th channel is created after the others, or false when `create` raises, in which case the configuration is not loadable |
| Contexts.LoadChannels | src/ed247/ed247_context.cpp:46-48 | succeeds exactly for a loadable configuration (stream names distinct across the context, UIDs distinct within each channel, channel names distinct), and then holds one fresh channel per configured channel, in order, built from its configuration |
| Contexts.Context.constructor | src/ed247/ed247_context.cpp:41-45 | a context with its identifier and no channels or receivers |
| Contexts.Context.Load | src/ed247/ed247_context.cpp:41-49 | succeeds exactly when no stream name repeats across the context, no UID repeats within a channel and no channel name repeats, with one fresh channel per configured channel in order |
| Contexts.Context.SendPushedSamples | src/ed247/ed247_context.cpp:51-56 | every channel goes through `encode_and_send` |
| Contexts.Context.WaitFrame | src/ed247/ed247_context.cpp:58-61 | the receiver set's answer |
| Contexts.Context.WaitDuring | src/ed247/ed247_context.cpp:63-66 | the receiver set's answer |
| Conversions.StatusNames | src/ed247/ed247_conversion.cpp:8-18 | every status has a name of its own, not "Unknown", and a code outside the four statuses is "Unknown" |
| Conversions.StandardRoundTrip | src/ed247/ed247_conversion.cpp:20-52 | the name of each standard parses back to it, every string that parses is that value's name, other values are "Unknown", and "Unknown" does not parse |
| Conversions.DirectionRoundTrip | src/ed247/ed247_conversion.cpp:30-67 | the name of each direction parses back to it, every string that parses is that value's name, other values are "Unknown", and "Unknown" does not parse |
| Conversions.YesNoRoundTrip | src/ed247/ed247_conversion.cpp:69-91 | YES and NO parse back from their names, every string that parses is that value's name, other values are "Unknown", and the parse is exact (no blank is trimmed) |
| Conversions.ComponentTypeRoundTrip | src/ed247/ed247_conversion.cpp:93-114 | each component type parses back from its name, every string that parses is that value's name, other values are "Unknown", and the parse is case-sensitive |
| Conversions.StreamTypeRoundTrip | src/ed247/ed247_conversion.cpp:116-167 | each stream type parses back from its name, every string that parses is that value's name, other values and the count are "Unknown" |
| Conversions.SignalTypeRoundTrip | src/ed247/ed247_conversion.cpp:169-196 | each signal type parses back from its name, which is its stream type's name, every string that parses is that value's name, and other values are "Unknown" |
| Conversions.NadTypeRoundTrip | src/ed247/ed247_conversion.cpp:198-243 | each NAD type parses back from its name, every string that parses is that value's name, and other values are "Unknown" |
| Cursors.NextIndex | src/ed247/ed247_client_list.h:97-103 | a step of the looping cursor stays within the elements or at `end` |
| Cursors.Walk | src/ed247/ed247_client_list.h:97-103 | k steps from `end` stay within the elements or at `end` |
| Cursors.At | src/ed247/ed247_client_list.h:91-95 | null exactly at `end`, otherwise the element under the cursor |
| Cursors.WalkInOrder | src/ed247/ed247_client_list.h:97-105 | steps 1 to n visit the n elements in order and step n + 1 reaches `end` |
| Cursors.WalkPeriodic | src/ed247/ed247_client_list.h:97-105 | n + 1 more steps bring the cursor back where it was |
| Cursors.Loops | src/ed247/ed247_client_list.h:49 | the first call gives the first element (null for an empty list), the k-th the k-th element, the one after the last gives null, and the next the first again |
| FrameHeaders.Zeros | src/ed247/ed247_frame_header.cpp:42 | `memset` leaves n zero bytes |
| FrameHeaders.StampBytes | src/ed247/ed247_frame_header.cpp:36-44 | the timestamp part of the header is 8 bytes |
| FrameHeaders.HeaderBytes | src/ed247/ed247_frame_header.cpp:7-10 | the header is twelve bytes |
| FrameHeaders.HeaderRoundTrip | src/ed247/ed247_frame_header.cpp:22-69 | reading a written header back gives the component identifier, the sequence number and, when enabled, the transport timestamp; a disabled timestamp keeps the previous one |
| FrameHeaders.FrameHeader.constructor | src/ed247/ed247_frame_header.cpp:13-20 | the configuration given, sequence number 0 and default received details |
| FrameHeaders.FrameHeader.Encode | src/ed247/ed247_frame_header.cpp:22-46 | disabled: nothing written; enabled with fewer than twelve bytes left: raises with nothing changed; otherwise the header bytes at the index, the index moved past them, and the sequence number counted up modulo 2^16 |
| FrameHeaders.FrameHeader.Decode | src/ed247/ed247_frame_header.cpp:48-69 | disabled: succeeds without moving; enabled with fewer than twelve bytes left: fails with nothing changed; otherwise records what the header says and moves past it |
| FrameHeaders.SentThenReceived | src/ed247/ed247_frame_header.cpp:22-69 | a header written amid other bytes and read at its position gives the sender's identifier, sequence number and, when enabled, timestamp |
| Internals.SignalStreamsNameSignalTypes | src/ed247/ed247_internals.h:208-217 | ANALOG, DISCRETE, NAD and VNAD, the stream types that carry signals, are exactly the stream types whose name is a signal type's name, and that signal type has the same value |
| Internals.SimulationTimeHandler.constructor | src/ed247/ed247_internals.h:296-299 | no callback installed, so not valid |
| Internals.SimulationTimeHandler.SetHandler | src/ed247/ed247_internals.h:273-277 | the callback given is installed, and the handler is valid exactly when it is not null |
| Internals.SimulationTimeHandler.UpdateTimestamp | src/ed247/ed247_internals.h:279-285 | without a callback the timestamp is unchanged and the answer is "failed"; with one, the callback's timestamp is taken and "failed" exactly when it did not return SUCCESS |
| Internals.SmartList.constructor | src/ed247/ed247_internals.h:306-315 | the given items, not managed, the cursor at `end` |
| Internals.SmartList.Reset | src/ed247/ed247_internals.h:329-332 | the cursor back to `end`, the items and the managed flag unchanged |
| Internals.SmartList.Next | src/ed247/ed247_internals.h:318-322 | one step of the looping cursor, then the element under it, null at `end` |
| Internals.SmartList.NextOk | src/ed247/ed247_internals.h:324-327 | what `next` does |
| Internals.SmartList.SetManaged | src/ed247/ed247_internals.h:334 | the flag is set and nothing else changes |
| Internals.SmartList.Managed | src/ed247/ed247_internals.h:335 | the flag |
| LegacyHeaders.Missed | src/ed247/ed247_header.cpp:95-97 | the frames skipped going forward modulo 2^16 from the last number to the new one: the last number plus the missed count plus one is the new number, and a repeated number counts 0xFFFF |
| LegacyHeaders.Accumulate | src/ed247/ed247_header.cpp:98-100 | the missed count grows by the frames missed and saturates at 0xFFFF |
| LegacyHeaders.Find | src/ed247/ed247_header.cpp:83-85 | the first tracker of that component, or the end when there is none |
| LegacyHeaders.TrackKeeps | src/ed247/ed247_header.cpp:82-103 | the error comes exactly when a 65th producer shows; otherwise the sender's tracker holds the number and timestamp just received, at most one tracker is added, and the others are untouched |
| LegacyHeaders.TotalMissedBound | src/ed247/ed247_header.h:63-70 | with each count at most 0xFFFF the sum stays at most the number of trackers times 0xFFFF, so the 32-bit sum cannot wrap with 64 trackers |
| LegacyHeaders.FrameHeader.constructor | src/ed247/ed247_header.h:28-34 | a zeroed send header, no trackers, and the iterator at the end |
| LegacyHeaders.FrameHeader.Encode | src/ed247/ed247_header.cpp:13-45 | disabled: nothing written; a header that does not fit overruns the frame (raising when the transport timestamp or the sequence number does not fit), with the sequence number counted when its check passed; otherwise the header bytes at the index and the sequence number counted up modulo 2^16 |
| LegacyHeaders.FrameHeader.FindTracker | src/ed247/ed247_header.cpp:83-85 | the index `Find` gives |
| LegacyHeaders.FrameHeader.Decode | src/ed247/ed247_header.cpp:47-106 | disabled: accepted at index 0; a frame too short for the enabled fields is rejected with the trackers untouched; otherwise the sender's tracker is created or updated as tracking says, and a 65th producer raises |
| LegacyHeaders.FrameHeader.MissedFrames | src/ed247/ed247_header.h:63-70 | the sum of every tracker's missed count |
| LegacyHeaders.FrameHeader.Equals | src/ed247/ed247_header.h:49-56 | two headers are equal exactly when their five send-header fields are, the receive trackers not taking part |
| LegacyHeaders.TrackKnown | src/ed247/ed247_header.cpp:94-103 | a known producer keeps its position, its count grows by the frames missed (saturating) and its number and timestamp are replaced |
| LegacyHeaders.OneProducerScenario | tests/unit_api_metrics/src/unit_api_metrics_recv.cpp:70-80 | one producer sending 65000, 65500, 65535, 10, 65500 counts 0, 499, 533, 543 missed frames, then 0xFFFF |
| LegacyHeaders.TwoProducerScenarioStart | tests/unit_api_metrics/src/unit_api_metrics_recv.cpp:197-203 | two interleaved producers give missed-frame totals 0, 0, 4 and 37 over their first four frames |
| LegacyHeaders.TwoProducerScenarioEnd | tests/unit_api_metrics/src/unit_api_metrics_recv.cpp:197-203 | over their last four frames the totals are 77, 86, 442 and 900 |
| Logs.Clamp | src/ed247/ed247_logs.cpp:131 | the level clamped into [MIN, MAX]: unchanged inside, MIN below, MAX above |
| Logs.LevelNameThreshold | src/ed247/ed247_logs.cpp:140-148 | every level is named after the highest named level not above it, ERROR for the levels below all of them |
| Logs.NamedLevelsNameThemselves | src/ed247/ed247_logs.cpp:140-148 | each named level has its own name |
| Logs.ClampedLevelsAreNamed | src/ed247/ed247_logs.cpp:131-148 | a clamped level is never named UNSET, and clamping twice is clamping once |
| Logs.SkipSpaces | src/ed247/ed247_logs.cpp:113 | `strtol` skips exactly the leading white space |
| Logs.Digits | src/ed247/ed247_logs.cpp:113 | the decimal form of a number is a non-empty string of digits |
| Logs.DigitsValueOfDigits | src/ed247/ed247_logs.cpp:113 | the value of a number's decimal digits is the number |
| Logs.ParseLevelOfDecimal | src/ed247/ed247_logs.cpp:111-116 | every level written in decimal, with or without leading white space, is read as that level |
| Logs.SkipsSpaces | src/ed247/ed247_logs.cpp:113 | white space in front of a non-blank is skipped whole |
| Logs.ParseLevelRejects | src/ed247/ed247_logs.cpp:111-119 | an empty or blank value, trailing text, hex and a lone sign are not levels |
| Logs.ParseLevelOfPlus | src/ed247/ed247_logs.cpp:113 | an explicit plus sign is accepted |
| Logs.Logger.constructor | src/ed247/ed247_logs.cpp:51-55 | a new logger's level is UNSET |
| Logs.Logger.SetLevel | src/ed247/ed247_logs.cpp:129-138 | the level becomes the requested one clamped; nothing is said when it does not change, and otherwise the change is announced except for the first setting of the default level |
| Logs.Logger.Reset | src/ed247/ed247_logs.cpp:110-127 | a non-empty environment value wins when it is a number (the level becomes it clamped) and is otherwise reported with nothing changed; without it, a caller level other than UNSET is taken; without either, an unset logger gets the default level and a set one above ERROR has its level announced |
| Logs.HexByte | src/ed247/ed247_logs.cpp:163 | each byte is printed as two characters |
| Logs.HexByteRoundTrip | src/ed247/ed247_logs.cpp:157-163 | the two upper-case hex digits printed for a byte read back as the byte |
| Logs.HexStream | src/ed247/ed247_logs.cpp:154-174 | "(null)" for a null payload; otherwise each of the first `len` bytes as two hex digits and a space, nothing for a length that is not positive |
| Signals.Signal.constructor | src/ed247/ed247_signal.cpp:29-35 | a signal with its configured name and its stream |
| Signals.InsertGrows | src/ed247/ed247_signal.cpp:52-60 | registering a new name adds exactly one entry |
| Signals.SignalSet.constructor | src/ed247/ed247_signal.cpp:42-45 | no signals registered |
| Signals.SignalSet.Create | src/ed247/ed247_signal.cpp:52-60 | null (a raise) exactly when the name is already registered, which keeps the first signal; otherwise a fresh signal with that name and stream is registered under it and the registry grows by one |
| Signals.SignalSet.Get | src/ed247/ed247_signal.cpp:62-67 | non-null exactly when the name is registered, and then the signal registered under it, which carries that name |
| XmlRules.NadTypeSize | src/ed247/ed247_xml.cpp:571-586 | element size is 1 for the 8-bit types, 2 for 16-bit, 4 for 32-bit and float, 8 for 64-bit and double, 0 exactly for an unknown type |
| XmlRules.NewSignal | src/ed247/ed247_xml.cpp:538-546 | a fresh signal has offset 0, no NAD type, VNAD position and max number 0, and the single dimension [1] |
| XmlRules.MulMod | src/ed247/ed247_xml.cpp:556-562 | reducing the running product modulo 2^32 before the next multiplication does not change the wrapped result |
| XmlRules.WrappedProduct | src/ed247/ed247_xml.cpp:556-560 | the uint32 product of the dimensions equals the exact product of all dimensions modulo 2^32 |
| XmlRules.SampleMaxSize | src/ed247/ed247_xml.cpp:548-569 | DISCRETE takes 1 byte, ANALOG 4, NAD elements times element size and VNAD element size times max number, both modulo 2^32; any other type 0 |
| XmlRules.NadSizeExact | src/ed247/ed247_xml.cpp:556-562 | when the product is below 2^32 the NAD size is exactly elements times element size |
| XmlRules.DefaultNadIsOneElement | src/ed247/ed247_xml.cpp:545 | a NAD signal without Dimensions has the size of one element |
| XmlRules.Pieces | src/ed247/ed247_xml.cpp:667-677 | splitting the Dimensions text always yields at least one piece |
| XmlRules.LowerSeparators | src/ed247/ed247_xml.cpp:667 | normalising 'X' to 'x' keeps the length of the text |
| XmlRules.PiecesCount | src/ed247/ed247_xml.cpp:667-677 | there is one piece more than there are 'x'/'X' separators |
| XmlRules.PiecesClean | src/ed247/ed247_xml.cpp:667-673 | no piece contains a separator |
| XmlRules.PiecesRejoin | src/ed247/ed247_xml.cpp:667-677 | joining the pieces with 'x' gives back the text (separators normalised), so nothing is lost |
| XmlRules.FirstSeparator | src/ed247/ed247_xml.cpp:667 | find_first_of: the position is the first 'x' or 'X', or the length when there is none |
| XmlRules.PiecesAtSeparator | src/ed247/ed247_xml.cpp:667-677 | the pieces are the text before the first separator followed by the pieces of the rest, or the whole text when there is no separator |
| XmlRules.LeadingDigits | src/ed247/ed247_xml.cpp:669 | the number of leading decimal digits the extraction reads, stopping at the first non-digit |
| XmlRules.ReadU32 | src/ed247/ed247_xml.cpp:668-669 | an empty piece fails before reading and leaves the variable's previous value; otherwise 0 without leading digits, the decimal value of the leading digits when it fits, and 2^32-1 when it overflows |
| XmlRules.Readings | src/ed247/ed247_xml.cpp:663-677 | one dimension per piece, in order, each read into the one `dimension` variable: the first reading sees its initial value, each later one the reading before it |
| XmlRules.PiecesOfExample | src/ed247/ed247_xml.cpp:667-677 | "10x20" splits into "10" and "20" |
| XmlRules.ReadTwoDigits | src/ed247/ed247_xml.cpp:668-669 | a digit followed by '0' reads as ten times the digit |
| XmlRules.TwoDimensions | src/ed247/ed247_xml.cpp:660-678 | "10x20" parses to the dimensions [10, 20], whatever `dimension` held before |
| XmlRules.TrailingSeparatorRepeats | src/ed247/ed247_xml.cpp:674-677 | "10x" parses to [10, 10]: the empty last piece repeats the dimension before it |
| XmlRules.SplitStep | src/ed247/ed247_xml.cpp:667-677 | one turn of the split loop keeps "already read pieces followed by the pieces of the rest" equal to the pieces of the whole text |
| XmlRules.ParseDimensions | src/ed247/ed247_xml.cpp:660-678 | the loop's dimensions are the readings of the pieces through `dimension`, whose uninitialised value is a parameter, one more than the separators |
| XmlRules.FitsAgree | src/ed247/ed247_xml.cpp:777 | when offset plus size does not wrap, the uint32 fit check and the exact one agree |
| XmlRules.WrappedOffsetPasses | src/ed247/ed247_xml.cpp:777 | a DISCRETE signal at offset 2^32-1 passes the uint32 check for a 0-byte sample although it does not fit |
| XmlRules.FitsWithinSample | src/ed247/ed247_xml.cpp:777 | every byte of a signal that fits lies inside the sample |
| XmlRules.SortSignals | src/ed247/ed247_xml.cpp:793-796 | std::sort: the signals end sorted by offset (or VNAD position) and are a permutation of the input |
| XmlRules.Swapped | src/ed247/ed247_xml.cpp:793-796 | one exchange of neighbours keeps the length and the multiset of signals |
| XmlRules.SinkStart | src/ed247/ed247_xml.cpp:793-796 | the insertion step starts with a sorted prefix and the new element at its end |
| XmlRules.SinkStep | src/ed247/ed247_xml.cpp:793-796 | swapping an element below a larger neighbour keeps the insertion invariant |
| XmlRules.SinkEnd | src/ed247/ed247_xml.cpp:793-796 | once the element is not below its neighbour the prefix one longer is sorted |
| XmlRules.SinkLast | src/ed247/ed247_xml.cpp:793-796 | inserting the next element makes the prefix one longer sorted, leaves the rest alone and keeps a permutation |
| XmlRules.SignalsOf | src/ed247/ed247_xml.cpp:798-801 | the signals of the numbered list, in order |
| XmlRules.Number | src/ed247/ed247_xml.cpp:798-801 | the position attribute of each signal is its index in the sorted list |
| XmlRules.PlaceSignals | src/ed247/ed247_xml.cpp:793-801 | the signals are a permutation of the declared ones, sorted by offset, each numbered by its index |
| XmlRules.LoadPlacedSignals | src/ed247/ed247_xml.cpp:734-802 | a DISCRETE stream is refused exactly when a signal fails the uint32 offset-plus-size check; otherwise it is sorted by offset and numbered |
| XmlRules.LoadPlacedSignalsIntended | src/ed247/ed247_xml.cpp:734-802 | with an exact fit check, every kept signal lies inside the sample, and the same sorting and numbering hold |
| XmlRules.LoadVnadSignals | src/ed247/ed247_xml.cpp:968-1033 | the sample size is the sum of (size + 2) times max number over the signals modulo 2^32; the signals are sorted by VNAD position and numbered |
| XmlRules.AddMod | src/ed247/ed247_xml.cpp:1009 | adding to a sum already reduced modulo 2^32 gives the same wrapped result |
| XmlRules.ReadMessageSize | src/ed247/ed247_xml.cpp:431-440 | the `MessageSize` attribute loop fails exactly on an attribute other than `Enable`, and otherwise leaves the setting of the last `Enable` |
| XmlRules.LoadA664Children | src/ed247/ed247_xml.cpp:423-448 | refused exactly on an unknown child element or attribute, or, with SampleMaxNumber above 1, when message sizes are off right after some element child; a kept stream has the final setting, which obeys the message-size rule |
| XmlRules.A664FinalSettingChecked | src/ed247/ed247_xml.cpp:394-446 | although the check sits inside the child loop, a final setting of NO was checked after the element child that set it, since the constructor starts from YES |
| XmlRules.A664OneSampleWithoutSize | src/ed247/ed247_xml.cpp:443-446 | a stream the loader keeps with message sizes off has SampleMaxNumber at most 1 |
| XmlRules.OrAllBits | src/ed247/ed247_xml.cpp:1150 | the OR of direction masks has IN (OUT) exactly when one of the masks has it |
| XmlRules.Consolidate | src/ed247/ed247_xml.cpp:1158-1180 | refused exactly when a socket has no direction and the streams are not one-way; a socket without direction takes the streams' direction, a stream without direction the OR of the sockets' |
| XmlRules.DefaultedStreamsFollowSockets | src/ed247/ed247_xml.cpp:1173-1178 | a stream that had no direction gets no bit that no socket has |
| XmlRules.SocketsOneWay | src/ed247/ed247_xml.cpp:1161-1171 | after consolidation every socket is IN or OUT when none was declared INOUT |
| XmlRules.LoadChannel | src/ed247/ed247_xml.cpp:1066-1190 | refused exactly when a socket is INOUT, the frame revision is not ED247A or a socket direction cannot be decided; otherwise all sockets are one-way and undirected streams follow the sockets |
| XmlRules.LoadComponent | src/ed247/ed247_xml.cpp:1202-1269 | refused exactly when the component revision is not ED247A or some channel is refused; otherwise one consolidated channel per declared one with one-way sockets |

## Left out

- Exceptions (`THROW_ED247_ERROR`, `THROW_PARSER_ERROR`) are modelled as a `false` or null result, a `Refused` or `DuplicateUid` outcome, or a `Throws`, `Raised` or `Overrun` constructor. Undefined behaviour (a write or read past a buffer the source does not check) is modelled as a status constructor such as `Undefined`, never as the bytes it would produce. Exception messages are not modelled.
- The host is taken to be little-endian (x86, ARM). `ntohs`/`htons` swap, and the SERIAL length prefix in host order is little-endian (`Types.LE16`).
- Channels.BuildPorts: the streams are kept in configuration order. The source keys them in a `std::unordered_map` (src/ed247/ed247_channel.h:42), whose iteration order decides the order of blocks in a MultiChannel frame. That order is implementation-defined and is not modelled.
- StreamWire.SwapRegion: a swap region that straddles the end of a shorter payload is `Undefined` in the model. The source swaps whatever stale bytes lie in the sample buffer past the payload.
- Channels.Channel.SimplePass: the source hands `encode` the whole buffer capacity, not the room left after the header (src/ed247/ed247_channel.cpp:126). The buffer is sized for header plus stream, so the model writes within it; what `encode` would do with the extra claimed room is not modelled.
- Logs.Logger.Reset: the `long` that `strtol` returns is cast to the level enum. The model keeps it as an integer. `strtol`'s saturation on overflow is not modelled.
- XmlRules.ReadU32: `operator>>` skips leading whitespace and accepts a sign. The model reads only leading decimal digits, so a piece of blanks reads as 0 where the source keeps the previous value; overflow gives 2^32-1, as the C++11 extraction does.
- XmlRules.ParseDimensions: `dimension` is uninitialised, so an empty first piece gives an indeterminate value. The model takes that value as the parameter `first`.
- XmlRules.LoadA664Children: only the child loop is modelled. The attribute loop of the `A664_Stream` element and the loading of its `DataTimestamp` and `Errors` children are not; a child is given by its kind.
- DataTimestamps.ApplyOffset: it carries nanoseconds into seconds. The source does not (Findings row 4); `AsWrittenApplyOffset` is the arithmetic as written.
- DataTimestamps.DecodeStamp: it moves the base with the carrying `ApplyOffset`, not with the source's arithmetic (Findings row 4).
- Contexts.Context.Load: the channel constructor also loads its com-interface (src/ed247/ed247_channel.cpp:63-64), which raises on a socket of neither direction (src/ed247/ed247_cominterface.cpp:238). That load is `ComInterfaces.ComInterface.Load` and is not composed into channel creation, so such a configuration loads here. The same holds for `Channels.ChannelSet.Create`, `Contexts.CreateChannel`, `Contexts.LoadChannels` and `Contexts.LoadableStep`.
- Channels.ChannelSet.RegisterStreams: the stream set's `create` also raises on an unsupported stream type or an invalid direction. A channel's port carries no type or direction, so those raises are stated only by `Streams.StreamPool.Get`.
- XmlRules.LoadChannel: the source ORs `_stream_list.back()` rather than the current stream when it recomputes the streams' direction (src/ed247/ed247_xml.cpp:1179). That value only feeds the parser warnings, which are not modelled.
- Parser warnings, the libxml2 traversal, the XSD validation and the attribute loops of src/ed247/ed247_xml.cpp. The parsed configuration is given as plain records.
- Api.StreamPopSample: the source dereferences the sample that `pop_sample` returns, which is null on a stream without IN. The model requires that this case does not arise.
- Streams.Stream.PopSample: on a stream without IN the source leaves its `empty` out-parameter unwritten. The model returns `false` there.
- Streams.Stream.Decode: on a sample that consumes no byte the source loops for ever; the model stops after committing it once. Stored stamps follow the corrected decoder (see Findings).
- DataTimestamps.AsWrittenApplyOffset: it has no contract of its own. Its behaviour is stated by `AsWrittenOffsetDoesNotCarry` and `AsWrittenAgreesWithoutCarry`.
- The send and receive stacks inside a stream are bounded FIFO sequences. The ring buffer classes prove the FIFO behaviour separately; slot reuse and aliasing between a popped slot and the next push are not modelled.
- Sockets, `select`, `sendto`/`recvfrom`, `inet_addr`, the clock, user callbacks and the simulation-time handler are parameters: given status sequences, given outcomes, or a given handler result.
- `wait_during`'s elapsed-time loop runs for a given number of rounds, one per `wait_frame` call.
- Subclass overrides of `SmartList` (src/ed247/ed247_internals.h) and mutation of a list while it is being iterated.
- The duplicate enum↔string conversions in src/ed247/ed247.cpp are those of src/ed247/ed247_conversion.cpp and are modelled once. `ed247.cpp` adds only the lenient yes/no parsing and the upper-casing. The STOP status name of `ed247_status_string` has no enum value in `ed247.h` and is left out.
- The C API functions of src/ed247/ed247.cpp other than the list accessors, stream push/pop/samples-number and `libed247_update_time` are wrappers around the modelled classes and are not modelled separately.
- src/ed247/ed247_logs.h is from an older revision than ed247_logs.cpp. Only the .cpp is modelled. File and stream redirection, message text and backtraces are left out.
- A429.LabelDecode: the decode table is rendered by the rule that produces it, not by its 256 literal entries. `CLength` is `strlen` of the label string.
- Floating-point meaning of ANALOG and FLOAT32/FLOAT64 data. Payloads are bytes; only the swaps matter.
- Regex search (`find_streams`, `find_signals`) and the memory hooks.

## Findings

| source | as written | input that shows it | evidently intended | confidence | as-written member | corrected member |
|---|---|---|---|---|---|---|
| utils/lib/a429_tools.cpp:91-97 | the parity bit is set when the parity of the other 31 bits equals the requested kind, so ODD parity yields an even number of ones | the all-zero word with kind ODD stays all zero | the whole word has an odd (even) number of ones for ODD (EVEN) | high, not executed | A429.ParityOddGivesEven | A429.ParityIntendedParity |
| src/ed247/ed247_xml.cpp:777 | offset plus size is added in `uint32_t` before the comparison (also at 855 and 933) | a DISCRETE signal at ByteOffset 2^32-1 in a stream of SampleMaxSizeBytes 0 passes | a signal is refused unless it lies inside the sample | high, not executed | XmlRules.WrappedOffsetPasses | XmlRules.LoadPlacedSignalsIntended |
| src/ed247/ed247_stream.cpp:285-286 | every decoded sample is stored with the payload's first timestamp, not the precise one just decoded (also at 393-394, 490-491, 587, 683, 755, 840, 986, 1109) | an A429 payload with samples stamped (7 s, 0) and (7 s, 5 ns) pops (7 s, 0) twice | each sample is received with the stamp it was sent with | medium, not executed | StreamWire.AsWrittenDropsOffset | StreamRoundTrip.EncodeThenDecode |
| src/ed247/ed247_stream.h:353-358 | seconds and nanoseconds of the offset are added separately without carry | base (0 s, 900 ms) and a sample at (1 s, 100 ms) decode as (0 s, 1100 ms) | the nanoseconds carry into the seconds | medium, not executed | DataTimestamps.AsWrittenOffsetDoesNotCarry | DataTimestamps.ApplyOffsetRecovers |
| src/ed247/ed247.cpp:1793-1797 | the push loop counts with a `uint32_t` against a `size_t` sample count | samples_number = 2^32: the counter wraps to 0 and the loop never ends | the loop pushes exactly samples_number samples | medium, not executed | Api.AsWrittenPushLoop | Api.PushSlices |
