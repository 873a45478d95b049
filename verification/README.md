# madturks core, modelled in Dafny

This project models the data path of madturks' QUIC layer, "nexus", and the core containers
and helpers it uses:

- **The three circular byte buffers** of `mad::container`:
  - the virtual-memory mirrored buffer (`circular_buffer_vm`, used as every stream's receive
    buffer);
  - the basic buffer (`circular_buffer`);
  - the power-of-two buffer (`circular_buffer_pow2`).

  Each is a class over an `array<byte>` storage with its read and write indices. Every
  operation is proved against `Contents()`, the queued bytes in FIFO order, for example
  "`put` appends `src` to the queued bytes and fails exactly when they do not fit".
- **The wire framing of messages**: a 4-byte little-endian length in front of each payload
  (`Framing`, `Bytes`).
- **The receive callback** `StreamCallbackReceive`. It pulls transport buffers into the
  receive ring and delivers every complete frame to the application. It is proved to deliver
  exactly the payloads that were sent, whatever the segmentation, within one receive event
  and over a series of events whose boundaries cut frames anywhere.
- **The sending side**:
  - `build_message` lays out a frame, its length prefix and the `QUIC_BUFFER` sentinel in one
    allocation;
  - `send_buffer` gives its spans and ownership transfer.
- **The handle-keyed containers**: for connections, streams and contexts, and the
  per-stream table of buffers in flight.
- **The msquic glue** (`msquic_api`, `make_msquic_application`). It is reduced to the guard
  logic and the order of the calls into msquic. Each foreign call is an oracle parameter or a
  recorded `ForeignCall`.
- **Level-gated logging** and the **character sets** of `random_string`.

Foreign code (msquic, FlatBuffers, spdlog, `mmap`) is not modelled. Its results are
parameters, and handles are plain numbers.

## Model

| member | source | states |
|---|---|---|
| CircularBufferBase.Min | madturks/core/container/inc/mad/circular_buffer_base.hpp:91-93 | the result is at most both arguments, is one of them, and is `a` when `a < b` |
| CircularBufferBase.SplitReadIsWindow | madturks/core/container/inc/mad/circular_buffer.hpp:165-179 | reading the part up to the end of the storage and then the rest from index 0 yields the `len` bytes that follow `h` around the ring |
| CircularBufferBase.SplitCopyIsWrap | madturks/core/container/inc/mad/circular_buffer.hpp:88-102 | writing the part that fits before the end and then the rest at index 0 places every byte of `src` at its ring position after `start`; nothing else changes |
| CircularBufferBase.CopyInSplit | madturks/core/container/inc/mad/circular_buffer.hpp:88-102 | the two `memcpy`s of `put` leave the storage equal to the ring write of `src` at `start` |
| CircularBufferBase.CopyInMirrored | madturks/core/container/src/circular_buffer_vm.cpp:184-203 | one `memcpy` into the doubly mapped region leaves the physical storage equal to the ring write of `src` at `start` |
| CircularBufferBase.WindowAfterWrite | madturks/core/container/inc/mad/circular_buffer.hpp:53-107 | writing `src` just after the `c` queued bytes makes the queue those bytes followed by `src` (FIFO append) |
| CircularBufferBase.WindowConcat | madturks/core/container/inc/mad/circular_buffer.hpp:141-144 | the first `c` queued bytes followed by the next `a` are the first `c + a` bytes, so reading is consistent across a wrap |
| CircularBufferVm.CheckedSize | madturks/core/container/src/circular_buffer_vm.cpp:62-68 | construction succeeds exactly when the size is a positive multiple of the page size; a non-multiple gives `SizeNotPageMultiple`, and a size of zero fails when its mapping is refused |
| CircularBufferVm.AutoAlignedSizeAsWritten | madturks/core/container/src/circular_buffer_vm.cpp:156-158 | the auto-aligned size is a page multiple strictly larger than the request and at most one page more |
| CircularBufferVm.AutoAlignOfOnePage | madturks/core/container/src/circular_buffer_vm.cpp:156-158 | a request of exactly one page gets two pages as written, while aligning up gives one |
| CircularBufferVm.AlignUp | madturks/core/container/inc/mad/circular_buffer_vm.hpp:144-151 | the size rounded up to the page size: a page multiple, at least the request and less than a page above it |
| CircularBufferVm.AlignUpIsNearest | madturks/core/container/inc/mad/circular_buffer_vm.hpp:144-151 | no page multiple at or above the request is smaller than `AlignUp` |
| CircularBufferVm.CircularBufferVm.constructor | madturks/core/container/src/circular_buffer_vm.cpp:62-68 | a valid buffer of the requested size with nothing queued and zeroed storage |
| CircularBufferVm.CircularBufferVm.ConsumedSpace | madturks/core/container/inc/mad/circular_buffer_vm.hpp:398-400 | the number of queued bytes, never above the total size |
| CircularBufferVm.CircularBufferVm.EmptySpace | madturks/core/container/inc/mad/circular_buffer_vm.hpp:394-396 | empty and consumed space add up to the total size |
| CircularBufferVm.CircularBufferVm.Put | madturks/core/container/src/circular_buffer_vm.cpp:184-203 | succeeds exactly when `src` fits in the empty space and then appends it to the queued bytes; on failure nothing changes |
| CircularBufferVm.CircularBufferVm.MarkAsWrite | madturks/core/container/src/circular_buffer_vm.cpp:229-239 | commits the `amount` bytes already in the storage after the queued ones, in ring order |
| CircularBufferVm.CircularBufferVm.MarkAsRead | madturks/core/container/src/circular_buffer_vm.cpp:212-227 | drops the oldest `amount` queued bytes and keeps the rest |
| CircularBufferVm.CircularBufferVm.Peek | madturks/core/container/src/circular_buffer_vm.cpp:241-250 | succeeds exactly when `amount` bytes are queued and returns the oldest `amount` of them; changes nothing |
| CircularBufferVm.CircularBufferVm.Get | madturks/core/container/src/circular_buffer_vm.cpp:262-269 | on success returns the oldest `amount` bytes and removes them; otherwise changes nothing |
| CircularBufferVm.CircularBufferVm.GetEverything | madturks/core/container/inc/mad/circular_buffer_vm.hpp:218-221 | returns every queued byte and leaves the buffer empty |
| CircularBufferVm.CircularBufferVm.GetAll | madturks/core/container/inc/mad/circular_buffer_vm.hpp:228-231 | reads the pieces in order, each of its requested size, and stops at the first that is not fully queued; the pieces read followed by what is left are the old contents |
| CircularBufferVm.CircularBufferVm.PutAll | madturks/core/container/inc/mad/circular_buffer_vm.hpp:292-295 | appends a prefix of the chunks, stopping at the first that does not fit; success means all were appended |
| CircularBufferVm.CircularBufferVm.Clear | madturks/core/container/src/circular_buffer_vm.cpp:205-210 | nothing is queued and the whole storage is free |
| CircularBufferVm.CircularBufferVm.PeekAssign | madturks/core/container/inc/mad/circular_buffer_vm.hpp:334-342 | fills the destination with the oldest `amount` bytes when enough are queued; otherwise leaves it as it was |
| CircularBufferVm.CircularBufferVm.PeekAssignAll | madturks/core/container/inc/mad/circular_buffer_vm.hpp:352-359 | fills the destination with every queued byte when any are queued; otherwise leaves it as it was |
| CircularBufferVm.CircularBufferVm.TransferAmount | madturks/core/container/src/circular_buffer_vm.cpp:252-260 | the bytes a transfer moves: the smaller of this buffer's queued bytes and the other's free space, zero only when one of them is zero |
| CircularBufferVm.CircularBufferVm.Transfer | madturks/core/container/src/circular_buffer_vm.cpp:252-260 | as written: removes the moved bytes from this buffer and writes them at the destination's read index, so the destination queues exactly them only when it was empty |
| CircularBufferVm.CircularBufferVm.TransferAppending | madturks/core/container/src/circular_buffer_vm.cpp:252-260 | corrected transfer: the moved bytes are appended after the destination's queued bytes, and the two buffers together keep their combined FIFO order |
| CircularBufferVm.TransferIntoNonEmptyDestination | madturks/core/container/src/circular_buffer_vm.cpp:252-260 | a transfer of byte 1 into a destination that already queues byte 2 leaves it queueing 1 and then a stale 0, where 2 then 1 was due |
| CircularBuffer.CircularBuffer.constructor | madturks/core/container/inc/mad/circular_buffer.hpp:44-51 | a valid empty buffer of the requested size with the requested overwrite policy |
| CircularBuffer.CircularBuffer.ConsumedSpace | madturks/core/container/inc/mad/circular_buffer.hpp:40-42 | the number of queued bytes, never above the total size |
| CircularBuffer.CircularBuffer.EmptySpace | madturks/core/container/inc/mad/circular_buffer.hpp:36-38 | empty and consumed space add up to the total size |
| CircularBuffer.CircularBuffer.Put | madturks/core/container/inc/mad/circular_buffer.hpp:53-107 | succeeds exactly when `src` fits and then appends it to the queued bytes, splitting the copy at the end of the storage; on failure nothing changes |
| CircularBuffer.CircularBuffer.MarkAsRead | madturks/core/container/inc/mad/circular_buffer.hpp:141-144 | drops the oldest `amount` bytes; the read index advances around the ring |
| CircularBuffer.CircularBuffer.MarkAsWrite | madturks/core/container/inc/mad/circular_buffer.hpp:146-149 | as written: moves the read index, masked with `size - 1`, and grows the byte count, leaving the write index where it was |
| CircularBuffer.CircularBuffer.Commit | madturks/core/container/inc/mad/circular_buffer.hpp:146-149 | corrected `mark_as_write`: advances the write index and appends the `amount` bytes after the queued ones |
| CircularBuffer.CircularBuffer.Peek | madturks/core/container/inc/mad/circular_buffer.hpp:165-179 | succeeds exactly when `amount` bytes are queued and returns the oldest `amount`, across the wrap |
| CircularBuffer.CircularBuffer.Get | madturks/core/container/inc/mad/circular_buffer.hpp:217-223 | on success returns and removes the oldest `amount` bytes; otherwise changes nothing |
| CircularBuffer.CircularBuffer.Clear | madturks/core/container/inc/mad/circular_buffer.hpp:239-241 | nothing is queued and the whole storage is free |
| CircularBuffer.CircularBuffer.PeekAssign | madturks/core/container/inc/mad/circular_buffer.hpp:195-204 | not enough queued, or a contiguous read that would run past the end of the storage, or else the oldest `amount` bytes |
| CircularBuffer.MarkAsWriteBreaksBookkeeping | madturks/core/container/inc/mad/circular_buffer.hpp:146-149 | after `mark_as_write(1)` on a new buffer of four, the write index no longer sits after the queued bytes |
| CircularBuffer.PeekAssignAfterWrap | madturks/core/container/inc/mad/circular_buffer.hpp:195-204 | in a buffer of four, after putting three bytes, taking three and putting two, `peek_assign` of the two queued bytes reads past the end of the storage |
| CircularBufferPow2.CircCount | madturks/core/container/src/circular_buffer_pow2.cpp:3 | the queued count: the distance from the read index forward to the write index |
| CircularBufferPow2.CircSpace | madturks/core/container/src/circular_buffer_pow2.cpp:8 | the free space; free plus queued is one less than the size, as one slot always stays empty |
| CircularBufferPow2.SpaceToEnd | madturks/core/container/src/circular_buffer_pow2.cpp:30-34 | the free bytes writable without wrapping: the smaller of the free space and the distance to the end |
| CircularBufferPow2.CountToEnd | madturks/core/container/src/circular_buffer_pow2.cpp:61-65 | the queued bytes readable without wrapping: the smaller of the count and the distance to the end |
| CircularBufferPow2.CountAfterWrite | madturks/core/container/src/circular_buffer_pow2.cpp:39-49 | advancing the write index by `k` raises the count by `k` |
| CircularBufferPow2.CountAfterRead | madturks/core/container/src/circular_buffer_pow2.cpp:69-79 | advancing the read index by `k` lowers the count by `k` |
| CircularBufferPow2.CircularBufferPow2.constructor | madturks/core/container/src/circular_buffer_pow2.cpp:19-24 | a valid empty buffer of the requested power-of-two size |
| CircularBufferPow2.CircularBufferPow2.ConsumedSpace | madturks/core/container/src/circular_buffer_pow2.cpp:98-100 | the number of queued bytes, always below the size |
| CircularBufferPow2.CircularBufferPow2.EmptySpace | madturks/core/container/src/circular_buffer_pow2.cpp:94-96 | empty plus consumed space is one less than the size |
| CircularBufferPow2.CircularBufferPow2.Put | madturks/core/container/src/circular_buffer_pow2.cpp:28-54 | succeeds exactly when `src` fits and then appends it, chunk by chunk, to the queued bytes; on failure nothing changes |
| CircularBufferPow2.CircularBufferPow2.WriteContiguous | madturks/core/container/src/circular_buffer_pow2.cpp:39-49 | one chunk copy writes the chunk at the write index and raises the count by its length |
| CircularBufferPow2.CircularBufferPow2.MarkAsRead | madturks/core/container/inc/mad/circular_buffer_pow2.hpp:73-75 | the read index advances modulo the size; within the queued count the oldest `amount` bytes are dropped |
| CircularBufferPow2.CircularBufferPow2.MarkAsWrite | madturks/core/container/inc/mad/circular_buffer_pow2.hpp:77-79 | the write index advances modulo the size; within the free space the bytes in the storage are appended |
| CircularBufferPow2.CircularBufferPow2.Peek | madturks/core/container/src/circular_buffer_pow2.cpp:56-84 | succeeds exactly when `amount` bytes are queued and returns the oldest `amount`, read chunk by chunk |
| CircularBufferPow2.CircularBufferPow2.Get | madturks/core/container/src/circular_buffer_pow2.cpp:86-92 | on success returns and removes the oldest `amount` bytes; otherwise changes nothing |
| CircularBufferPow2.CircularBufferPow2.GetEverything | madturks/core/container/inc/mad/circular_buffer_pow2.hpp:207-210 | returns every queued byte and leaves the buffer empty |
| CircularBufferPow2.CircularBufferPow2.GetAll | madturks/core/container/inc/mad/circular_buffer_pow2.hpp:217-220 | reads the pieces in order and stops at the first that is not fully queued; the pieces followed by what is left are the old contents |
| CircularBufferPow2.CircularBufferPow2.PutAll | madturks/core/container/inc/mad/circular_buffer_pow2.hpp:194-197 | appends a prefix of the chunks, stopping at the first that does not fit |
| CircularBufferPow2.CircularBufferPow2.Clear | madturks/core/container/inc/mad/circular_buffer_pow2.hpp:144-146 | the indices meet, nothing is queued and the free space is one less than the size |
| CircularBufferPow2.CircularBufferPow2.PeekAssign | madturks/core/container/inc/mad/circular_buffer_pow2.hpp:113-121 | as written: refuses when too few bytes are queued or the read passes the end, and otherwise returns the storage from the write index, not the oldest bytes |
| CircularBufferPow2.CircularBufferPow2.PeekAssignAll | madturks/core/container/inc/mad/circular_buffer_pow2.hpp:131-138 | as written: the same, for the whole queued count |
| CircularBufferPow2.CircularBufferPow2.PeekAssignOldest | madturks/core/container/inc/mad/circular_buffer_pow2.hpp:113-121 | corrected `peek_assign`: the oldest `amount` queued bytes when enough are queued; otherwise the destination is unchanged |
| CircularBufferPow2.CircularBufferPow2.CopyToWriteIndex | madturks/core/container/inc/mad/circular_buffer_pow2.hpp:227-234 | copies `src` contiguously at the write index and reports how many bytes would run past the end |
| CircularBufferPow2.CircularBufferPow2.CopyAndMarkAsWrite | madturks/core/container/inc/mad/circular_buffer_pow2.hpp:227-234 | the destination side of `transfer`: the contiguous copy followed by `mark_as_write`; with nothing past the end and room enough, `src` is appended |
| CircularBufferPow2.CircularBufferPow2.TransferAmount | madturks/core/container/inc/mad/circular_buffer_pow2.hpp:227-231 | the smaller of this buffer's queued bytes and the destination's free space |
| CircularBufferPow2.CircularBufferPow2.Transfer | madturks/core/container/inc/mad/circular_buffer_pow2.hpp:227-234 | as written: removes the moved bytes and copies them contiguously at the destination's write index; the destination receives them in order only when nothing runs past its end |
| CircularBufferPow2.CircularBufferPow2.TransferWrapping | madturks/core/container/inc/mad/circular_buffer_pow2.hpp:227-234 | corrected transfer: the moved bytes are appended to the destination around its wrap, and the combined FIFO order is kept |
| CircularBufferPow2.PeekAssignFromWriteIndex | madturks/core/container/inc/mad/circular_buffer_pow2.hpp:113-121 | in a storage of four, after putting 1, 2, 3, taking two and putting 9, `peek_assign` of one byte returns the stale 1 at the write index while the oldest queued byte is 3 |
| CircularBufferPow2.TransferPastEndOfDestination | madturks/core/container/inc/mad/circular_buffer_pow2.hpp:227-234 | moving two bytes into a destination of four whose write index is 3 puts the second byte past the end of its storage |
| CircularBufferPow2.NonPowerOfTwoSizeLosesCount | madturks/core/container/src/circular_buffer_pow2.cpp:3-10 | in an empty storage of three, `put` of one byte masks the write index back to 0, so the count after the write is 0 and the byte is lost |
| CircularBufferPow2.PutOfOneAcceptedBySizeThree | madturks/core/container/src/circular_buffer_pow2.cpp:28-42 | in an empty storage of three, `put` of one byte passes the space check (two free bytes) and copies in one chunk (two bytes before the end) |
| CircularBufferPow2.PutOfOneKeptBySizeFour | madturks/core/container/src/circular_buffer_pow2.cpp:39-49 | in an empty storage of four the same `put` moves the write index to 1 and leaves a count of 1 |
| Bytes.DecodeEncodeU32LE | madturks/nexus/inc/mad/nexus/msquic/msquic_callback_functions.hpp:66-72 | decoding the four little-endian bytes of a 32-bit length gives the length back |
| Bytes.EncodeDecodeU32LE | madturks/nexus/inc/mad/nexus/quic_base.hpp:148-151 | any four bytes are the encoding of the length they decode to |
| Bytes.DecodeU32LEPrefix | madturks/nexus/inc/mad/nexus/msquic/msquic_callback_functions.hpp:66-68 | the length is read from the first four bytes only, whatever follows |
| Bytes.FlattenAppend | madturks/nexus/inc/mad/nexus/msquic/msquic_callback_functions.hpp:35-105 | the bytes of two runs of buffers are the bytes of the first followed by those of the second |
| Framing.Frame | madturks/nexus/inc/mad/nexus/quic_base.hpp:144-151 | a frame is four length bytes followed by the payload |
| Framing.Deframe | madturks/nexus/inc/mad/nexus/msquic/msquic_callback_functions.hpp:63-96 | splits off every complete frame; what remains holds no complete frame |
| Framing.DeframeReassembles | madturks/nexus/inc/mad/nexus/msquic/msquic_callback_functions.hpp:63-96 | the frames found, re-encoded, followed by the rest give back the input: nothing is lost or reordered |
| Framing.EncodeAllAppend | madturks/nexus/inc/mad/nexus/quic_base.hpp:128-158 | encoding one more payload appends its frame |
| Framing.DeframeFrame | madturks/nexus/inc/mad/nexus/msquic/msquic_callback_functions.hpp:75-88 | a leading complete frame is delivered first, then parsing goes on after it |
| Framing.DeframeEncoded | madturks/nexus/inc/mad/nexus/msquic/msquic_callback_functions.hpp:63-96 | encoded payloads followed by an incomplete tail parse back to exactly those payloads and that tail |
| Framing.DeframeEncodeAll | madturks/nexus/inc/mad/nexus/msquic/msquic_callback_functions.hpp:63-96 | parsing the encoding of payloads gives them back with nothing left over |
| Framing.DeframeAppend | madturks/nexus/inc/mad/nexus/msquic/msquic_callback_functions.hpp:89-96 | parsing in two steps, keeping the partial frame for later, finds the same frames as parsing everything at once |
| Framing.DeframePrefixRest | madturks/nexus/inc/mad/nexus/msquic/msquic_callback_functions.hpp:39-56 | when every frame fits the receive buffer, any prefix of the stream leaves a partial frame shorter than the buffer |
| StreamReceive.AccountsStep | madturks/nexus/inc/mad/nexus/msquic/msquic_callback_functions.hpp:57-96 | one pull followed by delivery keeps the invariant that delivered frames plus queued bytes account for all input |
| StreamReceive.DeliverMessages | madturks/nexus/inc/mad/nexus/msquic/msquic_callback_functions.hpp:63-96 | delivers frames until no complete frame is queued; delivered frames plus what is left are the old queue |
| StreamReceive.PullAndDeliver | madturks/nexus/inc/mad/nexus/msquic/msquic_callback_functions.hpp:57-96 | puts the chunk (only when assertions are compiled in) and delivers; the invariant covers the chunk |
| StreamReceive.StreamCallbackReceive | madturks/nexus/inc/mad/nexus/msquic/msquic_callback_functions.hpp:26-113 | pulls a prefix of the transport bytes, delivers every complete frame of it in order, leaves no complete frame queued, and stops before the end of the transport bytes only when the receive buffer is full or the next transport buffer is empty |
| StreamReceive.ReceiveEncoded | madturks/nexus/inc/mad/nexus/msquic/msquic_callback_functions.hpp:26-113 | when every frame fits the receive buffer, the callback delivers exactly the encoded payloads, whatever the segmentation, and leaves the buffer empty |
| StreamReceive.QueueShorterThanBuffer | madturks/nexus/inc/mad/nexus/msquic/msquic_callback_functions.hpp:26-113 | when every frame fits the receive buffer, the incomplete frame left queued after any prefix of the stream is shorter than the buffer |
| StreamReceive.EventPulledWhole | madturks/nexus/inc/mad/nexus/msquic/msquic_callback_functions.hpp:26-113 | in the middle of a stream whose frames fit, a callback on an event with no empty buffer pulls the whole event, and the account of delivered and queued bytes extends over it |
| StreamReceive.ReceiveNextEvent | madturks/nexus/inc/mad/nexus/msquic/msquic_callback_functions.hpp:26-113 | one callback on the next bytes of the stream: delivered frames plus queued bytes account for everything received so far, and no complete frame is left queued |
| StreamReceive.ReceiveEvents | madturks/nexus/inc/mad/nexus/msquic/msquic_callback_functions.hpp:26-113 | over a series of receive events, split anywhere (frames may straddle events), the callbacks together deliver exactly the encoded payloads, in order, and leave the receive buffer empty |
| StreamReceive.ReleaseBuildDropsInput | madturks/nexus/inc/mad/nexus/msquic/msquic_callback_functions.hpp:57 | with assertions compiled out, a received frame is never put into the buffer and nothing is delivered |
| MessageRoundTrip.SendAll | madturks/nexus/inc/mad/nexus/quic_base.hpp:128-158 | the data spans of the built messages, sent in order, are the encoding of the payloads |
| MessageRoundTrip.Segment | madturks/nexus/test/integration/it_stream_callback_receive.cpp:152-161 | cuts the wire bytes into non-empty buffers of at most the segmentation size that together are the wire bytes |
| MessageRoundTrip.RoundTrip | madturks/nexus/test/integration/it_stream_callback_receive.cpp:133-163 | built, sent, segmented and received messages arrive as exactly the payloads built, in order |
| SendBuffers.SendBuffer.constructor | madturks/nexus/inc/mad/nexus/send_buffer.hpp:40 | a send buffer that owns nothing |
| SendBuffers.SendBuffer.MoveFrom | madturks/nexus/inc/mad/nexus/send_buffer.hpp:81-88 | the new buffer takes over the allocation, offset and size; the source is left owning nothing |
| SendBuffers.SendBuffer.Size | madturks/nexus/inc/mad/nexus/send_buffer.hpp:46-48 | offset plus size is the allocation size |
| SendBuffers.SendBuffer.EncodedDataSize | madturks/nexus/inc/mad/nexus/send_buffer.hpp:63-68 | the length prefix is a 32-bit value |
| SendBuffers.SendBuffer.DataSpan | madturks/nexus/inc/mad/nexus/send_buffer.hpp:70-79 | the data span is the used region without the trailing `QUIC_BUFFER` area; data span then that area is the whole used region |
| SendBuffers.SendBuffer.QuicBufferSpan | madturks/nexus/inc/mad/nexus/send_buffer.hpp:50-61 | the trailing `QUIC_BUFFER` area is exactly its struct size |
| SendBuffers.SendBuffer.Destroy | madturks/nexus/inc/mad/nexus/send_buffer.hpp:90-95 | the allocation is released exactly when the buffer cleans up automatically and owns one |
| SendBuffers.WellFormedIsOneFrame | madturks/nexus/inc/mad/nexus/send_buffer.hpp:63-79 | a well-formed buffer's data span is one frame, which parses to its payload with nothing left |
| SendBuffers.MoveHandsOverOwnership | madturks/nexus/inc/mad/nexus/send_buffer.hpp:81-95 | after a move into an owner that does not clean up, neither side releases: the moved-from owner is emptied and the allocation is handed off intact |
| SendBuffers.MoveIntoCleaningOwner | madturks/nexus/inc/mad/nexus/send_buffer.hpp:81-95 | after a move into an owner that cleans up, the moved-from owner releases nothing and the new owner releases the whole allocation exactly once |
| QuicBase.EmptyTable | madturks/nexus/inc/mad/nexus/quic_base.hpp:166-191 | the initial callback table is well typed and no callback is set |
| QuicBase.QuicBaseState.RegisterCallback | madturks/nexus/inc/mad/nexus/quic_base.hpp:66-105 | sets the callback of the given type, leaves every other slot unchanged and keeps the table well typed |
| QuicBase.PaddingBytes | madturks/nexus/inc/mad/nexus/quic_base.hpp:134-135 | the padding is less than the alignment and makes the size a multiple of it |
| QuicBase.FlatBufferBuilder.PreAlign | madturks/nexus/inc/mad/nexus/quic_base.hpp:134-135 | prepends zero padding so that size plus the coming length is aligned |
| QuicBase.FlatBufferBuilder.PushBytes | madturks/nexus/inc/mad/nexus/quic_base.hpp:140-141 | prepends the bytes to the data built so far |
| QuicBase.FlatBufferBuilder.ReleaseRaw | madturks/nexus/inc/mad/nexus/quic_base.hpp:155 | hands over the allocation with its size and the offset of the data, and leaves the builder empty |
| QuicBase.FlatBufferBuilder.Clear | madturks/nexus/inc/mad/nexus/quic_base.hpp:156 | the builder holds no data |
| QuicBase.ReleasedLayout | madturks/nexus/inc/mad/nexus/quic_base.hpp:144-157 | the released allocation holds, from the offset on, the length, the payload and the sentinel |
| QuicBase.BuildMessage | madturks/nexus/inc/mad/nexus/quic_base.hpp:128-158 | the built send buffer is well formed: its data span is the frame of the payload, its length is the payload's, the sentinel follows, and the builder is left empty |
| KeyedContainers.Added | madturks/nexus/inc/mad/nexus/value_container.hpp:39-58 | adding succeeds exactly when the key is absent and then adds just that entry; a duplicate gives the container's error and changes nothing |
| KeyedContainers.Extracted | madturks/nexus/inc/mad/nexus/value_container.hpp:67-79 | erasing succeeds exactly when the key is present, returns its entry and removes only it; a missing key gives the container's error |
| KeyedContainers.ExtractAfterAdd | madturks/nexus/inc/mad/nexus/handle_context_container.hpp:55-96 | erasing a key just added gives back the entry and the original map |
| KeyedContainers.AddAfterExtract | madturks/nexus/inc/mad/nexus/handle_context_container.hpp:55-96 | adding back an entry just erased gives back the original map |
| KeyedContainers.HandleContextContainer.Add | madturks/nexus/inc/mad/nexus/handle_context_container.hpp:55-75 | `add` as `Added`, with `value_already_exists` for a duplicate |
| KeyedContainers.HandleContextContainer.Erase | madturks/nexus/inc/mad/nexus/handle_context_container.hpp:84-96 | `erase` as `Extracted`, with `value_does_not_exists` for a missing handle |
| KeyedContainers.DuplicateAndMissingHandles | madturks/nexus/inc/mad/nexus/handle_context_container.hpp:55-96 | adding a handle twice fails the second time, erasing an unknown handle fails, and erasing the first returns its context |
| KeyedContainers.StreamContainer.AddNewStream | madturks/nexus/inc/mad/nexus/stream_container.hpp:39-60 | adds a stream owned by this connection unless the handle exists (`stream_already_exists`) |
| KeyedContainers.StreamContainer.RemoveStream | madturks/nexus/inc/mad/nexus/stream_container.hpp:69-81 | removes and returns the stream, or `stream_does_not_exist` |
| KeyedContainers.AsOption | madturks/nexus/inc/mad/nexus/quic_connection_context.hpp:63-75 | a success becomes its value and a failure becomes nothing |
| KeyedContainers.ConnectionContext.AddNewStream | madturks/nexus/inc/mad/nexus/quic_connection_context.hpp:33-54 | adds a stream owned by this connection unless the handle exists |
| KeyedContainers.ConnectionContext.RemoveStream | madturks/nexus/inc/mad/nexus/quic_connection_context.hpp:63-75 | removes and returns the stream, or nothing when it is unknown |
| KeyedContainers.ServerConnections.AddNewConnection | madturks/nexus/inc/mad/nexus/msquic/msquic_server.hpp:44-64 | adds a connection unless the handle exists (`connection_already_exists`) |
| KeyedContainers.ServerConnections.RemoveConnection | madturks/nexus/inc/mad/nexus/msquic/msquic_server.hpp:75-90 | removes and returns the connection, or `connection_does_not_exists` |
| StreamContexts.StreamContext.constructor | madturks/nexus/include/mad/nexus/quic_stream_context.hpp:106-108 | the serial starts at 0 and no buffer is in flight |
| StreamContexts.StreamContext.StoreBuffer | madturks/nexus/include/mad/nexus/quic_stream_context.hpp:46-60 | stores the buffer under the current serial, which no entry holds, and moves the serial on |
| StreamContexts.StreamContext.ReleaseBuffer | madturks/nexus/include/mad/nexus/quic_stream_context.hpp:71-74 | succeeds exactly when the key is in flight and removes only that entry |
| StreamContexts.StreamContext.InFlightCount | madturks/nexus/include/mad/nexus/quic_stream_context.hpp:76-78 | buffers in flight plus buffers released equal the serials handed out |
| StreamContexts.SerialsCountUp | madturks/nexus/include/mad/nexus/quic_stream_context.hpp:46-60 | a new stream hands out keys 0, 1, 2 in turn |
| StreamContexts.ReleaseTwice | madturks/nexus/include/mad/nexus/quic_stream_context.hpp:71-74 | a buffer can be released once; the second release fails |
| StreamContexts.CountAfterRelease | madturks/nexus/include/mad/nexus/quic_stream_context.hpp:76-78 | two stores and one release leave one buffer in flight |
| QuicConfiguration.DefaultConfiguration | madturks/nexus/inc/mad/nexus/quic_configuration.hpp:32-56 | the defaults: ALPN and application name "test", no idle timeout, window 8192, buffer 4096 |
| QuicConfiguration.ToU64 | madturks/nexus/src/msquic_application.cpp:24-25 | the cast to `uint64_t`: in range and congruent modulo 2^64, the identity on values that fit |
| QuicConfiguration.ToU32 | madturks/nexus/src/msquic_application.cpp:30-31 | the cast to `uint32_t`: in range and congruent modulo 2^32, the identity on values that fit |
| MsQuicApi.ApiSettings | madturks/nexus/inc/mad/nexus/msquic/msquic_api.inl:208-231 | sets the idle timeout when configured, resumption with 0-RTT, no send buffering and one peer stream; nothing else |
| MsQuicApi.CredentialsOutcome | madturks/nexus/inc/mad/nexus/msquic/msquic_api.inl:266-289 | succeeds exactly when both files exist and loading succeeds; otherwise the first failing check names the error |
| MsQuicApi.MsQuicApiContext.constructor | madturks/nexus/inc/mad/nexus/msquic/msquic_api.inl:162-182 | every handle starts null |
| MsQuicApi.MsQuicApiContext.Listen | madturks/nexus/inc/mad/nexus/msquic/msquic_api.inl:69-121 | refuses when uninitialised or already listening; otherwise succeeds exactly when open and start succeed, keeping the listener only then |
| MsQuicApi.MsQuicApiContext.Connect | madturks/nexus/inc/mad/nexus/msquic/msquic_api.inl:123-160 | succeeds exactly when open and start succeed; the connection is kept only then |
| MsQuicApi.MsQuicApiContext.InitializeRegistration | madturks/nexus/inc/mad/nexus/msquic/msquic_api.inl:185-206 | keeps the registration handle and succeeds exactly when it is not null |
| MsQuicApi.MsQuicApiContext.InitializeConfiguration | madturks/nexus/inc/mad/nexus/msquic/msquic_api.inl:233-260 | opens the configuration with `ApiSettings` and succeeds exactly when the handle is not null |
| MsQuicApi.InitializeMsQuic | madturks/nexus/inc/mad/nexus/msquic/msquic_api.inl:296-312 | registration, configuration, credentials in that order; the first failure decides the error, and success leaves the context initialised |
| MsQuicApi.Make | madturks/nexus/inc/mad/nexus/msquic/msquic_api.inl:162-182 | a fresh initialised context without a listener or connection exactly when every step succeeds; otherwise the first failing step's error |
| MsQuicApi.ListenRetriesAfterStartFailure | madturks/nexus/inc/mad/nexus/msquic/msquic_api.inl:69-121 | a failed listener start leaves no listener, so the next `listen` succeeds and a third is refused |
| MsQuicApplication.SettingsToMsQuic | madturks/nexus/src/msquic_application.cpp:17-53 | idle timeout and keep-alive only when configured, resumption with 0-RTT, no send buffering, one peer stream, and the configured receive window |
| MsQuicApplication.SettingsExtendApiSettings | madturks/nexus/src/msquic_application.cpp:17-53 | the application's settings are the API context's plus the keep-alive and the receive window |
| MsQuicApplication.SettingsIgnoreIdentity | madturks/nexus/src/msquic_application.cpp:17-53 | the settings depend only on the timeouts and the receive window |
| MsQuicApplication.CredentialConfigFor | madturks/nexus/src/msquic_application.cpp:169-190 | a client uses no credentials and skips certificate validation; a server loads its certificate files |
| MsQuicApplication.SetupCalls | madturks/nexus/src/msquic_application.cpp:94-198 | the msquic calls in order: registration open, configuration open with the settings, credential load; each only after the previous succeeded |
| MsQuicApplication.Setup | madturks/nexus/src/msquic_application.cpp:94-213 | makes exactly those calls and succeeds exactly when all of them and the allocation succeed; otherwise the first failure's error |
| MsQuicApplication.ApplicationFactory.MakeAsWritten | madturks/nexus/src/msquic_application.cpp:57-214 | as written: the cached API is never set, so every call opens the API again before setup |
| MsQuicApplication.ApplicationFactory.Make | madturks/nexus/src/msquic_application.cpp:57-214 | corrected: the API is opened only when none is cached, kept afterwards, and shared by every application |
| MsQuicApplication.AsWrittenOpensTwice | madturks/nexus/src/msquic_application.cpp:67-88 | two applications made as written both open the API |
| MsQuicApplication.CorrectedOpensOnce | madturks/nexus/src/msquic_application.cpp:67-88 | with the corrected factory the second application reuses the first one's API |
| LogPrinters.Rank | madturks/core/log/inc/mad/log_level.hpp:11-21 | the levels are numbered trace 0 to off 6 |
| LogPrinters.FromRank | madturks/core/log/inc/mad/log_level.hpp:11-21 | converting a number back to a level inverts `Rank` |
| LogPrinters.RankInjective | madturks/core/log/inc/mad/log_level.hpp:11-21 | distinct levels have distinct numbers |
| LogPrinters.LevelLogsItself | madturks/core/log/inc/mad/log_printer.hpp:330-332 | a printer lets its own level through |
| LogPrinters.NextLevelSuppresses | madturks/core/log/inc/mad/log_printer.hpp:330-332 | a printer one level higher suppresses the level |
| LogPrinters.OffSuppressesAll | madturks/core/log/inc/mad/log_printer.hpp:330-332 | at `off` only `off` passes |
| LogPrinters.RaisingLevelSuppressesMore | madturks/core/log/inc/mad/log_printer.hpp:330-332 | raising the level never lets a message through that was suppressed before |
| LogPrinters.Emitted | madturks/core/log/inc/mad/log_printer.hpp:112-151 | at most the one record; it is emitted exactly when output is enabled and the level check is off or passes |
| LogPrinters.LogPrinter.constructor | madturks/core/log/inc/mad/log_printer.hpp:406 | a new printer is at `info` and has emitted nothing |
| LogPrinters.LogPrinter.SetLogLevel | madturks/core/log/inc/mad/log_printer.hpp:320 | the level becomes the one given; nothing is emitted |
| LogPrinters.LogPrinter.Log | madturks/core/log/inc/mad/log_printer.hpp:112-151 | appends exactly `Emitted`; the level is unchanged |
| LogPrinters.LogPrinter.LogTrace | madturks/core/log/inc/mad/log_printer.hpp:167-177 | `log` at trace, gated by the trace switch |
| LogPrinters.LogPrinter.LogDebug | madturks/core/log/inc/mad/log_printer.hpp:193-203 | `log` at debug, gated by the debug switch |
| LogPrinters.LogPrinter.LogInfo | madturks/core/log/inc/mad/log_printer.hpp:218-228 | `log` at info, gated by the info switch |
| LogPrinters.LogPrinter.LogWarn | madturks/core/log/inc/mad/log_printer.hpp:244-254 | `log` at warn, gated by the warn switch |
| LogPrinters.LogPrinter.LogErr | madturks/core/log/inc/mad/log_printer.hpp:270-280 | `log` at error, gated by the error switch |
| LogPrinters.LogPrinter.LogCritical | madturks/core/log/inc/mad/log_printer.hpp:296-306 | `log` at critical, gated by the critical switch |
| LogPrinters.LogPrinter.LogMacro | madturks/core/log/inc/mad/log_macros.hpp:30-35 | the message is evaluated exactly when the level passes, and then emitted once |
| LogPrinters.ShouldLogSweep | madturks/core/log/tests/unit/ut_log.cpp:119-130 | sweeping the printer from the message's level down to trace evaluates the message at every step |
| LogPrinters.ShouldNotLogSweep | madturks/core/log/tests/unit/ut_log.cpp:132-140 | sweeping the printer from above the message's level up to off never evaluates it |
| LogPrinters.LevelCheckPaths | madturks/core/log/tests/unit/ut_log.cpp:71-83 | the level set is read back; the message is evaluated at that level and not one level higher |
| RandomStrings.SizeOf | madturks/core/random/src/random_string.cpp:9-11 | `sizeof` of a string literal counts its terminating NUL |
| RandomStrings.NumberCharset | madturks/core/random/src/random_string.cpp:20-23 | the ten digits in order, the first ten entries of the array |
| RandomStrings.LowercaseCharset | madturks/core/random/src/random_string.cpp:25-29 | the 26 lower-case letters in order, the next 26 entries |
| RandomStrings.UppercaseCharset | madturks/core/random/src/random_string.cpp:31-36 | the 26 upper-case letters in order, the next 26 entries |
| RandomStrings.AlphanumericCharsetAsWritten | madturks/core/random/src/random_string.cpp:13-18 | as written: the whole array, terminator included |
| RandomStrings.AsWrittenHoldsNul | madturks/core/random/src/random_string.cpp:13-18 | the as-written set has 63 entries, the last being NUL, which is not alphanumeric |
| RandomStrings.AlphanumericCharset | madturks/core/random/src/random_string.cpp:15-18 | corrected: 62 characters, every one alphanumeric |
| RandomStrings.AlphanumericIsNumberLowerUpper | madturks/core/random/src/random_string.cpp:13-36 | the alphanumeric set is the digit, lower-case and upper-case sets one after the other, each made of its own kind |
| RandomStrings.SubsetsDisjoint | madturks/core/random/src/random_string.cpp:20-36 | the three subsets share no character |

## Left out

- `size_t` and `uint64_t` wrap-around of indices, counters and serials: they are unbounded naturals. The stream serial would wrap only after 2^64 buffers.
- Debug-only checks (`assert`, `MAD_EXPECTS`, `MAD_ENSURES`) are not modelled as aborts. Where the source relies on a check's side effect (the `put` inside `assert` of the receive callback), a flag models both builds.
- The `mmap`/shared-memory setup of the mirrored mapping is left out. Its effect, a write past the end landing at the start, is what `CopyInMirrored` models.
- FlatBuffers internals are left out: the payload a builder callable produces is an opaque byte sequence, and `Finish` is folded into it.
- msquic itself, concurrency, the mutex and the exclusive accessor are left out. Calls into msquic are oracle parameters or recorded calls.
- The connection deleter that calls `ListenerClose` (msquic_api.inl:138) is left out, because handle close is not modelled.
- Deallocation and shared-pointer deleters are left out, and so are `reference_wrapper` and the reference semantics of returned contexts.
- The logging back end is left out: spdlog, formatting, source locations, and the constructor reading the back end's level. `set_log_level` is modelled as the back end keeping the level.
- `LogPrinters.LogPrinter.LogMacro`: the per-level compile-time `Enabled` switches of the macros are taken as on.
- Filesystem existence checks are booleans in the oracle. The server-role `MAD_EXPECTS` on the certificate files in `make_msquic_application` is not modelled.
- The `emplace` failure branches of the containers and of `store_buffer` are not modelled. Inserting a key absent from a map always succeeds, so those branches cannot be taken.
- The `serial_number_carrier` counter is not part of this model.
- Settings fields left unset are `None`. Their zero values are not modelled.
- `keep_alive_interval` is read by `settings_to_msquic` but is not declared in `quic_configuration.hpp`. The model gives the configuration that field.
- Big-endian hosts are left out: the length byte swap on them is not modelled.
- The error-message table of `quic_error_code` is left out. Only the codes are modelled.
- The basic buffer's `put_all` and `get_all` (circular_buffer.hpp:128-130, 231-233) are not modelled. They forward to `put` and `get` exactly as in the other two buffers, where they are modelled.
- The basic buffer's commented-out `transfer` is not part of the source's behaviour.
- `MsQuicApplication.ApplicationFactory.Make` caches a strong handle. Expiry of the weak reference once every application is gone is not modelled.
- `CircularBufferPow2.CircularBufferPow2.constructor` requires a power-of-two size, although the source accepts any size. The count of other sizes is shown wrong by `NonPowerOfTwoSizeLosesCount`.
- The power-of-two buffer's mask `& (size - 1)` on indices and counts is written as a remainder modulo the size in `CircularBufferPow2.CircularBufferPow2`; for the power-of-two sizes its constructor accepts the two agree, but that equality is not proved. The literal mask appears only in the as-written functions behind `NonPowerOfTwoSizeLosesCount`.
- `QuicConfiguration.DefaultConfiguration` sets `udpPortNumber` to 0, whereas the source leaves `udp_port_number` uninitialized (an indeterminate value) when the configuration is built without one.
- `CircularBuffer.CircularBuffer.constructor` requires a positive size. A zero-size buffer would take every index modulo zero.
- `StreamReceive.StreamCallbackReceive` requires at least one buffer and a positive total length, as the source's `MAD_EXPECTS` do. Empty individual buffers are not excluded.

## Findings

| source | as written | input that shows it | evidently intended | confidence | as-written member | corrected member |
|---|---|---|---|---|---|---|
| madturks/core/container/src/circular_buffer_vm.cpp:252-260 | `transfer` writes the moved bytes at the destination's read index | a destination of four queueing byte 2, and a source queueing byte 1 | append after the destination's queued bytes | not executed | CircularBufferVm.TransferIntoNonEmptyDestination | CircularBufferVm.CircularBufferVm.TransferAppending |
| madturks/core/container/src/circular_buffer_vm.cpp:156-158 | auto-align adds a full page to a size that is already a page multiple | a request of exactly one page | round up to the next page multiple | not executed | CircularBufferVm.AutoAlignOfOnePage | CircularBufferVm.AlignUpIsNearest |
| madturks/nexus/inc/mad/nexus/msquic/msquic_callback_functions.hpp:57 | the `put` into the receive buffer sits inside `assert`, so release builds never buffer the input | any frame, with assertions compiled out | put the bytes in every build | not executed | StreamReceive.ReleaseBuildDropsInput | StreamReceive.ReceiveEncoded |
| madturks/core/container/inc/mad/circular_buffer.hpp:146-149 | `mark_as_write` moves the read index and masks with `size - 1` | a new storage of 4, then `mark_as_write(1)` | advance the write index | not executed | CircularBuffer.MarkAsWriteBreaksBookkeeping | CircularBuffer.CircularBuffer.Commit |
| madturks/core/container/inc/mad/circular_buffer.hpp:195-204 | `peek_assign` copies `amount` bytes contiguously from the read index, so it reads past the end of the storage (undefined behaviour) whenever the read index plus `amount` exceeds the size; the model marks that case `ReadsPastEnd` | a storage of 4: put 3 bytes, get 3, put 2, then `peek_assign(2)` reads indices 3 and 4 of a four-byte storage | read across the wrap as `peek` does | not executed | CircularBuffer.PeekAssignAfterWrap | CircularBuffer.CircularBuffer.Peek |
| madturks/core/container/inc/mad/circular_buffer_pow2.hpp:113-121 | `peek_assign` reads from the write index | a storage of 4: put 1, 2, 3, get 2, put 9, then `peek_assign(1)` | read from the read index | not executed | CircularBufferPow2.PeekAssignFromWriteIndex | CircularBufferPow2.CircularBufferPow2.PeekAssignOldest |
| madturks/core/container/inc/mad/circular_buffer_pow2.hpp:227-234 | `transfer` copies contiguously at the destination's write index, without wrapping | a destination of 4 with 3 bytes put and taken, receiving 2 bytes | wrap the copy around the destination's end | not executed | CircularBufferPow2.TransferPastEndOfDestination | CircularBufferPow2.CircularBufferPow2.TransferWrapping |
| madturks/core/container/src/circular_buffer_pow2.cpp:3-10 | the indices and the count are masked with `size - 1`, but the constructor accepts any size | an empty storage of 3, then `put` of one byte: it is accepted, the write index is masked back to 0 and `consumed_space()` stays 0 | accept power-of-two sizes only | not executed | CircularBufferPow2.NonPowerOfTwoSizeLosesCount | CircularBufferPow2.CircularBufferPow2.constructor |
| madturks/core/random/src/random_string.cpp:13-18 | the alphanumeric set is the whole literal, terminating NUL included | the 63rd entry, `'\0'` | the 62 alphanumeric characters | not executed | RandomStrings.AsWrittenHoldsNul | RandomStrings.AlphanumericCharset |
| madturks/nexus/src/msquic_application.cpp:67-88 | the static weak reference to the API is never assigned, so every application opens the API again | two calls of `make_msquic_application` | reuse the API while an application holds it | not executed | MsQuicApplication.AsWrittenOpensTwice | MsQuicApplication.CorrectedOpensOnce |
