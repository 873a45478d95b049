/**
 * `quic_base`: the table of application callbacks, `register_callback`, which fills one
 * slot of it, and `build_message`, which lays a message out for sending as
 * `[u32 length][payload][16-byte sentinel]` with a FlatBuffers builder.
 */
module QuicBase {
  import opened Wrappers
  import opened Arithmetic
  import opened Bytes
  import opened Framing
  import opened SendBuffers

  /** `callback_type`: the events an application can register a callback for. */
  datatype CallbackType = Connected | Disconnected | StreamStart | StreamEnd | StreamData

  /** The three callback signatures: a connection event, a stream event, stream data. */
  datatype Signature = ConnectionEvent | StreamEvent | StreamDataEvent

  /**
   * `quic_callback_function`: a function pointer and the user context passed back to it,
   * as raw addresses (0 is the null pointer), with the signature the pointer has.
   */
  datatype CallbackFunction = CallbackFunction(signature: Signature, funPtr: nat, ctxPtr: nat)
  {
    /** `operator bool`: a callback is set when its function pointer is not null. */
    predicate IsSet()
    {
      funPtr != 0
    }
  }

  /** The signature of the slot that holds the callbacks of type `t`. */
  function SignatureOf(t: CallbackType): Signature
  {
    match t
    case Connected => ConnectionEvent
    case Disconnected => ConnectionEvent
    case StreamStart => StreamEvent
    case StreamEnd => StreamEvent
    case StreamData => StreamDataEvent
  }

  /** `stream_callbacks`: the callbacks a stream is created with. */
  datatype StreamCallbacks = StreamCallbacks(onStart: CallbackFunction, onClose: CallbackFunction,
                                             onDataReceived: CallbackFunction)

  /** `callback_table`: one callback per event. */
  datatype CallbackTable = CallbackTable(onConnected: CallbackFunction, onDisconnected: CallbackFunction,
                                         onStreamStart: CallbackFunction, onStreamClose: CallbackFunction,
                                         onStreamDataReceived: CallbackFunction)
  {
    /** The slot that `register_callback<t>` assigns. */
    function Get(t: CallbackType): CallbackFunction
    {
      match t
      case Connected => onConnected
      case Disconnected => onDisconnected
      case StreamStart => onStreamStart
      case StreamEnd => onStreamClose
      case StreamData => onStreamDataReceived
    }

    /** Every slot holds a callback of its own signature. */
    predicate WellTyped()
    {
      forall t: CallbackType :: Get(t).signature == SignatureOf(t)
    }
  }

  /** The value-initialised table: every slot holds a null callback. */
  function EmptyTable(): (r: CallbackTable)
    ensures r.WellTyped()
    ensures forall t: CallbackType :: !r.Get(t).IsSet()
  {
    CallbackTable(CallbackFunction(ConnectionEvent, 0, 0), CallbackFunction(ConnectionEvent, 0, 0),
                  CallbackFunction(StreamEvent, 0, 0), CallbackFunction(StreamEvent, 0, 0),
                  CallbackFunction(StreamDataEvent, 0, 0))
  }

  /** The part of `quic_base` that is not left to the transport: the callback table. */
  class QuicBaseState {
    var callbacks: CallbackTable

    constructor()
      ensures callbacks == EmptyTable()
    {
      callbacks := EmptyTable();
    }

    /**
     * `register_callback<t>`: stores `cb` in the slot for `t` and leaves the other slots as
     * they were. A callback of another signature does not compile, hence the precondition.
     */
    method RegisterCallback(t: CallbackType, cb: CallbackFunction)
      requires cb.signature == SignatureOf(t)
      modifies this
      ensures callbacks.Get(t) == cb
      ensures forall u: CallbackType :: u != t ==> callbacks.Get(u) == old(callbacks).Get(u)
      ensures old(callbacks).WellTyped() ==> callbacks.WellTyped()
    {
      match t
      case Connected => callbacks := callbacks.(onConnected := cb);
      case Disconnected => callbacks := callbacks.(onDisconnected := cb);
      case StreamStart => callbacks := callbacks.(onStreamStart := cb);
      case StreamEnd => callbacks := callbacks.(onStreamClose := cb);
      case StreamData => callbacks := callbacks.(onStreamDataReceived := cb);
    }
  }

  /** The largest buffer a FlatBuffers builder produces, exclusive. */
  const FLATBUFFERS_MAX_BUFFER_SIZE: nat := 0x7FFF_FFFF

  /** The alignment `build_message` asks for the descriptor space. */
  const QUIC_BUF_STRUCT_ALIGNMENT: nat := 8

  /** `n` zero bytes. */
  function Zeros(n: nat): (r: seq<byte>)
    ensures |r| == n && forall i :: 0 <= i < n ==> r[i] == 0
  {
    seq(n, _ => 0)
  }

  /**
   * `PaddingBytes`: the bytes to add to a buffer of `size` bytes so that its size becomes a
   * multiple of `alignment`.
   */
  function PaddingBytes(size: nat, alignment: nat): (r: nat)
    requires alignment > 0
    ensures r < alignment && (size + r) % alignment == 0
  {
    PaddingAligns(size, alignment);
    (alignment - size % alignment) % alignment
  }

  lemma PaddingAligns(size: nat, alignment: nat)
    requires alignment > 0
    ensures (alignment - size % alignment) % alignment < alignment
    ensures (size + (alignment - size % alignment) % alignment) % alignment == 0
  {
    var q, m := size / alignment, size % alignment;
    if m == 0 {
      DivModUnique(alignment, alignment, 1, 0);
      DivModUnique(size, alignment, q, 0);
    } else {
      ModOfSmall(alignment - m, alignment);
      DivModUnique(size + (alignment - m), alignment, q + 1, 0);
    }
  }

  /**
   * The FlatBuffers builder as `build_message` uses it. The builder fills its buffer from the
   * back: `data` holds the bytes pushed so far, the latest push first, and `spare` the unused
   * room in front of them, which is released with the data.
   */
  class FlatBufferBuilder {
    var spare: seq<byte>
    var data: seq<byte>

    constructor()
      ensures spare == [] && data == []
    {
      spare := [];
      data := [];
    }

    /** `GetSize()`: the number of bytes pushed. */
    function GetSize(): nat
      reads this
    {
      |data|
    }

    /** `PreAlign(len, alignment)`: zero padding so that `len` more bytes end aligned. */
    method PreAlign(len: nat, alignment: nat)
      requires alignment > 0
      modifies this
      ensures data == Zeros(PaddingBytes(|old(data)| + len, alignment)) + old(data)
      ensures (|data| + len) % alignment == 0
      ensures spare == old(spare)
    {
      data := Zeros(PaddingBytes(|data| + len, alignment)) + data;
    }

    /** `PushBytes`: `bytes` go in front of what was pushed before. */
    method PushBytes(bytes: seq<byte>)
      modifies this
      ensures data == bytes + old(data) && spare == old(spare)
    {
      data := bytes + data;
    }

    /**
     * `ReleaseRaw`: hands over the whole allocation with its size and the offset at which
     * the pushed bytes start; the builder is left without a buffer.
     */
    method ReleaseRaw() returns (allocation: seq<byte>, size: nat, offset: nat)
      modifies this
      ensures allocation == old(spare) + old(data) && size == |allocation| && offset == |old(spare)|
      ensures spare == [] && data == []
    {
      allocation := spare + data;
      size := |allocation|;
      offset := |spare|;
      spare, data := [], [];
    }

    /** `Clear`: drops whatever was pushed. */
    method Clear()
      modifies this
      ensures data == [] && spare == old(spare)
    {
      data := [];
    }
  }

  /** The layout lemma behind `BuildMessage`: the allocation it releases, seen as a send buffer. */
  lemma ReleasedLayout(spare: seq<byte>, payload: seq<byte>, allocation: seq<byte>)
    requires |payload| < U32_LIMIT
    requires allocation == spare + (EncodeU32LE(|payload|) + (payload + (QUIC_BUF_SENTINEL + [])))
    ensures var offset := |spare|;
            var bufSize := |allocation|;
            allocation[offset..bufSize - QUIC_BUF_STRUCT_SIZE] == Frame(payload) &&
            allocation[bufSize - QUIC_BUF_STRUCT_SIZE..] == QUIC_BUF_SENTINEL &&
            DecodeU32LE(allocation[offset..offset + 4]) == |payload|
  {
    var frame := Frame(payload);
    assert allocation == spare + frame + QUIC_BUF_SENTINEL;
    assert allocation[|spare|..|allocation| - QUIC_BUF_STRUCT_SIZE] == frame;
    assert allocation[|spare|..|spare| + 4] == EncodeU32LE(|payload|);
    DecodeEncodeU32LE(|payload|);
  }

  /**
   * `build_message`: on the per-thread builder, which every call leaves empty, aligns the
   * end of the buffer, pushes the sentinel, lets the user's callable (and `Finish`) push the
   * `payload` bytes, pushes their count as a 32-bit length in front of them, releases the
   * allocation into a send buffer and clears the builder. The send buffer's data span is the
   * frame of `payload`, and its descriptor space holds the sentinel.
   */
  method BuildMessage(fbb: FlatBufferBuilder, payload: seq<byte>) returns (buf: SendBuffer)
    requires fbb.data == []
    requires QUIC_BUF_STRUCT_SIZE + |payload| + 4 < FLATBUFFERS_MAX_BUFFER_SIZE
    modifies fbb
    ensures fresh(buf) && buf.autoCleanup
    ensures buf.WellFormed()
    ensures buf.DataSpan() == Frame(payload) && buf.EncodedDataSize() == |payload|
    ensures buf.QuicBufferSpan() == QUIC_BUF_SENTINEL
    ensures fbb.data == [] && fbb.spare == []
  {
    ghost var spare := fbb.spare;
    fbb.PreAlign(QUIC_BUF_STRUCT_SIZE, QUIC_BUF_STRUCT_ALIGNMENT);
    assert fbb.data == [];
    fbb.PushBytes(QUIC_BUF_SENTINEL);
    assert fbb.GetSize() == QUIC_BUF_STRUCT_SIZE;
    var sizeBefore := fbb.GetSize();
    fbb.PushBytes(payload);
    var sizeAfter := fbb.GetSize();
    var size := (sizeAfter - sizeBefore) % U32_LIMIT;
    ModOfSmall(sizeAfter - sizeBefore, U32_LIMIT);
    assert size == |payload|;
    fbb.PushBytes(EncodeU32LE(size));
    buf := new SendBuffer(true);
    var allocation, bufSize, offset := fbb.ReleaseRaw();
    ReleasedLayout(spare, payload, allocation);
    buf.buf := Some(allocation);
    buf.bufSize := bufSize;
    buf.offset := offset;
    fbb.Clear();
  }
}
