/**
 * `send_buffer`: an allocation released by the message builder. The message occupies the
 * bytes from `offset` to the end of the allocation: the 4-byte length, the payload, then
 * 16 bytes reserved for the transport's buffer descriptor, which hold a fixed sentinel until
 * the descriptor is written over them.
 */
module SendBuffers {
  import opened Wrappers
  import opened Bytes
  import opened Framing

  /** Size of the buffer descriptor kept at the end of every allocation. */
  const QUIC_BUF_STRUCT_SIZE: nat := 16

  /** The placeholder written where the buffer descriptor will go. */
  const QUIC_BUF_SENTINEL: seq<byte> :=
    [0xDE, 0xAD, 0xBE, 0xEF, 0xBA, 0xAD, 0xC0, 0xDE,
     0xCA, 0xFE, 0xBA, 0xBE, 0xDE, 0xAD, 0xFA, 0xCE]

  /**
   * One send buffer. `buf` is the allocation (`None` is the null pointer), `bufSize` its
   * size and `offset` the start of the message in it; `autoCleanup` is the template flag
   * that decides whether destruction hands the allocation back.
   */
  class SendBuffer {
    const autoCleanup: bool
    var buf: Option<seq<byte>>
    var offset: nat
    var bufSize: nat

    /** The size field matches the allocation, and the message starts inside it. */
    predicate Valid()
      reads this
    {
      (buf.Some? ==> |buf.value| == bufSize) && (buf.None? ==> bufSize == 0) && offset <= bufSize
    }

    /** A default-constructed buffer: no allocation, offset and size 0. */
    constructor(autoCleanup: bool)
      ensures Valid() && this.autoCleanup == autoCleanup
      ensures buf == None && offset == 0 && bufSize == 0
    {
      this.autoCleanup := autoCleanup;
      buf := None;
      offset := 0;
      bufSize := 0;
    }

    /**
     * The converting move constructor: the new buffer starts with the defaults and swaps
     * all three fields with `other`, so it takes the allocation and `other` is left empty.
     */
    constructor MoveFrom(other: SendBuffer, autoCleanup: bool)
      requires other.Valid()
      modifies other
      ensures Valid() && other.Valid() && this.autoCleanup == autoCleanup
      ensures buf == old(other.buf) && offset == old(other.offset) && bufSize == old(other.bufSize)
      ensures other.buf == None && other.offset == 0 && other.bufSize == 0
    {
      this.autoCleanup := autoCleanup;
      buf := None;
      offset := 0;
      bufSize := 0;
      new;
      buf, other.buf := other.buf, buf;
      offset, other.offset := other.offset, offset;
      bufSize, other.bufSize := other.bufSize, bufSize;
    }

    /** `size()`: the bytes from the start of the message to the end of the allocation. */
    function Size(): (r: nat)
      reads this
      requires Valid()
      ensures offset + r == bufSize
    {
      bufSize - offset
    }

    /** `encoded_data_size()`: the 32-bit length at the start of the message. */
    function EncodedDataSize(): (r: nat)
      reads this
      requires Valid() && buf.Some? && Size() >= 4
      ensures r < U32_LIMIT
    {
      DecodeU32LE(buf.value[offset..offset + 4])
    }

    /** `data_span()`: the message without the descriptor space at the end. */
    function DataSpan(): (r: seq<byte>)
      reads this
      requires Valid() && buf.Some? && Size() >= QUIC_BUF_STRUCT_SIZE
      ensures |r| + QUIC_BUF_STRUCT_SIZE == Size()
      ensures buf.value[offset..] == r + QuicBufferSpan()
    {
      buf.value[offset..bufSize - QUIC_BUF_STRUCT_SIZE]
    }

    /** `quic_buffer_span()`: the last 16 bytes of the allocation. */
    function QuicBufferSpan(): (r: seq<byte>)
      reads this
      requires Valid() && buf.Some? && Size() >= QUIC_BUF_STRUCT_SIZE
      ensures |r| == QUIC_BUF_STRUCT_SIZE
    {
      buf.value[bufSize - QUIC_BUF_STRUCT_SIZE..]
    }

    /**
     * What `data_span()` and `quic_buffer_span()` check on their way out: the data span is
     * the length prefix and exactly that many bytes, and the descriptor space still holds
     * the sentinel.
     */
    predicate WellFormed()
      reads this
    {
      Valid() && buf.Some? && Size() >= QUIC_BUF_STRUCT_SIZE &&
      |DataSpan()| == EncodedDataSize() + 4 && QuicBufferSpan() == QUIC_BUF_SENTINEL
    }

    /**
     * Destruction: the allocation handed back to the allocator, if any. Only a buffer whose
     * `autoCleanup` flag is set gives its allocation back.
     */
    method Destroy() returns (released: Option<seq<byte>>)
      requires Valid()
      ensures released.Some? <==> autoCleanup && buf.Some?
      ensures released.Some? ==> released.value == buf.value && |released.value| == bufSize
    {
      if autoCleanup {
        released := buf;
      } else {
        released := None;
      }
    }
  }

  /** The data span of a well-formed send buffer is exactly one frame. */
  lemma WellFormedIsOneFrame(b: SendBuffer)
    requires b.WellFormed()
    ensures b.DataSpan() == Frame(b.DataSpan()[4..])
    ensures Deframe(b.DataSpan()) == Parsed([b.DataSpan()[4..]], [])
  {
    var d := b.DataSpan();
    var n := b.EncodedDataSize();
    assert b.buf.value[b.offset..] == d + b.QuicBufferSpan();
    assert d[..4] == b.buf.value[b.offset..b.offset + 4];
    EncodeDecodeU32LE(d[..4]);
    assert d == d[..4] + d[4..];
    DeframeFrame(d[4..], []);
    assert Frame(d[4..]) + [] == Frame(d[4..]);
  }

  /**
   * Moving a buffer into one that does not clean up hands over the allocation: destroying
   * the moved-from buffer releases nothing, and neither does the new owner.
   */
  method MoveHandsOverOwnership(allocation: seq<byte>) returns (first: Option<seq<byte>>, second: Option<seq<byte>>, kept: Option<seq<byte>>)
    ensures first == None && second == None && kept == Some(allocation)
  {
    var owner := new SendBuffer(true);
    owner.buf := Some(allocation);
    owner.bufSize := |allocation|;
    var handedOff := new SendBuffer.MoveFrom(owner, false);
    first := owner.Destroy();
    second := handedOff.Destroy();
    kept := handedOff.buf;
  }

  /**
   * Moving a buffer into one that cleans up moves the duty to release with it: the
   * moved-from buffer releases nothing and the new owner releases the allocation, once.
   */
  method MoveIntoCleaningOwner(allocation: seq<byte>) returns (first: Option<seq<byte>>, second: Option<seq<byte>>)
    ensures first == None && second == Some(allocation)
  {
    var owner := new SendBuffer(true);
    owner.buf := Some(allocation);
    owner.bufSize := |allocation|;
    var newOwner := new SendBuffer.MoveFrom(owner, true);
    first := owner.Destroy();
    second := newOwner.Destroy();
  }
}
