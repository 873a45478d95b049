/**
 * `stream_context`: per-stream state on the sending side. Every buffer handed to the
 * transport is kept in `buffers_in_flight_` under a serial number until the transport
 * reports that it is done with it.
 */
module StreamContexts {
  import opened Wrappers
  import opened Bytes
  import opened QuicBase
  import opened KeyedContainers

  class StreamContext {
    const streamHandle: Handle
    const connectionHandle: Handle
    const onDataReceived: CallbackFunction
    /** `send_buffer_serial`: the key the next stored buffer gets. */
    var sendBufferSerial: nat
    /** `buffers_in_flight_`: the stored buffers not yet released, by key. */
    var buffersInFlight: map<nat, seq<byte>>
    /** The number of buffers released so far. */
    ghost var releasedCount: nat

    /**
     * Only keys already handed out are in flight, and every key handed out is either still in
     * flight or has been released.
     */
    ghost predicate Valid()
      reads this
    {
      (forall k :: k in buffersInFlight ==> k < sendBufferSerial) &&
      |buffersInFlight| + releasedCount == sendBufferSerial
    }

    /** A new stream context: the serial starts at 0 and nothing is in flight. */
    constructor(stream: Handle, owner: Handle, dataCallback: CallbackFunction)
      ensures Valid()
      ensures streamHandle == stream && connectionHandle == owner && onDataReceived == dataCallback
      ensures sendBufferSerial == 0 && buffersInFlight == map[]
    {
      streamHandle := stream;
      connectionHandle := owner;
      onDataReceived := dataCallback;
      sendBufferSerial := 0;
      buffersInFlight := map[];
      releasedCount := 0;
    }

    /**
     * `store_buffer`: keeps `buffer` under the current serial and moves the serial on. The
     * branch for a failed `emplace` cannot be taken: the current serial was never handed
     * out, so no entry holds it.
     */
    method StoreBuffer(buffer: seq<byte>) returns (key: Option<nat>)
      requires Valid()
      modifies this
      ensures Valid()
      ensures key == Some(old(sendBufferSerial))
      ensures buffersInFlight == old(buffersInFlight)[old(sendBufferSerial) := buffer]
      ensures sendBufferSerial == old(sendBufferSerial) + 1 && releasedCount == old(releasedCount)
    {
      if sendBufferSerial in buffersInFlight {
        assert false;
        key := None;
      } else {
        buffersInFlight := buffersInFlight[sendBufferSerial := buffer];
        key := Some(sendBufferSerial);
        sendBufferSerial := sendBufferSerial + 1;
      }
    }

    /**
     * `release_buffer`: drops the buffer stored under `key`; the answer is whether there
     * was one. Other buffers stay in flight.
     */
    method ReleaseBuffer(key: nat) returns (ok: bool)
      requires Valid()
      modifies this
      ensures Valid()
      ensures ok <==> key in old(buffersInFlight)
      ensures buffersInFlight == old(buffersInFlight) - {key}
      ensures sendBufferSerial == old(sendBufferSerial)
      ensures releasedCount == if ok then old(releasedCount) + 1 else old(releasedCount)
    {
      ok := key in buffersInFlight;
      if ok {
        buffersInFlight := buffersInFlight - {key};
        releasedCount := releasedCount + 1;
      }
    }

    /** `in_flight_count()`: the buffers stored and not yet released. */
    function InFlightCount(): (r: nat)
      reads this
      requires Valid()
      ensures r + releasedCount == sendBufferSerial
    {
      |buffersInFlight|
    }
  }

  /** On a new stream the keys handed out are 0, 1, 2 in turn. */
  method SerialsCountUp(a: seq<byte>, b: seq<byte>, c: seq<byte>) returns (k0: Option<nat>, k1: Option<nat>, k2: Option<nat>)
    ensures k0 == Some(0) && k1 == Some(1) && k2 == Some(2)
  {
    var ctx := new StreamContext(1, 2, CallbackFunction(StreamDataEvent, 0, 0));
    k0 := ctx.StoreBuffer(a);
    k1 := ctx.StoreBuffer(b);
    k2 := ctx.StoreBuffer(c);
  }

  /** Releasing a stored buffer works once; a second release of the same key fails. */
  method ReleaseTwice(a: seq<byte>, b: seq<byte>) returns (first: bool, second: bool)
    ensures first && !second
  {
    var ctx := new StreamContext(1, 2, CallbackFunction(StreamDataEvent, 0, 0));
    var k0 := ctx.StoreBuffer(a);
    var k1 := ctx.StoreBuffer(b);
    first := ctx.ReleaseBuffer(k1.value);
    second := ctx.ReleaseBuffer(k1.value);
  }

  /** After two stores and one release, one buffer is in flight. */
  method CountAfterRelease(a: seq<byte>, b: seq<byte>) returns (count: nat)
    ensures count == 1
  {
    var ctx := new StreamContext(1, 2, CallbackFunction(StreamDataEvent, 0, 0));
    var k0 := ctx.StoreBuffer(a);
    var k1 := ctx.StoreBuffer(b);
    var released := ctx.ReleaseBuffer(k1.value);
    count := ctx.InFlightCount();
  }
}
