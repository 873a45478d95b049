/**
 * The path of a message from sender to receiver: payloads laid out by `build_message`, the
 * data spans of the send buffers concatenated into one stream, the stream cut into receive
 * buffers of at most `segment` bytes, and those handed to the receive callback.
 */
module MessageRoundTrip {
  import opened Bytes
  import opened Framing
  import opened SendBuffers
  import opened QuicBase
  import opened CircularBufferVm
  import opened StreamReceive

  /** A payload `build_message` can lay out. */
  predicate Buildable(p: seq<byte>)
  {
    QUIC_BUF_STRUCT_SIZE + |p| + 4 < FLATBUFFERS_MAX_BUFFER_SIZE
  }

  /** Builds one message per payload and concatenates their data spans, in order. */
  method SendAll(fbb: FlatBufferBuilder, ps: seq<seq<byte>>) returns (wire: seq<byte>)
    requires fbb.data == []
    requires forall i :: 0 <= i < |ps| ==> Buildable(ps[i])
    modifies fbb
    ensures fbb.data == []
    ensures Encodable(ps) && wire == EncodeAll(ps)
  {
    wire := [];
    var i := 0;
    while i < |ps|
      invariant i <= |ps| && fbb.data == []
      invariant Encodable(ps[..i]) && wire == EncodeAll(ps[..i])
    {
      var message := BuildMessage(fbb, ps[i]);
      EncodeAllAppend(ps[..i], ps[i]);
      assert ps[..i + 1] == ps[..i] + [ps[i]];
      wire := wire + message.DataSpan();
      i := i + 1;
    }
    assert ps[..|ps|] == ps;
  }

  /** Cuts `wire` into buffers of `segment` bytes, the last one possibly shorter. */
  method Segment(wire: seq<byte>, segment: nat) returns (buffers: seq<seq<byte>>)
    requires segment > 0
    ensures Flatten(buffers) == wire
    ensures forall i :: 0 <= i < |buffers| ==> 0 < |buffers[i]| <= segment
  {
    buffers := [];
    var remaining: nat := |wire|;
    while remaining > 0
      invariant remaining <= |wire|
      invariant Flatten(buffers) == wire[..|wire| - remaining]
      invariant forall i :: 0 <= i < |buffers| ==> 0 < |buffers[i]| <= segment
    {
      var at := |wire| - remaining;
      var amount := if segment < remaining then segment else remaining;
      var chunk := wire[at..at + amount];
      assert (buffers + [chunk])[..|buffers|] == buffers;
      assert wire[..at + amount] == wire[..at] + chunk;
      buffers := buffers + [chunk];
      remaining := remaining - amount;
    }
    assert wire[..|wire|] == wire;
  }

  /**
   * The round trip: payloads built into messages, sent as one stream and cut into buffers
   * of any positive size arrive at the application exactly once each and in order, when
   * every frame fits the receive buffer and that buffer starts empty.
   */
  method RoundTrip(fbb: FlatBufferBuilder, rbuf: CircularBufferVm, ps: seq<seq<byte>>, segment: nat)
    returns (delivered: seq<seq<byte>>)
    requires fbb.data == [] && segment > 0 && ps != []
    requires forall i :: 0 <= i < |ps| ==> Buildable(ps[i]) && 4 + |ps[i]| <= rbuf.totalSize
    requires rbuf.Valid() && rbuf.Contents() == []
    modifies fbb, rbuf, rbuf.storage
    ensures rbuf.Valid()
    ensures delivered == ps && rbuf.Contents() == []
  {
    var wire := SendAll(fbb, ps);
    assert |Frame(ps[0])| > 0;
    assert |wire| > 0;
    var buffers := Segment(wire, segment);
    assert buffers != [];
    delivered := ReceiveEncoded(rbuf, ps, buffers);
  }
}
