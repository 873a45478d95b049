/**
 * `StreamCallbackReceive`: the bytes of one receive event, given as a list of buffers, are
 * pulled into the stream's receive ring buffer as far as it has room, and after every pull
 * each complete frame queued there is handed to the application and marked as read.
 */
module StreamReceive {
  import opened Bytes
  import opened Framing
  import opened CircularBufferBase
  import opened CircularBufferVm

  /**
   * What was delivered and what is still queued account for the whole `input`: cutting
   * `input` into frames gives the `delivered` messages followed by the frames of `queued`.
   */
  ghost predicate Accounts(input: seq<byte>, delivered: seq<seq<byte>>, queued: seq<byte>)
  {
    Deframe(input) == Parsed(delivered + Deframe(queued).frames, Deframe(queued).rest)
  }

  /** Bytes appended to the input and to the queue alike keep the account. */
  lemma AccountsAppend(input: seq<byte>, delivered: seq<seq<byte>>, queued: seq<byte>, chunk: seq<byte>)
    requires Accounts(input, delivered, queued)
    ensures Accounts(input + chunk, delivered, queued + chunk)
  {
    DeframeAppend(input, chunk);
    DeframeAppend(queued, chunk);
    ConcatAssoc(delivered, Deframe(queued).frames, Deframe(Deframe(queued).rest + chunk).frames);
  }

  /** Handing the first frames of the queue to the application keeps the account. */
  lemma AccountsDeliver(input: seq<byte>, delivered: seq<seq<byte>>, queued: seq<byte>,
                        messages: seq<seq<byte>>, left: seq<byte>)
    requires Accounts(input, delivered, queued)
    requires Accounts(queued, messages, left)
    ensures Accounts(input, delivered + messages, left)
  {
    ConcatAssoc(delivered, messages, Deframe(left).frames);
  }

  /**
   * The delivery loop of the receive callback: while the receive buffer holds a complete
   * frame, its payload is handed to the application and the frame is marked as read. The
   * messages are the leading frames of what was queued, and no complete frame is left.
   */
  method DeliverMessages(rbuf: CircularBufferVm) returns (messages: seq<seq<byte>>)
    requires rbuf.Valid()
    modifies rbuf
    ensures rbuf.Valid()
    ensures Accounts(old(rbuf.Contents()), messages, rbuf.Contents())
    ensures !HasCompleteFrame(rbuf.Contents())
  {
    messages := [];
    var span := rbuf.Contents();
    assert [] + Deframe(span).frames == Deframe(span).frames;
    while |span| >= 4
      invariant rbuf.Valid() && span == rbuf.Contents()
      invariant Accounts(old(rbuf.Contents()), messages, span)
      decreases |span|
    {
      var size := DecodeU32LE(span);
      if |span| - 4 < size {
        break;
      }
      var message := span[4..4 + size];
      ConcatAssoc(messages, [message], Deframe(span[4 + size..]).frames);
      messages := messages + [message];
      rbuf.MarkAsRead(4 + size);
      span := rbuf.Contents();
    }
  }

  /**
   * One pass of the receive loop once a non-empty chunk has been pulled: the chunk is put
   * into the receive buffer (only when assertions are compiled in, since the `put` is the
   * argument of an `assert`), then every complete frame is delivered.
   */
  method PullAndDeliver(rbuf: CircularBufferVm, chunk: seq<byte>, assertionsEnabled: bool)
    returns (messages: seq<seq<byte>>)
    requires rbuf.Valid() && |chunk| <= rbuf.EmptySpace()
    modifies rbuf, rbuf.storage
    ensures rbuf.Valid()
    ensures Accounts(old(rbuf.Contents()) + (if assertionsEnabled then chunk else []), messages, rbuf.Contents())
    ensures !HasCompleteFrame(rbuf.Contents())
  {
    if assertionsEnabled {
      var ok := rbuf.Put(chunk);
      assert ok;
    } else {
      assert old(rbuf.Contents()) + [] == rbuf.Contents();
    }
    messages := DeliverMessages(rbuf);
  }

  /** A pull followed by deliveries keeps the account of the whole event. */
  lemma AccountsStep(input: seq<byte>, delivered: seq<seq<byte>>, queued: seq<byte>, pulledBytes: seq<byte>,
                     messages: seq<seq<byte>>, left: seq<byte>)
    requires Accounts(input, delivered, queued)
    requires Accounts(queued + pulledBytes, messages, left)
    ensures Accounts(input + pulledBytes, delivered + messages, left)
  {
    AccountsAppend(input, delivered, queued, pulledBytes);
    AccountsDeliver(input + pulledBytes, delivered, queued + pulledBytes, messages, left);
  }

  /**
   * The receive loop. Every complete frame in the receive buffer is delivered, in order;
   * bytes of a frame that has not arrived in full stay queued. A pull of zero bytes, because
   * the receive buffer is full or the current buffer of the event is empty, ends the event;
   * its remaining bytes are dropped.
   *
   * The `put` into the receive buffer sits inside `assert(...)`: when `assertionsEnabled` is
   * false (a build with `NDEBUG`) the pulled bytes are skipped without being buffered.
   */
  method StreamCallbackReceive(rbuf: CircularBufferVm, buffers: seq<seq<byte>>, assertionsEnabled: bool)
    returns (delivered: seq<seq<byte>>, pulled: nat)
    requires rbuf.Valid()
    requires |buffers| > 0 && |Flatten(buffers)| > 0
    modifies rbuf, rbuf.storage
    ensures rbuf.Valid()
    ensures pulled <= |Flatten(buffers)|
    ensures var buffered := if assertionsEnabled then Flatten(buffers)[..pulled] else [];
            Accounts(old(rbuf.Contents()) + buffered, delivered, rbuf.Contents())
    ensures !HasCompleteFrame(old(rbuf.Contents())) ==> !HasCompleteFrame(rbuf.Contents())
    ensures pulled < |Flatten(buffers)| ==>
              rbuf.EmptySpace() == 0 ||
              exists i :: 0 <= i < |buffers| && buffers[i] == [] && |Flatten(buffers[..i])| == pulled
  {
    ghost var initial := rbuf.Contents();
    ghost var buffered: seq<byte> := [];
    ghost var all := Flatten(buffers);
    ghost var untouched := true;
    delivered := [];
    pulled := 0;
    var bufferIdx := 0;
    var bufferOffset: nat := 0;
    assert initial + buffered == initial;
    assert [] + Deframe(initial).frames == Deframe(initial).frames;
    while bufferIdx < |buffers|
      invariant rbuf.Valid()
      invariant bufferIdx <= |buffers|
      invariant bufferIdx < |buffers| ==> bufferOffset < |buffers[bufferIdx]| || bufferOffset == 0
      invariant bufferIdx == |buffers| ==> bufferOffset == 0
      invariant pulled == |Flatten(buffers[..bufferIdx])| + bufferOffset <= |all|
      invariant assertionsEnabled ==> buffered == all[..pulled]
      invariant !assertionsEnabled ==> buffered == []
      invariant Accounts(initial + buffered, delivered, rbuf.Contents())
      invariant untouched ==> rbuf.Contents() == initial
      invariant !untouched ==> !HasCompleteFrame(rbuf.Contents())
      decreases |buffers| - bufferIdx, if bufferIdx < |buffers| then |buffers[bufferIdx]| - bufferOffset else 0
    {
      var buffer := buffers[bufferIdx];
      var pullAmount := Min(rbuf.EmptySpace(), |buffer| - bufferOffset);
      if pullAmount == 0 {
        assert rbuf.EmptySpace() == 0 || (buffer == [] && |Flatten(buffers[..bufferIdx])| == pulled);
        break;
      }
      var chunk := buffer[bufferOffset..bufferOffset + pullAmount];
      FlattenCutStep(buffers, bufferIdx, bufferOffset, pullAmount, pulled);
      ghost var queued := rbuf.Contents();
      var messages := PullAndDeliver(rbuf, chunk, assertionsEnabled);
      ghost var pulledBytes := if assertionsEnabled then chunk else [];
      AccountsStep(initial + buffered, delivered, queued, pulledBytes, messages, rbuf.Contents());
      ConcatAssoc(initial, buffered, pulledBytes);
      buffered := buffered + pulledBytes;
      delivered := delivered + messages;
      untouched := false;
      bufferOffset := bufferOffset + pullAmount;
      pulled := pulled + pullAmount;

      if bufferOffset == |buffer| {
        FlattenStep(buffers, bufferIdx);
        bufferIdx := bufferIdx + 1;
        bufferOffset := 0;
      }
    }
    FlattenAll(buffers);
    if bufferIdx < |buffers| && rbuf.EmptySpace() != 0 {
      assert buffers[bufferIdx] == [] && |Flatten(buffers[..bufferIdx])| == pulled;
    }
  }

  /**
   * The round trip: when an event carries the frames of payloads `ps`, cut into non-empty
   * buffers in any way, every frame fits the receive buffer and that buffer starts empty,
   * exactly `ps` is delivered, in order, and the receive buffer ends empty.
   */
  method ReceiveEncoded(rbuf: CircularBufferVm, ps: seq<seq<byte>>, buffers: seq<seq<byte>>)
    returns (delivered: seq<seq<byte>>)
    requires rbuf.Valid() && rbuf.Contents() == []
    requires Encodable(ps) && forall i :: 0 <= i < |ps| ==> 4 + |ps[i]| <= rbuf.totalSize
    requires |buffers| > 0 && Flatten(buffers) == EncodeAll(ps) && |EncodeAll(ps)| > 0
    requires forall i :: 0 <= i < |buffers| ==> buffers[i] != []
    modifies rbuf, rbuf.storage
    ensures rbuf.Valid()
    ensures delivered == ps && rbuf.Contents() == []
  {
    var pulled;
    delivered, pulled := StreamCallbackReceive(rbuf, buffers, true);
    ghost var fed := EncodeAll(ps)[..pulled];
    assert [] + fed == fed;
    assert Deframe(rbuf.Contents()) == Parsed([], rbuf.Contents());
    assert delivered + [] == delivered;
    if pulled < |EncodeAll(ps)| {
      DeframePrefixRest(ps, pulled, rbuf.totalSize);
      assert false;
    }
    assert fed == EncodeAll(ps);
    DeframeEncodeAll(ps);
  }

  /**
   * With assertions compiled out, a receive event is dropped: one complete frame arrives in
   * an empty receive buffer and nothing is delivered.
   */
  method ReleaseBuildDropsInput() returns (delivered: seq<seq<byte>>)
    ensures delivered == []
  {
    var rbuf := new CircularBufferVm(4096, 4096);
    var pulled;
    delivered, pulled := StreamCallbackReceive(rbuf, [Frame([7])], false);
    assert Deframe([]) == Parsed([], []);
  }

  /**
   * When every frame fits the receive buffer, the incomplete frame left queued after any
   * prefix of the stream is shorter than the buffer, so the buffer is never full between
   * callbacks.
   */
  lemma QueueShorterThanBuffer(ps: seq<seq<byte>>, input: seq<byte>, delivered: seq<seq<byte>>, queued: seq<byte>, cap: nat)
    requires Encodable(ps) && 0 < cap && forall i :: 0 <= i < |ps| ==> 4 + |ps[i]| <= cap
    requires input <= EncodeAll(ps)
    requires Accounts(input, delivered, queued) && !HasCompleteFrame(queued)
    ensures |queued| < cap
  {
    DeframePrefixRest(ps, |input|, cap);
    assert EncodeAll(ps)[..|input|] == input;
    assert Deframe(queued) == Parsed([], queued);
  }

  /** A prefix of the next bytes extends a prefix of a stream to a shorter prefix of it. */
  lemma PrefixOfNext(before: seq<byte>, next: seq<byte>, pulled: nat, stream: seq<byte>)
    requires before + next <= stream && pulled <= |next|
    ensures before + next[..pulled] <= stream
  {
    assert before + next[..pulled] == (before + next)[..|before| + pulled];
  }

  /** With room left and no empty buffer, the receive loop cannot stop before the end. */
  lemma NoEarlyStop(buffers: seq<seq<byte>>, pulled: nat, space: nat)
    requires forall i :: 0 <= i < |buffers| ==> buffers[i] != []
    requires space != 0 && pulled <= |Flatten(buffers)|
    requires pulled < |Flatten(buffers)| ==>
               space == 0 || exists i :: 0 <= i < |buffers| && buffers[i] == [] && |Flatten(buffers[..i])| == pulled
    ensures Flatten(buffers)[..pulled] == Flatten(buffers)
  {
  }

  /**
   * After a callback on the next bytes of a stream whose frames all fit the receive
   * buffer, with no empty buffer in the event: the whole event was pulled, because the
   * queue is never full between pulls, and the account extends over the event.
   */
  lemma EventPulledWhole(ps: seq<seq<byte>>, before: seq<byte>, buffers: seq<seq<byte>>, pulled: nat,
                         delivered: seq<seq<byte>>, queued: seq<byte>, messages: seq<seq<byte>>,
                         left: seq<byte>, space: nat, cap: nat)
    requires Encodable(ps) && 0 < cap && forall i :: 0 <= i < |ps| ==> 4 + |ps[i]| <= cap
    requires forall i :: 0 <= i < |buffers| ==> buffers[i] != []
    requires before + Flatten(buffers) <= EncodeAll(ps)
    requires Accounts(before, delivered, queued)
    requires pulled <= |Flatten(buffers)|
    requires Accounts(queued + Flatten(buffers)[..pulled], messages, left) && !HasCompleteFrame(left)
    requires space + |left| == cap
    requires pulled < |Flatten(buffers)| ==>
               space == 0 || exists i :: 0 <= i < |buffers| && buffers[i] == [] && |Flatten(buffers[..i])| == pulled
    ensures Accounts(before + Flatten(buffers), delivered + messages, left)
  {
    var got := Flatten(buffers)[..pulled];
    AccountsStep(before, delivered, queued, got, messages, left);
    PrefixOfNext(before, Flatten(buffers), pulled, EncodeAll(ps));
    QueueShorterThanBuffer(ps, before + got, delivered + messages, left, cap);
    NoEarlyStop(buffers, pulled, space);
  }

  /**
   * One receive event in the middle of a stream: its buffers carry the bytes of the frames
   * of `ps` that follow `before`. The callback pulls the whole event, and the account
   * extends over it.
   */
  method ReceiveNextEvent(rbuf: CircularBufferVm, buffers: seq<seq<byte>>, ghost ps: seq<seq<byte>>,
                          ghost before: seq<byte>, ghost delivered: seq<seq<byte>>)
    returns (messages: seq<seq<byte>>)
    requires rbuf.Valid() && |buffers| > 0 && |Flatten(buffers)| > 0
    requires forall i :: 0 <= i < |buffers| ==> buffers[i] != []
    requires Encodable(ps) && forall i :: 0 <= i < |ps| ==> 4 + |ps[i]| <= rbuf.totalSize
    requires before + Flatten(buffers) <= EncodeAll(ps)
    requires Accounts(before, delivered, rbuf.Contents()) && !HasCompleteFrame(rbuf.Contents())
    modifies rbuf, rbuf.storage
    ensures rbuf.Valid()
    ensures Accounts(before + Flatten(buffers), delivered + messages, rbuf.Contents())
    ensures !HasCompleteFrame(rbuf.Contents())
  {
    ghost var queued := rbuf.Contents();
    var pulled;
    messages, pulled := StreamCallbackReceive(rbuf, buffers, true);
    EventPulledWhole(ps, before, buffers, pulled, delivered, queued, messages, rbuf.Contents(),
                     rbuf.EmptySpace(), rbuf.totalSize);
  }

  /** The bytes each receive event carries: its buffers joined. */
  function EventBytes(events: seq<seq<seq<byte>>>): seq<seq<byte>>
  {
    seq(|events|, e requires 0 <= e < |events| => Flatten(events[e]))
  }

  /**
   * The round trip over a whole stream: when the frames of payloads `ps` arrive as a series
   * of receive events, split between events and cut into non-empty buffers in any way, every
   * frame fits the receive buffer and that buffer starts empty, the callbacks together
   * deliver exactly `ps`, in order, and the receive buffer ends empty. A frame may straddle
   * events: its first bytes wait in the receive buffer for the next callback.
   */
  method ReceiveEvents(rbuf: CircularBufferVm, ps: seq<seq<byte>>, events: seq<seq<seq<byte>>>)
    returns (delivered: seq<seq<byte>>)
    requires rbuf.Valid() && rbuf.Contents() == []
    requires Encodable(ps) && forall i :: 0 <= i < |ps| ==> 4 + |ps[i]| <= rbuf.totalSize
    requires Flatten(EventBytes(events)) == EncodeAll(ps)
    requires forall e :: 0 <= e < |events| ==> |events[e]| > 0 && |Flatten(events[e])| > 0
    requires forall e, i :: 0 <= e < |events| && 0 <= i < |events[e]| ==> events[e][i] != []
    modifies rbuf, rbuf.storage
    ensures rbuf.Valid()
    ensures delivered == ps && rbuf.Contents() == []
  {
    ghost var arrived := EventBytes(events);
    delivered := [];
    var e := 0;
    assert Deframe([]) == Parsed([], []);
    assert arrived[..0] == [];
    while e < |events|
      invariant e <= |events| && rbuf.Valid()
      invariant Accounts(Flatten(arrived[..e]), delivered, rbuf.Contents())
      invariant !HasCompleteFrame(rbuf.Contents())
    {
      FlattenPrefixStep(arrived, e);
      assert arrived[e] == Flatten(events[e]);
      var messages := ReceiveNextEvent(rbuf, events[e], ps, Flatten(arrived[..e]), delivered);
      delivered := delivered + messages;
      e := e + 1;
    }
    FlattenAll(arrived);
    DeframeEncodeAll(ps);
    assert Deframe(rbuf.Contents()) == Parsed([], rbuf.Contents());
    assert delivered + [] == delivered;
  }
}
