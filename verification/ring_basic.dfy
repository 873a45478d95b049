/**
 * The split-copy ring buffer `circular_buffer`: plain storage of `totalSize` bytes, a read
 * position `head`, a write position `tail`, both below `totalSize`, and a count
 * `bytesAvail` of queued bytes. A write or read that runs past the end of the storage is
 * done as two copies, the second one starting at index 0.
 */
module CircularBuffer {
  import opened Bytes
  import opened CircularBufferBase

  class CircularBuffer {
    /** `total_size_`, fixed at construction. */
    const totalSize: nat
    /** The `malloc`ed storage. */
    const storage: array<byte>
    /** `overwrite_`, as given at construction; no operation consults it. */
    const overwrite: bool
    /** `head_`: where the oldest queued byte is. */
    var head: nat
    /** `tail_`: where the next byte goes. */
    var tail: nat
    /** `bytes_avail_`: how many bytes are queued. */
    var bytesAvail: nat

    ghost predicate Valid()
      reads this
    {
      storage.Length == totalSize && 0 < totalSize &&
      head < totalSize && bytesAvail <= totalSize && tail == Slot(head + bytesAvail, totalSize)
    }

    /** The queued bytes, oldest first. */
    function Contents(): (r: seq<byte>)
      requires Valid()
      reads this, storage
      ensures |r| == bytesAvail
    {
      Window(storage[..], head, bytesAvail)
    }

    /** `consumed_space()`: the number of queued bytes. */
    function ConsumedSpace(): (r: nat)
      requires Valid()
      reads this, storage
      ensures r == |Contents()| <= totalSize
    {
      bytesAvail
    }

    /** `empty_space()`: the room left; with the queued bytes it makes up the whole storage. */
    function EmptySpace(): (r: nat)
      requires Valid()
      reads this, storage
      ensures r + ConsumedSpace() == totalSize
    {
      totalSize - bytesAvail
    }

    /**
     * The constructor; the storage content is whatever `malloc` returned. A size of zero
     * is not accepted: every later position update divides by the size. The source gives
     * `allow_overwrite` the default `false`; here it is always passed explicitly.
     */
    constructor (size: nat, allowOverwrite: bool)
      requires size > 0
      ensures Valid() && fresh(storage)
      ensures totalSize == size && overwrite == allowOverwrite
      ensures head == 0 && tail == 0 && Contents() == []
    {
      totalSize := size;
      storage := new byte[size];
      overwrite := allowOverwrite;
      head := 0;
      tail := 0;
      bytesAvail := 0;
    }

    /**
     * `put`: when `src` fits, its first `min(|src|, totalSize - tail)` bytes are copied to
     * `tail` and the rest to index 0, `tail` moves on modulo the size and `bytesAvail`
     * grows; the bytes are queued after the ones already queued. Otherwise it fails with
     * nothing changed.
     */
    method Put(src: seq<byte>) returns (ok: bool)
      requires Valid()
      modifies this, storage
      ensures Valid()
      ensures ok <==> |src| <= old(EmptySpace())
      ensures ok ==> Contents() == old(Contents()) + src
      ensures ok ==> head == old(head) && bytesAvail == old(bytesAvail) + |src| &&
                     tail == (old(tail) + |src|) % totalSize &&
                     storage[..] == WriteWindow(old(storage[..]), old(tail), src)
      ensures !ok ==> unchanged(this) && unchanged(storage)
    {
      if EmptySpace() < |src| {
        ok := false;
      } else {
        WindowAfterWrite(storage[..], head, bytesAvail, src);
        CopyInSplit(storage, tail, src);
        ModIsSlot(tail + |src|, totalSize);
        tail := (tail + |src|) % totalSize;
        bytesAvail := bytesAvail + |src|;
        ok := true;
      }
    }

    /**
     * `mark_as_read`: the `amount` oldest bytes stop being queued; `head` moves on modulo the
     * size. The caller has to make sure that many bytes are queued.
     */
    method MarkAsRead(amount: nat)
      requires Valid() && amount <= ConsumedSpace()
      modifies this
      ensures Valid()
      ensures Contents() == old(Contents())[amount..]
      ensures head == (old(head) + amount) % totalSize
      ensures tail == old(tail) && bytesAvail == old(bytesAvail) - amount
    {
      WindowSuffix(storage[..], head, bytesAvail, amount);
      ModIsSlot(head + amount, totalSize);
      head := (head + amount) % totalSize;
      bytesAvail := bytesAvail - amount;
    }

    /**
     * `mark_as_write`, as written: it moves `head` (the read position) on by `amount`, masked
     * with `totalSize - 1`, and grows `bytesAvail`; `tail` stays where it was.
     */
    method MarkAsWrite(amount: nat)
      requires Valid() && head + amount < U64_LIMIT && totalSize <= U64_LIMIT
      modifies this
      ensures head == BitAnd(old(head) + amount, totalSize - 1)
      ensures bytesAvail == old(bytesAvail) + amount && tail == old(tail)
    {
      head := BitAnd(head + amount, totalSize - 1);
      bytesAvail := bytesAvail + amount;
    }

    /**
     * `mark_as_write` as evidently intended, the way `put` commits its bytes: the `amount`
     * bytes stored at `tail` on become queued and `tail` moves on modulo the size.
     */
    method Commit(amount: nat)
      requires Valid() && amount <= EmptySpace()
      modifies this
      ensures Valid()
      ensures head == old(head) && tail == (old(tail) + amount) % totalSize
      ensures Contents() == old(Contents()) + Window(storage[..], old(tail), amount)
    {
      WindowConcat(storage[..], head, bytesAvail, amount);
      ModIsSlot(tail + amount, totalSize);
      tail := (tail + amount) % totalSize;
      bytesAvail := bytesAvail + amount;
    }

    /**
     * `peek`: when `amount` bytes are queued, `min(amount, totalSize - head)` of them are read
     * from `head` and the rest from index 0, giving the `amount` oldest bytes; nothing is
     * consumed.
     */
    method Peek(amount: nat) returns (ok: bool, bytes: seq<byte>)
      requires Valid()
      ensures ok <==> amount <= |Contents()|
      ensures ok ==> bytes == Contents()[..amount]
      ensures !ok ==> bytes == []
    {
      if ConsumedSpace() < amount {
        return false, [];
      }
      var regionHead := Min(amount, totalSize - head);
      var regionTail := amount - regionHead;
      bytes := storage[head..head + regionHead] + storage[..regionTail];
      SplitReadIsWindow(storage[..], head, amount);
      return true, bytes;
    }

    /** `get`: `peek`, then `mark_as_read` of the same amount when the peek succeeded. */
    method Get(amount: nat) returns (ok: bool, bytes: seq<byte>)
      requires Valid()
      modifies this
      ensures Valid()
      ensures ok <==> amount <= old(|Contents()|)
      ensures ok ==> bytes == old(Contents())[..amount] && Contents() == old(Contents())[amount..]
      ensures ok ==> head == (old(head) + amount) % totalSize
      ensures !ok ==> bytes == [] && unchanged(this)
    {
      ok, bytes := Peek(amount);
      if ok {
        MarkAsRead(amount);
      }
    }

    /** `clear`: marks everything queued as read. */
    method Clear()
      requires Valid()
      modifies this
      ensures Valid() && Contents() == [] && ConsumedSpace() == 0 && EmptySpace() == totalSize
    {
      MarkAsRead(ConsumedSpace());
    }

    /**
     * `peek_assign`, as written: it copies the contiguous range `[head, head + amount)`,
     * which is right while that range stays inside the storage and runs past its end when
     * the queued bytes wrap round.
     */
    method PeekAssign(amount: nat) returns (outcome: PeekAssignOutcome)
      requires Valid()
      ensures outcome == NotEnoughQueued <==> amount > |Contents()|
      ensures outcome == ReadsPastEnd <==> amount <= |Contents()| && head + amount > totalSize
      ensures outcome.Assigned? ==> outcome.bytes == Contents()[..amount]
    {
      if ConsumedSpace() < amount {
        return NotEnoughQueued;
      }
      if head + amount > totalSize {
        return ReadsPastEnd;
      }
      SplitReadIsWindow(storage[..], head, amount);
      assert storage[head..head + amount] == storage[head..head + amount] + storage[..0];
      return Assigned(storage[head..head + amount]);
    }
  }

  /**
   * After `mark_as_write(1)` on a fresh buffer of 4 bytes, `tail` no longer sits
   * `bytesAvail` places after `head`: the buffer's own bookkeeping is broken.
   */
  method MarkAsWriteBreaksBookkeeping() returns (consistent: bool)
    ensures !consistent
  {
    var b := new CircularBuffer(4, false);
    b.MarkAsWrite(1);
    assert b.head == 1 by {
      assert (1 as bv64) & (3 as bv64) == 1;
    }
    consistent := b.tail == (b.head + b.bytesAvail) % b.totalSize;
  }

  /**
   * Once the queued bytes wrap round, `peek_assign` reads past the storage: four bytes
   * queued, three taken, two more queued, and a `peek_assign` of the two queued bytes.
   */
  method PeekAssignAfterWrap() returns (outcome: PeekAssignOutcome)
    ensures outcome == ReadsPastEnd
  {
    var b := new CircularBuffer(4, false);
    var ok := b.Put([1, 2, 3]);
    var bytes;
    ok, bytes := b.Get(3);
    ok := b.Put([4, 5]);
    outcome := b.PeekAssign(2);
  }
}
