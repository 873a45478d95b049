/**
 * The ring buffer `circular_buffer_pow2`, after the Linux kernel's `circ_buf`: storage of a
 * power-of-two number of bytes, a write index `head` and a read index `tail`, both below
 * the size. The queued byte count is the distance from `tail` to `head` going round, so
 * one byte always stays free and the usable size is one less than the storage.
 *
 * The source reduces every index with `& (size - 1)`; for a power-of-two size that is the
 * remainder by the size, which is how the model writes it.
 */
module CircularBufferPow2 {
  import opened Bytes
  import opened Arithmetic
  import opened CircularBufferBase

  /** `2` to the power `k`. */
  function Pow2(k: nat): (r: nat)
    ensures r >= 1
  {
    if k == 0 then 1 else 2 * Pow2(k - 1)
  }

  /** The class requires a power-of-two size. */
  ghost predicate IsPowerOfTwo(n: nat)
  {
    exists k: nat :: Pow2(k) == n
  }

  /**
   * `CIRC_CNT(h, t, n)`, `(h - t) & (n - 1)`: how many bytes lie from read index `t` up to
   * write index `h`, going round.
   */
  function CircCount(h: nat, t: nat, n: nat): (r: nat)
    requires h < n && t < n
    ensures r == (h - t) % n
    ensures r < n && Slot(t + r, n) == h
  {
    ModOfSmall(h - t, n);
    if h >= t then h - t else h + n - t
  }

  /**
   * `CIRC_SPACE(h, t, n)`, `(t - (h + 1)) & (n - 1)`: the free bytes, keeping one byte back
   * so that a full buffer is not mistaken for an empty one; with the queued bytes it makes
   * up `n - 1`.
   */
  function CircSpace(h: nat, t: nat, n: nat): (r: nat)
    requires h < n && t < n
    ensures r == (t - (h + 1)) % n
    ensures r + CircCount(h, t, n) == n - 1
  {
    ModOfSmall(t - (h + 1), n);
    if t > h then t - (h + 1) else t + n - (h + 1)
  }

  /** `circ_space_to_end` in `put`: the free bytes from `h` on that do not wrap round. */
  function SpaceToEnd(h: nat, t: nat, n: nat): (r: nat)
    requires h < n && t < n
    ensures r == Min(CircSpace(h, t, n), n - h)
  {
    var end := n - 1 - h;
    ModIsSlot(end + t, n);
    var k := (end + t) % n;
    if k <= end then k else end + 1
  }

  /** `circ_cnt_to_end` in `peek`: the queued bytes from `t` on that do not wrap round. */
  function CountToEnd(h: nat, t: nat, n: nat): (r: nat)
    requires h < n && t < n
    ensures r == Min(CircCount(h, t, n), n - t)
  {
    var end := n - t;
    ModIsSlot(h + end, n);
    var k := (h + end) % n;
    if k < end then k else end
  }

  /** Writing `k` more bytes moves the write index on and counts `k` more queued bytes. */
  lemma CountAfterWrite(h: nat, t: nat, k: nat, n: nat)
    requires h < n && t < n && CircCount(h, t, n) + k < n
    ensures h + k < 2 * n
    ensures CircCount(Slot(h + k, n), t, n) == CircCount(h, t, n) + k
  {
  }

  /** Reading `k` queued bytes moves the read index on and counts `k` fewer queued bytes. */
  lemma CountAfterRead(h: nat, t: nat, k: nat, n: nat)
    requires h < n && t < n && k <= CircCount(h, t, n)
    ensures t + k < 2 * n
    ensures CircCount(h, Slot(t + k, n), n) == CircCount(h, t, n) - k
  {
  }

  /** One chunk more of a wrapping write of `src`, copied contiguously after the `done` bytes. */
  lemma WriteWindowPrefixStep(s: seq<byte>, start: nat, src: seq<byte>, done: nat, n: nat)
    requires start < |s| && done + n <= |src| <= |s|
    requires Slot(start + done, |s|) + n <= |s|
    ensures CopyInto(WriteWindow(s, start, src[..done]), Slot(start + done, |s|), src[done..done + n])
         == WriteWindow(s, start, src[..done + n])
  {
    WriteWindowExtend(s, start, src[..done], src[done..done + n]);
    assert src[..done] + src[done..done + n] == src[..done + n];
  }

  class CircularBufferPow2 {
    /** `total_size_`, fixed at construction. */
    const totalSize: nat
    /** The `malloc`ed storage. */
    const storage: array<byte>
    /** `head_`: the write index, where the next byte goes. */
    var head: nat
    /** `tail_`: the read index, where the oldest queued byte is. */
    var tail: nat

    ghost predicate Valid()
      reads this
    {
      storage.Length == totalSize && 0 < totalSize && IsPowerOfTwo(totalSize) &&
      head < totalSize && tail < totalSize
    }

    /** The queued bytes, oldest first. */
    function Contents(): (r: seq<byte>)
      requires Valid()
      reads this, storage
      ensures |r| < totalSize
    {
      Window(storage[..], tail, CircCount(head, tail, totalSize))
    }

    /** `consumed_space()`: the number of queued bytes. */
    function ConsumedSpace(): (r: nat)
      requires Valid()
      reads this, storage
      ensures r == |Contents()| < totalSize
    {
      CircCount(head, tail, totalSize)
    }

    /** `empty_space()`: the room left, one byte short of the storage with the queued bytes. */
    function EmptySpace(): (r: nat)
      requires Valid()
      reads this, storage
      ensures r + ConsumedSpace() == totalSize - 1
    {
      CircSpace(head, tail, totalSize)
    }

    /** The constructor; the storage content is whatever `malloc` returned. */
    constructor (size: nat)
      requires IsPowerOfTwo(size)
      ensures Valid() && fresh(storage)
      ensures totalSize == size && head == 0 && tail == 0 && Contents() == []
    {
      totalSize := size;
      storage := new byte[size];
      head := 0;
      tail := 0;
    }

    /**
     * `put`: when `src` fits, it is copied in chunks, each up to the free bytes before the
     * end of the storage, the write index moving on after each; the bytes are queued after
     * the ones already queued. Otherwise it fails with nothing changed.
     */
    method Put(src: seq<byte>) returns (ok: bool)
      requires Valid()
      modifies this, storage
      ensures Valid()
      ensures ok <==> |src| <= old(EmptySpace())
      ensures ok ==> Contents() == old(Contents()) + src
      ensures ok ==> tail == old(tail) && head == (old(head) + |src|) % totalSize &&
                     storage[..] == WriteWindow(old(storage[..]), old(head), src)
      ensures !ok ==> unchanged(this) && unchanged(storage)
    {
      if EmptySpace() < |src| {
        ok := false;
      } else {
        ghost var before := storage[..];
        ghost var h0 := head;
        ghost var c0 := ConsumedSpace();
        var written: nat := 0;
        while written < |src|
          invariant Valid() && tail == old(tail)
          invariant written <= |src|
          invariant head == Slot(h0 + written, totalSize)
          invariant CircCount(head, tail, totalSize) == c0 + written
          invariant storage[..] == WriteWindow(before, h0, src[..written])
          decreases |src| - written
        {
          var n := Min(|src| - written, SpaceToEnd(head, tail, totalSize));
          WriteWindowPrefixStep(before, h0, src, written, n);
          SlotStep(h0, written, n, totalSize);
          WriteContiguous(src[written..written + n]);
          written := written + n;
        }
        assert Contents() == old(Contents()) + src by {
          assert src[..written] == src;
          WindowAfterWrite(before, tail, c0, src);
        }
        ModIsSlot(h0 + |src|, totalSize);
        ok := true;
      }
    }

    /**
     * One step of `put`: `chunk`, which fits in the free bytes before the end of the
     * storage, is copied to the write index and the write index moves on past it.
     */
    method WriteContiguous(chunk: seq<byte>)
      requires Valid() && head + |chunk| <= totalSize
      requires CircCount(head, tail, totalSize) + |chunk| < totalSize
      modifies this, storage
      ensures Valid() && tail == old(tail)
      ensures storage[..] == CopyInto(old(storage[..]), old(head), chunk)
      ensures head == Slot(old(head) + |chunk|, totalSize)
      ensures CircCount(head, tail, totalSize) == old(CircCount(head, tail, totalSize)) + |chunk|
    {
      CopyIn(storage, head, chunk);
      CountAfterWrite(head, tail, |chunk|, totalSize);
      ModIsSlot(head + |chunk|, totalSize);
      head := (head + |chunk|) % totalSize;
    }

    /**
     * `mark_as_read`: the read index moves on by `amount`, modulo the size. When that many
     * bytes are queued they stop being queued; the source does not check it.
     */
    method MarkAsRead(amount: nat)
      requires Valid()
      modifies this
      ensures Valid()
      ensures tail == (old(tail) + amount) % totalSize && head == old(head)
      ensures amount <= old(ConsumedSpace()) ==> Contents() == old(Contents())[amount..]
    {
      if amount <= ConsumedSpace() {
        WindowSuffix(storage[..], tail, ConsumedSpace(), amount);
        CountAfterRead(head, tail, amount, totalSize);
        ModIsSlot(tail + amount, totalSize);
      }
      tail := (tail + amount) % totalSize;
    }

    /**
     * `mark_as_write`: the write index moves on by `amount`, modulo the size. When that many
     * bytes are free, the `amount` bytes stored from the old write index on become queued.
     */
    method MarkAsWrite(amount: nat)
      requires Valid()
      modifies this
      ensures Valid()
      ensures head == (old(head) + amount) % totalSize && tail == old(tail)
      ensures amount <= old(EmptySpace()) ==>
                Contents() == old(Contents()) + Window(storage[..], old(head), amount)
    {
      if amount <= EmptySpace() {
        WindowConcat(storage[..], tail, ConsumedSpace(), amount);
        CountAfterWrite(head, tail, amount, totalSize);
        ModIsSlot(head + amount, totalSize);
      }
      head := (head + amount) % totalSize;
    }

    /**
     * `peek`: when `amount` bytes are queued they are read in chunks, each up to the queued
     * bytes before the end of the storage, from a private copy of the read index; this
     * gives the `amount` oldest bytes and consumes nothing.
     */
    method Peek(amount: nat) returns (ok: bool, bytes: seq<byte>)
      requires Valid()
      ensures ok <==> amount <= |Contents()|
      ensures ok ==> bytes == Contents()[..amount]
      ensures !ok ==> bytes == []
    {
      if ConsumedSpace() < amount {
        ok, bytes := false, [];
      } else {
        ghost var stored := storage[..];
        ghost var queued := ConsumedSpace();
        var readAt := tail;
        var remaining: nat := amount;
        bytes := [];
        while remaining > 0
          invariant remaining + |bytes| == amount <= queued
          invariant readAt == Slot(tail + |bytes|, totalSize)
          invariant bytes == Window(stored, tail, |bytes|)
        {
          CountAfterRead(head, tail, |bytes|, totalSize);
          var n := Min(remaining, CountToEnd(head, readAt, totalSize));
          WindowExtend(stored, tail, |bytes|, n);
          SlotStep(tail, |bytes|, n, totalSize);
          ModIsSlot(readAt + n, totalSize);
          bytes := bytes + storage[readAt..readAt + n];
          readAt := (readAt + n) % totalSize;
          remaining := remaining - n;
        }
        WindowPrefix(storage[..], tail, ConsumedSpace(), amount);
        ok := true;
      }
    }

    /** `get`: `peek`, then `mark_as_read` of the same amount when the peek succeeded. */
    method Get(amount: nat) returns (ok: bool, bytes: seq<byte>)
      requires Valid()
      modifies this
      ensures Valid()
      ensures ok <==> amount <= old(|Contents()|)
      ensures ok ==> bytes == old(Contents())[..amount] && Contents() == old(Contents())[amount..]
      ensures ok ==> tail == (old(tail) + amount) % totalSize && head == old(head)
      ensures !ok ==> bytes == [] && unchanged(this)
    {
      ok, bytes := Peek(amount);
      if ok {
        MarkAsRead(amount);
      }
    }

    /** `get(dst)`: takes everything that is queued. */
    method GetEverything() returns (ok: bool, bytes: seq<byte>)
      requires Valid()
      modifies this
      ensures Valid()
      ensures ok && bytes == old(Contents()) && Contents() == []
    {
      ok, bytes := Get(ConsumedSpace());
    }

    /**
     * `get_all`: one `get` per requested size, stopping at the first that fails; the
     * earlier ones keep their effect.
     */
    method GetAll(sizes: seq<nat>) returns (ok: bool, pieces: seq<seq<byte>>)
      requires Valid()
      modifies this
      ensures Valid()
      ensures |pieces| <= |sizes| && (ok <==> |pieces| == |sizes|)
      ensures forall i :: 0 <= i < |pieces| ==> |pieces[i]| == sizes[i]
      ensures Flatten(pieces) + Contents() == old(Contents())
      ensures !ok ==> sizes[|pieces|] > |Contents()|
    {
      pieces := [];
      ok := true;
      var i := 0;
      while i < |sizes|
        invariant Valid() && i == |pieces| <= |sizes| && ok
        invariant forall k :: 0 <= k < |pieces| ==> |pieces[k]| == sizes[k]
        invariant Flatten(pieces) + Contents() == old(Contents())
      {
        ghost var before := Contents();
        var got, bytes := Get(sizes[i]);
        if !got {
          assert sizes[i] > |Contents()|;
          ok := false;
          break;
        }
        assert bytes + Contents() == before;
        FlattenShift(pieces, bytes, Contents(), old(Contents()));
        pieces := pieces + [bytes];
        i := i + 1;
      }
    }

    /**
     * `put_all`: one `put` per chunk, stopping at the first that does not fit; the earlier
     * chunks stay queued.
     */
    method PutAll(chunks: seq<seq<byte>>) returns (ok: bool)
      requires Valid()
      modifies this, storage
      ensures Valid()
      ensures exists k :: 0 <= k <= |chunks| && Contents() == old(Contents()) + Flatten(chunks[..k]) &&
                (ok <==> k == |chunks|) && (k < |chunks| ==> |chunks[k]| > EmptySpace())
    {
      var i := 0;
      while i < |chunks|
        invariant Valid() && i <= |chunks|
        invariant Contents() == old(Contents()) + Flatten(chunks[..i])
      {
        var put := Put(chunks[i]);
        if !put {
          return false;
        }
        FlattenStep(chunks, i);
        i := i + 1;
      }
      FlattenAll(chunks);
      return true;
    }

    /** `clear`: marks everything queued as read; the read index catches up with the write index. */
    method Clear()
      requires Valid()
      modifies this
      ensures Valid() && Contents() == [] && tail == head
      ensures EmptySpace() == totalSize - 1
    {
      MarkAsRead(ConsumedSpace());
    }

    /**
     * `peek_assign(dst, amount)`, as written: it copies the contiguous range
     * `[head, head + amount)` from the WRITE index, which holds no queued byte, and runs
     * past the storage when `head + amount` exceeds its size.
     */
    method PeekAssign(amount: nat) returns (outcome: PeekAssignOutcome)
      requires Valid()
      ensures outcome == NotEnoughQueued <==> amount > |Contents()|
      ensures outcome == ReadsPastEnd <==> amount <= |Contents()| && head + amount > totalSize
      ensures outcome.Assigned? ==> outcome.bytes == storage[head..head + amount]
    {
      if ConsumedSpace() < amount {
        return NotEnoughQueued;
      }
      if head + amount > totalSize {
        return ReadsPastEnd;
      }
      return Assigned(storage[head..head + amount]);
    }

    /**
     * `peek_assign(dst)`, as written: when something is queued it copies `[head, head +
     * consumed)`, starting at the write index like the overload above.
     */
    method PeekAssignAll() returns (outcome: PeekAssignOutcome)
      requires Valid()
      ensures outcome == NotEnoughQueued <==> |Contents()| == 0
      ensures outcome == ReadsPastEnd <==> |Contents()| > 0 && head + |Contents()| > totalSize
      ensures outcome.Assigned? ==> outcome.bytes == storage[head..head + |Contents()|]
    {
      if ConsumedSpace() < 1 {
        return NotEnoughQueued;
      }
      outcome := PeekAssign(ConsumedSpace());
    }

    /**
     * `peek_assign(dst, amount)` as evidently intended: `dst` becomes the `amount` oldest
     * bytes, read from the read index and wrapping round like `peek`; with fewer queued it
     * fails and `dst` is left as it was.
     */
    method PeekAssignOldest(dst: seq<byte>, amount: nat) returns (ok: bool, result: seq<byte>)
      requires Valid()
      ensures ok <==> amount <= |Contents()|
      ensures ok ==> result == Contents()[..amount]
      ensures !ok ==> result == dst
    {
      var bytes;
      ok, bytes := Peek(amount);
      result := if ok then bytes else dst;
    }

    /**
     * A `memcpy` of `src` to `native_buffer_head()`, the write index: it does not wrap round,
     * so `pastEnd` bytes land beyond the storage and only the ones that fit are stored. When
     * all of `src` fits and there is room for it, it is stored just after the queued bytes.
     */
    method CopyToWriteIndex(src: seq<byte>) returns (pastEnd: nat)
      requires Valid()
      modifies storage
      ensures Valid()
      ensures pastEnd == if head + |src| > totalSize then head + |src| - totalSize else 0
      ensures storage[..] == CopyInto(old(storage[..]), head, src[..|src| - pastEnd])
      ensures pastEnd == 0 && |src| <= EmptySpace() ==>
                Window(storage[..], tail, ConsumedSpace() + |src|) == old(Contents()) + src
    {
      ghost var before := storage[..];
      var fits := Min(|src|, totalSize - head);
      pastEnd := |src| - fits;
      if pastEnd == 0 && |src| <= EmptySpace() {
        assert src[..fits] == src;
        CopyIntoIsWriteWindow(before, head, src);
        WindowAfterWrite(before, tail, ConsumedSpace(), src);
      }
      CopyIn(storage, head, src[..fits]);
    }

    /**
     * The receiving half of `transfer`: `src` is copied to the write index without wrapping
     * round, then `mark_as_write(|src|)` moves the write index on. When all of `src` fits
     * before the end of the storage and there is room for it, it is queued after the bytes
     * already queued.
     */
    method CopyAndMarkAsWrite(src: seq<byte>) returns (pastEnd: nat)
      requires Valid()
      modifies this, storage
      ensures Valid()
      ensures pastEnd == if old(head) + |src| > totalSize then old(head) + |src| - totalSize else 0
      ensures storage[..] == CopyInto(old(storage[..]), old(head), src[..|src| - pastEnd])
      ensures head == (old(head) + |src|) % totalSize && tail == old(tail)
      ensures pastEnd == 0 && |src| <= old(EmptySpace()) ==> Contents() == old(Contents()) + src
    {
      pastEnd := CopyToWriteIndex(src);
      ghost var copied := storage[..];
      MarkAsWrite(|src|);
      assert storage[..] == copied;
    }

    /** How many bytes `transfer` moves to `other`. */
    function TransferAmount(other: CircularBufferPow2): (r: nat)
      requires Valid() && other.Valid()
      reads this, storage, other, other.storage
      ensures r <= ConsumedSpace() && r <= other.EmptySpace()
      ensures r == ConsumedSpace() || r == other.EmptySpace()
    {
      if ConsumedSpace() == 0 || other.EmptySpace() == 0 then 0
      else Min(ConsumedSpace(), other.EmptySpace())
    }

    /**
     * `transfer`, as written: the moved bytes are copied in one piece to `other`'s write
     * index and then `other`'s write index moves on. The copy does not wrap round: when it
     * would, `pastEnd` of the bytes land beyond `other`'s storage, which the model does not
     * follow; the ones that fit are stored.
     */
    method Transfer(other: CircularBufferPow2) returns (moved: nat, pastEnd: nat)
      requires Valid() && other.Valid() && other != this && other.storage != storage
      modifies this, other, other.storage
      ensures Valid() && other.Valid()
      ensures moved == old(TransferAmount(other))
      ensures Contents() == old(Contents())[moved..]
      ensures pastEnd == if old(other.head) + moved > other.totalSize
                         then old(other.head) + moved - other.totalSize else 0
      ensures other.storage[..] ==
                CopyInto(old(other.storage[..]), old(other.head), old(Contents())[..moved - pastEnd])
      ensures other.head == (old(other.head) + moved) % other.totalSize && other.tail == old(other.tail)
      ensures pastEnd == 0 ==> other.Contents() == old(other.Contents()) + old(Contents())[..moved]
    {
      ghost var before := other.storage[..];
      if ConsumedSpace() == 0 || other.EmptySpace() == 0 {
        assert Contents()[..0] == [] && Contents()[0..] == Contents();
        assert CopyInto(before, other.head, []) == before;
        ModIsSlot(other.head, other.totalSize);
        moved, pastEnd := 0, 0;
      } else {
        moved := if ConsumedSpace() > other.EmptySpace() then other.EmptySpace() else ConsumedSpace();
        var ok, bytes := Get(moved);
        pastEnd := other.CopyAndMarkAsWrite(bytes);
      }
    }

    /**
     * `transfer` as evidently intended: the moved bytes are queued after `other`'s own,
     * wrapping round its storage like `put`, which keeps every byte of both buffers in FIFO
     * order.
     */
    method TransferWrapping(other: CircularBufferPow2) returns (moved: nat)
      requires Valid() && other.Valid() && other != this && other.storage != storage
      modifies this, other, other.storage
      ensures Valid() && other.Valid()
      ensures moved == old(TransferAmount(other))
      ensures Contents() == old(Contents())[moved..]
      ensures other.Contents() == old(other.Contents()) + old(Contents())[..moved]
      ensures other.Contents() + Contents() == old(other.Contents()) + old(Contents())
    {
      if ConsumedSpace() == 0 || other.EmptySpace() == 0 {
        return 0;
      }
      moved := if ConsumedSpace() > other.EmptySpace() then other.EmptySpace() else ConsumedSpace();
      var ok, bytes := Get(moved);
      ok := other.Put(bytes);
    }
  }

  /**
   * `peek_assign` hands out stale storage instead of the oldest queued byte: in a buffer of
   * four, `1, 2, 3` are put, two are taken and `9` is put, so `3, 9` are queued; the
   * write index has wrapped to 0, and `peek_assign` of one byte copies the `1` stored there.
   */
  method PeekAssignFromWriteIndex() returns (asWritten: PeekAssignOutcome, oldest: seq<byte>)
    ensures asWritten == Assigned([1]) && oldest == [3]
  {
    assert Pow2(2) == 4;
    var b := new CircularBufferPow2(4);
    var ok := b.Put([1, 2, 3]);
    assert b.storage[0] == 1;
    var bytes;
    ok, bytes := b.Get(2);
    ok := b.Put([9]);
    assert b.storage[0] == 1 && b.storage[2] == 3;
    asWritten := b.PeekAssign(1);
    ok, oldest := b.PeekAssignOldest([], 1);
  }

  /**
   * `transfer` writes past the destination's storage: with three bytes put into and taken
   * from a destination of four, its write index is 3; moving two bytes into it puts the
   * second one past the end.
   */
  method TransferPastEndOfDestination() returns (pastEnd: nat)
    ensures pastEnd == 1
  {
    assert Pow2(2) == 4;
    var source := new CircularBufferPow2(4);
    var destination := new CircularBufferPow2(4);
    var ok := destination.Put([1, 2, 3]);
    var bytes;
    ok, bytes := destination.Get(3);
    ok := source.Put([7, 8]);
    var moved;
    moved, pastEnd := source.Transfer(destination);
  }

  /**
   * `CIRC_CNT` for a storage of any size, as the source computes it: the `size_t`
   * difference of the two indices, masked with `n - 1`. The constructor accepts any size.
   */
  function CircCountAsWritten(h: nat, t: nat, n: nat): nat
    requires h < U64_LIMIT && t < U64_LIMIT && 0 < n < U64_LIMIT
  {
    BitAnd((h - t) % U64_LIMIT, n - 1)
  }

  /** `empty_space()` for a storage of any size: `CIRC_SPACE`, the count from `head + 1` to `tail`. */
  function CircSpaceAsWritten(h: nat, t: nat, n: nat): nat
    requires h < n && t < n && n < U64_LIMIT
  {
    CircCountAsWritten(t, h + 1, n)
  }

  /** The `circ_space_to_end` helper of `put` for a storage of any size. */
  function SpaceToEndAsWritten(h: nat, t: nat, n: nat): nat
    requires h < n && t < n && n < U64_LIMIT
  {
    var end := n - 1 - h;
    var m := BitAnd((end + t) % U64_LIMIT, n - 1);
    if m <= end then m else end + 1
  }

  /** The index step of `put` and `peek`, `(i + k) & CIRC_EFFECTIVE_SIZE`, for any size. */
  function AdvanceAsWritten(i: nat, k: nat, n: nat): nat
    requires i + k < U64_LIMIT && 0 < n < U64_LIMIT
  {
    BitAnd(i + k, n - 1)
  }

  /**
   * For a size that is not a power of two the mask loses queued bytes. In an empty storage
   * of three, `put` of one byte passes the space check and copies the byte in one chunk
   * (`PutOfOneAcceptedBySizeThree`), but the write index is masked back to 0, so
   * `consumed_space()` stays 0 and the byte is lost. The same `put` into a storage of four
   * leaves one byte queued (`PutOfOneKeptBySizeFour`).
   */
  lemma NonPowerOfTwoSizeLosesCount()
    ensures AdvanceAsWritten(0, 1, 3) == 0
    ensures CircCountAsWritten(AdvanceAsWritten(0, 1, 3), 0, 3) == 0
  {
    assert AdvanceAsWritten(0, 1, 3) == BitAnd(1, 2);
    assert CircCountAsWritten(0, 0, 3) == BitAnd(0, 2);
    MaskOfSmall();
  }

  /** In an empty storage of three, `put` of one byte finds two free bytes, all before the end. */
  lemma PutOfOneAcceptedBySizeThree()
    ensures CircSpaceAsWritten(0, 0, 3) == 2 && SpaceToEndAsWritten(0, 0, 3) == 2
  {
    assert (0 - 1) % U64_LIMIT == U64_LIMIT - 1;
    assert CircSpaceAsWritten(0, 0, 3) == BitAnd(U64_LIMIT - 1, 2);
    MaskOfAllOnes();
    assert SpaceToEndAsWritten(0, 0, 3) == 2 by { MaskOfSmall(); }
  }

  /** With a power-of-two size the same `put` leaves the byte counted. */
  lemma PutOfOneKeptBySizeFour()
    ensures AdvanceAsWritten(0, 1, 4) == 1
    ensures CircCountAsWritten(AdvanceAsWritten(0, 1, 4), 0, 4) == 1
  {
    assert AdvanceAsWritten(0, 1, 4) == BitAnd(1, 3);
    assert CircCountAsWritten(1, 0, 4) == BitAnd(1, 3);
    MaskOfSmall();
  }

  /** `size_t(-1) & 2`. */
  lemma MaskOfAllOnes()
    ensures BitAnd(U64_LIMIT - 1, 2) == 2
  {
    var allOnes: bv64 := 0xFFFF_FFFF_FFFF_FFFF;
    assert allOnes & 2 == 2;
    assert (0xFFFF_FFFF_FFFF_FFFF as nat) as bv64 == allOnes;
  }

  /** The masks of small indices the witness needs. */
  lemma MaskOfSmall()
    ensures BitAnd(2, 2) == 2 && BitAnd(1, 2) == 0 && BitAnd(0, 2) == 0 && BitAnd(1, 3) == 1
  {
  }
}
