/**
 * The mirrored ring buffer `circular_buffer_vm`. Its storage of `totalSize` bytes is mapped
 * twice in a row, so byte `i` and byte `i + totalSize` are the same and every read or write
 * of up to `totalSize` bytes is one contiguous copy. `head` is the read position and stays
 * below `totalSize`; `tail` is the write position and runs up to `head + totalSize`.
 *
 * The model keeps one copy of the storage and reaches the second mapping through `Slot`,
 * which is exactly what the double mapping does in hardware.
 */
module CircularBufferVm {
  import opened Bytes
  import opened Wrappers
  import opened CircularBufferBase
  import opened Arithmetic

  /** Why the sized constructor throws. */
  datatype ConstructionError =
    | SizeNotPageMultiple  // the requested size is not a whole number of pages
    | MappingFailed        // the system refuses to map the storage (a mapping of zero bytes)

  /**
   * The size check of the sized constructor: a size that is not a multiple of the page size
   * throws; a size of zero passes the check but its mapping is refused, which throws as well.
   */
  function CheckedSize(size: nat, pageSize: nat): (r: Result<nat, ConstructionError>)
    requires pageSize > 0
    ensures r.Success? <==> size > 0 && size % pageSize == 0
    ensures r.Success? ==> r.value == size
    ensures size % pageSize != 0 ==> r == Failure(SizeNotPageMultiple)
  {
    if size % pageSize != 0 then Failure(SizeNotPageMultiple)
    else if size == 0 then Failure(MappingFailed)
    else Success(size)
  }

  /**
   * The size the auto-aligning constructor hands to the sized one, as written:
   * `size + (page - size % page)`. It is always a multiple of the page and always
   * strictly larger than `size`, also when `size` already was a multiple.
   */
  function AutoAlignedSizeAsWritten(size: nat, pageSize: nat): (r: nat)
    requires pageSize > 0
    ensures r % pageSize == 0
    ensures size < r <= size + pageSize
  {
    var r := size + (pageSize - size % pageSize);
    assert r == (size / pageSize + 1) * pageSize;
    DivModUnique(r, pageSize, size / pageSize + 1, 0);
    r
  }

  /** A request of exactly one page is given two pages. */
  lemma AutoAlignOfOnePage(pageSize: nat)
    requires pageSize > 0
    ensures AutoAlignedSizeAsWritten(pageSize, pageSize) == 2 * pageSize
    ensures AlignUp(pageSize, pageSize) == pageSize
  {
    DivModUnique(pageSize, pageSize, 1, 0);
    DivModUnique(2 * pageSize - 1, pageSize, 1, pageSize - 1);
  }

  /** The documented behaviour: round `size` up to the nearest multiple of the page size. */
  function AlignUp(size: nat, pageSize: nat): (r: nat)
    requires pageSize > 0
    ensures r % pageSize == 0
    ensures size <= r < size + pageSize
  {
    var q := (size + pageSize - 1) / pageSize;
    var r := q * pageSize;
    DivModUnique(r, pageSize, q, 0);
    assert size + pageSize - 1 == r + (size + pageSize - 1) % pageSize;
    r
  }

  /** No multiple of the page size lies between `size` and `AlignUp(size)`. */
  lemma AlignUpIsNearest(size: nat, pageSize: nat, m: nat)
    requires pageSize > 0 && m % pageSize == 0 && size <= m
    ensures AlignUp(size, pageSize) <= m
  {
    var r := AlignUp(size, pageSize);
    if m < r {
      // `r` would lie strictly between `m` and the next multiple, so it would leave a remainder.
      DivModUnique(r, pageSize, m / pageSize, r - m);
    }
  }

  class CircularBufferVm {
    /** `total_size_`, fixed at construction. */
    const totalSize: nat
    /** The storage behind both mappings. */
    const storage: array<byte>
    /** `head_`: the read position. */
    var head: nat
    /** `tail_`: the write position, up to one full storage length past `head`. */
    var tail: nat

    ghost predicate Valid()
      reads this
    {
      storage.Length == totalSize && 0 < totalSize &&
      head < totalSize && head <= tail <= head + totalSize
    }

    /** The queued bytes, oldest first: the span `[head, tail)` of the mirrored storage. */
    function Contents(): (r: seq<byte>)
      requires Valid()
      reads this, storage
      ensures |r| == tail - head
    {
      Window(storage[..], head, tail - head)
    }

    /** `consumed_space()`: the number of queued bytes. */
    function ConsumedSpace(): (r: nat)
      requires Valid()
      reads this, storage
      ensures r == |Contents()| <= totalSize
    {
      tail - head
    }

    /** `empty_space()`: the room left; with the queued bytes it always makes up the whole storage. */
    function EmptySpace(): (r: nat)
      requires Valid()
      reads this, storage
      ensures r + ConsumedSpace() == totalSize
    {
      totalSize - ConsumedSpace()
    }

    /** The sized constructor, on a size its check accepts; the mapping starts zero-filled. */
    constructor (size: nat, pageSize: nat)
      requires pageSize > 0 && CheckedSize(size, pageSize).Success?
      ensures Valid() && fresh(storage)
      ensures totalSize == size && head == 0 && tail == 0 && Contents() == []
      ensures forall i :: 0 <= i < size ==> storage[i] == 0
    {
      totalSize := size;
      storage := new byte[size](_ => 0);
      head := 0;
      tail := 0;
    }

    /**
     * `put`: queues `src` after the bytes already queued when it fits, and fails with
     * nothing changed otherwise.
     */
    method Put(src: seq<byte>) returns (ok: bool)
      requires Valid()
      modifies this, storage
      ensures Valid()
      ensures ok <==> |src| <= old(EmptySpace())
      ensures ok ==> Contents() == old(Contents()) + src
      ensures ok ==> head == old(head) && tail == old(tail) + |src| &&
                     storage[..] == WriteWindow(old(storage[..]), Slot(old(tail), totalSize), src)
      ensures !ok ==> unchanged(this) && unchanged(storage)
    {
      if EmptySpace() < |src| {
        return false;
      }
      ghost var before := storage[..];
      ghost var queued := tail - head;
      CopyInMirrored(storage, Slot(tail, totalSize), src);
      assert storage[..] == WriteWindow(before, Slot(head + queued, totalSize), src);
      WindowAfterWrite(before, head, queued, src);
      assert Window(storage[..], head, queued + |src|) == old(Contents()) + src;
      MarkAsWrite(|src|);
      return true;
    }

    /**
     * `mark_as_write`: the `amount` bytes already stored after the queued ones become queued.
     */
    method MarkAsWrite(amount: nat)
      requires Valid() && amount <= EmptySpace()
      modifies this
      ensures Valid()
      ensures head == old(head) && tail == old(tail) + amount
      ensures Contents() == old(Contents()) + Window(storage[..], Slot(old(tail), totalSize), amount)
    {
      WindowConcat(storage[..], head, tail - head, amount);
      tail := tail + amount;
    }

    /**
     * `mark_as_read`: the `amount` oldest bytes stop being queued. When `head` reaches the end
     * of the storage both positions move back by `totalSize`, which keeps their distance.
     */
    method MarkAsRead(amount: nat)
      requires Valid() && amount <= ConsumedSpace()
      modifies this
      ensures Valid()
      ensures Contents() == old(Contents())[amount..]
      ensures tail - head == old(tail - head) - amount
    {
      WindowSuffix(storage[..], head, tail - head, amount);
      head := head + amount;
      if head >= totalSize {
        head := head - totalSize;
        tail := tail - totalSize;
      }
    }

    /** `peek`: the `amount` oldest bytes when that many are queued; nothing is consumed. */
    method Peek(amount: nat) returns (ok: bool, bytes: seq<byte>)
      requires Valid()
      ensures ok <==> amount <= |Contents()|
      ensures ok ==> bytes == Contents()[..amount]
      ensures !ok ==> bytes == []
    {
      if ConsumedSpace() < amount {
        return false, [];
      }
      bytes := Window(storage[..], head, amount);
      return true, bytes;
    }

    /** `get`: `peek`, then `mark_as_read` of the same amount when the peek succeeded. */
    method Get(amount: nat) returns (ok: bool, bytes: seq<byte>)
      requires Valid()
      modifies this
      ensures Valid()
      ensures ok <==> amount <= old(|Contents()|)
      ensures ok ==> bytes == old(Contents())[..amount] && Contents() == old(Contents())[amount..]
      ensures !ok ==> bytes == [] && unchanged(this)
    {
      ok, bytes := Peek(amount);
      if ok {
        MarkAsRead(amount);
      }
    }

    /** `get(dst)`: takes everything that is queued. */
    method GetEverything() returns (ok: bool, bytes: seq<byte>)
      requires Valid()
      modifies this
      ensures Valid()
      ensures ok && bytes == old(Contents()) && Contents() == []
    {
      ok, bytes := Get(ConsumedSpace());
    }

    /**
     * `get_all`: one `get` per requested size, stopping at the first that fails; the
     * earlier ones keep their effect.
     */
    method GetAll(sizes: seq<nat>) returns (ok: bool, pieces: seq<seq<byte>>)
      requires Valid()
      modifies this
      ensures Valid()
      ensures |pieces| <= |sizes| && (ok <==> |pieces| == |sizes|)
      ensures forall i :: 0 <= i < |pieces| ==> |pieces[i]| == sizes[i]
      ensures Flatten(pieces) + Contents() == old(Contents())
      ensures !ok ==> sizes[|pieces|] > |Contents()|
    {
      pieces := [];
      ok := true;
      var i := 0;
      while i < |sizes|
        invariant Valid() && i == |pieces| <= |sizes| && ok
        invariant forall k :: 0 <= k < |pieces| ==> |pieces[k]| == sizes[k]
        invariant Flatten(pieces) + Contents() == old(Contents())
      {
        ghost var before := Contents();
        var got, bytes := Get(sizes[i]);
        if !got {
          assert sizes[i] > |Contents()|;
          ok := false;
          break;
        }
        assert bytes + Contents() == before;
        FlattenShift(pieces, bytes, Contents(), old(Contents()));
        pieces := pieces + [bytes];
        i := i + 1;
      }
    }

    /**
     * `put_all`: one `put` per chunk, stopping at the first that does not fit; the earlier
     * chunks stay queued.
     */
    method PutAll(chunks: seq<seq<byte>>) returns (ok: bool)
      requires Valid()
      modifies this, storage
      ensures Valid()
      ensures exists k :: 0 <= k <= |chunks| && Contents() == old(Contents()) + Flatten(chunks[..k]) &&
                (ok <==> k == |chunks|) && (k < |chunks| ==> |chunks[k]| > EmptySpace())
    {
      var i := 0;
      while i < |chunks|
        invariant Valid() && i <= |chunks|
        invariant Contents() == old(Contents()) + Flatten(chunks[..i])
      {
        var put := Put(chunks[i]);
        if !put {
          return false;
        }
        FlattenStep(chunks, i);
        i := i + 1;
      }
      FlattenAll(chunks);
      return true;
    }

    /** `clear`: marks everything queued as read, skipping the call when nothing is queued. */
    method Clear()
      requires Valid()
      modifies this
      ensures Valid() && Contents() == [] && EmptySpace() == totalSize
    {
      if ConsumedSpace() != 0 {
        MarkAsRead(ConsumedSpace());
      }
    }

    /**
     * `peek_assign(dst, amount)`: `dst` becomes the `amount` oldest bytes when that many are
     * queued, and is left as it was otherwise; nothing is consumed.
     */
    method PeekAssign(dst: seq<byte>, amount: nat) returns (ok: bool, result: seq<byte>)
      requires Valid()
      ensures ok <==> amount <= |Contents()|
      ensures ok ==> result == Contents()[..amount]
      ensures !ok ==> result == dst
    {
      if ConsumedSpace() < amount {
        return false, dst;
      }
      return true, Window(storage[..], head, amount);
    }

    /**
     * `peek_assign(dst)`: `dst` becomes every queued byte, unless nothing is queued, in which
     * case it fails and `dst` is left as it was.
     */
    method PeekAssignAll(dst: seq<byte>) returns (ok: bool, result: seq<byte>)
      requires Valid()
      ensures ok <==> |Contents()| > 0
      ensures ok ==> result == Contents()
      ensures !ok ==> result == dst
    {
      if ConsumedSpace() < 1 {
        return false, dst;
      }
      return true, Window(storage[..], head, ConsumedSpace());
    }

    /** How many bytes `transfer` moves to `other`. */
    function TransferAmount(other: CircularBufferVm): (r: nat)
      requires Valid() && other.Valid()
      reads this, storage, other, other.storage
      ensures r <= ConsumedSpace() && r <= other.EmptySpace()
      ensures r == 0 <==> ConsumedSpace() == 0 || other.EmptySpace() == 0
      ensures r == ConsumedSpace() || r == other.EmptySpace()
    {
      if ConsumedSpace() == 0 || other.EmptySpace() == 0 then 0
      else Min(ConsumedSpace(), other.EmptySpace())
    }

    /**
     * `transfer`, as written: the moved bytes are copied to `other`'s read position
     * (`native_buffer_head()`) and then `other`'s write position is advanced. Only when
     * `other` was empty do they end up as `other`'s queued bytes; otherwise they overwrite
     * `other`'s oldest bytes and stale storage becomes queued.
     */
    method Transfer(other: CircularBufferVm)
      requires Valid() && other.Valid() && other != this && other.storage != storage
      modifies this, other, other.storage
      ensures Valid() && other.Valid()
      ensures var moved := old(TransferAmount(other));
              Contents() == old(Contents())[moved..] &&
              other.head == old(other.head) && other.tail == old(other.tail) + moved &&
              other.storage[..] == WriteWindow(old(other.storage[..]), other.head, old(Contents())[..moved])
      ensures old(other.ConsumedSpace()) == 0 ==> other.Contents() == old(Contents())[..old(TransferAmount(other))]
    {
      ghost var moved := TransferAmount(other);
      ghost var before := other.storage[..];
      if ConsumedSpace() == 0 || other.EmptySpace() == 0 {
        WriteWindowEmpty(before, other.head);
        assert old(Contents())[..moved] == [];
        return;
      }
      var amount := if ConsumedSpace() > other.EmptySpace() then other.EmptySpace() else ConsumedSpace();
      assert amount == moved;
      var ok, bytes := Get(amount);
      CopyInMirrored(other.storage, other.head, bytes);
      ghost var written := other.storage[..];
      other.MarkAsWrite(amount);
      if old(other.ConsumedSpace()) == 0 {
        assert other.Contents() == Window(written, other.head, amount);
        assert Slot(other.head + 0, other.totalSize) == other.head;
        WindowAfterWrite(before, other.head, 0, bytes);
      }
    }

    /**
     * `transfer` as evidently intended: the moved bytes are queued after `other`'s own, which
     * keeps every byte of both buffers in FIFO order.
     */
    method TransferAppending(other: CircularBufferVm)
      requires Valid() && other.Valid() && other != this && other.storage != storage
      modifies this, other, other.storage
      ensures Valid() && other.Valid()
      ensures var moved := old(TransferAmount(other));
              Contents() == old(Contents())[moved..] &&
              other.Contents() == old(other.Contents()) + old(Contents())[..moved]
      ensures other.Contents() + Contents() == old(other.Contents()) + old(Contents())
    {
      if ConsumedSpace() == 0 || other.EmptySpace() == 0 {
        return;
      }
      var amount := if ConsumedSpace() > other.EmptySpace() then other.EmptySpace() else ConsumedSpace();
      var ok, bytes := Get(amount);
      ok := other.Put(bytes);
    }
  }

  /**
   * The byte queued in a one-byte destination is lost by `transfer`: after moving one byte
   * into a destination that already holds byte 2, the destination holds the moved byte 1
   * followed by a stale zero, where the intended queue is 2 then 1.
   */
  method TransferIntoNonEmptyDestination() returns (destination: seq<byte>)
    ensures destination == [1, 0]
  {
    var source := new CircularBufferVm(4, 4);
    var target := new CircularBufferVm(4, 4);
    var ok := source.Put([1]);
    ghost var blank := target.storage[..];
    assert blank[1] == 0;
    ok := target.Put([2]);
    ghost var holding := target.storage[..];
    assert holding == WriteWindow(blank, 0, [2]);
    assert Offset(1, 0, 4) == 1;
    assert holding[1] == 0;
    source.Transfer(target);
    ghost var after := target.storage[..];
    assert after == WriteWindow(holding, 0, [1]);
    assert Offset(0, 0, 4) == 0;
    assert after[0] == 1 && after[1] == 0;
    destination := target.Contents();
    assert destination == [after[0], after[1]];
  }
}
