/**
 * What the three ring buffers share: `min`, and the storage arithmetic every one of them
 * uses to read and write a window of bytes that may run past the end of the storage and
 * continue at its start.
 *
 * Each buffer class carries its own `totalSize`, `head`, `tail` and storage array, as the
 * shared base class holds them for its subclasses.
 */
module CircularBufferBase {
  import opened Bytes
  import opened Arithmetic

  /**
   * What a `peek_assign` that copies one contiguous range `[start, start + amount)` of the
   * storage does.
   */
  datatype PeekAssignOutcome =
    | NotEnoughQueued        // fewer than `amount` bytes are queued; `dst` is left as it was
    | Assigned(bytes: seq<byte>)
    | ReadsPastEnd           // the copied range runs past the end of the storage

  /** The smaller of `a` and `b`; `a` when `a < b`, `b` otherwise. */
  function Min(a: nat, b: nat): (r: nat)
    ensures r <= a && r <= b
    ensures r == a || r == b
    ensures a < b ==> r == a
  {
    if a < b then a else b
  }

  /** The storage index of logical position `k` in a ring of `n` slots, for `k < 2n`. */
  function Slot(k: nat, n: nat): (r: nat)
    requires k < 2 * n
    ensures r < n
    ensures r == k || r + n == k
  {
    if k < n then k else k - n
  }

  /** Moving a storage index on by `k` is moving its logical position on by `k`. */
  lemma SlotStep(a: nat, w: nat, k: nat, n: nat)
    requires a < n && w + k < n
    ensures Slot(a + w, n) + k < 2 * n
    ensures Slot(Slot(a + w, n) + k, n) == Slot(a + w + k, n)
  {
  }

  /** Below `2n`, the remainder by `n` is the storage index. */
  lemma ModIsSlot(k: nat, n: nat)
    requires k < 2 * n
    ensures k % n == Slot(k, n)
  {
    if k < n {
      DivModUnique(k, n, 0, k);
    } else {
      DivModUnique(k, n, 1, k - n);
    }
  }

  /** One more than the largest `size_t`. */
  const U64_LIMIT: nat := 0x1_0000_0000_0000_0000

  /** `a & b` on two `size_t` values. */
  function BitAnd(a: nat, b: nat): (r: nat)
    requires a < U64_LIMIT && b < U64_LIMIT
    ensures r < U64_LIMIT
  {
    ((a as bv64) & (b as bv64)) as nat
  }

  /** How far storage index `p` lies after `start` when going round the ring of `n` slots. */
  function Offset(p: nat, start: nat, n: nat): (r: nat)
    requires p < n && start < n
    ensures r < n
    ensures Slot(start + r, n) == p
  {
    if p >= start then p - start else p + n - start
  }

  lemma OffsetOfSlot(start: nat, j: nat, n: nat)
    requires start < n && j < n
    ensures Offset(Slot(start + j, n), start, n) == j
  {
  }

  /** The `len` bytes of ring storage `s` that start at index `start` and wrap round to index 0. */
  function Window(s: seq<byte>, start: nat, len: nat): (r: seq<byte>)
    requires start < |s| && len <= |s|
    ensures |r| == len
  {
    seq(len, i requires 0 <= i < len => s[Slot(start + i, |s|)])
  }

  /** Ring storage `s` after `src` is written from index `start` on, wrapping round to index 0. */
  function WriteWindow(s: seq<byte>, start: nat, src: seq<byte>): (r: seq<byte>)
    requires start < |s| && |src| <= |s|
    ensures |r| == |s|
  {
    seq(|s|, p requires 0 <= p < |s| =>
      if Offset(p, start, |s|) < |src| then src[Offset(p, start, |s|)] else s[p])
  }

  /**
   * Reading `min(len, n - h)` bytes from `h` to the end of the storage and the rest from
   * index 0 gives the window of `len` bytes at `h`.
   */
  lemma SplitReadIsWindow(s: seq<byte>, h: nat, len: nat)
    requires h < |s| && len <= |s|
    ensures var first := Min(len, |s| - h);
            s[h..h + first] + s[..len - first] == Window(s, h, len)
  {
    var n := |s|;
    var first := Min(len, n - h);
    var r := s[h..h + first] + s[..len - first];
    forall i | 0 <= i < len
      ensures r[i] == Window(s, h, len)[i]
    {
      if i < first {
        assert r[i] == s[h + i];
        assert Slot(h + i, n) == h + i;
      } else {
        assert first == n - h;
        assert r[i] == s[i - first];
        assert Slot(h + i, n) == i - first;
      }
    }
  }

  /** Writing nothing changes nothing. */
  lemma WriteWindowEmpty(s: seq<byte>, start: nat)
    requires start < |s|
    ensures WriteWindow(s, start, []) == s
  {
  }

  /** Storage `s` after `memcpy(&s[at], src, |src|)`, which stays inside the storage. */
  function CopyInto(s: seq<byte>, at: nat, src: seq<byte>): (r: seq<byte>)
    requires at + |src| <= |s|
    ensures |r| == |s|
  {
    s[..at] + src + s[at + |src|..]
  }

  /**
   * Writing `src` just after a window of `c` queued bytes extends that window by `src`
   * and leaves the queued bytes as they were: the FIFO step of every `put`.
   */
  lemma WindowAfterWrite(s: seq<byte>, h: nat, c: nat, src: seq<byte>)
    requires h < |s| && c + |src| <= |s|
    ensures Window(WriteWindow(s, Slot(h + c, |s|), src), h, c + |src|) == Window(s, h, c) + src
  {
    var n := |s|;
    var w := WriteWindow(s, Slot(h + c, n), src);
    forall i | 0 <= i < c + |src|
      ensures Window(w, h, c + |src|)[i] == (Window(s, h, c) + src)[i]
    {
      var p := Slot(h + i, n);
      if i < c {
        assert Offset(p, Slot(h + c, n), n) == n - (c - i);
      } else {
        assert Offset(p, Slot(h + c, n), n) == i - c;
      }
    }
  }

  /** Dropping the first `k` bytes of a window leaves the window that starts `k` further on. */
  lemma WindowSuffix(s: seq<byte>, h: nat, len: nat, k: nat)
    requires h < |s| && k <= len <= |s|
    ensures Window(s, h, len)[k..] == Window(s, Slot(h + k, |s|), len - k)
  {
    var n := |s|;
    var rest := Window(s, Slot(h + k, n), len - k);
    forall j | 0 <= j < len - k
      ensures rest[j] == Window(s, h, len)[k + j]
    {
      assert Slot(Slot(h + k, n) + j, n) == Slot(h + k + j, n);
    }
  }

  /** A window followed by the window that starts where it ends is one longer window. */
  lemma WindowConcat(s: seq<byte>, h: nat, c: nat, a: nat)
    requires h < |s| && c + a <= |s|
    ensures Window(s, h, c) + Window(s, Slot(h + c, |s|), a) == Window(s, h, c + a)
  {
    var n := |s|;
    var rest := Window(s, Slot(h + c, n), a);
    forall j | 0 <= j < a
      ensures rest[j] == Window(s, h, c + a)[c + j]
    {
      assert Slot(Slot(h + c, n) + j, n) == Slot(h + c + j, n);
    }
  }

  /** A window is unchanged by writes that land outside it. */
  lemma WindowUnchanged(s: seq<byte>, t: seq<byte>, h: nat, len: nat)
    requires |s| == |t| && h < |s| && len <= |s|
    requires forall p :: 0 <= p < |s| && Offset(p, h, |s|) < len ==> t[p] == s[p]
    ensures Window(t, h, len) == Window(s, h, len)
  {
    forall i | 0 <= i < len
      ensures Window(t, h, len)[i] == Window(s, h, len)[i]
    {
      OffsetOfSlot(h, i, |s|);
    }
  }

  /** The contiguous run `s[p..p+m]` directly after a window that ends at index `p` extends it. */
  lemma WindowExtend(s: seq<byte>, h: nat, k: nat, m: nat)
    requires h < |s| && k + m <= |s|
    requires Slot(h + k, |s|) + m <= |s|
    ensures Window(s, h, k) + s[Slot(h + k, |s|)..Slot(h + k, |s|) + m] == Window(s, h, k + m)
  {
    var n := |s|;
    var p := Slot(h + k, n);
    var run := s[p..p + m];
    forall j | 0 <= j < m
      ensures run[j] == Window(s, h, k + m)[k + j]
    {
      assert Slot(h + k + j, n) == p + j;
    }
  }

  /**
   * Two contiguous copies, one at `start` up to the end of the storage and one at index 0
   * for the rest, write the same bytes as one write that wraps round.
   */
  lemma SplitCopyIsWrap(s: seq<byte>, start: nat, src: seq<byte>)
    requires start < |s| && |src| <= |s|
    ensures var first := Min(|src|, |s| - start);
            CopyInto(CopyInto(s, start, src[..first]), 0, src[first..]) == WriteWindow(s, start, src)
  {
    var n := |s|;
    var first := Min(|src|, n - start);
    var a := CopyInto(s, start, src[..first]);
    var b := CopyInto(a, 0, src[first..]);
    var w := WriteWindow(s, start, src);
    forall p | 0 <= p < n
      ensures b[p] == w[p]
    {
      var j := Offset(p, start, n);
      if p >= start {
        assert j == p - start;
        if j < first {
          assert a[p] == src[..first][j];
        }
      } else {
        assert j == p + n - start;
        if p < |src| - first {
          assert b[p] == src[first..][p];
        }
      }
    }
  }

  /**
   * Writing one more contiguous chunk right after a wrapped write of `done` extends that
   * write: the step of a loop that copies a wrapping write chunk by chunk.
   */
  lemma WriteWindowExtend(s: seq<byte>, start: nat, done: seq<byte>, chunk: seq<byte>)
    requires start < |s| && |done| + |chunk| <= |s|
    requires Slot(start + |done|, |s|) + |chunk| <= |s|
    ensures CopyInto(WriteWindow(s, start, done), Slot(start + |done|, |s|), chunk)
         == WriteWindow(s, start, done + chunk)
  {
    var n := |s|;
    var at := Slot(start + |done|, n);
    var a := CopyInto(WriteWindow(s, start, done), at, chunk);
    var w := WriteWindow(s, start, done + chunk);
    forall p | 0 <= p < n
      ensures a[p] == w[p]
    {
      var j := Offset(p, start, n);
      if at <= p < at + |chunk| {
        assert j == |done| + (p - at);
        assert a[p] == chunk[p - at];
      }
    }
  }

  /** The storage array after `memcpy(&a[at], src, |src|)`. */
  method CopyIn(a: array<byte>, at: nat, src: seq<byte>)
    requires at + |src| <= a.Length
    modifies a
    ensures a[..] == CopyInto(old(a[..]), at, src)
  {
    forall i | 0 <= i < |src| {
      a[at + i] := src[i];
    }
    assert a[..] == CopyInto(old(a[..]), at, src);
  }

  /**
   * The storage array after the split copy of `put` and `peek`: the bytes of `src` that fit
   * before the end go to `start` on, the rest to index 0 on.
   */
  method CopyInSplit(a: array<byte>, start: nat, src: seq<byte>)
    requires start < a.Length && |src| <= a.Length
    modifies a
    ensures a[..] == WriteWindow(old(a[..]), start, src)
  {
    var first := Min(|src|, a.Length - start);
    SplitCopyIsWrap(a[..], start, src);
    CopyIn(a, start, src[..first]);
    CopyIn(a, 0, src[first..]);
  }

  /**
   * The storage array after a `memcpy` to `&a[start]` that runs past the end of the storage:
   * with the storage mapped twice in a row, the bytes past the end land at index 0 on.
   */
  method CopyInMirrored(a: array<byte>, start: nat, src: seq<byte>)
    requires start < a.Length && |src| <= a.Length
    modifies a
    ensures a[..] == WriteWindow(old(a[..]), start, src)
  {
    ghost var before := a[..];
    forall p | 0 <= p < a.Length && Offset(p, start, a.Length) < |src| {
      a[p] := src[Offset(p, start, a.Length)];
    }
    assert a[..] == WriteWindow(before, start, src);
  }

  /** The first `k` bytes of a window are the window of length `k`. */
  lemma WindowPrefix(s: seq<byte>, h: nat, len: nat, k: nat)
    requires h < |s| && k <= len <= |s|
    ensures Window(s, h, len)[..k] == Window(s, h, k)
  {
  }

  /** A write that stays inside the storage is one contiguous copy. */
  lemma CopyIntoIsWriteWindow(s: seq<byte>, start: nat, src: seq<byte>)
    requires start + |src| <= |s| && start < |s|
    ensures CopyInto(s, start, src) == WriteWindow(s, start, src)
  {
    var n := |s|;
    forall p | 0 <= p < n
      ensures CopyInto(s, start, src)[p] == WriteWindow(s, start, src)[p]
    {
      if p >= start && p < start + |src| {
        assert Offset(p, start, n) == p - start;
      }
    }
  }

  /** The window a wrapping write covers reads back what was written. */
  lemma WindowOfWrite(s: seq<byte>, start: nat, src: seq<byte>)
    requires start < |s| && |src| <= |s|
    ensures Window(WriteWindow(s, start, src), start, |src|) == src
  {
    forall i | 0 <= i < |src|
      ensures Window(WriteWindow(s, start, src), start, |src|)[i] == src[i]
    {
      OffsetOfSlot(start, i, |s|);
    }
  }
}
