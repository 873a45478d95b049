/** Bytes, 32-bit little-endian integers and concatenation of byte chunks. */
module Bytes {
  import opened Arithmetic

  /** One byte of storage or of a message. */
  type byte = b: int | 0 <= b < 256

  /** One more than the largest value of a `uint32_t`. */
  const U32_LIMIT: nat := 0x1_0000_0000

  /** The four bytes of `v`, least significant first (a `uint32_t` in memory on a little-endian host). */
  function EncodeU32LE(v: nat): (r: seq<byte>)
    requires v < U32_LIMIT
    ensures |r| == 4
  {
    var v1 := v / 256;
    var v2 := v1 / 256;
    [v % 256, v1 % 256, v2 % 256, v2 / 256]
  }

  /** The `uint32_t` stored little-endian in the first four bytes of `s`. */
  function DecodeU32LE(s: seq<byte>): (v: nat)
    requires |s| >= 4
    ensures v < U32_LIMIT
  {
    s[0] as int + 256 * (s[1] as int + 256 * (s[2] as int + 256 * (s[3] as int)))
  }

  /** Decoding what was encoded gives the value back. */
  lemma DecodeEncodeU32LE(v: nat)
    requires v < U32_LIMIT
    ensures DecodeU32LE(EncodeU32LE(v)) == v
  {
    var v1 := v / 256;
    var v2 := v1 / 256;
    assert v == v % 256 + 256 * v1;
    assert v1 == v1 % 256 + 256 * v2;
    assert v2 == v2 % 256 + 256 * (v2 / 256);
  }

  /** Encoding what was decoded gives the four bytes back. */
  lemma EncodeDecodeU32LE(s: seq<byte>)
    requires |s| == 4
    ensures EncodeU32LE(DecodeU32LE(s)) == s
  {
    var v := DecodeU32LE(s);
    var v1 := s[1] as int + 256 * (s[2] as int + 256 * (s[3] as int));
    var v2 := s[2] as int + 256 * (s[3] as int);
    DivModUnique(v, 256, v1, s[0]);
    DivModUnique(v1, 256, v2, s[1]);
    DivModUnique(v2, 256, s[3], s[2]);
  }

  /** The decoded value depends only on the first four bytes. */
  lemma DecodeU32LEPrefix(s: seq<byte>, t: seq<byte>)
    requires |s| >= 4
    ensures DecodeU32LE(s + t) == DecodeU32LE(s) == DecodeU32LE(s[..4])
  {
  }

  /** Concatenation is associative; stated apart so that it is used only where it is needed. */
  lemma ConcatAssoc<T>(a: seq<T>, b: seq<T>, c: seq<T>)
    ensures a + (b + c) == (a + b) + c
  {
  }

  /** The bytes of `chunks` one after the other. */
  function Flatten(chunks: seq<seq<byte>>): (r: seq<byte>)
  {
    if chunks == [] then [] else Flatten(chunks[..|chunks| - 1]) + chunks[|chunks| - 1]
  }

  lemma {:induction false} FlattenAppend(a: seq<seq<byte>>, b: seq<seq<byte>>)
    ensures Flatten(a + b) == Flatten(a) + Flatten(b)
    decreases |b|
  {
    if b == [] {
      assert a + b == a;
    } else {
      var b' := b[..|b| - 1];
      assert (a + b)[..|a + b| - 1] == a + b';
      FlattenAppend(a, b');
    }
  }

  /** Moving the next chunk of `whole` from the remainder onto the list of chunks taken. */
  lemma FlattenShift(taken: seq<seq<byte>>, chunk: seq<byte>, rest: seq<byte>, whole: seq<byte>)
    requires Flatten(taken) + (chunk + rest) == whole
    ensures Flatten(taken + [chunk]) + rest == whole
  {
    assert (taken + [chunk])[..|taken|] == taken;
    ConcatAssoc(Flatten(taken), chunk, rest);
  }

  lemma FlattenStep(chunks: seq<seq<byte>>, i: nat)
    requires i < |chunks|
    ensures Flatten(chunks[..i + 1]) == Flatten(chunks[..i]) + chunks[i]
  {
    assert chunks[..i + 1][..i] == chunks[..i];
  }

  lemma FlattenAll(chunks: seq<seq<byte>>)
    ensures Flatten(chunks[..|chunks|]) == Flatten(chunks)
  {
    assert chunks[..|chunks|] == chunks;
  }

  /** The length of a concatenation is the sum of the chunk lengths. */
  lemma {:induction false} FlattenPrefixLength(chunks: seq<seq<byte>>, i: nat, j: nat)
    requires i <= j <= |chunks|
    ensures |Flatten(chunks[..i])| <= |Flatten(chunks[..j])|
    ensures Flatten(chunks[..j])[..|Flatten(chunks[..i])|] == Flatten(chunks[..i])
    decreases j - i
  {
    if i < j {
      FlattenPrefixLength(chunks, i, j - 1);
      FlattenStep(chunks, j - 1);
    }
  }

  /**
   * The first `|Flatten(chunks[..i])| + off` bytes of the concatenation are the first `i`
   * chunks followed by the first `off` bytes of chunk `i`.
   */
  lemma FlattenCut(chunks: seq<seq<byte>>, i: nat, off: nat)
    requires i < |chunks| && off <= |chunks[i]|
    ensures |Flatten(chunks[..i])| + off <= |Flatten(chunks)|
    ensures Flatten(chunks)[..|Flatten(chunks[..i])| + off] == Flatten(chunks[..i]) + chunks[i][..off]
  {
    FlattenPrefixLength(chunks, i + 1, |chunks|);
    FlattenStep(chunks, i);
    FlattenAll(chunks);
    var whole := Flatten(chunks);
    var upTo := Flatten(chunks[..i + 1]);
    assert whole[..|upTo|] == upTo;
    assert whole[..|Flatten(chunks[..i])| + off] == upTo[..|Flatten(chunks[..i])| + off];
  }

  /**
   * Taking `n` more bytes of chunk `i` extends the prefix of the concatenation, `p` bytes
   * long, by those bytes.
   */
  lemma FlattenCutStep(chunks: seq<seq<byte>>, i: nat, off: nat, n: nat, p: nat)
    requires i < |chunks| && off + n <= |chunks[i]|
    requires p == |Flatten(chunks[..i])| + off
    ensures p + n <= |Flatten(chunks)|
    ensures Flatten(chunks)[..p + n] == Flatten(chunks)[..p] + chunks[i][off..off + n]
  {
    FlattenCut(chunks, i, off);
    FlattenCut(chunks, i, off + n);
    assert chunks[i][..off + n] == chunks[i][..off] + chunks[i][off..off + n];
  }

  /** The chunks up to and including chunk `i`, joined, start the concatenation. */
  lemma FlattenPrefixStep(chunks: seq<seq<byte>>, i: nat)
    requires i < |chunks|
    ensures Flatten(chunks[..i + 1]) == Flatten(chunks[..i]) + chunks[i]
    ensures Flatten(chunks[..i]) + chunks[i] <= Flatten(chunks)
  {
    FlattenPrefixLength(chunks, i + 1, |chunks|);
    FlattenStep(chunks, i);
    FlattenAll(chunks);
  }
}
