/**
 * The stream framing: every message travels as a 4-byte little-endian length followed by
 * that many payload bytes. The receiver cuts the bytes it has queued into frames; what is
 * left over is the start of a frame that has not arrived in full.
 */
module Framing {
  import opened Bytes

  /** Every payload is short enough for its length to fit the 32-bit prefix. */
  predicate Encodable(ps: seq<seq<byte>>)
  {
    forall i :: 0 <= i < |ps| ==> |ps[i]| < U32_LIMIT
  }

  /** One frame: the payload length, then the payload. */
  function Frame(p: seq<byte>): (r: seq<byte>)
    requires |p| < U32_LIMIT
    ensures |r| == 4 + |p| && r[4..] == p
  {
    EncodeU32LE(|p|) + p
  }

  /** The frames of `ps`, one after the other. */
  function EncodeAll(ps: seq<seq<byte>>): (r: seq<byte>)
    requires Encodable(ps)
  {
    if ps == [] then [] else Frame(ps[0]) + EncodeAll(ps[1..])
  }

  /** `s` starts with a length prefix and at least that many payload bytes. */
  predicate HasCompleteFrame(s: seq<byte>)
  {
    |s| >= 4 && |s| - 4 >= DecodeU32LE(s)
  }

  /** The payloads cut from a byte string, and the bytes left over. */
  datatype Parsed = Parsed(frames: seq<seq<byte>>, rest: seq<byte>)

  /**
   * Cuts every complete frame off the front of `s`, in order; the rest holds no complete
   * frame.
   */
  function Deframe(s: seq<byte>): (r: Parsed)
    ensures Encodable(r.frames)
    ensures !HasCompleteFrame(r.rest)
    decreases |s|
  {
    if HasCompleteFrame(s) then
      var n := DecodeU32LE(s);
      var after := Deframe(s[4 + n..]);
      Parsed([s[4..4 + n]] + after.frames, after.rest)
    else
      Parsed([], s)
  }

  /** The payloads cut from `s`, framed again and followed by the rest, give `s` back. */
  lemma {:induction false} DeframeReassembles(s: seq<byte>)
    ensures EncodeAll(Deframe(s).frames) + Deframe(s).rest == s
    decreases |s|
  {
    if HasCompleteFrame(s) {
      var n := DecodeU32LE(s);
      var after := Deframe(s[4 + n..]);
      DeframeReassembles(s[4 + n..]);
      var frames := [s[4..4 + n]] + after.frames;
      assert frames[0] == s[4..4 + n] && frames[1..] == after.frames;
      EncodeDecodeU32LE(s[..4]);
      DecodeU32LEPrefix(s[..4], s[4..]);
      assert s[..4] + s[4..] == s;
      assert Frame(s[4..4 + n]) == s[..4 + n];
      assert s[..4 + n] + s[4 + n..] == s;
    }
  }

  /** Framing one more payload appends its frame to the encoding. */
  lemma {:induction false} EncodeAllAppend(ps: seq<seq<byte>>, p: seq<byte>)
    requires Encodable(ps) && |p| < U32_LIMIT
    ensures Encodable(ps + [p])
    ensures EncodeAll(ps + [p]) == EncodeAll(ps) + Frame(p)
  {
    if ps != [] {
      assert (ps + [p])[1..] == ps[1..] + [p];
      EncodeAllAppend(ps[1..], p);
      ConcatAssoc(Frame(ps[0]), EncodeAll(ps[1..]), Frame(p));
    } else {
      assert ps + [p] == [p];
      assert EncodeAll([p]) == Frame(p) + EncodeAll([]);
    }
  }

  /** A frame followed by more bytes is cut into its payload, then whatever the bytes give. */
  lemma DeframeFrame(p: seq<byte>, rest: seq<byte>)
    requires |p| < U32_LIMIT
    ensures Deframe(Frame(p) + rest) == Parsed([p] + Deframe(rest).frames, Deframe(rest).rest)
  {
    var s := Frame(p) + rest;
    assert s == EncodeU32LE(|p|) + (p + rest);
    assert DecodeU32LE(s) == |p| by {
      DecodeU32LEPrefix(EncodeU32LE(|p|), p + rest);
      DecodeEncodeU32LE(|p|);
    }
    assert s[4..4 + |p|] == p && s[4 + |p|..] == rest;
  }

  /**
   * Cutting the frames of `ps` followed by bytes `r` that hold no complete frame gives the
   * payloads `ps` back, with `r` left over.
   */
  lemma {:induction false} DeframeEncoded(ps: seq<seq<byte>>, r: seq<byte>)
    requires Encodable(ps) && !HasCompleteFrame(r)
    ensures Deframe(EncodeAll(ps) + r) == Parsed(ps, r)
  {
    if ps != [] {
      var rest := EncodeAll(ps[1..]) + r;
      assert EncodeAll(ps) + r == Frame(ps[0]) + rest;
      DeframeFrame(ps[0], rest);
      DeframeEncoded(ps[1..], r);
      assert [ps[0]] + ps[1..] == ps;
    }
  }

  /** A byte string of well-formed frames is cut back into exactly its payloads. */
  lemma DeframeEncodeAll(ps: seq<seq<byte>>)
    requires Encodable(ps)
    ensures Deframe(EncodeAll(ps)) == Parsed(ps, [])
  {
    DeframeEncoded(ps, []);
    assert EncodeAll(ps) + [] == EncodeAll(ps);
  }

  /** A complete frame at the front stays the first frame cut when more bytes follow. */
  lemma DeframeLonger(a: seq<byte>, x: seq<byte>)
    requires HasCompleteFrame(a)
    ensures var n := DecodeU32LE(a);
            Deframe(a + x) == Parsed([a[4..4 + n]] + Deframe(a[4 + n..] + x).frames,
                                     Deframe(a[4 + n..] + x).rest)
  {
    var n := DecodeU32LE(a);
    DecodeU32LEPrefix(a, x);
    assert (a + x)[4..4 + n] == a[4..4 + n];
    assert (a + x)[4 + n..] == a[4 + n..] + x;
  }

  /**
   * Cutting is incremental: after more bytes `x` arrive, the frames of `a + x` are those of
   * `a` followed by the frames cut from `a`'s rest with `x` after it.
   */
  lemma {:induction false} DeframeAppend(a: seq<byte>, x: seq<byte>)
    ensures var tail := Deframe(Deframe(a).rest + x);
            Deframe(a + x) == Parsed(Deframe(a).frames + tail.frames, tail.rest)
    decreases |a|, 1
  {
    if HasCompleteFrame(a) {
      DeframeAppendAfterFrame(a, x);
    } else {
      assert Deframe(a).frames + Deframe(a + x).frames == Deframe(a + x).frames;
    }
  }

  /** The case of `DeframeAppend` where `a` starts with a complete frame. */
  lemma {:induction false} DeframeAppendAfterFrame(a: seq<byte>, x: seq<byte>)
    requires HasCompleteFrame(a)
    ensures var tail := Deframe(Deframe(a).rest + x);
            Deframe(a + x) == Parsed(Deframe(a).frames + tail.frames, tail.rest)
    decreases |a|, 0
  {
    var n := DecodeU32LE(a);
    DeframeLonger(a, x);
    DeframeAppend(a[4 + n..], x);
    ConcatAssoc([a[4..4 + n]], Deframe(a[4 + n..]).frames, Deframe(Deframe(a).rest + x).frames);
  }

  /**
   * When every frame fits in `cap` bytes, whatever prefix of the frames of `ps` has
   * arrived, the bytes left over after cutting are fewer than `cap`.
   */
  lemma {:induction false} DeframePrefixRest(ps: seq<seq<byte>>, k: nat, cap: nat)
    requires Encodable(ps) && 0 < cap && k <= |EncodeAll(ps)|
    requires forall i :: 0 <= i < |ps| ==> 4 + |ps[i]| <= cap
    ensures |Deframe(EncodeAll(ps)[..k]).rest| < cap
  {
    if ps != [] {
      var p := ps[0];
      var f := Frame(p);
      var s := EncodeAll(ps)[..k];
      if k >= |f| {
        var later := EncodeAll(ps[1..]);
        assert s == f + later[..k - |f|];
        DecodeU32LEPrefix(f, later[..k - |f|]);
        DecodeEncodeU32LE(|p|);
        assert HasCompleteFrame(s);
        assert s[4 + |p|..] == later[..k - |f|];
        assert forall i :: 0 <= i < |ps[1..]| ==> 4 + |ps[1..][i]| <= cap by {
          forall i | 0 <= i < |ps[1..]| ensures 4 + |ps[1..][i]| <= cap {
            assert ps[1..][i] == ps[i + 1];
          }
        }
        DeframePrefixRest(ps[1..], k - |f|, cap);
      } else {
        assert 4 + |p| <= cap;
        if k >= 4 {
          assert s == f[..k];
          DecodeU32LEPrefix(f[..4], f[4..k]);
          assert f[..4] + f[4..k] == s;
          assert f[..4] == EncodeU32LE(|p|);
          DecodeEncodeU32LE(|p|);
        }
        assert !HasCompleteFrame(s);
      }
    }
  }
}
