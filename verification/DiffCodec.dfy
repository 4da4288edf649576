/**
 The binary form of a pool diff in the version 1 ticket pool database, and its
 decoder, which reads an arbitrary value through a moving reader position.
 */
module DiffCodec {
  import opened Widths
  import opened Bytes
  import opened PoolHistory
  import opened Wrappers

  function Flatten(hs: seq<Hash>): (s: seq<byte>)
    ensures |s| == HASH_SIZE * |hs|
  {
    if hs == [] then [] else Flatten(hs[..|hs| - 1]) + HashBytes(hs[|hs| - 1])
  }

  /** Cut a byte string into `n` hashes; Flatten undoes it. */
  function Hashes(s: seq<byte>, n: nat): (hs: seq<Hash>)
    requires |s| == HASH_SIZE * n
    ensures |hs| == n && Flatten(hs) == s
    decreases n
  {
    if n == 0 then []
    else
      var cut := HASH_SIZE * (n - 1);
      var hs := Hashes(s[..cut], n - 1) + [HashOf(s[cut..])];
      assert hs[..n - 1] == Hashes(s[..cut], n - 1);
      assert s[..cut] + s[cut..] == s;
      hs
  }

  lemma {:induction false} HashesOfFlatten(hs: seq<Hash>)
    ensures Hashes(Flatten(hs), |hs|) == hs
  {
    hide HashBytes, HashOf;
    if hs != [] {
      var n := |hs| - 1;
      HashesOfFlatten(hs[..n]);
      assert Flatten(hs)[..HASH_SIZE * n] == Flatten(hs[..n]);
      assert Flatten(hs)[HASH_SIZE * n..] == HashBytes(hs[n]);
      HashRoundTrip(hs[n]);
      assert hs == hs[..n] + [hs[n]];
    }
  }

  lemma HashesNone()
    ensures Hashes([], 0) == []
  {
  }

  lemma HashesStep(s: seq<byte>, pos: nat, i: nat)
    requires pos + HASH_SIZE * (i + 1) <= |s|
    ensures var next := pos + HASH_SIZE * i;
            Hashes(s[pos..next + HASH_SIZE], i + 1) == Hashes(s[pos..next], i) + [HashOf(s[next..next + HASH_SIZE])]
  {
    hide HashOf;
    var next := pos + HASH_SIZE * i;
    var t := s[pos..next + HASH_SIZE];
    assert t[..HASH_SIZE * i] == s[pos..next];
    assert t[HASH_SIZE * i..] == s[next..next + HASH_SIZE];
  }

  /** The diff's encoding fits in a Go byte slice. */
  predicate Encodable(d: PoolDiff) {
    16 + HASH_SIZE * (|d.ins| + |d.outs|) < TWO_63
  }

  /** The value layout: count in, hashes in, count out, hashes out. */
  function Encode(d: PoolDiff): (v: seq<byte>)
    requires Encodable(d)
    ensures |v| == 16 + HASH_SIZE * (|d.ins| + |d.outs|)
  {
    Uint64Bytes(|d.ins|) + Flatten(d.ins) + Uint64Bytes(|d.outs|) + Flatten(d.outs)
  }

  lemma {:induction false} FlattenAt(hs: seq<Hash>, i: nat)
    requires i < |hs|
    ensures Flatten(hs)[HASH_SIZE * i..HASH_SIZE * (i + 1)] == HashBytes(hs[i])
  {
    hide HashBytes;
    var n := |hs| - 1;
    if i < n {
      FlattenAt(hs[..n], i);
      assert Flatten(hs)[HASH_SIZE * i..HASH_SIZE * (i + 1)] == Flatten(hs[..n])[HASH_SIZE * i..HASH_SIZE * (i + 1)];
    }
  }

  /** First the number of tickets coming in and those, 32 bytes each, then the same of the tickets going out. */
  lemma LayoutIs(d: PoolDiff, i: nat)
    requires Encodable(d)
    ensures var v, outAt := Encode(d), 8 + 32 * |d.ins|;
            && v[..8] == Uint64Bytes(|d.ins|) && v[outAt..outAt + 8] == Uint64Bytes(|d.outs|)
            && (i < |d.ins| ==> v[8 + 32 * i..8 + 32 * (i + 1)] == HashBytes(d.ins[i]))
            && (i < |d.outs| ==> v[outAt + 8 + 32 * i..outAt + 8 + 32 * (i + 1)] == HashBytes(d.outs[i]))
  {
    hide HashBytes, Uint64Bytes, Flatten;
    var v, outAt := Encode(d), 8 + 32 * |d.ins|;
    if i < |d.ins| {
      FlattenAt(d.ins, i);
      assert v[8 + 32 * i..8 + 32 * (i + 1)] == Flatten(d.ins)[32 * i..32 * (i + 1)];
    }
    if i < |d.outs| {
      FlattenAt(d.outs, i);
      assert v[outAt + 8 + 32 * i..outAt + 8 + 32 * (i + 1)] == Flatten(d.outs)[32 * i..32 * (i + 1)];
    }
  }

  /** The four parts of a layout are where the decoder looks for them. */
  lemma LayoutParts(a: seq<byte>, x: seq<byte>, b: seq<byte>, y: seq<byte>)
    requires |a| == 8 && |b| == 8
    ensures var v := a + x + b + y;
            var inEnd := 8 + |x|;
            && v[..8] == a
            && v[8..inEnd] == x
            && v[inEnd..inEnd + 8] == b
            && v[inEnd + 8..] == y
            && |v| == inEnd + 8 + |y|
  {
  }

  /** A string with room for the parts is their concatenation. */
  lemma LayoutWhole(v: seq<byte>, inEnd: nat)
    requires 8 <= inEnd && inEnd + 8 <= |v|
    ensures v == v[..8] + v[8..inEnd] + v[inEnd..inEnd + 8] + v[inEnd + 8..]
  {
  }

  /** The diff whose layout is `v`, if there is one. */
  function Decode(v: seq<byte>): Option<PoolDiff>
    requires |v| < TWO_63
  {
    if |v| < 8 then None
    else
      var inLen := Uint64Value(v[..8]);
      var inEnd := 8 + HASH_SIZE * inLen;
      if |v| < inEnd + 8 then None
      else
        var outLen := Uint64Value(v[inEnd..inEnd + 8]);
        if |v| != inEnd + 8 + HASH_SIZE * outLen then None
        else Some(PoolDiff(Hashes(v[8..inEnd], inLen), Hashes(v[inEnd + 8..], outLen)))
  }

  /** Whatever is accepted is the encoding of the diff it decodes to. */
  lemma EncodeDecode(v: seq<byte>)
    requires |v| < TWO_63 && Decode(v).Some?
    ensures Encodable(Decode(v).value) && Encode(Decode(v).value) == v
  {
    hide Uint64Bytes, Uint64Value, HashBytes, HashOf;
    var d := Decode(v).value;
    var inEnd := 8 + HASH_SIZE * Uint64Value(v[..8]);
    LayoutWhole(v, inEnd);
    assert Flatten(d.ins) == v[8..inEnd] && Flatten(d.outs) == v[inEnd + 8..];
    assert Uint64Bytes(|d.ins|) == v[..8];
    assert Uint64Bytes(|d.outs|) == v[inEnd..inEnd + 8];
  }

  /** Decoding an encoded diff gives the diff back. */
  lemma DecodeEncode(d: PoolDiff)
    requires Encodable(d)
    ensures Decode(Encode(d)) == Some(d)
  {
    hide Uint64Bytes, Uint64Value, HashBytes, HashOf, Hashes, Flatten;
    LayoutParts(Uint64Bytes(|d.ins|), Flatten(d.ins), Uint64Bytes(|d.outs|), Flatten(d.outs));
    Uint64RoundTrip(|d.ins|);
    Uint64RoundTrip(|d.outs|);
    HashesOfFlatten(d.ins);
    HashesOfFlatten(d.outs);
  }

  /** The accepted strings are exactly the encodings, and no string encodes two diffs. */
  lemma DecodeIffEncoding(v: seq<byte>, d: PoolDiff)
    requires |v| < TWO_63 && Encodable(d)
    ensures Decode(v) == Some(d) <==> Encode(d) == v
  {
    hide Encode, Decode;
    if Encode(d) == v {
      DecodeEncode(d);
    } else if Decode(v).Some? {
      EncodeDecode(v);
    }
  }

  /** Append each hash to the buffer. */
  method WriteHashes(buffer: seq<byte>, hs: seq<Hash>) returns (data: seq<byte>)
    ensures data == buffer + Flatten(hs)
  {
    hide HashBytes;
    data := buffer;
    for i := 0 to |hs|
      invariant data == buffer + Flatten(hs[..i])
    {
      assert hs[..i + 1][..i] == hs[..i];
      data := data + HashBytes(hs[i]);
    }
    assert hs[..|hs|] == hs;
  }

  /** encodeDiff: write into a growing buffer; its final length check cannot fail. */
  method EncodeDiff(diff: PoolDiff) returns (data: seq<byte>)
    requires Encodable(diff)
    ensures data == Encode(diff)
    ensures |data| == 16 + HASH_SIZE * (|diff.ins| + |diff.outs|)
  {
    hide Uint64Bytes, Uint64Value, HashBytes, HashOf, Flatten;
    var numIn, numOut := |diff.ins|, |diff.outs|;
    var dataLen := 16 + HASH_SIZE * (numIn + numOut);
    data := Uint64Bytes(numIn);
    data := WriteHashes(data, diff.ins);
    data := data + Uint64Bytes(numOut);
    data := WriteHashes(data, diff.outs);
    assert |data| == dataLen;
  }

  /** A Go conversion or product in int64 arithmetic. */
  function WrapInt64(x: int): int {
    (x + TWO_63) % TWO_64 - TWO_63
  }

  /** Where the decoder looks for the second length, in int64 arithmetic. */
  function OutLengthOffset(inLen: nat): int {
    WrapInt64(8 + WrapInt64(WrapInt64(inLen) * HASH_SIZE))
  }

  lemma OffsetWhenReadable(inLen: nat)
    requires inLen < TWO_64
    ensures 8 + HASH_SIZE * inLen < TWO_63 ==> OutLengthOffset(inLen) == 8 + HASH_SIZE * inLen
  {
  }

  /**
   Read `count` hashes from position `pos`, as the two reading loops of
   loadAllPoolDiffsV1 do: an error when the reader is at its end, and an error
   when fewer than 32 bytes are left.
   */
  method ReadHashes(v: seq<byte>, pos: nat, count: nat) returns (r: Result<seq<Hash>>)
    requires pos <= |v|
    ensures r.Ok? <==> pos + HASH_SIZE * count <= |v|
    ensures r.Ok? ==> r.value == Hashes(v[pos..pos + HASH_SIZE * count], count)
  {
    hide HashOf, Hashes;
    HashesNone();
    var hs: seq<Hash> := [];
    var p := pos;
    var i := 0;
    while i < count
      invariant 0 <= i <= count
      invariant p == pos + HASH_SIZE * i <= |v|
      invariant hs == Hashes(v[pos..p], i)
    {
      if p >= |v| {
        return Err;
      }
      var n := if |v| - p < HASH_SIZE then |v| - p else HASH_SIZE;
      if n != HASH_SIZE {
        return Err;
      }
      HashesStep(v, pos, i);
      hs := hs + [HashOf(v[p..p + HASH_SIZE])];
      p := p + HASH_SIZE;
      i := i + 1;
    }
    return Ok(hs);
  }

  /**
   The record decoder of loadAllPoolDiffsV1. The offset of the second length is
   computed in int64 arithmetic, which wraps for a huge first length; such a
   record is still refused, because its hashes cannot all be read.
   */
  method DecodeDiff(v: seq<byte>) returns (r: Result<PoolDiff>)
    requires |v| < TWO_63
    ensures r.Ok? <==> Decode(v).Some?
    ensures r.Ok? ==> r.value == Decode(v).value
  {
    hide Uint64Bytes, Uint64Value, Hashes, OutLengthOffset;
    if |v| < 8 {
      return Err;
    }
    var inLen := Uint64Value(v[..8]);
    var outLenAt := OutLengthOffset(inLen);
    OffsetWhenReadable(inLen);
    if outLenAt < 0 || outLenAt + 8 > |v| {
      return Err;
    }
    var outLen := Uint64Value(v[outLenAt..outLenAt + 8]);

    var ins := ReadHashes(v, 8, inLen);
    if ins.Err? {
      return Err;
    }
    var outs := ReadRest(v, 8 + HASH_SIZE * inLen + 8, outLen);
    if outs.Err? {
      return Err;
    }
    return Ok(PoolDiff(ins.value, outs.value));
  }

  /** Read `count` hashes from position `pos`, which must be all that is left. */
  method ReadRest(v: seq<byte>, pos: nat, count: nat) returns (r: Result<seq<Hash>>)
    requires pos <= |v|
    ensures r.Ok? <==> |v| == pos + HASH_SIZE * count
    ensures r.Ok? ==> r.value == Hashes(v[pos..], count)
  {
    hide Hashes;
    r := ReadHashes(v, pos, count);
    if r.Ok? {
      var remaining := |v| - (pos + HASH_SIZE * count);
      if remaining != 0 {
        return Err;
      }
      assert v[pos..] == v[pos..pos + HASH_SIZE * count];
    }
  }
}
