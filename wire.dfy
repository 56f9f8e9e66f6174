/** The byte level shared by both stream channels: `BitConverter.GetBytes(int)` and
    `BitConverter.ToInt32` on a little-endian machine, the frame "4-byte length, then the
    payload", and `DataReader.ReadBytes` filling a buffer. */
module Wire {
  import opened Common

  /** System.Byte. */
  newtype byte = b: int | 0 <= b < 256

  function Pow256(k: nat): (p: nat)
    ensures p >= 1
  {
    if k == 0 then 1 else 256 * Pow256(k - 1)
  }

  /** The unsigned value of `bs`, least significant byte first. */
  function LeValue(bs: seq<byte>): (v: nat)
    ensures v < Pow256(|bs|)
  {
    if bs == [] then 0 else bs[0] as nat + 256 * LeValue(bs[1..])
  }

  /** The `k` bytes of `v`, least significant first. */
  function LeBytes(v: nat, k: nat): (bs: seq<byte>)
    requires v < Pow256(k)
    ensures |bs| == k
  {
    if k == 0 then [] else [(v % 256) as byte] + LeBytes(v / 256, k - 1)
  }

  lemma DivMod256(lo: nat, hi: nat)
    requires lo < 256
    ensures (lo + 256 * hi) % 256 == lo && (lo + 256 * hi) / 256 == hi
  {
  }

  lemma {:induction false} LeValueOfLeBytes(v: nat, k: nat)
    requires v < Pow256(k)
    ensures LeValue(LeBytes(v, k)) == v
  {
    if k > 0 {
      var bs := LeBytes(v, k);
      assert bs[0] as nat == v % 256;
      assert bs[1..] == LeBytes(v / 256, k - 1);
      LeValueOfLeBytes(v / 256, k - 1);
      calc {
        LeValue(bs);
        bs[0] as nat + 256 * LeValue(bs[1..]);
        v % 256 + 256 * (v / 256);
        v;
      }
    }
  }

  lemma {:induction false} LeBytesOfLeValue(bs: seq<byte>)
    ensures LeBytes(LeValue(bs), |bs|) == bs
  {
    if bs != [] {
      var v := LeValue(bs);
      var rest := LeValue(bs[1..]);
      assert v == bs[0] as nat + 256 * rest;
      DivMod256(bs[0] as nat, rest);
      LeBytesOfLeValue(bs[1..]);
      assert LeBytes(v, |bs|) == [bs[0]] + LeBytes(rest, |bs| - 1);
    }
  }

  // ---------------------------------------------------------------------------------------
  // System.Int32 and BitConverter

  const Int32Min: int := -0x8000_0000
  const Int32Max: int := 0x7FFF_FFFF

  predicate IsInt32(n: int)
  {
    Int32Min <= n <= Int32Max
  }

  /** `BitConverter.GetBytes(n)` for an Int32: two's complement, little-endian. */
  function GetBytes(n: int): (bs: seq<byte>)
    requires IsInt32(n)
    ensures |bs| == 4
  {
    LeBytes(if n >= 0 then n else n + 0x1_0000_0000, 4)
  }

  /** `BitConverter.ToInt32(bs, 0)`. */
  function ToInt32(bs: seq<byte>): (n: int)
    requires |bs| == 4
    ensures IsInt32(n)
    ensures n < 0 <==> bs[3] >= 0x80
  {
    var u := LeValue(bs);
    assert LeValue(bs[3..]) == bs[3] as nat by { assert bs[3..][1..] == []; }
    assert LeValue(bs[2..]) == bs[2] as nat + 256 * (bs[3] as nat) by { assert bs[2..][1..] == bs[3..]; }
    assert LeValue(bs[1..]) == bs[1] as nat + 256 * LeValue(bs[2..]) by { assert bs[1..][1..] == bs[2..]; }
    if u <= Int32Max then u else u - 0x1_0000_0000
  }

  /** Reading back the bytes of an Int32 gives the same Int32. */
  lemma ToInt32OfGetBytes(n: int)
    requires IsInt32(n)
    ensures ToInt32(GetBytes(n)) == n
  {
    LeValueOfLeBytes(if n >= 0 then n else n + 0x1_0000_0000, 4);
  }

  /** Every 4-byte sequence is the encoding of exactly the Int32 it decodes to. */
  lemma GetBytesOfToInt32(bs: seq<byte>)
    requires |bs| == 4
    ensures GetBytes(ToInt32(bs)) == bs
  {
    LeBytesOfLeValue(bs);
  }

  // ---------------------------------------------------------------------------------------
  // Frames

  /** A .NET byte[] holds at most Int32.MaxValue elements. */
  type ByteArray = s: seq<byte> | |s| <= Int32Max

  /** A sent frame: the 4-byte length of the serialized payload, then the payload. */
  function EncodeFrame(payload: ByteArray): (frame: seq<byte>)
    ensures |frame| == 4 + |payload|
    ensures ToInt32(frame[..4]) == |payload| && frame[4..] == payload
  {
    var frame := GetBytes(|payload|) + payload;
    assert frame[..4] == GetBytes(|payload|);
    ToInt32OfGetBytes(|payload|);
    frame
  }

  /** A frame is determined by its length prefix and its payload: two frames that agree on
      their first 4 + n bytes, where n is the first frame's declared length, are equal. */
  lemma EncodeFrameInjective(p: ByteArray, q: ByteArray)
    requires EncodeFrame(p) == EncodeFrame(q)
    ensures p == q
  {
    assert p == EncodeFrame(p)[4..];
  }

  /** The receiving side of a frame on a stream holding `stream`: 4 bytes read as an Int32
      `n`, a buffer of `n` bytes allocated (a negative size overflows), then exactly `n` bytes
      read; reading past the end of the stream fails. Bytes after the frame are ignored. */
  function DecodeFrame(stream: seq<byte>): (r: Result<ByteArray>)
    ensures r.Ok? ==> 4 + |r.value| <= |stream| && stream[..4 + |r.value|] == EncodeFrame(r.value)
    ensures r.Err? ==> r.error == IoFailure || r.error == Overflow
  {
    if |stream| < 4 then Err(IoFailure)
    else
      var n := ToInt32(stream[..4]);
      if n < 0 then Err(Overflow)
      else if |stream| < 4 + n then Err(IoFailure)
      else
        var p: ByteArray := stream[4..4 + n];
        GetBytesOfToInt32(stream[..4]);
        assert stream[..4 + n] == stream[..4] + p;
        Ok(p)
  }

  /** Decoding undoes encoding, whatever follows the frame on the stream. */
  lemma DecodeEncodedFrame(p: ByteArray, rest: seq<byte>)
    ensures DecodeFrame(EncodeFrame(p) + rest) == Ok(p)
  {
    var s := EncodeFrame(p) + rest;
    assert s[..4] == EncodeFrame(p)[..4];
    assert s[4..4 + |p|] == p;
  }

  /** A stream cut anywhere inside a frame cannot be decoded. */
  lemma TruncatedFrameFails(p: ByteArray, k: nat)
    requires k < 4 + |p|
    ensures DecodeFrame(EncodeFrame(p)[..k]).Err?
  {
    var s := EncodeFrame(p)[..k];
    if k >= 4 {
      assert s[..4] == EncodeFrame(p)[..4];
    }
  }

  /** A length prefix with the sign bit set never yields a payload. */
  lemma NegativeLengthFails(stream: seq<byte>)
    requires |stream| >= 4 && stream[3] >= 0x80
    ensures DecodeFrame(stream) == Err(Overflow)
  {
    assert stream[..4][3] == stream[3];
  }

  /** `DataReader.ReadBytes(dst)` after loading from the stream `src` at offset `from`: fills
      `dst` in place when enough bytes arrived, and otherwise throws (here: returns false)
      without touching `dst`. */
  method ReadBytes(src: seq<byte>, from: nat, dst: array<byte>) returns (ok: bool)
    modifies dst
    ensures ok <==> from + dst.Length <= |src|
    ensures ok ==> dst[..] == src[from..from + dst.Length]
    ensures !ok ==> dst[..] == old(dst[..])
  {
    if from + dst.Length > |src| {
      return false;
    }
    var i := 0;
    while i < dst.Length
      invariant 0 <= i <= dst.Length
      invariant dst[..i] == src[from..from + i]
    {
      dst[i] := src[from + i];
      i := i + 1;
    }
    assert dst[..] == dst[..dst.Length];
    return true;
  }
}
