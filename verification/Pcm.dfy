/** Raw 16-bit little-endian PCM, as src/utils/noise_filter.rs and src/livekit/loading_clip.rs read and write it. */
module Pcm {
  type Byte = b: int | 0 <= b < 256
  type I16 = s: int | -32768 <= s < 32768

  /** `i16::from_le_bytes`. */
  function FromLeBytes(lo: Byte, hi: Byte): I16 {
    var u := lo + 256 * hi;
    if u < 32768 then u else u - 65536
  }

  /** `i16::to_le_bytes`. */
  function ToLeBytes(s: I16): seq<Byte> {
    var u := if s < 0 then s + 65536 else s;
    [u % 256, u / 256]
  }

  lemma LeBytesInverse(s: I16, lo: Byte, hi: Byte)
    ensures FromLeBytes(ToLeBytes(s)[0], ToLeBytes(s)[1]) == s
    ensures ToLeBytes(FromLeBytes(lo, hi)) == [lo, hi]
  {
  }

  /** The samples of the pairs of bytes that `chunks_exact(2)` yields; an odd last byte is not among them. */
  function Decode(bytes: seq<Byte>): (samples: seq<I16>)
    ensures |samples| == |bytes| / 2
    ensures forall i :: 0 <= i < |samples| ==> samples[i] == FromLeBytes(bytes[2 * i], bytes[2 * i + 1])
  {
    seq(|bytes| / 2, i requires 0 <= i < |bytes| / 2 => FromLeBytes(bytes[2 * i], bytes[2 * i + 1]))
  }

  function Encode(samples: seq<I16>): (bytes: seq<Byte>)
    ensures |bytes| == 2 * |samples|
    ensures forall i :: 0 <= i < |samples| ==> bytes[2 * i] == ToLeBytes(samples[i])[0] && bytes[2 * i + 1] == ToLeBytes(samples[i])[1]
  {
    if |samples| == 0 then [] else Encode(samples[..|samples| - 1]) + ToLeBytes(samples[|samples| - 1])
  }

  /** Decoding inverts encoding. */
  lemma DecodeEncode(samples: seq<I16>)
    ensures Decode(Encode(samples)) == samples
  {
    var bytes := Encode(samples);
    forall i | 0 <= i < |samples| ensures Decode(bytes)[i] == samples[i] { LeBytesInverse(samples[i], 0, 0); }
  }

  /** And encoding inverts decoding, on whole samples. */
  lemma EncodeDecode(bytes: seq<Byte>)
    requires |bytes| % 2 == 0
    ensures Encode(Decode(bytes)) == bytes
  {
    var samples := Decode(bytes);
    forall k | 0 <= k < |bytes| ensures Encode(samples)[k] == bytes[k] {
      var i := k / 2;
      LeBytesInverse(0, bytes[2 * i], bytes[2 * i + 1]);
      assert k == 2 * i || k == 2 * i + 1;
    }
  }

  // ---- Real arithmetic on samples ----

  function Abs(x: real): real { if x < 0.0 then -x else x }

  function Clamp(x: real, lo: real, hi: real): real { if x < lo then lo else if x > hi then hi else x }

  /** `f32::round`: to the nearest integer, halves away from zero. */
  function Round(x: real): (n: int)
    ensures Abs(n as real - x) <= 0.5
    ensures x == n as real || Abs(n as real - x) < 0.5 || Abs(n as real) > Abs(x)
  {
    if x >= 0.0 then (x + 0.5).Floor else -((0.5 - x).Floor)
  }

  lemma RoundBetween(lo: int, x: real, hi: int)
    requires lo as real <= x <= hi as real
    ensures lo <= Round(x) <= hi
  {
  }

  /** `as i16` of a rounded float. */
  function Saturate(n: int): I16 { if n < -32768 then -32768 else if n > 32767 then 32767 else n }
}
