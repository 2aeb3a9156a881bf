/** Bytes and big-endian numbers, as `to_bytes` and `from_bytes` read them. */
module BigEndian {

  type Byte = x: int | 0 <= x < 256

  function Power256(n: nat): nat {
    if n == 0 then 1 else 256 * Power256(n - 1)
  }

  /** `v.to_bytes(n, "big")` for a value that fits. */
  function ToBytes(v: nat, n: nat): (s: seq<Byte>)
    ensures |s| == n
  {
    if n == 0 then [] else ToBytes(v / 256, n - 1) + [v % 256]
  }

  /** The number whose big-endian digits are `s[..n]`. */
  function FromBytes(s: seq<Byte>, n: nat): nat
    requires n <= |s|
  {
    if n == 0 then 0 else 256 * FromBytes(s, n - 1) + s[n - 1]
  }

  lemma {:induction false} FromBytesReadsPrefix(s: seq<Byte>, t: seq<Byte>, n: nat)
    requires n <= |s| && n <= |t| && forall i :: 0 <= i < n ==> s[i] == t[i]
    ensures FromBytes(s, n) == FromBytes(t, n)
  {
    if n > 0 { FromBytesReadsPrefix(s, t, n - 1); }
  }

  /** Decoding an encoded value gives it back exactly when it fits. */
  lemma {:induction false} DecodeEncode(v: nat, n: nat)
    ensures FromBytes(ToBytes(v, n), n) == v <==> v < Power256(n)
    ensures FromBytes(ToBytes(v, n), n) < Power256(n)
  {
    if n > 0 {
      DecodeEncode(v / 256, n - 1);
      FromBytesReadsPrefix(ToBytes(v, n), ToBytes(v / 256, n - 1), n - 1);
    }
  }

  /** Every byte string is the encoding of the number it decodes to. */
  lemma {:induction false} EncodeDecode(s: seq<Byte>, n: nat)
    requires n <= |s|
    ensures FromBytes(s, n) < Power256(n)
    ensures ToBytes(FromBytes(s, n), n) == s[..n]
  {
    if n > 0 {
      EncodeDecode(s, n - 1);
      assert FromBytes(s, n) / 256 == FromBytes(s, n - 1);
      assert s[..n] == s[..n - 1] + [s[n - 1]];
    }
  }

  /** The first byte is the most significant one. */
  lemma {:induction false} FirstByteWeighsMost(s: seq<Byte>, n: nat)
    requires 0 < n <= |s|
    ensures FromBytes(s, n) == s[0] * Power256(n - 1) + FromBytes(s[1..], n - 1)
  {
    if n == 1 {
      assert FromBytes(s, 1) == 256 * FromBytes(s, 0) + s[0];
    } else {
      FirstByteWeighsMost(s, n - 1);
      Scale(s[0], n - 2);
    }
  }

  lemma Scale(b: nat, n: nat)
    ensures 256 * (b * Power256(n)) == b * Power256(n + 1)
  {
  }
}
