/** Bytes, 32-byte arrays, 64-bit words and their big-endian encoding. */
module Bytes {

  type byte = b: int | 0 <= b < 256

  const TWO_64: nat := 0x1_0000_0000_0000_0000

  type uint64 = n: int | 0 <= n < TWO_64

  /** The source's `[32]byte` arrays: public keys and hashes. */
  type Bytes32 = s: seq<byte> | |s| == 32 witness seq(32, _ => 0)

  type Hash = Bytes32

  type PubKey = Bytes32

  /** 256 to the power `width`: how many values fit in `width` bytes. */
  function Pow256(width: nat): (p: nat)
    ensures p > 0
  {
    if width == 0 then 1 else 256 * Pow256(width - 1)
  }

  lemma Pow256Of8()
    ensures Pow256(8) == TWO_64
  {
    assert Pow256(2) == 256 * Pow256(1) == 0x1_0000;
    assert Pow256(4) == 256 * Pow256(3) == 256 * 256 * Pow256(2) == 0x1_0000_0000;
    assert Pow256(6) == 256 * Pow256(5) == 256 * 256 * Pow256(4);
    assert Pow256(8) == 256 * Pow256(7) == 256 * 256 * Pow256(6);
  }

  /** `n` in base 256, most significant digit first. */
  function BigEndian(n: nat, width: nat): (s: seq<byte>)
    ensures |s| == width
  {
    if width == 0 then [] else BigEndian(n / 256, width - 1) + [n % 256]
  }

  function FromBigEndian(s: seq<byte>): nat {
    if s == [] then 0 else 256 * FromBigEndian(s[..|s| - 1]) + s[|s| - 1]
  }

  /** Decoding undoes encoding for every number that fits in the width. */
  lemma {:induction false} DecodeEncode(n: nat, width: nat)
    requires n < Pow256(width)
    ensures FromBigEndian(BigEndian(n, width)) == n
  {
    if width > 0 {
      DecodeEncode(n / 256, width - 1);
      var s := BigEndian(n, width);
      assert s[..|s| - 1] == BigEndian(n / 256, width - 1);
    }
  }

  /** Encoding undoes decoding for every byte string. */
  lemma {:induction false} EncodeDecode(s: seq<byte>)
    ensures FromBigEndian(s) < Pow256(|s|)
    ensures BigEndian(FromBigEndian(s), |s|) == s
  {
    if s != [] {
      EncodeDecode(s[..|s| - 1]);
      assert s == s[..|s| - 1] + [s[|s| - 1]];
    }
  }

  lemma BigEndianInjective(m: nat, n: nat, width: nat)
    requires m < Pow256(width) && n < Pow256(width)
    requires BigEndian(m, width) == BigEndian(n, width)
    ensures m == n
  {
    DecodeEncode(m, width);
    DecodeEncode(n, width);
  }

  /** Byte `i` of the encoding is the word shifted right by the bytes below it. */
  lemma {:induction false} BigEndianByte(n: nat, width: nat, i: nat)
    requires i < width
    ensures BigEndian(n, width)[i] == (n / Pow256(width - 1 - i)) % 256
  {
    if i < width - 1 {
      BigEndianByte(n / 256, width - 1, i);
      var p := Pow256(width - 2 - i);
      assert Pow256(width - 1 - i) == 256 * p;
      DivDiv(n, p);
    } else {
      assert Pow256(0) == 1;
    }
  }

  lemma DivDiv(n: nat, p: nat)
    requires p > 0
    ensures n / 256 / p == n / (256 * p)
  {
    var q, r := n / 256 / p, n / 256 % p;
    assert n / 256 == q * p + r;
    assert n == 256 * (q * p + r) + n % 256;
    assert n == (256 * p) * q + (256 * r + n % 256);
    assert 0 <= 256 * r + n % 256 < 256 * p;
    QuotientUnique(n, 256 * p, q, 256 * r + n % 256);
  }

  lemma QuotientUnique(n: nat, d: nat, q: nat, r: nat)
    requires d > 0 && n == d * q + r && r < d
    ensures n / d == q
  {
    var q', r' := n / d, n % d;
    assert n == d * q' + r';
    if q > q' {
      Scaled(d, q', q - q' - 1);
    } else if q < q' {
      Scaled(d, q, q' - q - 1);
    }
  }

  lemma Scaled(d: nat, a: nat, k: nat)
    ensures d * a + d <= d * (a + 1 + k)
  {
    assert d * (a + 1 + k) == d * a + d + d * k;
  }

  /** A 64-bit word as the 8 bytes `binary.BigEndian.PutUint64` writes. */
  function U64(n: uint64): (s: seq<byte>)
    ensures |s| == 8
  {
    BigEndian(n, 8)
  }

  function FromU64(s: seq<byte>): (n: uint64)
    requires |s| == 8
  {
    EncodeDecode(s);
    Pow256Of8();
    FromBigEndian(s)
  }

  lemma U64RoundTrip(n: uint64)
    ensures FromU64(U64(n)) == n
  {
    Pow256Of8();
    DecodeEncode(n, 8);
  }

  lemma U64Injective(m: uint64, n: uint64)
    requires U64(m) == U64(n)
    ensures m == n
  {
    U64RoundTrip(m);
    U64RoundTrip(n);
  }

  /** Writes a word into the first 8 bytes of a buffer, byte by byte. */
  method PutUint64(buf: array<byte>, at: nat, n: uint64)
    requires at + 8 <= buf.Length
    modifies buf
    ensures buf[..] == old(buf[..at]) + U64(n) + old(buf[at + 8..])
  {
    for i := 0 to 8
      invariant forall k | 0 <= k < i :: buf[at + k] == U64(n)[k]
      invariant forall k | 0 <= k < buf.Length && !(at <= k < at + i) :: buf[k] == old(buf[k])
    {
      BigEndianByte(n, 8, i);
      buf[at + i] := (n / Pow256(7 - i)) % 256;
    }
  }
}
