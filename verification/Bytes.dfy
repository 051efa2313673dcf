/** Bytes, little-endian words and two's complement. */
module Bytes {
  import opened Types

  type Bytes = seq<U8>

  function Pow256(k: nat): nat {
    if k == 0 then 1 else 256 * Pow256(k - 1)
  }

  /** The low `k` bytes of `n`, least significant first. */
  function LE(n: nat, k: nat): (r: Bytes)
    ensures |r| == k
    decreases k
  {
    if k == 0 then [] else [n % 256] + LE(n / 256, k - 1)
  }

  function FromLE(bs: Bytes): nat {
    if bs == [] then 0 else bs[0] + 256 * FromLE(bs[1..])
  }

  lemma {:induction false} FromLEBound(bs: Bytes)
    ensures FromLE(bs) < Pow256(|bs|)
    decreases |bs|
  {
    if bs != [] {
      FromLEBound(bs[1..]);
    }
  }

  /** Writing then reading a word that fits gives the word back. */
  lemma {:induction false} LERoundTrip(n: nat, k: nat)
    requires n < Pow256(k)
    ensures FromLE(LE(n, k)) == n
    decreases k
  {
    if k > 0 {
      assert n / 256 < Pow256(k - 1);
      LERoundTrip(n / 256, k - 1);
      assert LE(n, k)[1..] == LE(n / 256, k - 1);
    }
  }

  /** Reading then writing a word gives the bytes back. */
  lemma {:induction false} FromLERoundTrip(bs: Bytes)
    ensures LE(FromLE(bs), |bs|) == bs
    decreases |bs|
  {
    if bs != [] {
      FromLERoundTrip(bs[1..]);
      SplitByte(bs[0], FromLE(bs[1..]));
      assert bs == [bs[0]] + bs[1..];
    }
  }

  lemma SplitByte(low: U8, high: nat)
    ensures (low + 256 * high) % 256 == low && (low + 256 * high) / 256 == high
  {
  }

  lemma Words()
    ensures Pow256(4) == TWO32 && Pow256(8) == TWO64
  {
    assert Pow256(1) == 0x100;
    assert Pow256(2) == 0x1_0000;
    assert Pow256(3) == 0x100_0000;
    assert Pow256(4) == 0x1_0000_0000;
    assert Pow256(5) == 0x100_0000_0000;
    assert Pow256(6) == 0x1_0000_0000_0000;
    assert Pow256(7) == 0x100_0000_0000_0000;
  }

  // ---------------------------------------------------------------- machine words

  function U32Bytes(x: U32): (r: Bytes)
    ensures |r| == 4
  {
    LE(x, 4)
  }

  function U64Bytes(x: U64): (r: Bytes)
    ensures |r| == 8
  {
    LE(x, 8)
  }

  function ToUnsigned(x: I64): U64 {
    if x < 0 then x + TWO64 else x
  }

  function ToSigned(x: U64): I64 {
    if x >= TWO63 then x - TWO64 else x
  }

  function I64Bytes(x: I64): (r: Bytes)
    ensures |r| == 8
  {
    U64Bytes(ToUnsigned(x))
  }

  function BytesU32(bs: Bytes): (r: U32)
    requires |bs| == 4
    ensures U32Bytes(r) == bs
  {
    FromLEBound(bs);
    FromLERoundTrip(bs);
    Words();
    FromLE(bs)
  }

  function BytesU64(bs: Bytes): (r: U64)
    requires |bs| == 8
    ensures U64Bytes(r) == bs
  {
    FromLEBound(bs);
    FromLERoundTrip(bs);
    Words();
    FromLE(bs)
  }

  function BytesI64(bs: Bytes): (r: I64)
    requires |bs| == 8
    ensures I64Bytes(r) == bs
  {
    ToSigned(BytesU64(bs))
  }

  lemma U32RoundTrip(x: U32)
    ensures BytesU32(U32Bytes(x)) == x
  {
    Words();
    LERoundTrip(x, 4);
  }

  lemma U64RoundTrip(x: U64)
    ensures BytesU64(U64Bytes(x)) == x
  {
    Words();
    LERoundTrip(x, 8);
  }

  lemma I64RoundTrip(x: I64)
    ensures BytesI64(I64Bytes(x)) == x
  {
    U64RoundTrip(ToUnsigned(x));
  }

  lemma SliceOfSlice<T>(s: seq<T>, a: nat, b: nat, c: nat, d: nat)
    requires a <= b <= |s| && c <= d <= b - a
    ensures s[a..b][c..d] == s[a + c..a + d]
  {
    var l := s[a..b][c..d];
    var r := s[a + c..a + d];
    assert |l| == |r|;
    forall i | 0 <= i < |l|
      ensures l[i] == r[i]
    {
    }
  }

  function Zeros(n: nat): (r: Bytes)
    ensures |r| == n && forall i :: 0 <= i < n ==> r[i] == 0
  {
    seq(n, i => 0)
  }

  lemma {:induction false} ZeroWord(bs: Bytes)
    requires forall i :: 0 <= i < |bs| ==> bs[i] == 0
    ensures FromLE(bs) == 0
    decreases |bs|
  {
    if bs != [] {
      ZeroWord(bs[1..]);
    }
  }

  /** Little-endian words, byte by byte. */
  lemma FourBytes(bs: Bytes)
    requires |bs| == 4
    ensures FromLE(bs) ==
            bs[0] as int + 0x100 * (bs[1] as int) + 0x1_0000 * (bs[2] as int) + 0x100_0000 * (bs[3] as int)
  {
    assert FromLE(bs) == bs[0] + 0x100 * FromLE(bs[1..]);
    assert FromLE(bs[1..]) == bs[1] + 0x100 * FromLE(bs[2..]);
    assert FromLE(bs[2..]) == bs[2] + 0x100 * FromLE(bs[3..]);
    assert FromLE(bs[3..]) == bs[3];
  }

  lemma EightBytes(bs: Bytes)
    requires |bs| == 8
    ensures FromLE(bs) == FromLE(bs[..4]) + 0x1_0000_0000 * FromLE(bs[4..])
  {
    assert FromLE(bs) == bs[0] + 0x100 * FromLE(bs[1..]);
    assert FromLE(bs[1..]) == bs[1] + 0x100 * FromLE(bs[2..]);
    assert FromLE(bs[2..]) == bs[2] + 0x100 * FromLE(bs[3..]);
    assert FromLE(bs[3..]) == bs[3] + 0x100 * FromLE(bs[4..]);
    FourBytes(bs[..4]);
  }

  lemma LongWordOf(x: U64)
    ensures FromLE(U64Bytes(x)) == x
  {
    Words();
    LERoundTrip(x, 8);
  }

  lemma ShortWordOf(x: U32)
    ensures FromLE(U32Bytes(x)) == x
  {
    Words();
    LERoundTrip(x, 4);
  }
}
