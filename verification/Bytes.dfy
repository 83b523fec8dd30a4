/** Byte strings and the little-endian integers of SSZ. */
module Bytes {

  type byte = x: int | 0 <= x < 256
  type Bytes = seq<byte>

  const TWO32: nat := 0x1_0000_0000
  const TWO64: nat := 0x1_0000_0000_0000_0000

  type uint32 = x: int | 0 <= x < TWO32
  type uint64 = x: int | 0 <= x < TWO64

  /** The low k bytes of n, least significant first. */
  function Le(n: nat, k: nat): (b: Bytes)
    ensures |b| == k
  {
    if k == 0 then [] else [n % 256] + Le(n / 256, k - 1)
  }

  function FromLe(b: Bytes): (n: nat) {
    if b == [] then 0 else b[0] + 256 * FromLe(b[1..])
  }

  function Pow256(k: nat): (p: nat)
    ensures p > 0
  {
    if k == 0 then 1 else 256 * Pow256(k - 1)
  }

  lemma Pow256Values()
    ensures Pow256(1) == 256 && Pow256(4) == TWO32 && Pow256(8) == TWO64
  {
    assert Pow256(2) == 0x1_0000;
    assert Pow256(4) == 256 * 256 * Pow256(2);
    assert Pow256(8) == 256 * 256 * 256 * 256 * Pow256(4);
  }

  lemma {:induction false} LeRoundTrip(n: nat, k: nat)
    requires n < Pow256(k)
    ensures FromLe(Le(n, k)) == n
  {
    if k > 0 {
      LeRoundTrip(n / 256, k - 1);
      assert Le(n, k)[1..] == Le(n / 256, k - 1);
    }
  }

  lemma LowByte(x: byte, m: nat)
    ensures (x + 256 * m) % 256 == x && (x + 256 * m) / 256 == m
  {
  }

  lemma {:induction false} FromLeRoundTrip(b: Bytes)
    ensures FromLe(b) < Pow256(|b|) && Le(FromLe(b), |b|) == b
  {
    if b != [] {
      var m := FromLe(b[1..]);
      FromLeRoundTrip(b[1..]);
      LowByte(b[0], m);
      assert Le(FromLe(b), |b|) == [b[0]] + Le(m, |b| - 1);
      assert b == [b[0]] + b[1..];
    }
  }

  lemma Le64(n: uint64)
    ensures FromLe(Le(n, 8)) == n
  {
    Pow256Values();
    LeRoundTrip(n, 8);
  }

  lemma Le32(n: uint32)
    ensures FromLe(Le(n, 4)) == n
  {
    Pow256Values();
    LeRoundTrip(n, 4);
  }

  lemma Shift(x: nat, m: nat, p: nat, n: nat)
    ensures x + 256 * (m + p * n) == (x + 256 * m) + (256 * p) * n
  {
  }

  lemma {:induction false} FromLeSplit(a: Bytes, b: Bytes)
    ensures FromLe(a + b) == FromLe(a) + Pow256(|a|) * FromLe(b)
  {
    if a == [] {
      assert a + b == b;
    } else {
      FromLeSplit(a[1..], b);
      assert (a + b)[1..] == a[1..] + b;
      Shift(a[0], FromLe(a[1..]), Pow256(|a| - 1), FromLe(b));
    }
  }

  /** The two 32-bit halves of an encoded 64-bit word. */
  lemma Le64Halves(n: uint64)
    ensures FromLe(Le(n, 8)[..4]) == n % TWO32
    ensures FromLe(Le(n, 8)[4..]) == n / TWO32
  {
    var b := Le(n, 8);
    assert b == b[..4] + b[4..];
    FromLeSplit(b[..4], b[4..]);
    Le64(n);
    FromLeRoundTrip(b[..4]);
    Pow256Values();
  }

  lemma Slice(pre: Bytes, mid: Bytes, post: Bytes)
    ensures (pre + mid + post)[|pre|..|pre| + |mid|] == mid
    ensures (pre + mid + post)[|pre| + |mid|..] == post
  {
  }

  /** 64-bit words laid out one after the other. */
  function EncodeWords(words: seq<uint64>): (b: Bytes)
    ensures |b| == 8 * |words|
  {
    if words == [] then [] else Le(words[0], 8) + EncodeWords(words[1..])
  }

  lemma {:induction false} EncodeWordsInjective(a: seq<uint64>, b: seq<uint64>)
    requires |a| == |b| && EncodeWords(a) == EncodeWords(b)
    ensures a == b
  {
    if a != [] {
      assert EncodeWords(a)[..8] == Le(a[0], 8) && EncodeWords(a)[8..] == EncodeWords(a[1..]);
      assert EncodeWords(b)[..8] == Le(b[0], 8) && EncodeWords(b)[8..] == EncodeWords(b[1..]);
      Le64(a[0]);
      Le64(b[0]);
      EncodeWordsInjective(a[1..], b[1..]);
      assert a == [a[0]] + a[1..] && b == [b[0]] + b[1..];
    }
  }

  function Zeros(n: nat): (b: Bytes)
    ensures |b| == n
  {
    seq(n, _ => 0)
  }

  // ----- signed machine integers -----

  type int64 = x: int | -0x8000_0000_0000_0000 <= x < 0x8000_0000_0000_0000

  /** Go's uint64(x) of an int. */
  function ToWord(x: int64): (w: uint64) {
    x % TWO64
  }

  /** Go's int(w) of a uint64. */
  function ToInt(w: uint64): (x: int64) {
    if w < 0x8000_0000_0000_0000 then w else w - TWO64
  }

  lemma IntRoundTrip(x: int64, w: uint64)
    ensures ToInt(ToWord(x)) == x && ToWord(ToInt(w)) == w
  {
  }
}
