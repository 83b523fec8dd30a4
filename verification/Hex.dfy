/** The 0x-prefixed hex strings of cluster/helpers.go. */
module Hex {
  import opened Prelude
  import opened Bytes

  type Nibble = x: int | 0 <= x < 16

  function HexDigit(n: Nibble): (c: byte) {
    if n < 10 then 0x30 + n else 0x61 + n - 10
  }

  /** hex.DecodeString accepts both cases. */
  function HexValue(c: byte): (n: Option<Nibble>) {
    if 0x30 <= c <= 0x39 then Some(c - 0x30)
    else if 0x61 <= c <= 0x66 then Some(c - 0x61 + 10)
    else if 0x41 <= c <= 0x46 then Some(c - 0x41 + 10)
    else None
  }

  function Encode(b: Bytes): (s: Bytes)
    ensures |s| == 2 * |b|
  {
    if b == [] then [] else [HexDigit(b[0] / 16), HexDigit(b[0] % 16)] + Encode(b[1..])
  }

  function Decode(s: Bytes): (b: Option<Bytes>) {
    if s == [] then Some([])
    else if |s| == 1 then None
    else
      var high :- HexValue(s[0]);
      var low :- HexValue(s[1]);
      var rest :- Decode(s[2..]);
      Some([16 * high + low] + rest)
  }

  const PREFIX: Bytes := [0x30, 0x78]

  /** strings.TrimPrefix(s, "0x"). */
  function TrimPrefix(s: Bytes): (t: Bytes) {
    if PREFIX <= s then s[2..] else s
  }

  function To0xHex(b: Bytes): (s: Bytes) {
    if b == [] then [] else PREFIX + Encode(b)
  }

  function From0xHex(s: Bytes, length: nat): (b: Option<Bytes>)
    ensures b.Some? ==> |b.value| == length || b.value == []
  {
    if s == [] then Some([]) else
      var b :- Decode(TrimPrefix(s));
      if |b| != length then None else Some(b)
  }

  lemma {:induction false} DecodeEncode(b: Bytes)
    ensures Decode(Encode(b)) == Some(b)
  {
    if b != [] {
      var s := Encode(b);
      assert HexValue(s[0]) == Some(b[0] / 16) && HexValue(s[1]) == Some(b[0] % 16);
      assert s[2..] == Encode(b[1..]);
      DecodeEncode(b[1..]);
      assert b == [b[0]] + b[1..];
    }
  }

  /** Reading back a hex string succeeds exactly for bytes of the expected length and for none at all. */
  lemma HexRoundTrip(b: Bytes, length: nat)
    ensures From0xHex(To0xHex(b), length) == if b == [] || |b| == length then Some(b) else None
  {
    if b != [] {
      DecodeEncode(b);
      assert PREFIX <= To0xHex(b) && To0xHex(b)[2..] == Encode(b);
    }
  }
}
