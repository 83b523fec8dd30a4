/** The consensus containers that the versioned codecs of core/ssz.go wrap, with the SSZ layout of the phase 0
    and Electra beacon chain specifications and the checks of the generated decoders. */
module Containers {
  import opened Prelude
  import opened Bytes

  datatype SszError =
    | ErrSize | ErrOffset | ErrInvalidVariableOffset | ErrBitlist | ErrVersion | ErrJson | ErrEmptySet
    | SliceOutOfRange // a Go slice expression that panics

  type Bytes8 = b: Bytes | |b| == 8 witness Le(0, 8)
  type Bytes32 = b: Bytes | |b| == 32 witness Le(0, 32)
  type Bytes48 = b: Bytes | |b| == 48 witness Le(0, 48)
  type Bytes96 = b: Bytes | |b| == 96 witness Le(0, 96)

  function U64(buf: Bytes, i: nat): (n: uint64)
    requires i + 8 <= |buf|
  {
    FromLeRoundTrip(buf[i..i + 8]);
    Pow256Values();
    FromLe(buf[i..i + 8])
  }

  function U32(buf: Bytes, i: nat): (n: uint32)
    requires i + 4 <= |buf|
  {
    FromLeRoundTrip(buf[i..i + 4]);
    Pow256Values();
    FromLe(buf[i..i + 4])
  }

  lemma U64At(pre: Bytes, n: uint64, post: Bytes)
    ensures U64(pre + Le(n, 8) + post, |pre|) == n
  {
    Slice(pre, Le(n, 8), post);
    Le64(n);
  }

  // ----- AttestationData: 128 bytes -----

  datatype Checkpoint = Checkpoint(epoch: uint64, root: Bytes32)

  datatype AttData = AttData(slot: uint64, index: uint64, root: Bytes32, source: Checkpoint, target: Checkpoint)

  function EncodeCheckpoint(c: Checkpoint): (b: Bytes)
    ensures |b| == 40
  {
    Le(c.epoch, 8) + c.root
  }

  function DecodeCheckpoint(b: Bytes): (c: Checkpoint)
    requires |b| == 40
  {
    Checkpoint(U64(b, 0), b[8..])
  }

  lemma CheckpointRoundTrip(c: Checkpoint)
    ensures DecodeCheckpoint(EncodeCheckpoint(c)) == c
  {
    U64At([], c.epoch, c.root);
    assert [] + Le(c.epoch, 8) + c.root == EncodeCheckpoint(c);
  }

  function EncodeAttData(d: AttData): (b: Bytes)
    ensures |b| == 128
  {
    Le(d.slot, 8) + Le(d.index, 8) + d.root + EncodeCheckpoint(d.source) + EncodeCheckpoint(d.target)
  }

  function DecodeAttData(b: Bytes): (r: Result<AttData, SszError>) {
    if |b| != 128 then Err(ErrSize) else
      Ok(AttData(U64(b, 0), U64(b, 8), b[16..48], DecodeCheckpoint(b[48..88]), DecodeCheckpoint(b[88..])))
  }

  lemma AttDataRoundTrip(d: AttData)
    ensures DecodeAttData(EncodeAttData(d)) == Ok(d)
  {
    var b := EncodeAttData(d);
    var s, t := EncodeCheckpoint(d.source), EncodeCheckpoint(d.target);
    CheckpointRoundTrip(d.source);
    CheckpointRoundTrip(d.target);
    assert b[0..8] == Le(d.slot, 8);
    assert b[8..16] == Le(d.index, 8);
    Le64(d.slot);
    Le64(d.index);
    assert b[16..48] == d.root;
    assert b[48..88] == s;
    assert b[88..] == t;
  }

  // ----- Attestation: a variable-size bit list after a fixed part -----

  /** A phase 0 attestation has no committee bits, an Electra one has eight bytes of them. */
  datatype Attestation = Attestation(bits: Bytes, data: AttData, signature: Bytes96, committeeBits: Option<Bytes8>)

  /** Size of the fixed part, which is also the only offset a decoder accepts. */
  function FixedSize(electra: bool): (n: nat)
    ensures n == 228 || n == 236
  {
    if electra then 236 else 228
  }

  function BitLimit(electra: bool): nat {
    if electra then 131072 else 2048
  }

  /** Position of the highest set bit plus one. */
  function BitLen(x: byte): nat {
    if x == 0 then 0 else 1 + BitLen(x / 2)
  }

  /** A bit list: non-empty, closed by a set length bit, and at most limit bits long. */
  predicate ValidBitlist(b: Bytes, limit: nat) {
    && 0 < |b| <= limit / 8 + 1
    && b[|b| - 1] != 0
    && 8 * (|b| - 1) + BitLen(b[|b| - 1]) - 1 <= limit
  }

  // ----- bit lists by their bits -----

  function TwoTo(k: nat): (p: nat)
    ensures p > 0
  {
    if k == 0 then 1 else 2 * TwoTo(k - 1)
  }

  /** The bits of a number, the lowest first. */
  function ByteOf(bits: seq<bool>): (x: nat)
    ensures x < TwoTo(|bits|)
  {
    if bits == [] then 0 else (if bits[0] then 1 else 0) + 2 * ByteOf(bits[1..])
  }

  lemma TwoTo8()
    ensures TwoTo(8) == 256
  {
    assert TwoTo(4) == 16;
    assert TwoTo(8) == 16 * TwoTo(4);
  }

  lemma {:induction false} TwoToGrows(j: nat, k: nat)
    requires j <= k
    ensures TwoTo(j) <= TwoTo(k)
  {
    if j < k {
      TwoToGrows(j, k - 1);
    }
  }

  /** Eight bits to the byte. */
  function PackBits(bits: seq<bool>): (b: Bytes) {
    TwoTo8();
    TwoToGrows(if |bits| <= 8 then |bits| else 8, 8);
    if |bits| <= 8 then [ByteOf(bits)] else [ByteOf(bits[..8])] + PackBits(bits[8..])
  }

  /** The SSZ form of a list of bits, which a set bit closes. */
  function BitList(bits: seq<bool>): (b: Bytes) {
    PackBits(bits + [true])
  }

  lemma {:induction false} ClosedByte(bits: seq<bool>)
    requires |bits| < 8
    ensures 0 < ByteOf(bits + [true]) < 256 && BitLen(ByteOf(bits + [true])) == |bits| + 1
  {
    var c := bits + [true];
    TwoTo8();
    TwoToGrows(|c|, 8);
    if bits == [] {
      assert c[1..] == [];
      assert ByteOf([]) == 0 && ByteOf(c) == 1;
      assert BitLen(1) == 1 + BitLen(0);
    } else {
      ClosedByte(bits[1..]);
      assert c[1..] == bits[1..] + [true];
      var m := ByteOf(c[1..]);
      assert ByteOf(c) / 2 == m;
    }
  }

  lemma {:induction false} BitListShape(bits: seq<bool>)
    ensures var b := BitList(bits);
      |b| == |bits| / 8 + 1 && b[|b| - 1] != 0 && BitLen(b[|b| - 1]) == |bits| % 8 + 1
    decreases |bits|
  {
    if |bits| < 8 {
      ClosedByte(bits);
    } else {
      BitListShape(bits[8..]);
      assert (bits + [true])[8..] == bits[8..] + [true];
    }
  }

  lemma {:induction false} ByteOfInjective(x: seq<bool>, y: seq<bool>)
    requires |x| == |y| && ByteOf(x) == ByteOf(y)
    ensures x == y
  {
    if x != [] {
      ByteOfInjective(x[1..], y[1..]);
      assert x == [x[0]] + x[1..] && y == [y[0]] + y[1..];
    }
  }

  lemma {:induction false} PackBitsInjective(x: seq<bool>, y: seq<bool>)
    requires |x| == |y| && PackBits(x) == PackBits(y)
    ensures x == y
    decreases |x|
  {
    if |x| <= 8 {
      assert PackBits(x)[0] == PackBits(y)[0];
      ByteOfInjective(x, y);
    } else {
      assert PackBits(x)[0] == PackBits(y)[0] && PackBits(x)[1..] == PackBits(y)[1..];
      ByteOfInjective(x[..8], y[..8]);
      PackBitsInjective(x[8..], y[8..]);
      assert x == x[..8] + x[8..] && y == y[..8] + y[8..];
    }
  }

  /** The closing bit keeps apart lists of different lengths. */
  lemma BitListInjective(x: seq<bool>, y: seq<bool>)
    requires BitList(x) == BitList(y)
    ensures x == y
  {
    BitListShape(x);
    BitListShape(y);
    assert |x| == 8 * (|x| / 8) + |x| % 8 == 8 * (|y| / 8) + |y| % 8 == |y|;
    PackBitsInjective(x + [true], y + [true]);
    assert x == (x + [true])[..|x|] && y == (y + [true])[..|y|];
  }

  /** The decoder's check accepts the form of a list of bits exactly if the list is within the limit. */
  lemma BitListAccepted(bits: seq<bool>, limit: nat)
    ensures ValidBitlist(BitList(bits), limit) <==> |bits| <= limit
  {
    BitListShape(bits);
  }

  /** The bits of a byte, the lowest first. */
  function BitsOf(x: nat, k: nat): (bits: seq<bool>)
    ensures |bits| == k
  {
    if k == 0 then [] else [x % 2 == 1] + BitsOf(x / 2, k - 1)
  }

  lemma {:induction false} ByteOfBits(x: nat, k: nat)
    requires x < TwoTo(k)
    ensures ByteOf(BitsOf(x, k)) == x
  {
    if k > 0 {
      ByteOfBits(x / 2, k - 1);
      assert BitsOf(x, k)[1..] == BitsOf(x / 2, k - 1);
    }
  }

  lemma {:induction false} TopBit(x: byte)
    requires x != 0
    ensures 1 <= BitLen(x) && ByteOf(BitsOf(x, BitLen(x) - 1) + [true]) == x
    decreases x
  {
    var k := BitLen(x) - 1;
    if x == 1 {
      assert BitLen(0) == 0;
      assert BitsOf(x, 0) + [true] == [true] && [true][1..] == [];
      assert ByteOf([true]) == 1 + 2 * ByteOf([]);
    } else {
      TopBit(x / 2);
      var c := BitsOf(x, k) + [true];
      assert c[1..] == BitsOf(x / 2, k - 1) + [true];
      assert c[0] == (x % 2 == 1);
    }
  }

  lemma {:induction false} BitLenUpTo8(x: byte)
    ensures BitLen(x) <= 8
  {
    BitLenBelow(x, 8);
  }

  lemma {:induction false} BitLenBelow(x: byte, k: nat)
    requires x < TwoTo(k) || k == 8
    ensures BitLen(x) <= k
    decreases k
  {
    TwoTo8();
    if x != 0 {
      assert k > 0;
      BitLenBelow(x / 2, k - 1);
    }
  }

  /** Every byte string that the decoder's check accepts is the form of some list of bits. */
  lemma {:induction false} BitListOf(b: Bytes) returns (bits: seq<bool>)
    requires b != [] && b[|b| - 1] != 0
    ensures BitList(bits) == b
  {
    if |b| == 1 {
      var x := b[0];
      TopBit(x);
      BitLenUpTo8(x);
      bits := BitsOf(x, BitLen(x) - 1);
    } else {
      var rest := BitListOf(b[1..]);
      TwoTo8();
      ByteOfBits(b[0], 8);
      bits := BitsOf(b[0], 8) + rest;
      var c := bits + [true];
      assert c[..8] == BitsOf(b[0], 8) && c[8..] == rest + [true];
    }
  }

  /** Up to 2048 aggregation bits, one committee's, and in Electra up to 131072, those of a slot's 64 committees. */
  ghost predicate ValidAttestation(a: Attestation, electra: bool) {
    && a.committeeBits.Some? == electra
    && exists bits: seq<bool> :: |bits| <= (if electra then 131072 else 2048) && a.bits == BitList(bits)
  }

  lemma ValidBits(a: Attestation, electra: bool)
    ensures ValidAttestation(a, electra)
            <==> a.committeeBits.Some? == electra && ValidBitlist(a.bits, BitLimit(electra))
  {
    if ValidAttestation(a, electra) {
      var bits: seq<bool> :| |bits| <= (if electra then 131072 else 2048) && a.bits == BitList(bits);
      BitListAccepted(bits, BitLimit(electra));
    }
    if ValidBitlist(a.bits, BitLimit(electra)) {
      var bits := BitListOf(a.bits);
      BitListAccepted(bits, BitLimit(electra));
    }
  }

  function Committee(a: Attestation): (b: Bytes)
    ensures |b| == if a.committeeBits.Some? then 8 else 0
  {
    if a.committeeBits.Some? then a.committeeBits.value else []
  }

  function EncodeAttestation(a: Attestation): (b: Bytes)
    ensures |b| == FixedSize(a.committeeBits.Some?) + |a.bits|
  {
    Le(FixedSize(a.committeeBits.Some?), 4) + EncodeAttData(a.data) + a.signature + Committee(a) + a.bits
  }

  function DecodeAttestation(electra: bool, b: Bytes): (r: Result<Attestation, SszError>) {
    var fixed := FixedSize(electra);
    if |b| < fixed then Err(ErrSize) else
      var o := U32(b, 0);
      if o > |b| then Err(ErrOffset)
      else if o != fixed then Err(ErrInvalidVariableOffset)
      else
        var data := DecodeAttData(b[4..132]);
        if data.Err? then Err(data.error)
        else if !ValidBitlist(b[fixed..], BitLimit(electra)) then Err(ErrBitlist)
        else Ok(Attestation(b[fixed..], data.value, b[132..228], if electra then Some(b[228..236]) else None))
  }

  lemma AttestationRoundTrip(a: Attestation, electra: bool)
    requires ValidAttestation(a, electra)
    ensures DecodeAttestation(electra, EncodeAttestation(a)) == Ok(a)
  {
    ValidBits(a, electra);
    ReadBack(a, electra);
  }

  /** Every list of at most 2048 aggregation bits, or 131072 in Electra, is read back; every longer one is refused. */
  lemma AttestationBits(bits: seq<bool>, data: AttData, signature: Bytes96, committee: Option<Bytes8>)
    ensures var a, electra := Attestation(BitList(bits), data, signature, committee), committee.Some?;
      DecodeAttestation(electra, EncodeAttestation(a))
      == if |bits| <= (if electra then 131072 else 2048) then Ok(a) else Err(ErrBitlist)
  {
    var a, electra := Attestation(BitList(bits), data, signature, committee), committee.Some?;
    BitListAccepted(bits, BitLimit(electra));
    ReadBack(a, electra);
  }

  /** Where the consensus specification puts each field of an encoded attestation. */
  lemma AttestationLayout(a: Attestation)
    ensures var b, d := EncodeAttestation(a), a.data;
            && |b| == (if a.committeeBits.Some? then 236 else 228) + |a.bits|
            && U64(b, 4) == d.slot && U64(b, 12) == d.index && b[20..52] == d.root
            && U64(b, 52) == d.source.epoch && b[60..92] == d.source.root
            && U64(b, 92) == d.target.epoch && b[100..132] == d.target.root
            && b[132..228] == a.signature
            && b[|b| - |a.bits|..] == a.bits
            && (a.committeeBits.Some? ==> b[228..236] == a.committeeBits.value)
  {
    var b, d := EncodeAttestation(a), a.data;
    Le64(d.slot);
    Le64(d.index);
    Le64(d.source.epoch);
    Le64(d.target.epoch);
    hide Le, FromLe;
    assert b[4..132] == EncodeAttData(d);
    assert b[4..12] == Le(d.slot, 8) && b[12..20] == Le(d.index, 8);
    assert b[52..92] == EncodeCheckpoint(d.source) && b[92..132] == EncodeCheckpoint(d.target);
    assert b[52..60] == Le(d.source.epoch, 8) && b[92..100] == Le(d.target.epoch, 8);
  }

  /** Only the bit list can be at fault. */
  lemma ReadBack(a: Attestation, electra: bool)
    requires a.committeeBits.Some? == electra
    ensures DecodeAttestation(electra, EncodeAttestation(a))
            == if ValidBitlist(a.bits, BitLimit(electra)) then Ok(a) else Err(ErrBitlist)
  {
    var b, fixed := EncodeAttestation(a), FixedSize(electra);
    AttDataRoundTrip(a.data);
    Le32(fixed);
    hide ValidBitlist, DecodeAttData, EncodeAttData, Le, FromLe;
    assert b[0..4] == Le(fixed, 4);
    assert b[4..132] == EncodeAttData(a.data);
    assert b[132..228] == a.signature;
    assert b[228..fixed] == Committee(a);
    assert b[fixed..] == a.bits;
  }

  // ----- SignedAggregateAndProof: offset (4), signature (96), then the message -----

  datatype AggregateAndProof = AggregateAndProof(aggregator: uint64, aggregate: Attestation, selectionProof: Bytes96)

  datatype SignedAggregateAndProof = SignedAggregateAndProof(message: AggregateAndProof, signature: Bytes96)

  const SIGNED_AGGREGATE_FIXED: nat := 100
  const AGGREGATE_FIXED: nat := 108

  function EncodeAggregateAndProof(m: AggregateAndProof): (b: Bytes) {
    Le(m.aggregator, 8) + Le(AGGREGATE_FIXED, 4) + m.selectionProof + EncodeAttestation(m.aggregate)
  }

  function DecodeAggregateAndProof(electra: bool, b: Bytes): (r: Result<AggregateAndProof, SszError>) {
    if |b| < AGGREGATE_FIXED then Err(ErrSize) else
      var o := U32(b, 8);
      if o > |b| then Err(ErrOffset)
      else if o != AGGREGATE_FIXED then Err(ErrInvalidVariableOffset)
      else
        var att := DecodeAttestation(electra, b[AGGREGATE_FIXED..]);
        if att.Err? then Err(att.error) else Ok(AggregateAndProof(U64(b, 0), att.value, b[12..108]))
  }

  function EncodeSignedAggregate(s: SignedAggregateAndProof): (b: Bytes) {
    Le(SIGNED_AGGREGATE_FIXED, 4) + s.signature + EncodeAggregateAndProof(s.message)
  }

  function DecodeSignedAggregate(electra: bool, b: Bytes): (r: Result<SignedAggregateAndProof, SszError>) {
    if |b| < SIGNED_AGGREGATE_FIXED then Err(ErrSize) else
      var o := U32(b, 0);
      if o > |b| then Err(ErrOffset)
      else if o != SIGNED_AGGREGATE_FIXED then Err(ErrInvalidVariableOffset)
      else
        var message := DecodeAggregateAndProof(electra, b[SIGNED_AGGREGATE_FIXED..]);
        if message.Err? then Err(message.error) else Ok(SignedAggregateAndProof(message.value, b[4..100]))
  }

  lemma Slices(a: Bytes, b: Bytes, c: Bytes, d: Bytes)
    ensures var x, i, j, k := a + b + c + d, |a|, |a| + |b|, |a| + |b| + |c|;
      |x| == k + |d| && x[0..i] == a && x[i..j] == b && x[j..k] == c && x[k..] == d
  {
  }

  lemma AggregateRoundTrip(m: AggregateAndProof, electra: bool)
    requires ValidAttestation(m.aggregate, electra)
    ensures DecodeAggregateAndProof(electra, EncodeAggregateAndProof(m)) == Ok(m)
  {
    var inner := EncodeAggregateAndProof(m);
    AttestationRoundTrip(m.aggregate, electra);
    Le32(AGGREGATE_FIXED);
    Le64(m.aggregator);
    hide ValidAttestation, DecodeAttestation, EncodeAttestation, Le, FromLe;
    Slices(Le(m.aggregator, 8), Le(AGGREGATE_FIXED, 4), m.selectionProof, EncodeAttestation(m.aggregate));
  }

  lemma SignedAggregateRoundTrip(s: SignedAggregateAndProof, electra: bool)
    requires ValidAttestation(s.message.aggregate, electra)
    ensures DecodeSignedAggregate(electra, EncodeSignedAggregate(s)) == Ok(s)
  {
    var b := EncodeSignedAggregate(s);
    AggregateRoundTrip(s.message, electra);
    Le32(SIGNED_AGGREGATE_FIXED);
    hide ValidAttestation, DecodeAggregateAndProof, EncodeAggregateAndProof, Le, FromLe;
    assert b[0..4] == Le(SIGNED_AGGREGATE_FIXED, 4) && b[4..100] == s.signature;
    assert b[100..] == EncodeAggregateAndProof(s.message);
  }
}
