/** SSZ merkleization over a symbolic pair hash, and the chunk buffer of the hasher that cluster/ssz.go drives. */
module Merkle {
  import opened Prelude
  import opened Bytes

  type Bytes32 = b: Bytes | |b| == 32 witness Zeros(32)

  /** A 32-byte chunk: literal bytes, or the hash of two chunks. As a constructor the pair hash is free of
      collisions; no such function exists on actual 32-byte strings, so the assumption is made symbolically. */
  datatype Chunk = Leaf(b: Bytes32) | Node(left: Chunk, right: Chunk)

  const ZERO_CHUNK := Leaf(Zeros(32))

  // ----- merkleization -----

  function Pow2(n: nat): (p: nat)
    ensures p > 0
  {
    if n == 0 then 1 else 2 * Pow2(n - 1)
  }

  /** Depth of the smallest complete binary tree with at least limit leaves. */
  function Depth(limit: nat): (d: nat)
    ensures limit <= Pow2(d)
  {
    if limit <= 1 then 0 else 1 + Depth((limit + 1) / 2)
  }

  /** Root of the complete tree of the given depth over xs, padded on the right with zero chunks. */
  function Tree(xs: seq<Chunk>, depth: nat): (root: Chunk)
    requires |xs| <= Pow2(depth)
    decreases depth
  {
    if depth == 0 then (if xs == [] then ZERO_CHUNK else xs[0])
    else
      var half := if |xs| <= Pow2(depth - 1) then |xs| else Pow2(depth - 1);
      Node(Tree(xs[..half], depth - 1), Tree(xs[half..], depth - 1))
  }

  /** Root of xs in a tree for limit chunks; a zero limit stands for the number of chunks. */
  function Root(xs: seq<Chunk>, limit: nat): (root: Chunk)
    requires limit == 0 || |xs| <= limit
  {
    Tree(xs, Depth(if limit == 0 then |xs| else limit))
  }

  /** Leaf i of the padded tree. */
  function At(xs: seq<Chunk>, i: nat): (c: Chunk) {
    if i < |xs| then xs[i] else ZERO_CHUNK
  }

  lemma AtHalf(xs: seq<Chunk>, p: nat, i: nat)
    ensures var h := if |xs| <= p then |xs| else p;
      if i < p then At(xs[..h], i) == At(xs, i) else At(xs[h..], i - p) == At(xs, i)
  {
  }

  /** The chunk that the bits of i lead to from a root, the highest bit first: zero to the left, one to the right. */
  function Follow(root: Chunk, depth: nat, i: nat): (c: Option<Chunk>) {
    if depth == 0 then Some(root)
    else if root.Leaf? then None
    else if i < Pow2(depth - 1) then Follow(root.left, depth - 1, i)
    else Follow(root.right, depth - 1, i - Pow2(depth - 1))
  }

  /** The path of i ends at leaf i. */
  lemma {:induction false} TreePath(xs: seq<Chunk>, depth: nat, i: nat)
    requires |xs| <= Pow2(depth) && i < Pow2(depth)
    ensures Follow(Tree(xs, depth), depth, i) == Some(At(xs, i))
    decreases depth
  {
    if depth > 0 {
      var p := Pow2(depth - 1);
      var h := if |xs| <= p then |xs| else p;
      AtHalf(xs, p, i);
      hide At;
      if i < p {
        TreePath(xs[..h], depth - 1, i);
      } else {
        TreePath(xs[h..], depth - 1, i - p);
      }
    }
  }

  lemma RootOfOne(c: Chunk)
    ensures Root([c], 0) == c
  {
  }

  lemma PairRoot(a: Chunk, b: Chunk)
    ensures Root([a, b], 0) == Node(a, b)
  {
    assert Depth(2) == 1 && Depth(1) == 0;
    assert [a, b][..1] == [a] && [a, b][1..] == [b];
  }

  /** Equal roots of the same depth mean equal leaves, whatever the two numbers of chunks. */
  lemma TreeInjective(xs: seq<Chunk>, ys: seq<Chunk>, depth: nat, i: nat)
    requires |xs| <= Pow2(depth) && |ys| <= Pow2(depth) && Tree(xs, depth) == Tree(ys, depth) && i < Pow2(depth)
    ensures At(xs, i) == At(ys, i)
  {
    hide Tree, At;
    TreePath(xs, depth, i);
    TreePath(ys, depth, i);
  }

  /** With as many chunks on both sides, equal roots mean equal chunks. */
  lemma RootInjective(xs: seq<Chunk>, ys: seq<Chunk>, limit: nat)
    requires |xs| == |ys| && (limit == 0 || |xs| <= limit) && Root(xs, limit) == Root(ys, limit)
    ensures xs == ys
  {
    forall i | 0 <= i < |xs| ensures xs[i] == ys[i] {
      TreeInjective(xs, ys, Depth(if limit == 0 then |xs| else limit), i);
    }
  }

  /** Number of hashes in a chunk. */
  function Size(c: Chunk): nat {
    if c.Leaf? then 0 else 1 + Size(c.left) + Size(c.right)
  }

  lemma {:induction false} FirstIsSmaller(xs: seq<Chunk>, depth: nat)
    requires 0 < |xs| <= Pow2(depth)
    ensures Size(xs[0]) <= Size(Tree(xs, depth))
    ensures depth > 0 ==> Size(xs[0]) < Size(Tree(xs, depth))
    decreases depth
  {
    if depth > 0 {
      var half := if |xs| <= Pow2(depth - 1) then |xs| else Pow2(depth - 1);
      FirstIsSmaller(xs[..half], depth - 1);
    }
  }

  /** Trees of different depths with the same first chunk have different roots. */
  lemma {:induction false} DepthsDiffer(xs: seq<Chunk>, ys: seq<Chunk>, d: nat, e: nat)
    requires 0 < |xs| <= Pow2(d) && 0 < |ys| <= Pow2(e) && e < d && Tree(xs, d) == Tree(ys, e)
    ensures Size(xs[0]) < Size(ys[0])
    decreases e
  {
    if e == 0 {
      FirstIsSmaller(xs, d);
    } else {
      var h := if |xs| <= Pow2(d - 1) then |xs| else Pow2(d - 1);
      var k := if |ys| <= Pow2(e - 1) then |ys| else Pow2(e - 1);
      DepthsDiffer(xs[..h], ys[..k], d - 1, e - 1);
    }
  }

  /** Inserting chunks behind a non-empty prefix changes the root if a hash follows somewhere. */
  lemma InsertionChangesRoot(p: seq<Chunk>, q: seq<Chunk>, s: seq<Chunk>, j: nat)
    requires p != [] && q != [] && j < |s| && s[j].Node?
    ensures Root(p + q + s, 0) != Root(p + s, 0)
  {
    hide Tree, Pow2;
    var xs, ys := p + q + s, p + s;
    var d, e := Depth(|xs|), Depth(|ys|);
    if Tree(xs, d) == Tree(ys, e) {
      if e < d {
        DepthsDiffer(xs, ys, d, e);
      } else if d < e {
        DepthsDiffer(ys, xs, e, d);
      } else {
        var last := LastNonZero(s, j);
        TreeInjective(xs, ys, d, |p| + |q| + last);
      }
    }
  }

  /** Appending a chunk that is not zero to a non-empty list changes the root. */
  lemma AppendChangesRoot(p: seq<Chunk>, c: Chunk)
    requires p != [] && c != ZERO_CHUNK
    ensures Root(p + [c], 0) != Root(p, 0)
  {
    var xs := p + [c];
    var d, e := Depth(|xs|), Depth(|p|);
    if Tree(xs, d) == Tree(p, e) {
      if e < d {
        DepthsDiffer(xs, p, d, e);
      } else if d < e {
        DepthsDiffer(p, xs, e, d);
      } else {
        TreeInjective(xs, p, d, |p|);
      }
    }
  }

  lemma {:induction false} LastNonZero(s: seq<Chunk>, j: nat) returns (last: nat)
    requires j < |s| && s[j] != ZERO_CHUNK
    ensures last < |s| && s[last] != ZERO_CHUNK && forall i | last < i < |s| :: s[i] == ZERO_CHUNK
    decreases |s| - j
  {
    if i :| j < i < |s| && s[i] != ZERO_CHUNK {
      last := LastNonZero(s, i);
    } else {
      last := j;
    }
  }

  // ----- bytes to chunks -----

  /** The bytes in chunks of 32, the last one padded on the right. */
  function Pack(b: Bytes): (xs: seq<Chunk>)
    ensures |xs| == (|b| + 31) / 32
  {
    if b == [] then []
    else if |b| <= 32 then [Leaf(b + Zeros(32 - |b|))]
    else [Leaf(b[..32])] + Pack(b[32..])
  }

  lemma {:induction false} PackInjective(a: Bytes, b: Bytes)
    requires |a| == |b| && Pack(a) == Pack(b)
    ensures a == b
    decreases |a|
  {
    if 0 < |a| <= 32 {
      assert Pack(a)[0] == Pack(b)[0];
      assert (a + Zeros(32 - |a|))[..|a|] == a && (b + Zeros(32 - |b|))[..|b|] == b;
    } else if |a| > 32 {
      assert Pack(a)[0] == Pack(b)[0] && Pack(a)[1..] == Pack(a[32..]) && Pack(b)[1..] == Pack(b[32..]);
      PackInjective(a[32..], b[32..]);
      assert a == a[..32] + a[32..] && b == b[..32] + b[32..];
    }
  }

  /** What PutBytes appends: nothing for an empty string, otherwise one chunk. */
  function BytesChunks(b: Bytes): (xs: seq<Chunk>)
    ensures |xs| == if b == [] then 0 else 1
  {
    if |b| <= 32 then Pack(b) else [Root(Pack(b), 0)]
  }

  lemma BytesChunksInjective(a: Bytes, b: Bytes)
    requires |a| == |b| && BytesChunks(a) == BytesChunks(b)
    ensures a == b
  {
    if |a| > 32 {
      assert BytesChunks(a)[0] == BytesChunks(b)[0];
      RootInjective(Pack(a), Pack(b), 0);
    }
    PackInjective(a, b);
  }

  // ----- bytes that are hashed with zeros on the right -----

  /** Byte i of a byte string that is continued with zeros. */
  function ByteAt(b: Bytes, i: nat): (x: byte) {
    if i < |b| then b[i] else 0
  }

  /** What PutBytes tells of a byte string: whether it is empty, its bytes up to zeros at the end, and its length only
      by the depth of its own tree, which is the same for all lengths up to 32. */
  ghost predicate SamePacked(a: Bytes, b: Bytes) {
    && (a == [] <==> b == [])
    && Depth((|a| + 31) / 32) == Depth((|b| + 31) / 32)
    && forall i: nat :: ByteAt(a, i) == ByteAt(b, i)
  }

  /** The bytes of chunk i of the packed bytes. */
  function BytesAt(b: Bytes, i: nat): (r: Bytes)
    ensures |r| == 32 && forall j | 0 <= j < 32 :: r[j] == ByteAt(b, 32 * i + j)
  {
    seq<byte>(32, j requires 0 <= j < 32 => ByteAt(b, 32 * i + j))
  }

  function ChunkAt(b: Bytes, i: nat): (c: Chunk) {
    Leaf(BytesAt(b, i))
  }

  lemma {:induction false} PackAt(b: Bytes, i: nat)
    ensures At(Pack(b), i) == ChunkAt(b, i)
    decreases i
  {
    if |b| <= 32 {
      if b != [] && i == 0 {
        assert BytesAt(b, 0) == b + Zeros(32 - |b|);
      } else {
        assert BytesAt(b, i) == Zeros(32);
      }
    } else if i == 0 {
      assert BytesAt(b, 0) == b[..32];
    } else {
      PackAt(b[32..], i - 1);
      assert BytesAt(b, i) == BytesAt(b[32..], i - 1);
    }
  }

  /** Trees of one depth with equal leaves are equal. */
  lemma {:induction false} TreeOfSame(xs: seq<Chunk>, ys: seq<Chunk>, depth: nat)
    requires |xs| <= Pow2(depth) && |ys| <= Pow2(depth) && forall i: nat :: At(xs, i) == At(ys, i)
    ensures Tree(xs, depth) == Tree(ys, depth)
    decreases depth
  {
    if depth == 0 {
      assert At(xs, 0) == At(ys, 0);
    } else {
      var p := Pow2(depth - 1);
      var h := if |xs| <= p then |xs| else p;
      var k := if |ys| <= p then |ys| else p;
      forall i: nat ensures At(xs[..h], i) == At(ys[..k], i) && At(xs[h..], i) == At(ys[k..], i) {
        assert At(xs, i) == At(ys, i) && At(xs, i + p) == At(ys, i + p);
        AtHalf(xs, p, i + p);
        AtHalf(ys, p, i + p);
        if i < p {
          AtHalf(xs, p, i);
          AtHalf(ys, p, i);
        }
      }
      TreeOfSame(xs[..h], ys[..k], depth - 1);
      TreeOfSame(xs[h..], ys[k..], depth - 1);
    }
  }

  lemma BytesChunkIsTree(b: Bytes)
    requires b != []
    ensures BytesChunks(b) == [Tree(Pack(b), Depth((|b| + 31) / 32))]
  {
  }

  lemma PackLeaves(a: Bytes, i: nat)
    requires i < |Pack(a)|
    ensures Pack(a)[i].Leaf?
  {
    PackAt(a, i);
  }

  lemma PackedBinds(a: Bytes, b: Bytes)
    requires a != [] && b != []
    ensures BytesChunks(a) == BytesChunks(b) <==> SamePacked(a, b)
  {
    hide Pack, Tree;
    BytesChunkIsTree(a);
    BytesChunkIsTree(b);
    hide BytesChunks;
    var x, y, d, e := Pack(a), Pack(b), Depth((|a| + 31) / 32), Depth((|b| + 31) / 32);
    if Tree(x, d) == Tree(y, e) {
      PackLeaves(a, 0);
      PackLeaves(b, 0);
      if e < d {
        DepthsDiffer(x, y, d, e);
      } else if d < e {
        DepthsDiffer(y, x, e, d);
      }
      assert d == e;
      forall i: nat ensures ByteAt(a, i) == ByteAt(b, i) {
        SameByte(a, b, d, i);
      }
    }
    if SamePacked(a, b) {
      forall i: nat ensures At(x, i) == At(y, i) {
        PackAt(a, i);
        PackAt(b, i);
        SameChunkAt(a, b, i);
      }
      TreeOfSame(x, y, d);
    }
  }

  lemma SameChunkAt(a: Bytes, b: Bytes, i: nat)
    requires forall i: nat :: ByteAt(a, i) == ByteAt(b, i)
    ensures ChunkAt(a, i) == ChunkAt(b, i)
  {
    assert BytesAt(a, i) == BytesAt(b, i);
  }

  lemma SameByte(a: Bytes, b: Bytes, d: nat, i: nat)
    requires |Pack(a)| <= Pow2(d) && |Pack(b)| <= Pow2(d) && Tree(Pack(a), d) == Tree(Pack(b), d)
    ensures ByteAt(a, i) == ByteAt(b, i)
  {
    hide Tree, Pack;
    var c := i / 32;
    assert i == 32 * c + i % 32;
    if c < Pow2(d) {
      TreeInjective(Pack(a), Pack(b), d, c);
      PackAt(a, c);
      PackAt(b, c);
      assert BytesAt(a, c)[i % 32] == BytesAt(b, c)[i % 32];
    } else {
      assert c >= (|a| + 31) / 32 && c >= (|b| + 31) / 32;
    }
  }

  lemma PackedIff(a: Bytes, b: Bytes)
    ensures |BytesChunks(a)| == |BytesChunks(b)| <==> (a == [] <==> b == [])
    ensures (a == [] <==> b == []) ==> (BytesChunks(a) == BytesChunks(b) <==> SamePacked(a, b))
    ensures SamePacked(a, b) ==> (a == [] <==> b == [])
  {
    hide BytesChunks;
    if a != [] && b != [] {
      PackedBinds(a, b);
    }
  }

  function PutAll(bs: seq<Bytes>): (xs: seq<Chunk>)
    ensures |xs| <= |bs|
  {
    if bs == [] then [] else PutAll(bs[..|bs| - 1]) + BytesChunks(bs[|bs| - 1])
  }

  function WordChunk(n: uint64): (c: Chunk) {
    Leaf(Le(n, 8) + Zeros(24))
  }

  lemma WordChunkInjective(m: uint64, n: uint64)
    requires WordChunk(m) == WordChunk(n)
    ensures m == n
  {
    assert (Le(m, 8) + Zeros(24))[..8] == Le(m, 8) && (Le(n, 8) + Zeros(24))[..8] == Le(n, 8);
    Le64(m);
    Le64(n);
  }

  function BoolChunk(b: bool): (c: Chunk) {
    WordChunk(if b then 1 else 0)
  }

  /** The root of a list together with its length; more chunks than the limit is a panic in the library. */
  function ListRoot(xs: seq<Chunk>, num: nat, limit: nat): (c: Option<Chunk>) {
    if limit != 0 && |xs| > limit then None else Some(Node(Root(xs, limit), WordChunk(num % TWO64)))
  }

  lemma ListRootInjective(xs: seq<Chunk>, m: nat, ys: seq<Chunk>, n: nat, limit: nat)
    requires m < TWO64 && n < TWO64 && ListRoot(xs, m, limit).Some? && ListRoot(xs, m, limit) == ListRoot(ys, n, limit)
    ensures m == n
    ensures |xs| == |ys| ==> xs == ys
  {
    hide WordChunk, Root;
    WordChunkInjective(m, n);
    if |xs| == |ys| {
      RootInjective(xs, ys, limit);
    }
  }

  // ----- containers and lists of fields that may fail to hash -----

  predicate AllSome(xs: seq<Option<Chunk>>) {
    forall i | 0 <= i < |xs| :: xs[i].Some?
  }

  function Vals(xs: seq<Option<Chunk>>): (cs: seq<Chunk>)
    requires AllSome(xs)
    ensures |cs| == |xs|
  {
    seq(|xs|, i requires 0 <= i < |xs| => xs[i].value)
  }

  lemma ValsConcat(xs: seq<Option<Chunk>>, ys: seq<Option<Chunk>>)
    ensures AllSome(xs + ys) <==> AllSome(xs) && AllSome(ys)
    ensures AllSome(xs + ys) ==> Vals(xs + ys) == Vals(xs) + Vals(ys)
  {
    if AllSome(xs + ys) {
      forall i | 0 <= i < |xs| ensures xs[i].Some? {
        assert (xs + ys)[i] == xs[i];
      }
      forall i | 0 <= i < |ys| ensures ys[i].Some? {
        assert (xs + ys)[|xs| + i] == ys[i];
      }
    }
  }

  lemma ValsInjective(xs: seq<Option<Chunk>>, ys: seq<Option<Chunk>>)
    requires AllSome(xs) && AllSome(ys) && Vals(xs) == Vals(ys)
    ensures xs == ys
  {
    assert |xs| == |ys|;
    forall i | 0 <= i < |xs| ensures xs[i] == ys[i] {
      assert Vals(xs)[i] == Vals(ys)[i];
    }
  }

  /** A container of fields, one chunk each. */
  function Composite(fields: seq<Option<Chunk>>): (c: Option<Chunk>) {
    if AllSome(fields) then Some(Root(Vals(fields), 0)) else None
  }

  /** A list of at most limit elements, one chunk each. */
  function List(elems: seq<Option<Chunk>>, limit: nat): (c: Option<Chunk>) {
    if AllSome(elems) then ListRoot(Vals(elems), |elems|, limit) else None
  }

  lemma CompositeInjective(xs: seq<Option<Chunk>>, ys: seq<Option<Chunk>>)
    requires |xs| == |ys| && Composite(xs).Some? && Composite(xs) == Composite(ys)
    ensures xs == ys
  {
    RootInjective(Vals(xs), Vals(ys), 0);
    ValsInjective(xs, ys);
  }

  lemma ListInjective(xs: seq<Option<Chunk>>, ys: seq<Option<Chunk>>, limit: nat)
    requires 0 < limit < TWO64 && List(xs, limit).Some? && List(xs, limit) == List(ys, limit)
    ensures xs == ys
  {
    ListRootInjective(Vals(xs), |xs|, Vals(ys), |ys|, limit);
    ValsInjective(xs, ys);
  }

  // ----- digests -----

  /** A Go byte slice that holds a hash or is still unset: literal bytes, or the hash of two chunks. */
  datatype Digest = Raw(b: Bytes) | Hashed(left: Chunk, right: Chunk)

  function ToDigest(c: Chunk): (d: Digest) {
    match c
    case Leaf(b) => Raw(b)
    case Node(l, r) => Hashed(l, r)
  }

  /** The slice as the single chunk of a 32-byte array, padded with zeros on the left. */
  function DigestChunk(d: Digest): (c: Option<Chunk>) {
    match d
    case Raw(b) => if |b| > 32 then None else Some(Leaf(LeftPad(b, 32)))
    case Hashed(l, r) => Some(Node(l, r))
  }

  /** PutBytes of a digest. */
  function DigestChunks(d: Digest): (xs: seq<Chunk>) {
    match d
    case Raw(b) => BytesChunks(b)
    case Hashed(l, r) => [Node(l, r)]
  }

  lemma DigestOfChunk(c: Chunk)
    ensures DigestChunk(ToDigest(c)) == Some(c) && DigestChunks(ToDigest(c)) == [c]
  {
    if c.Leaf? {
      assert Zeros(0) + c.b == c.b && c.b + Zeros(0) == c.b;
    }
  }

  // ----- cluster/helpers.go on bytes -----

  function LeftPad(b: Bytes, n: nat): (r: Bytes)
    ensures |r| == if |b| < n then n else |b|
  {
    if |b| < n then Zeros(n - |b|) + b else b
  }

  /** leftPad prepends one zero at a time. */
  method LeftPadLoop(b: Bytes, l: nat) returns (r: Bytes)
    ensures r == LeftPad(b, l)
  {
    r := b;
    while |r| < l
      invariant |b| <= |r|
      invariant |r| <= l || r == b
      invariant r == Zeros(|r| - |b|) + b
      decreases l - |r|
    {
      r := [0] + r;
      assert [0] + Zeros(|r| - 1 - |b|) == Zeros(|r| - |b|);
    }
  }

  /** putByteList as the chunk it appends. */
  function ByteListChunk(b: Bytes, limit: nat): (c: Option<Chunk>) {
    if |b| > limit then None else ListRoot(Pack(b), |b|, (limit + 31) / 32)
  }

  lemma ByteListInjective(a: Bytes, b: Bytes, limit: nat)
    requires limit < TWO64 && ByteListChunk(a, limit).Some? && ByteListChunk(a, limit) == ByteListChunk(b, limit)
    ensures a == b
  {
    ListRootInjective(Pack(a), |a|, Pack(b), |b|, (limit + 31) / 32);
    PackInjective(a, b);
  }

  /** putBytesN as the chunk it appends. */
  function BytesNChunk(b: Bytes, n: nat): (c: Option<Chunk>)
    requires n > 0
  {
    if |b| > n then None else Some(BytesChunks(LeftPad(b, n))[0])
  }

  lemma BytesNInjective(a: Bytes, b: Bytes, n: nat)
    requires n > 0 && BytesNChunk(a, n).Some? && BytesNChunk(b, n).Some?
    ensures BytesNChunk(a, n) == BytesNChunk(b, n) <==> LeftPad(a, n) == LeftPad(b, n)
  {
    if BytesNChunk(a, n) == BytesNChunk(b, n) {
      assert BytesChunks(LeftPad(a, n)) == [BytesNChunk(a, n).value];
      assert BytesChunks(LeftPad(b, n)) == [BytesNChunk(b, n).value];
      BytesChunksInjective(LeftPad(a, n), LeftPad(b, n));
    }
  }

  /** PutUint64Array with a maximum number of elements. */
  function WordArrayChunk(words: seq<uint64>, max: nat): (c: Option<Chunk>) {
    ListRoot(Pack(EncodeWords(words)), |words|, (max * 8 + 31) / 32)
  }

  lemma WordArrayInjective(a: seq<uint64>, b: seq<uint64>, max: nat)
    requires 0 < max < TWO32
    requires WordArrayChunk(a, max).Some? && WordArrayChunk(a, max) == WordArrayChunk(b, max)
    ensures a == b
  {
    ListRootInjective(Pack(EncodeWords(a)), |a|, Pack(EncodeWords(b)), |b|, (max * 8 + 31) / 32);
    PackInjective(EncodeWords(a), EncodeWords(b));
    EncodeWordsInjective(a, b);
  }

  // ----- the hasher -----

  /** The library's hash walker: a buffer of chunks used as a stack. */
  class Hasher {
    var buf: seq<Chunk>

    constructor ()
      ensures buf == []
    {
      buf := [];
    }

    function Index(): (i: nat)
      reads this
    {
      |buf|
    }

    method PutBytes(b: Bytes)
      modifies this
      ensures buf == old(buf) + BytesChunks(b)
    {
      if |b| <= 32 {
        buf := buf + Pack(b);
        return;
      }
      var indx := Index();
      buf := buf + Pack(b);
      Merkleize(indx);
    }

    method PutDigest(d: Digest)
      modifies this
      ensures buf == old(buf) + DigestChunks(d)
    {
      buf := buf + DigestChunks(d);
    }

    method PutUint64(n: uint64)
      modifies this
      ensures buf == old(buf) + [WordChunk(n)]
    {
      buf := buf + [WordChunk(n)];
    }

    method PutBool(b: bool)
      modifies this
      ensures buf == old(buf) + [BoolChunk(b)]
    {
      buf := buf + [BoolChunk(b)];
    }

    method AppendBytes32(b: Bytes)
      modifies this
      ensures buf == old(buf) + Pack(b)
    {
      buf := buf + Pack(b);
    }

    method PutUint64Array(words: seq<uint64>, max: nat) returns (ok: bool)
      modifies this
      ensures ok == WordArrayChunk(words, max).Some?
      ensures ok ==> buf == old(buf) + [WordArrayChunk(words, max).value]
    {
      var indx := Index();
      AppendBytes32(EncodeWords(words));
      ok := MerkleizeWithMixin(indx, |words|, (max * 8 + 31) / 32);
    }

    /** Collapses everything from indx on into one chunk. */
    method Merkleize(indx: nat)
      requires indx <= |buf|
      modifies this
      ensures buf == old(buf)[..indx] + [Root(old(buf)[indx..], 0)]
    {
      buf := buf[..indx] + [Root(buf[indx..], 0)];
    }

    /** As Merkleize, mixing in a length; a false result stands for the library's panic on too many chunks. */
    method MerkleizeWithMixin(indx: nat, num: nat, limit: nat) returns (ok: bool)
      requires indx <= |buf|
      modifies this
      ensures ok == ListRoot(old(buf)[indx..], num, limit).Some?
      ensures ok ==> buf == old(buf)[..indx] + [ListRoot(old(buf)[indx..], num, limit).value]
    {
      var root := ListRoot(buf[indx..], num, limit);
      if root == None {
        return false;
      }
      buf := buf[..indx] + [root.value];
      return true;
    }

    /** The hash of a buffer that holds exactly one chunk, an error otherwise. */
    method HashRoot() returns (r: Option<Digest>)
      ensures r == if |buf| == 1 then Some(ToDigest(buf[0])) else None
    {
      r := if |buf| == 1 then Some(ToDigest(buf[0])) else None;
    }

    /** putByteList. */
    method PutByteList(b: Bytes, limit: nat) returns (ok: bool)
      modifies this
      ensures ok == ByteListChunk(b, limit).Some?
      ensures ok ==> buf == old(buf) + [ByteListChunk(b, limit).value]
    {
      var elemIndx := Index();
      var byteLen := |b|;
      if byteLen > limit {
        return false;
      }
      AppendBytes32(b);
      ok := MerkleizeWithMixin(elemIndx, byteLen, (limit + 31) / 32);
    }

    /** putBytesN. */
    method PutBytesN(b: Bytes, n: nat) returns (ok: bool)
      requires n > 0
      modifies this
      ensures ok == BytesNChunk(b, n).Some?
      ensures ok ==> buf == old(buf) + [BytesNChunk(b, n).value]
    {
      if |b| > n {
        return false;
      }
      var padded := LeftPadLoop(b, n);
      PutBytes(padded);
      return true;
    }

    /** putBytesN of a 32-byte hash. */
    method PutDigest32(d: Digest) returns (ok: bool)
      modifies this
      ensures ok == DigestChunk(d).Some?
      ensures ok ==> buf == old(buf) + [DigestChunk(d).value]
    {
      var c := DigestChunk(d);
      if c == None {
        return false;
      }
      buf := buf + [c.value];
      return true;
    }
  }
}
