/** Byte sequences as files see them, and the chunk and sub-block geometry of pkg/blockcache.

    Bytes past the end of a sequence read as zero through `At`, so growing, truncating and
    splicing can be stated for every offset at once.
 */
module Bytes {

  type Byte = b: int | 0 <= b < 256
  type Hash = h: int | 0 <= h < 0x1_0000_0000_0000_0000

  /** A stored hash of 0 means that the chunk's hash is unknown. */
  const UNKNOWN_HASH: Hash := 0


  function Max(a: nat, b: nat): nat { if a < b then b else a }
  function Min(a: nat, b: nat): nat { if a < b then a else b }

  /** Zero-extended read. */
  function At(s: seq<Byte>, i: int): Byte {
    if 0 <= i < |s| then s[i] else 0
  }

  function Zeros(n: nat): (r: seq<Byte>)
    ensures |r| == n
    ensures forall i :: At(r, i) == 0
  {
    seq(n, _ => 0)
  }

  /** Truncate, or extend with zeros. */
  function Resized(s: seq<Byte>, n: nat): (r: seq<Byte>)
    ensures |r| == n
    ensures forall i :: At(r, i) == if i < n then At(s, i) else 0
  {
    if n <= |s| then s[..n] else s + Zeros(n - |s|)
  }

  /** Lay w over s at off, growing to hold it and zeroing any gap. */
  function Overlay(s: seq<Byte>, off: nat, w: seq<Byte>): (r: seq<Byte>)
    ensures |r| == if |s| < off + |w| then off + |w| else |s|
    ensures forall i :: At(r, i) == if off <= i < off + |w| then w[i - off] else At(s, i)
  {
    var base := if |s| < off + |w| then Resized(s, off + |w|) else s;
    base[..off] + w + base[off + |w|..]
  }

  /** A positioned file write: writing nothing leaves the file alone. */
  function WriteAt(s: seq<Byte>, off: nat, w: seq<Byte>): (r: seq<Byte>)
    ensures |r| == if w != [] && |s| < off + |w| then off + |w| else |s|
    ensures forall i :: At(r, i) == if off <= i < off + |w| then w[i - off] else At(s, i)
  {
    if w == [] then s else Overlay(s, off, w)
  }

  /** Copy w into cur at off, as far as cur reaches. */
  function Merge(cur: seq<Byte>, off: nat, w: seq<Byte>): (r: seq<Byte>)
    requires off <= |cur|
    ensures |r| == |cur|
    ensures forall i :: 0 <= i < |cur| ==> r[i] == if off <= i < off + |w| then w[i - off] else cur[i]
  {
    if off + |w| <= |cur| then cur[..off] + w + cur[off + |w|..] else cur[..off] + w[..|cur| - off]
  }

  lemma SliceOfSlice(s: seq<Byte>, start: nat, n: nat, lo: nat, hi: nat)
    requires lo <= hi <= n && start + n <= |s|
    ensures s[start..start + n][lo..hi] == s[start + lo..start + hi]
  {
    var a, b := s[start..start + n][lo..hi], s[start + lo..start + hi];
    forall k | 0 <= k < hi - lo ensures a[k] == b[k] {
      assert a[k] == s[start..start + n][lo + k];
    }
  }

  lemma SameBytes(a: seq<Byte>, b: seq<Byte>)
    requires |a| == |b|
    requires forall i :: 0 <= i < |a| ==> At(a, i) == At(b, i)
    ensures a == b
  {
    forall i | 0 <= i < |a| ensures a[i] == b[i] {
      assert At(a, i) == At(b, i);
    }
  }

  ghost predicate Collision(hash: seq<Byte> -> Hash, a: seq<Byte>, b: seq<Byte>) {
    a != b && hash(a) == hash(b)
  }

  // ---- geometry -----------------------------------------------------------------------------

  /** SubBlockSize. */
  const SUB: nat := 4096

  predicate IsChunkSize(cs: nat) {
    cs > 0 && cs % SUB == 0
  }

  /** Byte offset where chunk idx starts. */
  function Start(cs: nat, idx: nat): nat {
    idx * cs
  }

  /** The chunk and the absolute sub-block holding byte i. */
  function ChunkOf(cs: nat, i: nat): nat
    requires cs > 0
  {
    i / cs
  }

  function SubOf(i: nat): nat {
    i / SUB
  }

  /** subSpan: the inclusive range of sub-blocks covering [off, off + length). */
  function SubSpan(off: nat, length: nat): (nat, nat) {
    if length == 0 then (off / SUB, off / SUB)
    else (off / SUB, (off + length - 1) / SUB)
  }

  ghost predicate InSpan(off: nat, n: nat, s: nat) {
    SubSpan(off, n).0 <= s <= SubSpan(off, n).1
  }

  /** A non-empty span holds exactly the sub-blocks that meet the byte range. */
  lemma SpanIs(off: nat, n: nat, s: nat)
    requires n > 0
    ensures InSpan(off, n, s) <==> s * SUB < off + n && off < s * SUB + SUB
  {
  }

  lemma ByteInSpan(off: nat, n: nat, i: nat)
    requires off <= i < off + n
    ensures InSpan(off, n, SubOf(i))
  {
  }

  /** An aligned span starts at its first sub-block, and ends with its last one when the length
      is aligned too. */
  lemma AlignedSpan(off: nat, n: nat, i: nat)
    requires off % SUB == 0 && InSpan(off, n, SubOf(i))
    ensures off <= i
    ensures n > 0 && n % SUB == 0 ==> i < off + n
  {
  }

  function NumChunks(size: nat, cs: nat): nat
    requires cs > 0
  {
    if size == 0 then 0 else (size + cs - 1) / cs
  }

  /** Chunk c exists exactly when it starts before the end. */
  lemma NumChunksIs(size: nat, cs: nat, c: nat)
    requires cs > 0
    ensures c < NumChunks(size, cs) <==> Start(cs, c) < size
  {
    CeilDiv(size, cs, c);
    MulLe(0, c, cs);
  }

  lemma CeilDiv(size: nat, cs: nat, c: nat)
    requires cs > 0
    ensures c < (size + cs - 1) / cs <==> c * cs < size
  {
    var n := (size + cs - 1) / cs;
    var r := (size + cs - 1) % cs;
    assert size + cs - 1 == n * cs + r;
    if c < n {
      assert c * cs <= (n - 1) * cs by { MulLe(c, n - 1, cs); }
      assert (n - 1) * cs == n * cs - cs;
    } else {
      assert n * cs <= c * cs by { MulLe(n, c, cs); }
    }
  }

  lemma MulLe(a: int, b: int, c: nat)
    requires a <= b
    ensures a * c <= b * c
  {
  }

  /** Position i lies in chunk c exactly when it is in the byte range of c. */
  lemma ChunkOfByte(cs: nat, i: nat, c: nat)
    requires cs > 0
    ensures ChunkOf(cs, i) == c <==> Start(cs, c) <= i < Start(cs, c) + cs
  {
    var q, r := i / cs, i % cs;
    assert i == q * cs + r;
    if c < q {
      MulLe(c + 1, q, cs);
      assert (c + 1) * cs == c * cs + cs;
    } else if q < c {
      MulLe(q + 1, c, cs);
      assert (q + 1) * cs == q * cs + cs;
    }
  }

  lemma StartAligned(cs: nat, idx: nat)
    requires IsChunkSize(cs)
    ensures Start(cs, idx) % SUB == 0
    ensures Start(cs, idx + 1) == Start(cs, idx) + cs
  {
    var m := cs / SUB;
    assert idx * cs == (idx * m) * SUB;
  }

  /** Sub-blocks never straddle chunks: bytes of one sub-block lie in one chunk, the one the
      source computes from the sub-block's first byte. */
  lemma SubInOneChunk(cs: nat, i: nat)
    requires IsChunkSize(cs)
    ensures ChunkOf(cs, SubOf(i) * SUB) == ChunkOf(cs, i)
  {
    var c := ChunkOf(cs, i);
    ChunkOfByte(cs, i, c);
    StartAligned(cs, c);
    ChunkOfByte(cs, SubOf(i) * SUB, c);
  }

  lemma SameSubSameChunk(cs: nat, i: nat, j: nat)
    requires IsChunkSize(cs) && SubOf(i) == SubOf(j)
    ensures ChunkOf(cs, i) == ChunkOf(cs, j)
  {
    SubInOneChunk(cs, i);
    SubInOneChunk(cs, j);
  }

  /** First and last absolute sub-block of a chunk, as setChunkSubBits computes them. */
  function FirstSub(cs: nat, idx: nat): nat {
    Start(cs, idx) / SUB
  }

  function LastSub(cs: nat, idx: nat): int {
    (Start(cs, idx + 1) - 1) / SUB
  }

  /** The chunk's sub-block range holds exactly the sub-blocks of its bytes. */
  lemma ChunkSubs(cs: nat, idx: nat, i: nat)
    requires IsChunkSize(cs)
    ensures FirstSub(cs, idx) <= SubOf(i) <= LastSub(cs, idx) <==> ChunkOf(cs, i) == idx
  {
    hide ChunkOf, Start;
    StartAligned(cs, idx);
    ChunkOfByte(cs, i, idx);
  }
}
