/** The authoritative caller of a demand-filled entry (pkg/wire/blockproxy.go drives the stores
    this way): its file is a byte sequence, and every change to the file is mirrored into the
    store.  One operation touches one chunk; a write spanning chunks is its per-chunk pieces in
    order, which is how applyWriteThrough issues it.
 */
module Caller {
  import opened Bytes

  datatype Op =
    | Fill(idx: nat, hash: Hash)                    // Put / PutHashed of the whole chunk
    | FillSub(idx: nat, subOff: nat, n: nat)        // PutSub of a ranged read
    | Write(idx: nat, chunkOff: nat, w: seq<Byte>)  // caller write, then WriteThrough
    | Drop(idx: nat)
    | Resize(newSize: nat)                          // caller truncate or extend, then Resize
    | Invalidate

  /** The bytes the caller's file has in [off, off + n), short at end of file. */
  function Origin(f: seq<Byte>, off: nat, n: nat): (r: seq<Byte>)
    ensures |r| <= n
    ensures r != [] ==> off + |r| <= |f|
    ensures |f| >= off + n ==> |r| == n
    ensures |r| < n ==> |f| <= off + |r|
    ensures forall i :: off <= i < off + |r| ==> At(f, i) == r[i - off]
  {
    if off >= |f| then []
    else if off + n <= |f| then f[off..off + n]
    else f[off..]
  }

  /** Valid length of chunk idx in a file of the given size. */
  function ChunkLen(cs: nat, idx: nat, size: nat): nat {
    if size < Start(cs, idx) then 0
    else if size < Start(cs, idx) + cs then size - Start(cs, idx)
    else cs
  }

  /** A write as long as the resulting chunk leaves exactly itself in the chunk. */
  lemma FullCover(cs: nat, f: seq<Byte>, idx: nat, w: seq<Byte>)
    requires w != [] && |w| == ChunkLen(cs, idx, |WriteAt(f, Start(cs, idx), w)|)
    ensures w == Origin(WriteAt(f, Start(cs, idx), w), Start(cs, idx), cs)
  {
    hide Start, WriteAt, Origin;
    var g := WriteAt(f, Start(cs, idx), w);
    var o := Origin(g, Start(cs, idx), cs);
    assert |o| == |w|;
    forall k | 0 <= k < |w| ensures At(w, k) == At(o, k) {
      assert At(g, Start(cs, idx) + k) == w[k];
      assert At(g, Start(cs, idx) + k) == o[k];
    }
    SameBytes(w, o);
  }

  /** The caller's file after the operation. */
  function NextFile(cs: nat, f: seq<Byte>, op: Op): seq<Byte> {
    match op
    case Write(idx, chunkOff, w) => WriteAt(f, Start(cs, idx) + chunkOff, w)
    case Resize(newSize) => Resized(f, newSize)
    case _ => f
  }

  /** What the block protocol itself guarantees of an operation, whatever is cached: a fill starts and
      stays inside one chunk and is sub-block aligned up to the end of the chunk or of the file, and a
      write is a non-empty piece of one chunk. */
  predicate WellPosed(cs: nat, f: seq<Byte>, op: Op) {
    match op
    case Fill(idx, _) => Start(cs, idx) <= |f|
    case FillSub(idx, subOff, n) =>
      && subOff % SUB == 0 && subOff < cs && subOff + n <= cs && Start(cs, idx) + subOff + n <= |f|
      && (Start(cs, idx) + subOff + n == |f| || subOff + n == cs || (n > 0 && n % SUB == 0))
    case Write(_, chunkOff, w) => w != [] && chunkOff + |w| <= cs
    case _ => true
  }

  // ---- calls of the store, whatever the caller's file ---------------------------------------

  /** A call of a store, with arguments of any origin. */
  datatype Call =
    | CallPut(idx: nat, w: seq<Byte>, h: Hash)
    | CallPutSub(idx: nat, subOff: nat, w: seq<Byte>)
    | CallWriteChunk(idx: nat, chunkOff: nat, w: seq<Byte>, chunkLen: nat, h: Hash)
    | CallWriteThrough(idx: nat, chunkOff: nat, w: seq<Byte>, chunkLen: nat)
    | CallDrop(idx: nat)
    | CallResize(newSize: nat)
    | CallInvalidate

  /** Chunks are never stored empty, and a write starts inside its chunk. */
  predicate NonEmpty(c: Call) {
    match c
    case CallPut(_, w, _) => w != []
    case CallWriteChunk(_, chunkOff, w, chunkLen, _) => chunkLen > 0 && chunkOff <= chunkLen
    case CallWriteThrough(_, _, _, chunkLen) => chunkLen > 0
    case _ => true
  }

  /** The calls of the hashed whole-chunk regime. */
  predicate HashedCall(c: Call) {
    !c.CallPutSub? && !c.CallWriteThrough?
  }

  /** A write stays inside its chunk. */
  predicate Fits(cs: nat, c: Call) {
    match c
    case CallPut(_, w, _) => |w| <= cs
    case CallWriteThrough(_, off, w, len) => off + |w| <= len <= cs
    case CallWriteChunk(_, off, w, len, _) => off + |w| <= len <= cs
    case _ => true
  }

  /** The bytes a call hands to the store. */
  function What(c: Call): seq<Byte> {
    match c
    case CallPut(_, w, _) => w
    case CallPutSub(_, _, w) => w
    case CallWriteThrough(_, _, w, _) => w
    case CallWriteChunk(_, _, w, _, _) => w
    case _ => []
  }

  /** chunk is base with w put at off. */
  predicate Patches(base: seq<Byte>, off: nat, w: seq<Byte>, chunk: seq<Byte>) {
    && |chunk| == |base| && off + |w| <= |chunk| && chunk[off..off + |w|] == w
    && forall i :: 0 <= i < |chunk| && !(off <= i < off + |w|) ==> chunk[i] == base[i]
  }
}
