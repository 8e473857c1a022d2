/** More about DiskStore (pkg/blockcache/diskstore.go): fills read back, verified writes heal a
    diverged chunk, the index stays well formed over every run, and the chunk size must be a
    multiple of the sub-block size.
 */
module DiskProperties {
  import opened Bytes
  import opened Options
  import opened Bitmaps
  import opened DiskModel
  import opened DiskCoherence
  import opened Caller

  // ---- a fill reads back, a drop reads as absent --------------------------------------------

  lemma PutSubReadsBack(cs: nat, st: State, id: FileVersion, idx: nat, subOff: nat, w: seq<Byte>)
    requires cs > 0
    ensures GetSub(cs, Some(PutSub(cs, st, id, idx, subOff, w)), idx, subOff, |w|) == Some(w)
  {
    hide Start, Load, SubSpan;
    var off := Start(cs, idx) + subOff;
    var r := PutSub(cs, st, id, idx, subOff, w);
    if w != [] {
      ReadBack(Load(cs, st, id, off + |w|).data, off, w);
    }
  }

  lemma PutReadsBack(cs: nat, st: State, id: FileVersion, idx: nat, w: seq<Byte>, h: Hash)
    requires cs > 0
    ensures Get(cs, Some(PutChunk(cs, st, id, idx, w, h)), idx, |w|) == Some(w)
    ensures var r := PutChunk(cs, st, id, idx, w, h); idx < |r.hashes| && r.hashes[idx] == h
  {
    hide Start, Load;
    if w != [] {
      ReadBack(Load(cs, st, id, Start(cs, idx) + |w|).data, Start(cs, idx), w);
    }
  }

  lemma ReadBack(data: seq<Byte>, off: nat, w: seq<Byte>)
    requires w != []
    ensures ReadAt(WriteAt(data, off, w), off, |w|) == Some(w)
  {
    var d := WriteAt(data, off, w);
    forall k | 0 <= k < |w| ensures At(d[off..off + |w|], k) == At(w, k) {
      assert At(d, off + k) == w[k];
    }
    SameBytes(d[off..off + |w|], w);
  }

  /** Nothing of a dropped chunk is served, by any read. */
  lemma DropReadsAbsent(cs: nat, st: State, idx: nat, subOff: nat, n: nat)
    requires IsChunkSize(cs) && 0 < n && subOff + n <= cs
    ensures Get(cs, Dropped(cs, st, idx), idx, n).None?
    ensures GetSub(cs, Dropped(cs, st, idx), idx, subOff, n).None?
    ensures HashedRange(cs, Dropped(cs, st, idx), idx, subOff, n).None?
  {
    hide Start, ChunkOf, SubSpan, SubOf;
    if st.Some? {
      var off := Start(cs, idx) + subOff;
      var r := ClearChunk(cs, st.value, idx);
      ChunkOfByte(cs, off, idx);
      ClearChunkPresence(cs, st.value, idx, off);
      SubsPresentIff(cs, r, off, n);
      ByteInSpan(off, n, off);
    }
  }

  // ---- verified writes ----------------------------------------------------------------------

  /** Hashed regime: no sub-block is cached except with its whole chunk. */
  ghost predicate WholeChunks(cs: nat, st: State)
    requires cs > 0
  {
    st.Some? ==> forall i: nat :: Present(cs, st.value, i) ==> ChunkOf(cs, i) in st.value.chunks
  }

  /** Whatever the cached base was, after a successful WriteChunk carrying the hash of the caller's
      chunk the cached chunk is the caller's, or gone, or the two chunks collide. */
  lemma WriteChunkHeals(cs: nat, hash: seq<Byte> -> Hash, st: State, id: FileVersion, idx: nat, chunkOff: nat,
                        w: seq<Byte>, chunk: seq<Byte>)
    requires cs > 0 && chunkOff + |w| <= |chunk| && chunk[chunkOff..chunkOff + |w|] == w
    requires !WriteChunkFails(cs, st, id, idx, chunkOff, w, |chunk|)
    ensures var got := Get(cs, WriteChunk(cs, hash, st, id, idx, chunkOff, w, |chunk|, hash(chunk)), idx, |chunk|);
            got.None? || got == Some(chunk) || Collision(hash, got.value, chunk)
  {
    hide Start, Load, MarkChunk, ClearChunk, Merge, WriteAt, PutChunk;
    if chunkOff == 0 && |w| == |chunk| {
      assert w == chunk;
      PutReadsBack(cs, st, id, idx, w, hash(chunk));
    } else if st.Some? && idx in st.value.chunks {
      var e := Load(cs, st, id, Start(cs, idx) + chunkOff + |w|);
      MergeIsWrite(e.data, Start(cs, idx), |chunk|, chunkOff, w);
      SettledBits(cs, e.(data := WriteAt(e.data, Start(cs, idx) + chunkOff, w)), idx, hash(chunk));
    }
  }

  lemma SettledBits(cs: nat, e: Entry, idx: nat, h: Hash)
    ensures Settled(cs, e, idx, true, h).data == e.data
    ensures idx !in Settled(cs, e, idx, false, h).chunks
  {
  }

  /** Merging in scratch and writing in place agree. */
  lemma MergeIsWrite(data: seq<Byte>, start: nat, n: nat, off: nat, w: seq<Byte>)
    requires off + |w| <= n && ReadAt(data, start, n).Some?
    ensures ReadAt(WriteAt(data, start + off, w), start, n) == Some(Merge(ReadAt(data, start, n).value, off, w))
  {
    if n > 0 {
      var d := WriteAt(data, start + off, w);
      var m := Merge(ReadAt(data, start, n).value, off, w);
      forall k | 0 <= k < n ensures At(d[start..start + n], k) == At(m, k) {
        assert At(d, start + k) == d[start + k] && At(data, start + k) == data[start + k];
      }
      SameBytes(d[start..start + n], m);
    }
  }

  // ---- the index over every run -------------------------------------------------------------

  /** Every set chunk bit names a chunk below the recorded size, inside the bitmap and the hashes. */
  ghost predicate IndexOK(cs: nat, st: State)
    requires cs > 0
  {
    st.Some? ==> forall c :: c in st.value.chunks ==> BitOK(cs, st.value, c)
  }

  ghost predicate BitOK(cs: nat, e: Entry, c: nat)
    requires cs > 0
  {
    c < NumChunks(e.cur, cs) && c < |e.hashes| && c < 8 * e.width
  }

  /** Any call at all, in either regime.  A WriteChunk that fails leaves the index alone. */
  ghost function Do(cs: nat, hash: seq<Byte> -> Hash, st: State, id: FileVersion, c: Call): State
    requires cs > 0 && NonEmpty(c)
  {
    match c
    case CallPut(idx, w, h) => Some(PutChunk(cs, st, id, idx, w, h))
    case CallPutSub(idx, subOff, w) => Some(PutSub(cs, st, id, idx, subOff, w))
    case CallWriteChunk(idx, chunkOff, w, chunkLen, h) =>
      if WriteChunkFails(cs, st, id, idx, chunkOff, w, chunkLen)
      then Some(st.value.(data := Load(cs, st, id, Start(cs, idx) + chunkOff + |w|).data))
      else WriteChunk(cs, hash, st, id, idx, chunkOff, w, chunkLen, h)
    case CallWriteThrough(idx, chunkOff, w, chunkLen) => WriteThrough(cs, st, id, idx, chunkOff, w, chunkLen)
    case CallDrop(idx) => Dropped(cs, st, idx)
    case CallResize(newSize) => Some(ResizedEntry(cs, st, newSize))
    case CallInvalidate => None
  }

  ghost function DoAll(cs: nat, hash: seq<Byte> -> Hash, st: State, id: FileVersion, calls: seq<Call>): State
    requires cs > 0 && forall c :: c in calls ==> NonEmpty(c)
    decreases |calls|
  {
    if calls == [] then st else DoAll(cs, hash, Do(cs, hash, st, id, calls[0]), id, calls[1..])
  }

  lemma NumChunksMonotonic(a: nat, b: nat, cs: nat)
    requires cs > 0 && a <= b
    ensures NumChunks(a, cs) <= NumChunks(b, cs)
  {
    var n := NumChunks(a, cs);
    if n > 0 {
      NumChunksIs(a, cs, n - 1);
      NumChunksIs(b, cs, n - 1);
    }
  }

  lemma LoadIndex(cs: nat, st: State, id: FileVersion, minBacking: nat)
    requires cs > 0 && IndexOK(cs, st)
    ensures IndexOK(cs, Some(Load(cs, st, id, minBacking)))
    ensures minBacking <= Load(cs, st, id, minBacking).cur
  {
    if st.Some? {
      NumChunksMonotonic(st.value.cur, Load(cs, st, id, minBacking).cur, cs);
    }
  }

  lemma PutIndex(cs: nat, st: State, id: FileVersion, idx: nat, w: seq<Byte>, h: Hash)
    requires cs > 0 && IndexOK(cs, st) && w != []
    ensures IndexOK(cs, Some(PutChunk(cs, st, id, idx, w, h)))
  {
    hide Start, NumChunks, SubsOf, Load;
    LoadIndex(cs, st, id, Start(cs, idx) + |w|);
    NumChunksIs(Load(cs, st, id, Start(cs, idx) + |w|).cur, cs, idx);
  }

  lemma SpliceIndex(cs: nat, st: State, id: FileVersion, idx: nat, off: nat, w: seq<Byte>)
    requires cs > 0 && IndexOK(cs, st)
    ensures IndexOK(cs, Some(Spliced(cs, st, id, idx, off, w)))
  {
    hide NumChunks, SubSpan, Load;
    LoadIndex(cs, st, id, off + |w|);
  }

  lemma WriteChunkIndex(cs: nat, hash: seq<Byte> -> Hash, st: State, id: FileVersion, idx: nat, chunkOff: nat,
                        w: seq<Byte>, chunkLen: nat, h: Hash)
    requires cs > 0 && IndexOK(cs, st) && chunkLen > 0 && chunkOff <= chunkLen
    requires !WriteChunkFails(cs, st, id, idx, chunkOff, w, chunkLen)
    ensures IndexOK(cs, WriteChunk(cs, hash, st, id, idx, chunkOff, w, chunkLen, h))
  {
    hide Start, NumChunks, SubsOf, PutChunk, Load, Merge;
    if chunkOff == 0 && |w| == chunkLen {
      PutIndex(cs, st, id, idx, w, h);
    } else if st.Some? && idx in st.value.chunks {
      LoadIndex(cs, st, id, Start(cs, idx) + chunkOff + |w|);
      LoadBits(cs, st, id, Start(cs, idx) + chunkOff + |w|);
    }
  }

  lemma LoadBits(cs: nat, st: State, id: FileVersion, minBacking: nat)
    requires cs > 0 && st.Some?
    ensures Load(cs, st, id, minBacking).chunks == st.value.chunks
  {
  }

  /** Resize drops every chunk bit from the new boundary chunk on and the old last chunk, keeps
      every other bit, and the index stays well formed. */
  lemma ResizeIndex(cs: nat, e: Entry, newSize: nat)
    requires cs > 0 && IndexOK(cs, Some(e))
    ensures IndexOK(cs, Some(ResizedEntry(cs, Some(e), newSize)))
    ensures forall c: nat :: c in ResizedEntry(cs, Some(e), newSize).chunks <==>
              c in e.chunks && c < ChunkOf(cs, newSize) && (e.cur > 0 ==> c != ChunkOf(cs, e.cur - 1))
  {
    hide NumChunks, ChunkOf, SubsOf, ClearChunks;
    var from, n := ChunkOf(cs, newSize), NumChunks(newSize, cs);
    ClearChunksBits(cs, e, from, 8 * e.width);
    var r := ResizedEntry(cs, Some(e), newSize);
    forall c: nat
      ensures c in r.chunks <==> c in e.chunks && c < from && (e.cur > 0 ==> c != ChunkOf(cs, e.cur - 1))
      ensures c in r.chunks ==> BitOK(cs, r, c)
    {
      if c < from { BoundaryChunk(cs, newSize, c); }
      assert c in e.chunks ==> BitOK(cs, e, c);
    }
  }

  /** Chunks below the boundary chunk exist in the resized file. */
  lemma BoundaryChunk(cs: nat, newSize: nat, c: nat)
    requires cs > 0 && c < ChunkOf(cs, newSize)
    ensures c < NumChunks(newSize, cs)
  {
    hide NumChunks, ChunkOf, Start;
    ChunkOfByte(cs, newSize, ChunkOf(cs, newSize));
    StartMonotonic(cs, c, ChunkOf(cs, newSize));
    NumChunksIs(newSize, cs, c);
  }

  lemma {:induction false} ClearChunksBits(cs: nat, e: Entry, lo: nat, hi: nat)
    ensures var r := ClearChunks(cs, e, lo, hi);
            && r.cur == e.cur && r.width == e.width && |r.hashes| == |e.hashes|
            && (forall c: nat :: c in r.chunks <==> c in e.chunks && !(lo <= c < hi))
    decreases hi - lo
  {
    if lo < hi {
      ClearChunksBits(cs, e, lo, hi - 1);
    }
  }

  lemma StartMonotonic(cs: nat, a: nat, b: nat)
    requires a < b
    ensures Start(cs, a) + cs <= Start(cs, b)
  {
    MulLe(a + 1, b, cs);
    assert (a + 1) * cs == a * cs + cs;
  }

  lemma CallKeepsIndex(cs: nat, hash: seq<Byte> -> Hash, st: State, id: FileVersion, c: Call)
    requires cs > 0 && IndexOK(cs, st) && NonEmpty(c)
    ensures IndexOK(cs, Do(cs, hash, st, id, c))
  {
    hide BitOK, PutChunk, PutSub, WriteChunk, WriteChunkFails, Spliced, Touches, ResizedEntry, Start, NumChunks;
    match c
    case CallPut(idx, w, h) => PutIndex(cs, st, id, idx, w, h);
    case CallPutSub(idx, subOff, w) => PutSubIndex(cs, st, id, idx, subOff, w);
    case CallWriteChunk(idx, chunkOff, w, chunkLen, h) =>
      if WriteChunkFails(cs, st, id, idx, chunkOff, w, chunkLen) {
        FailureKeepsIndex(cs, st, id, idx, chunkOff, w, chunkLen);
      } else {
        WriteChunkIndex(cs, hash, st, id, idx, chunkOff, w, chunkLen, h);
      }
    case CallWriteThrough(idx, chunkOff, w, chunkLen) =>
      if chunkOff == 0 && |w| == chunkLen {
        PutIndex(cs, st, id, idx, w, UNKNOWN_HASH);
      } else if Touches(st, idx, Start(cs, idx) + chunkOff, |w|) {
        SpliceIndex(cs, st, id, idx, Start(cs, idx) + chunkOff, w);
      }
    case CallDrop(idx) => DropIndex(cs, st, idx);
    case CallResize(newSize) =>
      if st.Some? { ResizeIndex(cs, st.value, newSize); } else { FreshResizeIndex(cs, newSize); }
    case CallInvalidate =>
  }

  lemma PutSubIndex(cs: nat, st: State, id: FileVersion, idx: nat, subOff: nat, w: seq<Byte>)
    requires cs > 0 && IndexOK(cs, st)
    ensures IndexOK(cs, Some(PutSub(cs, st, id, idx, subOff, w)))
  {
    hide NumChunks, SubSpan, Load, Start;
    LoadIndex(cs, st, id, Start(cs, idx) + subOff + |w|);
  }

  lemma FailureKeepsIndex(cs: nat, st: State, id: FileVersion, idx: nat, chunkOff: nat, w: seq<Byte>, chunkLen: nat)
    requires cs > 0 && IndexOK(cs, st) && WriteChunkFails(cs, st, id, idx, chunkOff, w, chunkLen)
    ensures IndexOK(cs, Some(st.value.(data := Load(cs, st, id, Start(cs, idx) + chunkOff + |w|).data)))
  {
    hide NumChunks, Load, Start;
  }

  lemma DropIndex(cs: nat, st: State, idx: nat)
    requires cs > 0 && IndexOK(cs, st)
    ensures IndexOK(cs, Dropped(cs, st, idx))
  {
    hide NumChunks, SubsOf;
  }

  lemma FreshResizeIndex(cs: nat, newSize: nat)
    requires cs > 0
    ensures IndexOK(cs, Some(ResizedEntry(cs, None, newSize)))
  {
  }

  /** The index is well formed after any calls whatever, starting from nothing. */
  lemma {:induction false} IndexAlwaysOK(cs: nat, hash: seq<Byte> -> Hash, st: State, id: FileVersion, calls: seq<Call>)
    requires cs > 0 && IndexOK(cs, st) && forall c :: c in calls ==> NonEmpty(c)
    ensures IndexOK(cs, DoAll(cs, hash, st, id, calls))
    decreases |calls|
  {
    hide IndexOK, Do, NonEmpty;
    if calls != [] {
      CallKeepsIndex(cs, hash, st, id, calls[0]);
      IndexAlwaysOK(cs, hash, Do(cs, hash, st, id, calls[0]), id, calls[1..]);
    }
  }

  // ---- the hashed regime over every run -----------------------------------------------------

  lemma MarkWhole(cs: nat, e: Entry, idx: nat, h: Hash)
    requires IsChunkSize(cs) && WholeChunks(cs, Some(e))
    ensures WholeChunks(cs, Some(MarkChunk(cs, e, idx, h)))
  {
    hide Present, ChunkOf, SubsOf;
    forall i: nat | Present(cs, MarkChunk(cs, e, idx, h), i) ensures ChunkOf(cs, i) in e.chunks + {idx} {
      MarkChunkPresence(cs, e, idx, h, i);
    }
  }

  lemma ClearWhole(cs: nat, e: Entry, idx: nat)
    requires IsChunkSize(cs) && WholeChunks(cs, Some(e))
    ensures WholeChunks(cs, Some(ClearChunk(cs, e, idx)))
  {
    hide Present, ChunkOf, SubsOf;
    forall i: nat | Present(cs, ClearChunk(cs, e, idx), i) ensures ChunkOf(cs, i) in e.chunks - {idx} {
      ClearChunkPresence(cs, e, idx, i);
    }
  }

  /** Presence looks at the bits alone. */
  lemma SameBitsWhole(cs: nat, e: Entry, r: Entry)
    requires cs > 0 && WholeChunks(cs, Some(e)) && r.chunks == e.chunks && r.subs == e.subs
    ensures WholeChunks(cs, Some(r))
  {
    hide ChunkOf, SubOf;
    forall i: nat | Present(cs, r, i) ensures ChunkOf(cs, i) in r.chunks {
      assert Present(cs, e, i);
    }
  }

  lemma LoadWhole(cs: nat, st: State, id: FileVersion, minBacking: nat)
    requires cs > 0 && WholeChunks(cs, st)
    ensures WholeChunks(cs, Some(Load(cs, st, id, minBacking)))
  {
    hide ChunkOf, SubOf;
    var r := Load(cs, st, id, minBacking);
    if st.Some? { SameBitsWhole(cs, st.value, r); }
  }

  lemma PutWhole(cs: nat, st: State, id: FileVersion, idx: nat, w: seq<Byte>, h: Hash)
    requires IsChunkSize(cs) && WholeChunks(cs, st)
    ensures WholeChunks(cs, Some(PutChunk(cs, st, id, idx, w, h)))
  {
    hide WholeChunks, Load, MarkChunk, Start;
    var e := Load(cs, st, id, Start(cs, idx) + |w|);
    var d := e.(data := WriteAt(e.data, Start(cs, idx), w));
    LoadWhole(cs, st, id, Start(cs, idx) + |w|);
    SameBitsWhole(cs, e, d);
    MarkWhole(cs, d, idx, h);
  }

  lemma WriteChunkWhole(cs: nat, hash: seq<Byte> -> Hash, st: State, id: FileVersion, idx: nat, chunkOff: nat,
                        w: seq<Byte>, chunkLen: nat, h: Hash)
    requires IsChunkSize(cs) && WholeChunks(cs, st) && chunkOff <= chunkLen
    requires !WriteChunkFails(cs, st, id, idx, chunkOff, w, chunkLen)
    ensures WholeChunks(cs, WriteChunk(cs, hash, st, id, idx, chunkOff, w, chunkLen, h))
  {
    hide WholeChunks, Load, MarkChunk, ClearChunk, PutChunk, Start, Merge;
    if chunkOff == 0 && |w| == chunkLen {
      PutWhole(cs, st, id, idx, w, h);
    } else if st.Some? && idx in st.value.chunks {
      var e := Load(cs, st, id, Start(cs, idx) + chunkOff + |w|);
      var g := Grown(e.(data := WriteAt(e.data, Start(cs, idx) + chunkOff, w)), idx);
      LoadWhole(cs, st, id, Start(cs, idx) + chunkOff + |w|);
      SameBitsWhole(cs, e, g);
      MarkWhole(cs, g, idx, h);
      ClearWhole(cs, g, idx);
    }
  }

  lemma {:induction false} ClearChunksWhole(cs: nat, e: Entry, lo: nat, hi: nat)
    requires IsChunkSize(cs) && WholeChunks(cs, Some(e))
    ensures WholeChunks(cs, Some(ClearChunks(cs, e, lo, hi)))
    decreases hi - lo
  {
    hide WholeChunks, ClearChunk;
    if lo < hi {
      ClearChunksWhole(cs, e, lo, hi - 1);
      ClearWhole(cs, ClearChunks(cs, e, lo, hi - 1), hi - 1);
    }
  }

  lemma ResizeWhole(cs: nat, e: Entry, newSize: nat)
    requires IsChunkSize(cs) && WholeChunks(cs, Some(e)) && IndexOK(cs, Some(e))
    ensures WholeChunks(cs, Some(ResizedEntry(cs, Some(e), newSize)))
  {
    hide NumChunks, ChunkOf, SubOf, SubsOf, ClearChunks;
    var from := ChunkOf(cs, newSize);
    ClearChunksBits(cs, e, from, 8 * e.width);
    ClearChunksWhole(cs, e, from, 8 * e.width);
    var d := ClearChunks(cs, e, from, 8 * e.width);
    var s := if e.cur > 0 then ClearChunk(cs, d, ChunkOf(cs, e.cur - 1)) else d;
    if e.cur > 0 { ClearWhole(cs, d, ChunkOf(cs, e.cur - 1)); }
    var r := ResizedEntry(cs, Some(e), newSize);
    forall i: nat | Present(cs, r, i) ensures ChunkOf(cs, i) in r.chunks {
      assert Present(cs, s, i);
      var c := ChunkOf(cs, i);
      assert c in s.chunks && BitOK(cs, e, c);
      BoundaryChunk(cs, newSize, c);
    }
  }

  lemma CallKeepsWhole(cs: nat, hash: seq<Byte> -> Hash, st: State, id: FileVersion, c: Call)
    requires IsChunkSize(cs) && IndexOK(cs, st) && WholeChunks(cs, st) && NonEmpty(c) && HashedCall(c)
    ensures WholeChunks(cs, Do(cs, hash, st, id, c))
  {
    hide WholeChunks, IndexOK, PutChunk, WriteChunk, WriteChunkFails, ResizedEntry, ClearChunk, Start, Load;
    match c
    case CallPut(idx, w, h) => PutWhole(cs, st, id, idx, w, h);
    case CallWriteChunk(idx, chunkOff, w, chunkLen, h) =>
      if WriteChunkFails(cs, st, id, idx, chunkOff, w, chunkLen) {
        assert st.Some? by { FailsSome(cs, st, id, idx, chunkOff, w, chunkLen); }
        SameBitsWhole(cs, st.value, Do(cs, hash, st, id, c).value);
      } else {
        WriteChunkWhole(cs, hash, st, id, idx, chunkOff, w, chunkLen, h);
      }
    case CallDrop(idx) => if st.Some? { ClearWhole(cs, st.value, idx); }
    case CallResize(newSize) =>
      if st.Some? { ResizeWhole(cs, st.value, newSize); } else { FreshWhole(cs, newSize); }
    case CallInvalidate => NoneWhole(cs);
  }

  lemma FailsSome(cs: nat, st: State, id: FileVersion, idx: nat, chunkOff: nat, w: seq<Byte>, chunkLen: nat)
    requires cs > 0 && WriteChunkFails(cs, st, id, idx, chunkOff, w, chunkLen)
    ensures st.Some?
  {
  }

  lemma FreshWhole(cs: nat, newSize: nat)
    requires cs > 0
    ensures WholeChunks(cs, Some(ResizedEntry(cs, None, newSize)))
  {
  }

  lemma NoneWhole(cs: nat)
    requires cs > 0
    ensures WholeChunks(cs, None)
  {
  }

  lemma {:induction false} HashedRunsWhole(cs: nat, hash: seq<Byte> -> Hash, st: State, id: FileVersion,
                                           calls: seq<Call>)
    requires IsChunkSize(cs) && IndexOK(cs, st) && WholeChunks(cs, st)
    requires forall c :: c in calls ==> NonEmpty(c) && HashedCall(c)
    ensures WholeChunks(cs, DoAll(cs, hash, st, id, calls))
    decreases |calls|
  {
    hide IndexOK, WholeChunks, Do;
    if calls != [] {
      CallKeepsIndex(cs, hash, st, id, calls[0]);
      CallKeepsWhole(cs, hash, st, id, calls[0]);
      HashedRunsWhole(cs, hash, Do(cs, hash, st, id, calls[0]), id, calls[1..]);
    }
  }

  /** Self-healing, over whole runs: after any calls of the hashed regime, let the caller's chunk be
      anything at all and let it be written by a successful WriteChunk with its true hash.  Then any
      ranged read of that chunk misses, or serves the caller's bytes, or the hash has collided. */
  lemma HashedRunHeals(cs: nat, hash: seq<Byte> -> Hash, id: FileVersion, calls: seq<Call>, idx: nat, chunkOff: nat,
                       w: seq<Byte>, chunk: seq<Byte>, subOff: nat, n: nat)
    requires IsChunkSize(cs) && forall c :: c in calls ==> NonEmpty(c) && HashedCall(c)
    requires chunkOff + |w| <= |chunk| <= cs && chunk[chunkOff..chunkOff + |w|] == w
    requires 0 < n && subOff + n <= |chunk|
    requires !WriteChunkFails(cs, DoAll(cs, hash, None, id, calls), id, idx, chunkOff, w, |chunk|)
    ensures var before := DoAll(cs, hash, None, id, calls);
            var st := WriteChunk(cs, hash, before, id, idx, chunkOff, w, |chunk|, hash(chunk));
            var got := GetSub(cs, st, idx, subOff, n);
            || got.None?
            || got == Some(chunk[subOff..subOff + n])
            || (Get(cs, st, idx, |chunk|).Some? && Collision(hash, Get(cs, st, idx, |chunk|).value, chunk))
  {
    hide WholeChunks, IndexOK, DoAll, WriteChunk, WriteChunkFails, GetSub, Get, Collision;
    assert IndexOK(cs, None) && WholeChunks(cs, None) by { NoneWhole(cs); NoneIndex(cs); }
    HashedRunsWhole(cs, hash, None, id, calls);
    var st0 := DoAll(cs, hash, None, id, calls);
    var st := WriteChunk(cs, hash, st0, id, idx, chunkOff, w, |chunk|, hash(chunk));
    WriteChunkHeals(cs, hash, st0, id, idx, chunkOff, w, chunk);
    WriteChunkWhole(cs, hash, st0, id, idx, chunkOff, w, |chunk|, hash(chunk));
    WriteChunkBacked(cs, hash, st0, id, idx, chunkOff, w, |chunk|, hash(chunk));
    SubOfWhole(cs, st, idx, |chunk|, subOff, n);
  }

  lemma NoneIndex(cs: nat)
    requires cs > 0
    ensures IndexOK(cs, None)
  {
  }

  /** A chunk left present by WriteChunk can be read whole. */
  lemma WriteChunkBacked(cs: nat, hash: seq<Byte> -> Hash, st: State, id: FileVersion, idx: nat, chunkOff: nat,
                         w: seq<Byte>, chunkLen: nat, h: Hash)
    requires cs > 0 && chunkOff <= chunkLen
    requires !WriteChunkFails(cs, st, id, idx, chunkOff, w, chunkLen)
    ensures var r := WriteChunk(cs, hash, st, id, idx, chunkOff, w, chunkLen, h);
            r.Some? && idx in r.value.chunks ==> Get(cs, r, idx, chunkLen).Some?
  {
    hide Start, Load, SubsOf, Merge;
    if chunkOff == 0 && |w| == chunkLen {
      PutReadsBack(cs, st, id, idx, w, h);
    }
  }

  /** In the hashed regime a ranged hit is a slice of the whole-chunk hit. */
  lemma SubOfWhole(cs: nat, st: State, idx: nat, chunkLen: nat, subOff: nat, n: nat)
    requires IsChunkSize(cs) && WholeChunks(cs, st) && chunkLen <= cs
    requires st.Some? && idx in st.value.chunks ==> Get(cs, st, idx, chunkLen).Some?
    requires 0 < n && subOff + n <= chunkLen
    ensures GetSub(cs, st, idx, subOff, n).Some? ==>
              Get(cs, st, idx, chunkLen).Some? &&
              GetSub(cs, st, idx, subOff, n).value == Get(cs, st, idx, chunkLen).value[subOff..subOff + n]
  {
    hide Start, ChunkOf, SubsPresent, Present;
    if GetSub(cs, st, idx, subOff, n).Some? {
      var off := Start(cs, idx) + subOff;
      SubsPresentIff(cs, st.value, off, n);
      assert Present(cs, st.value, off);
      ChunkOfByte(cs, off, idx);
      SliceOfSlice(st.value.data, Start(cs, idx), chunkLen, subOff, subOff + n);
    }
  }

  // ---- why the chunk size must be a multiple of the sub-block size --------------------------

  /** With any other chunk size, filling chunk 0 of a file already marks bytes of chunk 1 present
      that were never fetched. */
  lemma UnalignedChunkSizeBreaks(cs: nat, h: Hash)
    requires cs % SUB != 0
    ensures var f: seq<Byte> := seq(2 * cs, _ => 1);
            var id := FileVersion(2 * cs, 0, false);
            var e := PutChunk(cs, None, id, 0, f[..cs], h);
            && !CoherentEntry(cs, e, f)
            && GetSub(cs, Some(e), 1, 0, 1) == Some([0])
  {
    hide Range, Fresh, Overlay;
    var f: seq<Byte> := seq(2 * cs, _ => 1);
    var id := FileVersion(2 * cs, 0, false);
    var e := PutChunk(cs, None, id, 0, f[..cs], h);
    assert Start(cs, 0) == 0 && Start(cs, 1) == cs;
    FreshBacking(cs, id);
    assert |e.data| == 2 * cs && At(e.data, cs) == 0 && At(f, cs) == 1;
    assert FirstSub(cs, 0) == 0 && LastSub(cs, 0) == cs / SUB;
    assert SubOf(cs) in e.subs;
    assert Present(cs, e, cs);
    assert SubsPresent(cs, e, cs, 1) by {
      assert SubSpan(cs, 1) == (SubOf(cs), SubOf(cs));
    }
    assert e.data[cs..cs + 1] == [0];
  }

  lemma FreshBacking(cs: nat, id: FileVersion)
    requires cs > 0 && !id.writable && cs <= id.size
    ensures Load(cs, None, id, cs).data == Zeros(id.size)
  {
  }
}
