/** Coherence of a demand-filled DiskStore entry with its caller's file
    (pkg/blockcache/diskstore.go).

    The invariant: the backing is never longer than the file, it is zero past the recorded size,
    and every present byte equals the caller's byte, both zero-extended.  Every operation keeps it,
    over whole runs, and then whatever a read reports present is the caller's current bytes.

    WriteThrough marks every sub-block it touches as present, covered or not.  Reads stay true after
    it, for every file and whatever follows, exactly when the sub-blocks at the two edges of the write
    are safe.
 */
module DiskCoherence {
  import opened Bytes
  import opened Options
  import opened Bitmaps
  import opened DiskModel
  import opened Caller

  ghost predicate Coherent(cs: nat, st: State, f: seq<Byte>)
    requires cs > 0
  {
    st.Some? ==> CoherentEntry(cs, st.value, f)
  }

  ghost predicate CoherentEntry(cs: nat, e: Entry, f: seq<Byte>)
    requires cs > 0
  {
    && e.cur <= |e.data| <= |f|
    && (forall i: nat :: i >= e.cur ==> At(e.data, i) == 0)
    && (forall i: nat :: Present(cs, e, i) ==> At(e.data, i) == At(f, i))
  }

  // ---- reads --------------------------------------------------------------------------------

  /** GetSub's test over covering sub-blocks says exactly that every byte of the range is present. */
  lemma SubsPresentIff(cs: nat, e: Entry, off: nat, n: nat)
    requires IsChunkSize(cs) && n > 0
    ensures SubsPresent(cs, e, off, n) <==> forall i: nat :: off <= i < off + n ==> Present(cs, e, i)
  {
    hide ChunkOf, SubSpan;
    if SubsPresent(cs, e, off, n) {
      forall i: nat | off <= i < off + n ensures Present(cs, e, i) {
        ByteInSpan(off, n, i);
        SubInOneChunk(cs, i);
      }
    }
    if forall i: nat :: off <= i < off + n ==> Present(cs, e, i) {
      forall s: nat | InSpan(off, n, s) ensures s in e.subs || ChunkOf(cs, s * SUB) in e.chunks {
        SpanIs(off, n, s);
        var i: nat := if s * SUB < off then off else s * SUB;
        assert SubOf(i) == s;
        assert Present(cs, e, i);
        SubInOneChunk(cs, i);
      }
    }
  }

  /** Present bytes inside the backing read back as the file's. */
  lemma PresentRange(cs: nat, e: Entry, f: seq<Byte>, off: nat, n: nat)
    requires cs > 0 && CoherentEntry(cs, e, f)
    requires forall i: nat :: off <= i < off + n ==> Present(cs, e, i)
    ensures ReadAt(e.data, off, n).Some? ==> ReadAt(e.data, off, n).value == Origin(f, off, n)
  {
    hide Present;
    var r := ReadAt(e.data, off, n);
    if r.Some? && n > 0 {
      forall k | 0 <= k < n ensures At(r.value, k) == At(Origin(f, off, n), k) {
        assert Present(cs, e, off + k);
        assert At(e.data, off + k) == At(f, off + k);
      }
      SameBytes(r.value, Origin(f, off, n));
    }
  }

  /** A hit is the caller's bytes, whole. */
  lemma GetSubTruth(cs: nat, st: State, f: seq<Byte>, idx: nat, subOff: nat, n: nat)
    requires IsChunkSize(cs) && Coherent(cs, st, f)
    ensures GetSub(cs, st, idx, subOff, n).Some? ==>
              GetSub(cs, st, idx, subOff, n).value == Origin(f, Start(cs, idx) + subOff, n)
  {
    if GetSub(cs, st, idx, subOff, n).Some? && n > 0 {
      SubsPresentIff(cs, st.value, Start(cs, idx) + subOff, n);
      PresentRange(cs, st.value, f, Start(cs, idx) + subOff, n);
    }
  }

  lemma GetTruth(cs: nat, st: State, f: seq<Byte>, idx: nat, n: nat)
    requires cs > 0 && Coherent(cs, st, f) && n <= cs
    ensures Get(cs, st, idx, n).Some? ==> Get(cs, st, idx, n).value == Origin(f, Start(cs, idx), n)
  {
    hide Start, ChunkOf;
    if Get(cs, st, idx, n).Some? {
      forall i: nat | Start(cs, idx) <= i < Start(cs, idx) + n ensures Present(cs, st.value, i) {
        ChunkOfByte(cs, i, idx);
      }
      PresentRange(cs, st.value, f, Start(cs, idx), n);
    }
  }

  lemma HashRangeTruth(cs: nat, st: State, f: seq<Byte>, idx: nat, off: int, length: int)
    requires cs > 0 && Coherent(cs, st, f)
    ensures HashedRange(cs, st, idx, off, length).Some? ==>
              && 0 <= off && 0 <= length
              && HashedRange(cs, st, idx, off, length).value == Origin(f, Start(cs, idx) + off, length)
  {
    hide Start, ChunkOf, SubSpan;
    if HashedRange(cs, st, idx, off, length).Some? && length > 0 {
      var abs := Start(cs, idx) + off;
      forall i: nat | abs <= i < abs + length ensures Present(cs, st.value, i) {
        ByteInSpan(abs, length, i);
        ChunkOfByte(cs, i, idx);
      }
      PresentRange(cs, st.value, f, abs, length);
    }
  }

  // ---- what each operation keeps ------------------------------------------------------------

  lemma MarkChunkPresence(cs: nat, e: Entry, idx: nat, h: Hash, i: nat)
    requires IsChunkSize(cs)
    ensures Present(cs, MarkChunk(cs, e, idx, h), i) <==> Present(cs, e, i) || ChunkOf(cs, i) == idx
  {
    hide ChunkOf, SubOf, FirstSub, LastSub;
    ChunkSubs(cs, idx, i);
  }

  lemma ClearChunkPresence(cs: nat, e: Entry, idx: nat, i: nat)
    requires IsChunkSize(cs)
    ensures Present(cs, ClearChunk(cs, e, idx), i) <==> Present(cs, e, i) && ChunkOf(cs, i) != idx
  {
    hide ChunkOf, SubOf, FirstSub, LastSub;
    ChunkSubs(cs, idx, i);
  }

  lemma MarkSpanPresence(cs: nat, e: Entry, off: nat, n: nat, i: nat)
    requires cs > 0
    ensures Present(cs, MarkSpan(e, off, n), i) <==> Present(cs, e, i) || InSpan(off, n, SubOf(i))
  {
    hide ChunkOf, SubOf, SubSpan;
  }

  /** Filling a whole chunk, or covering it by a write: the file becomes g, which differs from f
      only where w was put, and w is all that g has in the chunk. */
  lemma PutChunkKeeps(cs: nat, st: State, id: FileVersion, f: seq<Byte>, g: seq<Byte>, idx: nat, w: seq<Byte>, h: Hash)
    requires IsChunkSize(cs) && Coherent(cs, st, f)
    requires Start(cs, idx) + |w| <= |g| && (!id.writable ==> id.size <= |g|)
    requires |f| <= |g|
    requires forall i: nat :: !(Start(cs, idx) <= i < Start(cs, idx) + |w|) ==> At(g, i) == At(f, i)
    requires w == Origin(g, Start(cs, idx), cs)
    ensures CoherentEntry(cs, PutChunk(cs, st, id, idx, w, h), g)
  {
    hide Start, ChunkOf, Present, Load, WriteAt, Origin, Range, GrowHashes;
    var off := Start(cs, idx);
    var e := Load(cs, st, id, off + |w|);
    LoadShape(cs, st, id, f, off + |w|);
    var d := WriteAt(e.data, off, w);
    var r := PutChunk(cs, st, id, idx, w, h);
    forall i: nat | Present(cs, r, i) ensures At(d, i) == At(g, i) {
      MarkChunkPresence(cs, e.(data := d), idx, h, i);
      LoadPresence(cs, st, id, off + |w|, d, i);
      ChunkOfByte(cs, i, idx);
      if st.Some? && Present(cs, st.value, i) {
        assert At(st.value.data, i) == At(f, i);
      }
    }
  }

  /** Loading adds no bits and no bytes. */
  lemma LoadPresence(cs: nat, st: State, id: FileVersion, minBacking: nat, d: seq<Byte>, i: nat)
    requires cs > 0
    ensures Present(cs, Load(cs, st, id, minBacking).(data := d), i) <==> st.Some? && Present(cs, st.value, i)
  {
    hide ChunkOf, SubOf;
  }

  lemma LoadShape(cs: nat, st: State, id: FileVersion, f: seq<Byte>, minBacking: nat)
    requires cs > 0 && Coherent(cs, st, f)
    ensures var e := Load(cs, st, id, minBacking);
            && minBacking <= e.cur <= |e.data|
            && (|e.data| <= |f| || |e.data| <= minBacking || (!id.writable && |e.data| <= id.size))
            && (forall i: nat :: i >= e.cur ==> At(e.data, i) == 0)
            && (forall i: nat :: At(e.data, i) == if st.Some? then At(st.value.data, i) else 0)
  {
    hide Present;
  }

  /** Filling a range: the file becomes g, which differs from f only there. */
  lemma PutSubKeeps(cs: nat, st: State, id: FileVersion, f: seq<Byte>, g: seq<Byte>, idx: nat, subOff: nat,
                    w: seq<Byte>)
    requires IsChunkSize(cs) && Coherent(cs, st, f) && |g| == |f|
    requires (!id.writable ==> id.size <= |f|)
    requires WellPosed(cs, g, FillSub(idx, subOff, |w|)) && w == Origin(g, Start(cs, idx) + subOff, |w|)
    requires forall i: nat :: !(Start(cs, idx) + subOff <= i < Start(cs, idx) + subOff + |w|) ==> At(g, i) == At(f, i)
    ensures CoherentEntry(cs, PutSub(cs, st, id, idx, subOff, w), g)
  {
    hide Start, Present, InSpan, SubOf, Load, WriteAt, Origin, SubSpan, Range;
    var off := Start(cs, idx) + subOff;
    var e := Load(cs, st, id, off + |w|);
    LoadShape(cs, st, id, f, off + |w|);
    var d := WriteAt(e.data, off, w);
    var r := PutSub(cs, st, id, idx, subOff, w);
    StartAligned(cs, idx);
    assert off % SUB == 0;
    forall i: nat | Present(cs, r, i) ensures At(d, i) == At(g, i) {
      MarkSpanPresence(cs, e.(data := d), off, |w|, i);
      LoadPresence(cs, st, id, off + |w|, d, i);
      if st.Some? && Present(cs, st.value, i) {
        assert At(st.value.data, i) == At(f, i);
      } else {
        AlignedSpan(off, |w|, i);
      }
    }
  }

  lemma ClearKeeps(cs: nat, e: Entry, f: seq<Byte>, idx: nat)
    requires IsChunkSize(cs) && CoherentEntry(cs, e, f)
    ensures CoherentEntry(cs, ClearChunk(cs, e, idx), f)
  {
    hide Present;
    forall i: nat | Present(cs, ClearChunk(cs, e, idx), i) ensures At(e.data, i) == At(f, i) {
      ClearChunkPresence(cs, e, idx, i);
    }
  }

  /** Truncating backing and file together keeps them equal wherever bits survive. */
  lemma CutKeeps(cs: nat, e: Entry, f: seq<Byte>, newSize: nat)
    requires cs > 0 && CoherentEntry(cs, e, f)
    ensures CoherentEntry(cs, CutTo(cs, e, newSize), Resized(f, newSize))
  {
    hide ChunkOf, SubOf, NumChunks;
    var r := CutTo(cs, e, newSize);
    forall i: nat | Present(cs, r, i) ensures At(r.data, i) == At(Resized(f, newSize), i) {
      assert Present(cs, e, i);
    }
  }

  lemma {:induction false} ClearChunksKeeps(cs: nat, e: Entry, f: seq<Byte>, lo: nat, hi: nat)
    requires IsChunkSize(cs) && CoherentEntry(cs, e, f)
    ensures CoherentEntry(cs, ClearChunks(cs, e, lo, hi), f)
    decreases hi - lo
  {
    hide ClearChunk, CoherentEntry;
    if lo < hi {
      ClearChunksKeeps(cs, e, f, lo, hi - 1);
      ClearKeeps(cs, ClearChunks(cs, e, lo, hi - 1), f, hi - 1);
    }
  }

  lemma ResizeKeeps(cs: nat, st: State, f: seq<Byte>, newSize: nat)
    requires IsChunkSize(cs) && Coherent(cs, st, f)
    ensures CoherentEntry(cs, ResizedEntry(cs, st, newSize), Resized(f, newSize))
  {
    hide ClearChunk, ClearChunks, CutTo, ChunkOf, SubOf;
    if st.Some? {
      var e := st.value;
      var d := ClearChunks(cs, e, ChunkOf(cs, newSize), 8 * e.width);
      ClearChunksKeeps(cs, e, f, ChunkOf(cs, newSize), 8 * e.width);
      if e.cur > 0 {
        ClearKeeps(cs, d, f, ChunkOf(cs, e.cur - 1));
        CutKeeps(cs, ClearChunk(cs, d, ChunkOf(cs, e.cur - 1)), f, newSize);
      } else {
        CutKeeps(cs, d, f, newSize);
      }
    }
  }

  // ---- WriteThrough -------------------------------------------------------------------------

  /** Each sub-block at an edge of the write is present already, fully covered on that side, or
      has nothing of the old file on that side. */
  ghost predicate EdgesSafe(cs: nat, e: Entry, fileLen: nat, off: nat, n: nat)
    requires cs > 0 && n > 0
  {
    && (off % SUB == 0 || Present(cs, e, off) || SubOf(off) * SUB >= fileLen)
    && ((off + n) % SUB == 0 || Present(cs, e, off + n - 1) || off + n >= fileLen)
  }

  /** The write takes WriteThrough's partial branch: it changes the entry without covering the chunk. */
  ghost predicate PartialWrite(cs: nat, st: State, f: seq<Byte>, idx: nat, chunkOff: nat, w: seq<Byte>) {
    var off := Start(cs, idx) + chunkOff;
    var chunkLen := ChunkLen(cs, idx, |WriteAt(f, off, w)|);
    !(chunkOff == 0 && |w| == chunkLen) && Touches(st, idx, off, |w|)
  }

  ghost function Written(cs: nat, st: State, id: FileVersion, f: seq<Byte>, idx: nat, chunkOff: nat,
                         w: seq<Byte>): State
    requires cs > 0
  {
    WriteThrough(cs, st, id, idx, chunkOff, w, ChunkLen(cs, idx, |WriteAt(f, Start(cs, idx) + chunkOff, w)|))
  }

  /** Bytes in the sub-blocks of a safe write that it does not cover were right already. */
  lemma UncoveredEdge(cs: nat, e: Entry, f: seq<Byte>, off: nat, n: nat, i: nat)
    requires IsChunkSize(cs) && n > 0 && CoherentEntry(cs, e, f)
    requires EdgesSafe(cs, e, |f|, off, n)
    requires InSpan(off, n, SubOf(i)) && !(off <= i < off + n)
    ensures At(e.data, i) == At(f, i)
  {
    hide ChunkOf;
    var edge := if i < off then off else off + n - 1;
    assert SubOf(i) == SubOf(edge);
    SameSubSameChunk(cs, i, edge);
    assert Present(cs, e, edge) <==> Present(cs, e, i);
  }

  /** A write that meets nothing cached changes no present byte of the file. */
  lemma UntouchedKeeps(cs: nat, e: Entry, f: seq<Byte>, idx: nat, chunkOff: nat, w: seq<Byte>)
    requires cs > 0 && CoherentEntry(cs, e, f)
    requires WellPosed(cs, f, Write(idx, chunkOff, w))
    requires !Touches(Some(e), idx, Start(cs, idx) + chunkOff, |w|)
    ensures CoherentEntry(cs, e, WriteAt(f, Start(cs, idx) + chunkOff, w))
  {
    hide Start, ChunkOf, InSpan, SubOf;
    var off := Start(cs, idx) + chunkOff;
    forall i: nat | Present(cs, e, i) ensures At(e.data, i) == At(WriteAt(f, off, w), i) {
      assert At(e.data, i) == At(f, i);
      if off <= i < off + |w| {
        ByteInSpan(off, |w|, i);
        ChunkOfByte(cs, i, idx);
      }
    }
  }

  /** What a partial write does to the bytes and to presence. */
  lemma PartialResult(cs: nat, e: Entry, id: FileVersion, f: seq<Byte>, idx: nat, chunkOff: nat, w: seq<Byte>)
    requires cs > 0 && CoherentEntry(cs, e, f)
    requires w != [] && PartialWrite(cs, Some(e), f, idx, chunkOff, w)
    ensures Written(cs, Some(e), id, f, idx, chunkOff, w).Some?
    ensures var r := Written(cs, Some(e), id, f, idx, chunkOff, w).value;
            var off := Start(cs, idx) + chunkOff;
            && r.cur <= |r.data| <= |WriteAt(f, off, w)|
            && (forall i: nat :: i >= r.cur ==> At(r.data, i) == 0)
            && (forall i: nat :: At(r.data, i) == if off <= i < off + |w| then w[i - off] else At(e.data, i))
            && (forall i: nat :: Present(cs, r, i) <==> Present(cs, e, i) || InSpan(off, |w|, SubOf(i)))
  {
    hide Start, ChunkOf, SubOf, SubSpan, Touches;
    LoadShape(cs, Some(e), id, f, Start(cs, idx) + chunkOff + |w|);
  }

  lemma PartialKeeps(cs: nat, e: Entry, id: FileVersion, f: seq<Byte>, idx: nat, chunkOff: nat, w: seq<Byte>)
    requires IsChunkSize(cs) && CoherentEntry(cs, e, f)
    requires WellPosed(cs, f, Write(idx, chunkOff, w))
    requires PartialWrite(cs, Some(e), f, idx, chunkOff, w)
    requires EdgesSafe(cs, e, |f|, Start(cs, idx) + chunkOff, |w|)
    ensures Coherent(cs, Written(cs, Some(e), id, f, idx, chunkOff, w), WriteAt(f, Start(cs, idx) + chunkOff, w))
  {
    hide Present, Written, Start, EdgesSafe, InSpan, SubOf, PartialWrite;
    PartialResult(cs, e, id, f, idx, chunkOff, w);
    var off := Start(cs, idx) + chunkOff;
    var r := Written(cs, Some(e), id, f, idx, chunkOff, w).value;
    forall i: nat | Present(cs, r, i) ensures At(r.data, i) == At(WriteAt(f, off, w), i) {
      if !(off <= i < off + |w|) && !Present(cs, e, i) {
        UncoveredEdge(cs, e, f, off, |w|, i);
      }
    }
  }

  lemma FullWriteKeeps(cs: nat, st: State, id: FileVersion, f: seq<Byte>, idx: nat, w: seq<Byte>)
    requires IsChunkSize(cs) && Coherent(cs, st, f) && id.writable && w != []
    requires |w| == ChunkLen(cs, idx, |WriteAt(f, Start(cs, idx), w)|)
    ensures CoherentEntry(cs, PutChunk(cs, st, id, idx, w, UNKNOWN_HASH), WriteAt(f, Start(cs, idx), w))
  {
    hide Start, Coherent, CoherentEntry, PutChunk;
    var g := WriteAt(f, Start(cs, idx), w);
    FullCover(cs, f, idx, w);
    PutChunkKeeps(cs, st, id, f, g, idx, w, UNKNOWN_HASH);
  }

  lemma WriteThroughKeeps(cs: nat, st: State, id: FileVersion, f: seq<Byte>, idx: nat, chunkOff: nat, w: seq<Byte>)
    requires IsChunkSize(cs) && Coherent(cs, st, f) && id.writable
    requires WellPosed(cs, f, Write(idx, chunkOff, w))
    requires PartialWrite(cs, st, f, idx, chunkOff, w) ==> EdgesSafe(cs, st.value, |f|, Start(cs, idx) + chunkOff, |w|)
    ensures Coherent(cs, Written(cs, st, id, f, idx, chunkOff, w), WriteAt(f, Start(cs, idx) + chunkOff, w))
  {
    hide Start, CoherentEntry, Present, EdgesSafe, ChunkLen, Touches, PutChunk, Spliced;
    if chunkOff == 0 && |w| == ChunkLen(cs, idx, |WriteAt(f, Start(cs, idx) + chunkOff, w)|) {
      assert Start(cs, idx) + chunkOff == Start(cs, idx);
      FullWriteKeeps(cs, st, id, f, idx, w);
    } else if Touches(st, idx, Start(cs, idx) + chunkOff, |w|) {
      assert st.Some? by { TouchesSome(st, idx, Start(cs, idx) + chunkOff, |w|); }
      PartialKeeps(cs, st.value, id, f, idx, chunkOff, w);
    } else if st.Some? {
      UntouchedKeeps(cs, st.value, f, idx, chunkOff, w);
    }
  }

  lemma TouchesSome(st: State, idx: nat, off: nat, n: nat)
    requires Touches(st, idx, off, n)
    ensures st.Some?
  {
  }

  // ---- whole runs ---------------------------------------------------------------------------

  /** The store's side of an operation. */
  ghost function Apply(cs: nat, st: State, id: FileVersion, f: seq<Byte>, op: Op): State
    requires cs > 0
  {
    match op
    case Fill(idx, h) => Some(PutChunk(cs, st, id, idx, Origin(f, Start(cs, idx), cs), h))
    case FillSub(idx, subOff, n) => Some(PutSub(cs, st, id, idx, subOff, Origin(f, Start(cs, idx) + subOff, n)))
    case Write(idx, chunkOff, w) => Written(cs, st, id, f, idx, chunkOff, w)
    case Drop(idx) => Dropped(cs, st, idx)
    case Resize(newSize) => Some(ResizedEntry(cs, st, newSize))
    case Invalidate => None
  }

  /** What the caller owes: a well-posed operation, and safe edges for a partial write. */
  ghost predicate Safe(cs: nat, st: State, f: seq<Byte>, op: Op)
    requires cs > 0
  {
    && WellPosed(cs, f, op)
    && (op.Write? && PartialWrite(cs, st, f, op.idx, op.chunkOff, op.w) ==>
          EdgesSafe(cs, st.value, |f|, Start(cs, op.idx) + op.chunkOff, |op.w|))
  }

  /** Every operation is safe at the moment it is made. */
  ghost predicate SafeRun(cs: nat, st: State, id: FileVersion, f: seq<Byte>, ops: seq<Op>)
    requires cs > 0
    decreases |ops|
  {
    ops == [] ||
    (Safe(cs, st, f, ops[0]) && SafeRun(cs, Apply(cs, st, id, f, ops[0]), id, NextFile(cs, f, ops[0]), ops[1..]))
  }

  /** The store and the caller's file after the operations. */
  ghost function Run(cs: nat, st: State, id: FileVersion, f: seq<Byte>, ops: seq<Op>): (State, seq<Byte>)
    requires cs > 0
    decreases |ops|
  {
    if ops == [] then (st, f)
    else Run(cs, Apply(cs, st, id, f, ops[0]), id, NextFile(cs, f, ops[0]), ops[1..])
  }

  lemma StepKeeps(cs: nat, st: State, id: FileVersion, f: seq<Byte>, op: Op)
    requires IsChunkSize(cs) && Coherent(cs, st, f) && id.writable && Safe(cs, st, f, op)
    ensures Coherent(cs, Apply(cs, st, id, f, op), NextFile(cs, f, op))
  {
    hide PutChunk, PutSub, Written, ResizedEntry, ClearChunk, PartialWrite, EdgesSafe, CoherentEntry, Start;
    match op
    case Fill(idx, h) =>
      var w := Origin(f, Start(cs, idx), cs);
      PutChunkKeeps(cs, st, id, f, f, idx, w, h);
    case FillSub(idx, subOff, n) =>
      var w := Origin(f, Start(cs, idx) + subOff, n);
      assert |w| == n;
      PutSubKeeps(cs, st, id, f, f, idx, subOff, w);
    case Write(idx, chunkOff, w) => WriteThroughKeeps(cs, st, id, f, idx, chunkOff, w);
    case Drop(idx) => if st.Some? { ClearKeeps(cs, st.value, f, idx); }
    case Resize(newSize) => ResizeKeeps(cs, st, f, newSize);
    case Invalidate =>
  }

  /** Demand-fill coherence over every run. */
  lemma {:induction false} RunKeeps(cs: nat, st: State, id: FileVersion, f: seq<Byte>, ops: seq<Op>)
    requires IsChunkSize(cs) && Coherent(cs, st, f) && id.writable
    requires SafeRun(cs, st, id, f, ops)
    ensures Coherent(cs, Run(cs, st, id, f, ops).0, Run(cs, st, id, f, ops).1)
    decreases |ops|
  {
    hide Coherent, Apply, Safe, NextFile;
    if ops != [] {
      StepKeeps(cs, st, id, f, ops[0]);
      RunKeeps(cs, Apply(cs, st, id, f, ops[0]), id, NextFile(cs, f, ops[0]), ops[1..]);
    }
  }

  /** Starting from nothing cached, every hit after any run is the caller's current bytes. */
  lemma RunReadsTrue(cs: nat, id: FileVersion, f0: seq<Byte>, ops: seq<Op>, idx: nat, subOff: nat, n: nat)
    requires IsChunkSize(cs) && id.writable && SafeRun(cs, None, id, f0, ops)
    ensures var (st, f) := Run(cs, None, id, f0, ops);
            && (GetSub(cs, st, idx, subOff, n).Some? ==>
                  GetSub(cs, st, idx, subOff, n).value == Origin(f, Start(cs, idx) + subOff, n))
            && (n <= cs && Get(cs, st, idx, n).Some? ==> Get(cs, st, idx, n).value == Origin(f, Start(cs, idx), n))
            && (HashedRange(cs, st, idx, subOff, n).Some? ==>
                  HashedRange(cs, st, idx, subOff, n).value == Origin(f, Start(cs, idx) + subOff, n))
  {
    hide Run, SafeRun, GetSub, Get, HashedRange, Start, CoherentEntry;
    RunKeeps(cs, None, id, f0, ops);
    var (st, f) := Run(cs, None, id, f0, ops);
    GetSubTruth(cs, st, f, idx, subOff, n);
    if n <= cs { GetTruth(cs, st, f, idx, n); }
    HashRangeTruth(cs, st, f, idx, subOff, n);
  }

  // ---- when edges are not safe --------------------------------------------------------------

  ghost predicate ReadsTrue(cs: nat, st: State, f: seq<Byte>)
    requires cs > 0
  {
    && (forall idx: nat, off: nat, n: nat :: GetSub(cs, st, idx, off, n).Some? ==>
          GetSub(cs, st, idx, off, n).value == Origin(f, Start(cs, idx) + off, n))
    && (forall idx: nat, n: nat :: n <= cs && Get(cs, st, idx, n).Some? ==>
          Get(cs, st, idx, n).value == Origin(f, Start(cs, idx), n))
    && (forall idx: nat, off: nat, n: nat :: HashedRange(cs, st, idx, off, n).Some? ==>
          HashedRange(cs, st, idx, off, n).value == Origin(f, Start(cs, idx) + off, n))
  }

  /** Every hit is the caller's current bytes, now and after whatever safe operations follow. */
  ghost predicate StaysTrue(cs: nat, st: State, id: FileVersion, f: seq<Byte>)
    requires cs > 0
  {
    forall ops: seq<Op> :: SafeRun(cs, st, id, f, ops) ==>
      ReadsTrue(cs, Run(cs, st, id, f, ops).0, Run(cs, st, id, f, ops).1)
  }

  lemma CoherentReadsTrue(cs: nat, st: State, f: seq<Byte>)
    requires IsChunkSize(cs) && Coherent(cs, st, f)
    ensures ReadsTrue(cs, st, f)
  {
    hide Coherent, GetSub, Get, HashedRange, Start;
    forall idx: nat, off: nat, n: nat
      ensures GetSub(cs, st, idx, off, n).Some? ==>
                GetSub(cs, st, idx, off, n).value == Origin(f, Start(cs, idx) + off, n)
      ensures HashedRange(cs, st, idx, off, n).Some? ==>
                HashedRange(cs, st, idx, off, n).value == Origin(f, Start(cs, idx) + off, n)
    {
      GetSubTruth(cs, st, f, idx, off, n);
      HashRangeTruth(cs, st, f, idx, off, n);
    }
    forall idx: nat, n: nat | n <= cs
      ensures Get(cs, st, idx, n).Some? ==> Get(cs, st, idx, n).value == Origin(f, Start(cs, idx), n)
    {
      GetTruth(cs, st, f, idx, n);
    }
  }

  lemma CoherentStaysTrue(cs: nat, st: State, id: FileVersion, f: seq<Byte>)
    requires IsChunkSize(cs) && Coherent(cs, st, f) && id.writable
    ensures StaysTrue(cs, st, id, f)
  {
    hide Coherent, SafeRun, Run, ReadsTrue;
    forall ops: seq<Op> | SafeRun(cs, st, id, f, ops)
      ensures ReadsTrue(cs, Run(cs, st, id, f, ops).0, Run(cs, st, id, f, ops).1)
    {
      RunKeeps(cs, st, id, f, ops);
      CoherentReadsTrue(cs, Run(cs, st, id, f, ops).0, Run(cs, st, id, f, ops).1);
    }
  }

  /** The backing is at least as long as the recorded size, and zero past it. */
  ghost predicate ZeroPast(e: Entry) {
    e.cur <= |e.data| && forall i: nat :: i >= e.cur ==> At(e.data, i) == 0
  }

  /** Byte p is marked present, and is not the caller's. */
  ghost predicate Wrong(cs: nat, st: State, f: seq<Byte>, p: nat)
    requires cs > 0
  {
    && st.Some? && ZeroPast(st.value) && Present(cs, st.value, p)
    && p < |f| && At(st.value.data, p) != At(f, p)
  }

  /** Inside the backing such a byte is served. */
  lemma WrongIsServed(cs: nat, st: State, f: seq<Byte>, p: nat, idx: nat)
    requires IsChunkSize(cs) && Wrong(cs, st, f, p) && p < |st.value.data| && Start(cs, idx) <= p
    ensures GetSub(cs, st, idx, p - Start(cs, idx), 1).Some?
    ensures GetSub(cs, st, idx, p - Start(cs, idx), 1).value != Origin(f, p, 1)
  {
    hide Start, Present;
    SubsPresentIff(cs, st.value, p, 1);
    assert st.value.data[p..p + 1][0] == At(st.value.data, p);
    assert Origin(f, p, 1)[0] == At(f, p);
  }

  lemma LoadBytes(cs: nat, e: Entry, id: FileVersion, min: nat)
    requires cs > 0 && ZeroPast(e)
    ensures var l := Load(cs, Some(e), id, min);
            ZeroPast(l) && min <= l.cur && forall i: nat :: At(l.data, i) == At(e.data, i)
  {
  }

  /** The operation that writes the one byte q. */
  function WriteByte(cs: nat, q: nat): (op: Op)
    requires cs > 0
    ensures op.Write? && op.idx == ChunkOf(cs, q)
  {
    ChunkOfByte(cs, q, ChunkOf(cs, q));
    Write(ChunkOf(cs, q), q - Start(cs, ChunkOf(cs, q)), [0])
  }

  /** Writing another byte leaves it wrong, and backs q if anything is cached there. */
  lemma WriteLeavesWrong(cs: nat, st: State, id: FileVersion, f: seq<Byte>, p: nat, q: nat)
    requires cs > 0 && Wrong(cs, st, f, p) && q != p
    ensures var op := WriteByte(cs, q);
            var st' := Apply(cs, st, id, f, op);
            && NextFile(cs, f, op) == WriteAt(f, q, [0]) && Wrong(cs, st', WriteAt(f, q, [0]), p)
            && (Present(cs, st.value, q) ==> q < |st'.value.data|)
  {
    hide Start, ChunkOf, SubOf, WriteAt, Load, Range, SubSpan, GrowHashes, SubsOf;
    var e, idx := st.value, ChunkOf(cs, q);
    ChunkOfByte(cs, q, idx);
    LoadBytes(cs, e, id, q + 1);
    LoadPresence(cs, st, id, q + 1, WriteAt(Load(cs, st, id, q + 1).data, q, [0]), p);
    if Present(cs, e, q) {
      ByteInSpan(q, 1, q);
    }
  }

  /** So does filling bytes above it, which backs it too. */
  lemma FillLeavesWrong(cs: nat, st: State, id: FileVersion, f: seq<Byte>, p: nat, idx: nat, off: nat, n: nat)
    requires cs > 0 && Wrong(cs, st, f, p) && n > 0
    requires p < Start(cs, idx) + off && Start(cs, idx) + off + n <= |f|
    ensures var st' := Apply(cs, st, id, f, FillSub(idx, off, n));
            Wrong(cs, st', f, p) && p < |st'.value.data|
  {
    hide Start, ChunkOf, SubOf, WriteAt, Load, Range, SubSpan, Origin;
    var abs, w := Start(cs, idx) + off, Origin(f, Start(cs, idx) + off, n);
    LoadBytes(cs, st.value, id, abs + |w|);
    LoadPresence(cs, st, id, abs + |w|, WriteAt(Load(cs, st, id, abs + |w|).data, abs, w), p);
  }

  lemma OneStep(cs: nat, st: State, id: FileVersion, f: seq<Byte>, op: Op)
    requires cs > 0
    ensures SafeRun(cs, st, id, f, [op]) <==> Safe(cs, st, f, op)
    ensures Run(cs, st, id, f, [op]) == (Apply(cs, st, id, f, op), NextFile(cs, f, op))
  {
    hide Apply, Safe, NextFile;
    assert [op][1..] == [];
  }

  lemma FirstStep(cs: nat, st: State, id: FileVersion, f: seq<Byte>, op: Op, ops: seq<Op>)
    requires cs > 0
    ensures var (st', f') := (Apply(cs, st, id, f, op), NextFile(cs, f, op));
            && (SafeRun(cs, st, id, f, [op] + ops) <==> Safe(cs, st, f, op) && SafeRun(cs, st', id, f', ops))
            && Run(cs, st, id, f, [op] + ops) == Run(cs, st', id, f', ops)
  {
    hide Apply, Safe, NextFile;
    assert ([op] + ops)[1..] == ops;
  }

  /** Filling the sub-block above p, when the file has one. */
  lemma FillAbove(cs: nat, st: State, id: FileVersion, f: seq<Byte>, p: nat) returns (op: Op)
    requires IsChunkSize(cs) && Wrong(cs, st, f, p) && (p + 1) % SUB == 0 && p + 1 < |f|
    ensures Safe(cs, st, f, op) && NextFile(cs, f, op) == f
    ensures var st' := Apply(cs, st, id, f, op); Wrong(cs, st', f, p) && p < |st'.value.data|
  {
    hide Start, ChunkOf, Wrong, Apply;
    var q := p + 1;
    var idx, n := ChunkOf(cs, q), Min(SUB, |f| - q);
    ChunkOfByte(cs, q, idx);
    StartAligned(cs, idx);
    var off := q - Start(cs, idx);
    op := FillSub(idx, off, n);
    assert cs - off >= SUB;
    FillLeavesWrong(cs, st, id, f, p, idx, off, n);
  }

  /** A wrong byte past the backing comes to be served after at most two safe operations. */
  lemma WrongIsExposed(cs: nat, st: State, id: FileVersion, f: seq<Byte>, p: nat) returns (ops: seq<Op>)
    requires IsChunkSize(cs) && Wrong(cs, st, f, p) && p < |f|
    ensures SafeRun(cs, st, id, f, ops)
    ensures var (st', f') := Run(cs, st, id, f, ops); Wrong(cs, st', f', p) && p < |st'.value.data|
  {
    hide Wrong, Apply, Run, SafeRun, Safe, ZeroPast;
    var q := p + 1;
    if q % SUB != 0 {
      WriteNextIsSafe(cs, st, f, p);
      WriteLeavesWrong(cs, st, id, f, p, q);
      ops := [WriteByte(cs, q)];
      OneStep(cs, st, id, f, ops[0]);
    } else if q < |f| {
      var op := FillAbove(cs, st, id, f, p);
      ops := [op];
      OneStep(cs, st, id, f, op);
    } else {
      ops := WrongAtEnd(cs, st, id, f, p);
    }
  }

  /** The last byte of the file and of its sub-block: append, then fill what was appended. */
  lemma WrongAtEnd(cs: nat, st: State, id: FileVersion, f: seq<Byte>, p: nat) returns (ops: seq<Op>)
    requires IsChunkSize(cs) && Wrong(cs, st, f, p) && (p + 1) % SUB == 0 && p + 1 == |f|
    ensures SafeRun(cs, st, id, f, ops)
    ensures var (st', f') := Run(cs, st, id, f, ops); Wrong(cs, st', f', p) && p < |st'.value.data|
  {
    hide Wrong, Apply, Run, SafeRun, Safe, ZeroPast, NextFile, WriteAt;
    var append := WriteByte(cs, p + 1);
    WriteEndIsSafe(cs, st, f);
    WriteLeavesWrong(cs, st, id, f, p, p + 1);
    var st1, f1 := Apply(cs, st, id, f, append), WriteAt(f, p + 1, [0]);
    var op := FillAbove(cs, st1, id, f1, p);
    ops := [append] + [op];
    FirstStep(cs, st, id, f, append, [op]);
    OneStep(cs, st1, id, f1, op);
  }

  /** Writing the byte after p, in its sub-block: that sub-block is present. */
  lemma WriteNextIsSafe(cs: nat, st: State, f: seq<Byte>, p: nat)
    requires IsChunkSize(cs) && Wrong(cs, st, f, p) && (p + 1) % SUB != 0
    ensures Safe(cs, st, f, WriteByte(cs, p + 1)) && Present(cs, st.value, p + 1)
  {
    hide Start, ChunkOf;
    var q := p + 1;
    assert SubOf(q) == SubOf(p);
    SameSubSameChunk(cs, p, q);
    ChunkOfByte(cs, q, ChunkOf(cs, q));
  }

  /** Appending at a sub-block boundary. */
  lemma WriteEndIsSafe(cs: nat, st: State, f: seq<Byte>)
    requires cs > 0 && |f| % SUB == 0
    ensures Safe(cs, st, f, WriteByte(cs, |f|))
  {
    hide Start, ChunkOf, Present, Touches;
    ChunkOfByte(cs, |f|, ChunkOf(cs, |f|));
  }

  /** An unsafe edge names a byte of the file that the write marks present without covering it. */
  lemma UnsafeByte(cs: nat, e: Entry, fileLen: nat, off: nat, n: nat) returns (p: nat)
    requires IsChunkSize(cs) && n > 0
    requires !EdgesSafe(cs, e, fileLen, off, n)
    ensures p < fileLen && !(off <= p < off + n) && !Present(cs, e, p)
    ensures InSpan(off, n, SubOf(p))
  {
    hide ChunkOf;
    var first := off % SUB != 0 && !Present(cs, e, off) && SubOf(off) * SUB < fileLen;
    p := if first then SubOf(off) * SUB else off + n;
    var edge := if first then off else off + n - 1;
    assert SubOf(p) == SubOf(edge);
    SameSubSameChunk(cs, p, edge);
  }

  /** With an unsafe edge there is a file of the same length that agrees with everything cached, and at
      most two safe operations after which a read serves a byte that file does not have. */
  lemma WriteThroughBreaks(cs: nat, e: Entry, id: FileVersion, f: seq<Byte>, idx: nat, chunkOff: nat, w: seq<Byte>)
    returns (g: seq<Byte>, ops: seq<Op>, p: nat)
    requires IsChunkSize(cs) && CoherentEntry(cs, e, f)
    requires WellPosed(cs, f, Write(idx, chunkOff, w))
    requires PartialWrite(cs, Some(e), f, idx, chunkOff, w)
    requires !EdgesSafe(cs, e, |f|, Start(cs, idx) + chunkOff, |w|)
    ensures |g| == |f| && CoherentEntry(cs, e, g)
    ensures var (st, h) := (Written(cs, Some(e), id, g, idx, chunkOff, w), WriteAt(g, Start(cs, idx) + chunkOff, w));
            && SafeRun(cs, st, id, h, ops)
            && var (st', h') := Run(cs, st, id, h, ops);
               GetSub(cs, st', 0, p, 1).Some? && GetSub(cs, st', 0, p, 1).value != Origin(h', p, 1)
  {
    hide Present, Written, Start, EdgesSafe, InSpan, SubOf, ChunkLen, Touches, WriteAt, SafeRun, Run, GetSub, Origin;
    var off := Start(cs, idx) + chunkOff;
    p := UnsafeByte(cs, e, |f|, off, |w|);
    g := OtherFile(cs, e, f, p);
    PartialResult(cs, e, id, g, idx, chunkOff, w);
    var st, h := Written(cs, Some(e), id, g, idx, chunkOff, w), WriteAt(g, off, w);
    assert Wrong(cs, st, h, p);
    ops := WrongIsExposed(cs, st, id, h, p);
    assert Start(cs, 0) == 0 by { StartOfFirst(cs); }
    WrongIsServed(cs, Run(cs, st, id, h, ops).0, Run(cs, st, id, h, ops).1, p, 0);
  }

  lemma StartOfFirst(cs: nat)
    ensures Start(cs, 0) == 0
  {
  }

  /** A file that differs from f at an absent byte only, and there from the backing too. */
  lemma OtherFile(cs: nat, e: Entry, f: seq<Byte>, p: nat) returns (g: seq<Byte>)
    requires cs > 0 && CoherentEntry(cs, e, f) && p < |f| && !Present(cs, e, p)
    ensures |g| == |f| && CoherentEntry(cs, e, g) && At(g, p) != At(e.data, p)
  {
    hide Present;
    var wrong: Byte := if At(e.data, p) == 0 then 1 else 0;
    g := f[p := wrong];
    forall i: nat | Present(cs, e, i) ensures At(e.data, i) == At(g, i) {
      assert At(e.data, i) == At(f, i);
    }
  }

  /** The exact, checkable condition for a partial WriteThrough: edges are safe if and only if, for every
      file that agrees with the cache, every read after the write is true and stays so. */
  lemma WriteThroughExact(cs: nat, e: Entry, id: FileVersion, f: seq<Byte>, idx: nat, chunkOff: nat, w: seq<Byte>)
    requires IsChunkSize(cs) && CoherentEntry(cs, e, f) && id.writable
    requires WellPosed(cs, f, Write(idx, chunkOff, w))
    requires PartialWrite(cs, Some(e), f, idx, chunkOff, w)
    ensures EdgesSafe(cs, e, |f|, Start(cs, idx) + chunkOff, |w|) <==>
              forall g: seq<Byte> :: |g| == |f| && CoherentEntry(cs, e, g) ==>
                StaysTrue(cs, Written(cs, Some(e), id, g, idx, chunkOff, w), id,
                          WriteAt(g, Start(cs, idx) + chunkOff, w))
  {
    hide CoherentEntry, EdgesSafe, Written, Start, WriteAt, SafeRun, Run, GetSub, Get, HashedRange;
    if EdgesSafe(cs, e, |f|, Start(cs, idx) + chunkOff, |w|) {
      forall g: seq<Byte> | |g| == |f| && CoherentEntry(cs, e, g)
        ensures StaysTrue(cs, Written(cs, Some(e), id, g, idx, chunkOff, w), id,
                          WriteAt(g, Start(cs, idx) + chunkOff, w))
      {
        WriteThroughKeeps(cs, Some(e), id, g, idx, chunkOff, w);
        CoherentStaysTrue(cs, Written(cs, Some(e), id, g, idx, chunkOff, w), id,
                          WriteAt(g, Start(cs, idx) + chunkOff, w));
      }
    } else {
      var g, ops, p := WriteThroughBreaks(cs, e, id, f, idx, chunkOff, w);
      StartOfFirst(cs);
    }
  }

  /** Nothing exotic is needed to get there: fill the first sub-block of a file, write two bytes across
      its end and one a little further on, and a read of the byte between is wrong. */
  lemma UnsafeEdgeReached(cs: nat, id: FileVersion, f: seq<Byte>, w: seq<Byte>)
    requires IsChunkSize(cs) && cs > SUB && id.writable && |w| == 2
    requires |f| >= 2 * SUB && f[SUB + 1] != 0
    ensures var ops := [FillSub(0, 0, SUB), Write(0, SUB - 1, w), WriteByte(cs, SUB + 2)];
            && WellPosed(cs, f, ops[0]) && WellPosed(cs, f, ops[1]) && WellPosed(cs, f, ops[2])
            && var (st, h) := Run(cs, None, id, f, ops);
               GetSub(cs, st, 0, SUB + 1, 1).Some? && GetSub(cs, st, 0, SUB + 1, 1).value != Origin(h, SUB + 1, 1)
  {
    hide Start, ChunkOf, SubOf, Run, SafeRun, WriteAt, Present, InSpan, Apply, Wrong, GetSub, Origin, NextFile,
         CoherentEntry;
    var one, two, three := FillSub(0, 0, SUB), Write(0, SUB - 1, w), WriteByte(cs, SUB + 2);
    StartOfFirst(cs);
    var st1 := FirstFill(cs, id, f);
    var st2, h := Apply(cs, st1, id, f, two), NextFile(cs, f, two);
    AcrossIsWrong(cs, st1, id, f, w);
    WriteNextIsSafe(cs, st2, h, SUB + 1);
    WriteLeavesWrong(cs, st2, id, h, SUB + 1, SUB + 2);
    WrongIsServed(cs, Apply(cs, st2, id, h, three), NextFile(cs, h, three), SUB + 1, 0);
    assert [one, two, three] == [one] + ([two] + [three]);
    FirstStep(cs, None, id, f, one, [two] + [three]);
    FirstStep(cs, st1, id, f, two, [three]);
    OneStep(cs, st2, id, h, three);
    FillChangesNothing(cs, f, one);
    WriteByteWellPosed(cs, f, SUB + 2);
  }

  lemma FillChangesNothing(cs: nat, f: seq<Byte>, op: Op)
    requires op.FillSub?
    ensures NextFile(cs, f, op) == f
  {
  }

  lemma WriteByteWellPosed(cs: nat, f: seq<Byte>, q: nat)
    requires cs > 0
    ensures WellPosed(cs, f, WriteByte(cs, q))
  {
    hide Start, ChunkOf;
    ChunkOfByte(cs, q, ChunkOf(cs, q));
  }

  /** The write across the end of the cached sub-block marks the next one. */
  lemma AcrossIsWrong(cs: nat, st: State, id: FileVersion, f: seq<Byte>, w: seq<Byte>)
    requires cs > SUB && |w| == 2 && |f| >= 2 * SUB && f[SUB + 1] != 0
    requires Coherent(cs, st, f) && st.Some? && |st.value.data| == SUB && Touches(st, 0, SUB - 1, 2)
    ensures var op := Write(0, SUB - 1, w);
            Wrong(cs, Apply(cs, st, id, f, op), NextFile(cs, f, op), SUB + 1) && (SUB + 2) % SUB != 0
  {
    hide Start, ChunkOf, SubOf, WriteAt, Present, InSpan, Written, Touches;
    StartOfFirst(cs);
    PartialResult(cs, st.value, id, f, 0, SUB - 1, w);
    ByteInSpan(SUB - 1, 2, SUB);
    SecondSub();
  }

  lemma SecondSub()
    ensures SubOf(SUB) == SubOf(SUB + 1) == 1 && (SUB + 2) % SUB != 0
  {
  }

  /** Filling the first sub-block of a file into an empty store. */
  lemma FirstFill(cs: nat, id: FileVersion, f: seq<Byte>) returns (st: State)
    requires IsChunkSize(cs) && cs > SUB && id.writable && |f| >= 2 * SUB
    ensures st == Apply(cs, None, id, f, FillSub(0, 0, SUB)) && Coherent(cs, st, f)
    ensures st.Some? && |st.value.data| == SUB && Touches(st, 0, SUB - 1, 2)
  {
    hide Origin, WriteAt, Range;
    var w := Origin(f, 0, SUB);
    PutSubKeeps(cs, None, id, f, f, 0, 0, w);
    st := Some(PutSub(cs, None, id, 0, 0, w));
    assert 0 in st.value.subs && InSpan(SUB - 1, 2, 0);
  }
}
