/** Coherence of a demand-filled MemStore entry with its caller's file (pkg/blockcache/memstore.go).

    The invariant: no bitmap outlives its chunk, no cached chunk is longer than the file's chunk, and
    every present byte that can come to be served equals the caller's byte, both zero-extended.  As
    for the disk store, reads stay true after a partial WriteThrough, for every file and whatever
    follows, exactly when the edges of the write are safe.
 */
module MemCoherence {
  import opened Bytes
  import opened Options
  import opened Bitmaps
  import opened MemModel
  import opened Caller

  ghost predicate Coherent(cs: nat, st: State, f: seq<Byte>) {
    st.Some? ==> CoherentEntry(cs, st.value, f)
  }

  ghost predicate CoherentEntry(cs: nat, e: Entry, f: seq<Byte>) {
    && e.partial.Keys <= e.chunks.Keys
    && forall idx :: idx in e.chunks ==> ChunkOK(cs, e, idx, f)
  }

  /** A byte past the end of the buffer is served once the buffer grows over it.  Growing to the last
      byte of a chunk always writes that byte, so until then it does not matter. */
  predicate Counts(cs: nat, len: nat, j: nat) {
    j + 1 < cs || (j + 1 == cs && len == cs)
  }

  ghost predicate ChunkOK(cs: nat, e: Entry, idx: nat, f: seq<Byte>)
    requires idx in e.chunks
  {
    && |e.chunks[idx]| <= ChunkLen(cs, idx, |f|)
    && forall j: nat :: Counts(cs, |e.chunks[idx]|, j) && Present(e, idx, j) ==>
         At(e.chunks[idx], j) == At(f, Start(cs, idx) + j)
  }

  // ---- reads --------------------------------------------------------------------------------

  /** GetSub's test over covering sub-blocks says exactly that every byte of the range is present. */
  lemma RangePresentIff(e: Entry, idx: nat, off: nat, n: nat)
    requires n > 0
    ensures RangePresent(e, idx, off, n) <==> forall j: nat :: off <= j < off + n ==> Present(e, idx, j)
  {
    hide SubSpan;
    if RangePresent(e, idx, off, n) {
      forall j: nat | off <= j < off + n ensures Present(e, idx, j) {
        ByteInSpan(off, n, j);
      }
    }
    if forall j: nat :: off <= j < off + n ==> Present(e, idx, j) {
      assert Present(e, idx, off);
      if idx in e.partial {
        forall s: nat | InSpan(off, n, s) ensures s in e.partial[idx] {
          SpanIs(off, n, s);
          var j: nat := if s * SUB < off then off else s * SUB;
          assert SubOf(j) == s;
          assert Present(e, idx, j);
        }
      }
    }
  }

  lemma PresentRange(cs: nat, e: Entry, f: seq<Byte>, idx: nat, off: nat, n: nat)
    requires idx in e.chunks && ChunkOK(cs, e, idx, f) && off + n <= |e.chunks[idx]|
    requires forall j: nat :: off <= j < off + n ==> Present(e, idx, j)
    ensures e.chunks[idx][off..off + n] == Origin(f, Start(cs, idx) + off, n)
  {
    hide Present, Start;
    var r := e.chunks[idx][off..off + n];
    if n > 0 {
      forall k | 0 <= k < n ensures At(r, k) == At(Origin(f, Start(cs, idx) + off, n), k) {
        assert Present(e, idx, off + k);
        assert At(e.chunks[idx], off + k) == At(f, Start(cs, idx) + (off + k));
      }
      SameBytes(r, Origin(f, Start(cs, idx) + off, n));
    }
  }

  lemma GetSubTruth(cs: nat, st: State, f: seq<Byte>, idx: nat, subOff: nat, n: nat)
    requires Coherent(cs, st, f)
    ensures GetSub(st, idx, subOff, n).Some? ==>
              GetSub(st, idx, subOff, n).value == Origin(f, Start(cs, idx) + subOff, n)
  {
    hide ChunkOK, Start;
    if GetSub(st, idx, subOff, n).Some? {
      if n > 0 { RangePresentIff(st.value, idx, subOff, n); }
      assert ChunkOK(cs, st.value, idx, f);
      PresentRange(cs, st.value, f, idx, subOff, n);
    }
  }

  /** A whole-chunk hit is the caller's bytes, as many as it returns. */
  lemma GetTruth(cs: nat, st: State, f: seq<Byte>, idx: nat, n: nat)
    requires Coherent(cs, st, f)
    ensures Get(st, idx, n).Some? ==>
              Get(st, idx, n).value == Origin(f, Start(cs, idx), |Get(st, idx, n).value|)
  {
    hide ChunkOK, Start;
    if Get(st, idx, n).Some? {
      var m := Min(n, |st.value.chunks[idx]|);
      assert ChunkOK(cs, st.value, idx, f);
      PresentRange(cs, st.value, f, idx, 0, m);
    }
  }

  // ---- what each operation keeps ------------------------------------------------------------

  /** An operation on chunk idx that changes the file only inside that chunk. */
  lemma OtherChunks(cs: nat, e: Entry, r: Entry, f: seq<Byte>, g: seq<Byte>, idx: nat)
    requires cs > 0 && CoherentEntry(cs, e, f) && |f| <= |g|
    requires forall i: nat :: !(Start(cs, idx) <= i < Start(cs, idx) + cs) ==> At(g, i) == At(f, i)
    requires r.chunks.Keys <= e.chunks.Keys + {idx} && r.partial.Keys <= e.partial.Keys + {idx}
    requires idx in r.partial ==> idx in r.chunks
    requires forall c :: c in r.chunks && c != idx ==>
               && r.chunks[c] == e.chunks[c] && (c in r.partial <==> c in e.partial)
               && (c in r.partial ==> r.partial[c] == e.partial[c])
    requires forall c :: c in e.partial && c != idx ==> c in r.chunks
    requires idx in r.chunks ==> ChunkOK(cs, r, idx, g)
    ensures CoherentEntry(cs, r, g)
  {
    hide Start, SubOf;
    forall c | c in r.chunks && c != idx ensures ChunkOK(cs, r, c, g) {
      assert ChunkOK(cs, e, c, f);
      forall j: nat | Counts(cs, |r.chunks[c]|, j)
          && Present(r, c, j) ensures At(r.chunks[c], j) == At(g, Start(cs, c) + j) {
        assert Present(e, c, j);
        var i := Start(cs, c) + j;
        ChunkOfByte(cs, i, c);
        ChunkOfByte(cs, i, idx);
      }
    }
  }

  lemma NoneCoherent(cs: nat, f: seq<Byte>)
    ensures CoherentEntry(cs, EMPTY, f)
  {
  }

  /** A whole-chunk fill, or a full-cover write: w is all that g has in the chunk. */
  lemma PutWholeKeeps(cs: nat, st: State, f: seq<Byte>, g: seq<Byte>, idx: nat, w: seq<Byte>, h: Hash)
    requires cs > 0 && Coherent(cs, st, f) && |f| <= |g|
    requires forall i: nat :: !(Start(cs, idx) <= i < Start(cs, idx) + |w|) ==> At(g, i) == At(f, i)
    requires w == Origin(g, Start(cs, idx), cs)
    ensures CoherentEntry(cs, PutWhole(cs, st, idx, w, h), g)
  {
    hide Start, CoherentEntry, Origin;
    NoneCoherent(cs, f);
    var e, r := Loaded(st), PutWhole(cs, st, idx, w, h);
    KeysInclude(cs, e, f);
    forall j: nat | j < cs ensures At(w, j) == At(g, Start(cs, idx) + j) {
      if j < |w| { assert w[j] == At(g, Start(cs, idx) + j); }
    }
    assert ChunkOK(cs, r, idx, g);
    OtherChunks(cs, e, r, f, g, idx);
  }

  lemma KeysInclude(cs: nat, e: Entry, f: seq<Byte>)
    requires CoherentEntry(cs, e, f)
    ensures e.partial.Keys <= e.chunks.Keys
  {
  }

  lemma SpanBitsIs(cs: nat, off: nat, n: nat, s: nat)
    requires cs > 0 && n > 0 && off + n <= cs
    ensures s in SpanBits(cs, off, n) <==> InSpan(off, n, s)
  {
    hide BitCapacity, SubSpan, Range;
    SpanRange(off, n);
    if InSpan(off, n, s) {
      SpanIs(off, n, s);
      CapacityCovers(cs, s);
    }
  }

  /** The bitmap of a chunk has a bit for each of its sub-blocks. */
  lemma CapacityCovers(cs: nat, s: nat)
    requires s * SUB < cs
    ensures s < BitCapacity(cs)
  {
    var n := SubsPerChunk(cs);
    assert s < n;
    assert n <= 64 * BmWords(n);
  }

  /** Only the covered sub-blocks or the sub-block at off are marked, whatever the length. */
  lemma SpanBitsIn(cs: nat, off: nat, n: nat, s: nat)
    requires s in SpanBits(cs, off, n)
    ensures InSpan(off, n, s)
  {
  }

  lemma PutSubKeeps(cs: nat, st: State, f: seq<Byte>, idx: nat, subOff: nat, w: seq<Byte>)
    requires cs > 0 && Coherent(cs, st, f)
    requires WellPosed(cs, f, FillSub(idx, subOff, |w|)) && w == Origin(f, Start(cs, idx) + subOff, |w|)
    ensures CoherentEntry(cs, PutSub(cs, st, idx, subOff, w), f)
  {
    hide Start, CoherentEntry, Origin, Overlay, SpanBits, SubOf, InSpan;
    NoneCoherent(cs, f);
    var e, r := Loaded(st), PutSub(cs, st, idx, subOff, w);
    KeysInclude(cs, e, f);
    var b := ContentsOr(e.chunks, idx);
    if idx in e.chunks { ChunkIsOK(cs, e, idx, f); }
    forall j: nat | Counts(cs, |r.chunks[idx]|, j) && Present(r, idx, j)
      ensures At(r.chunks[idx], j) == At(f, Start(cs, idx) + j)
    {
      if subOff <= j < subOff + |w| {
        assert w[j - subOff] == At(f, Start(cs, idx) + subOff + (j - subOff));
      } else if Present(e, idx, j) {
        assert At(b, j) == At(f, Start(cs, idx) + j);
      } else {
        SpanBitsIn(cs, subOff, |w|, SubOf(j));
        AlignedSpan(subOff, |w|, j);
      }
    }
    assert ChunkOK(cs, r, idx, f);
    OtherChunks(cs, e, r, f, f, idx);
  }

  lemma ChunkIsOK(cs: nat, e: Entry, idx: nat, f: seq<Byte>)
    requires CoherentEntry(cs, e, f) && idx in e.chunks
    ensures ChunkOK(cs, e, idx, f)
  {
  }

  lemma WithoutKeeps(cs: nat, e: Entry, f: seq<Byte>, gone: set<nat>)
    requires CoherentEntry(cs, e, f)
    ensures CoherentEntry(cs, Without(e, gone), f)
  {
    hide SubOf, Start, ChunkLen;
    var r := Without(e, gone);
    forall idx | idx in r.chunks ensures ChunkOK(cs, r, idx, f) {
      assert ChunkOK(cs, e, idx, f);
      assert forall j: nat :: Present(r, idx, j) ==> Present(e, idx, j);
    }
  }

  /** The chunks Resize keeps lie wholly inside the new size, whatever size was recorded before. */
  lemma ResizeKeeps(cs: nat, st: State, f: seq<Byte>, newSize: nat)
    requires cs > 0 && Coherent(cs, st, f)
    ensures CoherentEntry(cs, ResizedEntry(cs, st, newSize), Resized(f, newSize))
  {
    hide SubOf, Start, ChunkOf, Resized;
    var e := Loaded(st);
    if st.None? { NoneCoherent(cs, f); }
    var gone := (set i | i in e.chunks && i >= ChunkOf(cs, newSize)) + Straddle(cs, e.cur);
    WithoutKeeps(cs, e, f, gone);
    var r := ResizedEntry(cs, st, newSize);
    forall idx | idx in r.chunks ensures ChunkOK(cs, r, idx, Resized(f, newSize)) {
      assert ChunkOK(cs, Without(e, gone), idx, f);
      InsideBoundary(cs, newSize, idx);
      assert forall j: nat :: Present(r, idx, j) ==> Present(Without(e, gone), idx, j);
    }
  }

  lemma InsideBoundary(cs: nat, newSize: nat, c: nat)
    requires cs > 0 && c < ChunkOf(cs, newSize)
    ensures Start(cs, c) + cs <= newSize
  {
    hide ChunkOf;
    ChunkOfByte(cs, newSize, ChunkOf(cs, newSize));
    MulLe(c + 1, ChunkOf(cs, newSize), cs);
    assert (c + 1) * cs == c * cs + cs;
  }

  // ---- WriteThrough -------------------------------------------------------------------------

  /** As in the disk store, on offsets within the chunk; validLen is what the file has of the chunk
      before the write.  A write up to the last byte but one does no harm when the buffer ends there. */
  ghost predicate EdgesSafe(cs: nat, e: Entry, idx: nat, validLen: nat, off: nat, n: nat)
    requires n > 0 && idx in e.chunks
  {
    && (off % SUB == 0 || Present(e, idx, off) || SubOf(off) * SUB >= validLen)
    && ((off + n) % SUB == 0 || Present(e, idx, off + n - 1) || off + n >= validLen
        || (off + n + 1 == cs && |e.chunks[idx]| < cs))
  }

  /** The write takes WriteThrough's partial branch. */
  predicate PartialWrite(cs: nat, st: State, f: seq<Byte>, idx: nat, chunkOff: nat, w: seq<Byte>) {
    && !(chunkOff == 0 && |w| == ChunkLen(cs, idx, |WriteAt(f, Start(cs, idx) + chunkOff, w)|))
    && st.Some? && idx in st.value.chunks
  }

  ghost function Written(cs: nat, st: State, f: seq<Byte>, idx: nat, chunkOff: nat, w: seq<Byte>): State {
    WriteThrough(cs, st, idx, chunkOff, w, ChunkLen(cs, idx, |WriteAt(f, Start(cs, idx) + chunkOff, w)|))
  }

  lemma SplicedPresence(cs: nat, e: Entry, idx: nat, off: nat, w: seq<Byte>, j: nat)
    requires cs > 0 && idx in e.chunks && w != [] && off + |w| <= cs
    ensures Present(Spliced(cs, e, idx, off, w), idx, j) <==> Present(e, idx, j) || InSpan(off, |w|, SubOf(j))
  {
    hide SpanBits, SubOf, InSpan;
    SpanBitsIs(cs, off, |w|, SubOf(j));
  }

  lemma UncoveredEdge(cs: nat, e: Entry, f: seq<Byte>, idx: nat, off: nat, n: nat, j: nat)
    requires cs > 0 && idx in e.chunks && ChunkOK(cs, e, idx, f)
    requires 0 < n && off + n <= cs && Counts(cs, Max(|e.chunks[idx]|, off + n), j)
    requires EdgesSafe(cs, e, idx, ChunkLen(cs, idx, |f|), off, n)
    requires InSpan(off, n, SubOf(j)) && !(off <= j < off + n)
    ensures At(e.chunks[idx], j) == At(f, Start(cs, idx) + j)
  {
    hide Start;
    var edge := if j < off then off else off + n - 1;
    assert SubOf(j) == SubOf(edge);
    assert Present(e, idx, edge) <==> Present(e, idx, j);
  }

  lemma PartialKeeps(cs: nat, e: Entry, f: seq<Byte>, idx: nat, chunkOff: nat, w: seq<Byte>)
    requires cs > 0 && CoherentEntry(cs, e, f)
    requires WellPosed(cs, f, Write(idx, chunkOff, w))
    requires PartialWrite(cs, Some(e), f, idx, chunkOff, w)
    requires EdgesSafe(cs, e, idx, ChunkLen(cs, idx, |f|), chunkOff, |w|)
    ensures Coherent(cs, Written(cs, Some(e), f, idx, chunkOff, w), WriteAt(f, Start(cs, idx) + chunkOff, w))
  {
    hide Start, CoherentEntry, EdgesSafe, Present, SpanBits, Overlay, SubOf, InSpan, WriteAt;
    var g := WriteAt(f, Start(cs, idx) + chunkOff, w);
    var r := Spliced(cs, e, idx, chunkOff, w);
    KeysInclude(cs, e, f);
    ChunkIsOK(cs, e, idx, f);
    forall j: nat | Counts(cs, |r.chunks[idx]|, j) && Present(r, idx, j)
      ensures At(r.chunks[idx], j) == At(g, Start(cs, idx) + j)
    {
      SplicedPresence(cs, e, idx, chunkOff, w, j);
      if !(chunkOff <= j < chunkOff + |w|) && !Present(e, idx, j) {
        UncoveredEdge(cs, e, f, idx, chunkOff, |w|, j);
      }
    }
    assert ChunkOK(cs, r, idx, g);
    OtherChunks(cs, e, r, f, g, idx);
  }

  lemma WriteThroughKeeps(cs: nat, st: State, f: seq<Byte>, idx: nat, chunkOff: nat, w: seq<Byte>)
    requires cs > 0 && Coherent(cs, st, f)
    requires WellPosed(cs, f, Write(idx, chunkOff, w))
    requires PartialWrite(cs, st, f, idx, chunkOff, w) ==>
               EdgesSafe(cs, st.value, idx, ChunkLen(cs, idx, |f|), chunkOff, |w|)
    ensures Coherent(cs, Written(cs, st, f, idx, chunkOff, w), WriteAt(f, Start(cs, idx) + chunkOff, w))
  {
    hide Start, CoherentEntry, EdgesSafe, Spliced, PutWhole, WriteAt;
    var g := WriteAt(f, Start(cs, idx) + chunkOff, w);
    if chunkOff == 0 && |w| == ChunkLen(cs, idx, |g|) {
      assert Start(cs, idx) + chunkOff == Start(cs, idx);
      FullCover(cs, f, idx, w);
      PutWholeKeeps(cs, st, f, g, idx, w, UNKNOWN_HASH);
    } else if st.Some? && idx in st.value.chunks {
      PartialKeeps(cs, st.value, f, idx, chunkOff, w);
    } else if st.Some? {
      AbsentKeeps(cs, st.value, f, idx, chunkOff, w);
    }
  }

  lemma AbsentKeeps(cs: nat, e: Entry, f: seq<Byte>, idx: nat, chunkOff: nat, w: seq<Byte>)
    requires cs > 0 && CoherentEntry(cs, e, f) && idx !in e.chunks
    requires WellPosed(cs, f, Write(idx, chunkOff, w))
    ensures CoherentEntry(cs, e, WriteAt(f, Start(cs, idx) + chunkOff, w))
  {
    hide Start, CoherentEntry, WriteAt;
    KeysInclude(cs, e, f);
    OtherChunks(cs, e, e, f, WriteAt(f, Start(cs, idx) + chunkOff, w), idx);
  }

  // ---- whole runs ---------------------------------------------------------------------------

  ghost function Apply(cs: nat, st: State, f: seq<Byte>, op: Op): State
    requires cs > 0
  {
    match op
    case Fill(idx, h) => Some(PutWhole(cs, st, idx, Origin(f, Start(cs, idx), cs), h))
    case FillSub(idx, subOff, n) => Some(PutSub(cs, st, idx, subOff, Origin(f, Start(cs, idx) + subOff, n)))
    case Write(idx, chunkOff, w) => Written(cs, st, f, idx, chunkOff, w)
    case Drop(idx) => Dropped(st, idx)
    case Resize(newSize) => Some(ResizedEntry(cs, st, newSize))
    case Invalidate => None
  }

  ghost predicate Safe(cs: nat, st: State, f: seq<Byte>, op: Op) {
    && WellPosed(cs, f, op)
    && (op.Write? && PartialWrite(cs, st, f, op.idx, op.chunkOff, op.w) ==>
          EdgesSafe(cs, st.value, op.idx, ChunkLen(cs, op.idx, |f|), op.chunkOff, |op.w|))
  }

  ghost predicate SafeRun(cs: nat, st: State, f: seq<Byte>, ops: seq<Op>)
    requires cs > 0
    decreases |ops|
  {
    ops == [] ||
    (Safe(cs, st, f, ops[0]) && SafeRun(cs, Apply(cs, st, f, ops[0]), NextFile(cs, f, ops[0]), ops[1..]))
  }

  /** The store and the caller's file after the operations. */
  ghost function Run(cs: nat, st: State, f: seq<Byte>, ops: seq<Op>): (State, seq<Byte>)
    requires cs > 0
    decreases |ops|
  {
    if ops == [] then (st, f)
    else Run(cs, Apply(cs, st, f, ops[0]), NextFile(cs, f, ops[0]), ops[1..])
  }

  lemma StepKeeps(cs: nat, st: State, f: seq<Byte>, op: Op)
    requires cs > 0 && Coherent(cs, st, f) && Safe(cs, st, f, op)
    ensures Coherent(cs, Apply(cs, st, f, op), NextFile(cs, f, op))
  {
    hide PutWhole, PutSub, Written, ResizedEntry, PartialWrite, EdgesSafe, CoherentEntry, Start, Without;
    match op
    case Fill(idx, h) =>
      var w := Origin(f, Start(cs, idx), cs);
      PutWholeKeeps(cs, st, f, f, idx, w, h);
    case FillSub(idx, subOff, n) =>
      var w := Origin(f, Start(cs, idx) + subOff, n);
      assert |w| == n;
      PutSubKeeps(cs, st, f, idx, subOff, w);
    case Write(idx, chunkOff, w) => WriteThroughKeeps(cs, st, f, idx, chunkOff, w);
    case Drop(idx) => if st.Some? { WithoutKeeps(cs, st.value, f, {idx}); }
    case Resize(newSize) => ResizeKeeps(cs, st, f, newSize);
    case Invalidate =>
  }

  /** Demand-fill coherence over every run. */
  lemma {:induction false} RunKeeps(cs: nat, st: State, f: seq<Byte>, ops: seq<Op>)
    requires cs > 0 && Coherent(cs, st, f) && SafeRun(cs, st, f, ops)
    ensures Coherent(cs, Run(cs, st, f, ops).0, Run(cs, st, f, ops).1)
    decreases |ops|
  {
    hide Coherent, Apply, Safe, NextFile;
    if ops != [] {
      StepKeeps(cs, st, f, ops[0]);
      RunKeeps(cs, Apply(cs, st, f, ops[0]), NextFile(cs, f, ops[0]), ops[1..]);
    }
  }

  /** Starting from nothing cached, every hit after any run is the caller's current bytes. */
  lemma RunReadsTrue(cs: nat, f0: seq<Byte>, ops: seq<Op>, idx: nat, subOff: nat, n: nat)
    requires cs > 0 && SafeRun(cs, None, f0, ops)
    ensures var (st, f) := Run(cs, None, f0, ops);
            && (GetSub(st, idx, subOff, n).Some? ==>
                  GetSub(st, idx, subOff, n).value == Origin(f, Start(cs, idx) + subOff, n))
            && (Get(st, idx, n).Some? ==>
                  Get(st, idx, n).value == Origin(f, Start(cs, idx), |Get(st, idx, n).value|))
            && (HashedRange(st, idx, subOff, n).Some? ==>
                  HashedRange(st, idx, subOff, n).value == Origin(f, Start(cs, idx) + subOff, n))
  {
    hide Run, SafeRun, GetSub, Get, Start, CoherentEntry;
    RunKeeps(cs, None, f0, ops);
    var (st, f) := Run(cs, None, f0, ops);
    GetSubTruth(cs, st, f, idx, subOff, n);
    GetTruth(cs, st, f, idx, n);
  }

  // ---- when edges are not safe --------------------------------------------------------------

  ghost predicate ReadsTrue(cs: nat, st: State, f: seq<Byte>) {
    && (forall idx: nat, off: nat, n: nat :: GetSub(st, idx, off, n).Some? ==>
          GetSub(st, idx, off, n).value == Origin(f, Start(cs, idx) + off, n))
    && (forall idx: nat, n: nat :: Get(st, idx, n).Some? ==>
          Get(st, idx, n).value == Origin(f, Start(cs, idx), |Get(st, idx, n).value|))
  }

  /** Every hit is the caller's current bytes, now and after whatever safe operations follow. */
  ghost predicate StaysTrue(cs: nat, st: State, f: seq<Byte>)
    requires cs > 0
  {
    forall ops: seq<Op> :: SafeRun(cs, st, f, ops) ==> ReadsTrue(cs, Run(cs, st, f, ops).0, Run(cs, st, f, ops).1)
  }

  lemma CoherentStaysTrue(cs: nat, st: State, f: seq<Byte>)
    requires cs > 0 && Coherent(cs, st, f)
    ensures StaysTrue(cs, st, f)
  {
    hide Coherent, SafeRun, Run, GetSub, Get, Start;
    forall ops: seq<Op> | SafeRun(cs, st, f, ops) ensures ReadsTrue(cs, Run(cs, st, f, ops).0, Run(cs, st, f, ops).1) {
      RunKeeps(cs, st, f, ops);
      var (st', f') := Run(cs, st, f, ops);
      forall idx: nat, off: nat, n: nat ensures GetSub(st', idx, off, n).Some? ==>
          GetSub(st', idx, off, n).value == Origin(f', Start(cs, idx) + off, n)
      {
        GetSubTruth(cs, st', f', idx, off, n);
      }
      forall idx: nat, n: nat ensures Get(st', idx, n).Some? ==>
          Get(st', idx, n).value == Origin(f', Start(cs, idx), |Get(st', idx, n).value|)
      {
        GetTruth(cs, st', f', idx, n);
      }
    }
  }

  /** Byte p of the chunk is marked present, and is not the caller's. */
  ghost predicate Wrong(cs: nat, st: State, f: seq<Byte>, idx: nat, p: nat) {
    && st.Some? && idx in st.value.chunks && Present(st.value, idx, p)
    && Start(cs, idx) + p < |f| && At(st.value.chunks[idx], p) != At(f, Start(cs, idx) + p)
  }

  /** Inside the buffer such a byte is served. */
  lemma WrongIsServed(cs: nat, st: State, f: seq<Byte>, idx: nat, p: nat)
    requires Wrong(cs, st, f, idx, p) && p < |st.value.chunks[idx]|
    ensures GetSub(st, idx, p, 1).Some? && GetSub(st, idx, p, 1).value != Origin(f, Start(cs, idx) + p, 1)
  {
    hide Start;
    RangePresentIff(st.value, idx, p, 1);
    assert GetSub(st, idx, p, 1) == Some(st.value.chunks[idx][p..p + 1]);
    assert st.value.chunks[idx][p..p + 1][0] == At(st.value.chunks[idx], p);
    assert Origin(f, Start(cs, idx) + p, 1)[0] == At(f, Start(cs, idx) + p);
  }

  /** Writing another byte of the chunk leaves it wrong. */
  lemma WriteLeavesWrong(cs: nat, st: State, f: seq<Byte>, idx: nat, p: nat, q: nat)
    requires cs > 0 && Wrong(cs, st, f, idx, p) && 0 < q < cs && q != p
    ensures var op := Write(idx, q, [0]);
            var st' := Apply(cs, st, f, op);
            Wrong(cs, st', NextFile(cs, f, op), idx, p) && q < |st'.value.chunks[idx]|
  {
    hide Start, Present, Overlay, SpanBits, WriteAt;
    SplicedPresence(cs, st.value, idx, q, [0], p);
  }

  /** So does filling other bytes of the chunk. */
  lemma FillLeavesWrong(cs: nat, st: State, f: seq<Byte>, idx: nat, p: nat, off: nat, n: nat)
    requires cs > 0 && Wrong(cs, st, f, idx, p) && p < off && Start(cs, idx) + off + n <= |f| && n > 0
    ensures var op := FillSub(idx, off, n);
            var st' := Apply(cs, st, f, op);
            Wrong(cs, st', NextFile(cs, f, op), idx, p) && off < |st'.value.chunks[idx]|
  {
    hide Start, Overlay, SpanBits, Origin, SubOf;
  }

  lemma OneStep(cs: nat, st: State, f: seq<Byte>, op: Op)
    requires cs > 0
    ensures SafeRun(cs, st, f, [op]) <==> Safe(cs, st, f, op)
    ensures Run(cs, st, f, [op]) == (Apply(cs, st, f, op), NextFile(cs, f, op))
  {
    hide Apply, Safe, NextFile;
    assert [op][1..] == [];
  }

  lemma TwoSteps(cs: nat, st: State, f: seq<Byte>, op: Op, op': Op)
    requires cs > 0
    ensures var (st', f') := (Apply(cs, st, f, op), NextFile(cs, f, op));
            && (SafeRun(cs, st, f, [op, op']) <==> Safe(cs, st, f, op) && Safe(cs, st', f', op'))
            && Run(cs, st, f, [op, op']) == (Apply(cs, st', f', op'), NextFile(cs, f', op'))
  {
    hide Apply, NextFile, Safe;
    assert [op, op'][1..] == [op'];
    OneStep(cs, Apply(cs, st, f, op), NextFile(cs, f, op), op');
  }

  /** A wrong byte just past the buffer comes to be served after one safe operation, unless it is the
      last of the chunk. */
  lemma WrongIsExposed(cs: nat, st: State, f: seq<Byte>, idx: nat, p: nat) returns (op: Op)
    requires cs > 0 && Wrong(cs, st, f, idx, p) && p + 1 < cs
    ensures Safe(cs, st, f, op)
    ensures var (st', f') := (Apply(cs, st, f, op), NextFile(cs, f, op));
            Wrong(cs, st', f', idx, p) && p < |st'.value.chunks[idx]|
  {
    hide Start, Apply, NextFile, WriteAt;
    var q := p + 1;
    var left := |f| - (Start(cs, idx) + q);
    if q % SUB == 0 && left > 0 {
      var n := Min(Min(SUB, left), cs - q);
      op := FillSub(idx, q, n);
      FillLeavesWrong(cs, st, f, idx, p, q, n);
    } else {
      op := Write(idx, q, [0]);
      assert q % SUB != 0 ==> SubOf(q) == SubOf(p);
      WriteLeavesWrong(cs, st, f, idx, p, q);
    }
  }

  lemma UnsafeByte(cs: nat, e: Entry, idx: nat, validLen: nat, off: nat, n: nat) returns (p: nat)
    requires n > 0 && idx in e.chunks && validLen <= cs && !EdgesSafe(cs, e, idx, validLen, off, n)
    ensures p < validLen && !(off <= p < off + n) && !Present(e, idx, p)
    ensures InSpan(off, n, SubOf(p))
    ensures p < Max(|e.chunks[idx]|, off + n) || p + 1 < cs
  {
    var first := off % SUB != 0 && !Present(e, idx, off) && SubOf(off) * SUB < validLen;
    p := if first then SubOf(off) * SUB else off + n;
    assert SubOf(p) == SubOf(if first then off else off + n - 1);
  }

  /** With an unsafe edge there is a file of the same length that agrees with everything cached, and at
      most one safe operation after which a read serves a byte that file does not have. */
  lemma WriteThroughBreaks(cs: nat, e: Entry, f: seq<Byte>, idx: nat, chunkOff: nat, w: seq<Byte>)
    returns (g: seq<Byte>, ops: seq<Op>, p: nat)
    requires cs > 0 && CoherentEntry(cs, e, f)
    requires WellPosed(cs, f, Write(idx, chunkOff, w))
    requires PartialWrite(cs, Some(e), f, idx, chunkOff, w)
    requires !EdgesSafe(cs, e, idx, ChunkLen(cs, idx, |f|), chunkOff, |w|)
    ensures |g| == |f| && CoherentEntry(cs, e, g)
    ensures var (st, h) := (Written(cs, Some(e), g, idx, chunkOff, w), WriteAt(g, Start(cs, idx) + chunkOff, w));
            && SafeRun(cs, st, h, ops)
            && var (st', h') := Run(cs, st, h, ops);
               GetSub(st', idx, p, 1).Some? && GetSub(st', idx, p, 1).value != Origin(h', Start(cs, idx) + p, 1)
  {
    hide Start, CoherentEntry, EdgesSafe, Present, SpanBits, Overlay, SubOf, InSpan, WriteAt, Apply, Safe, NextFile,
         GetSub, Origin;
    p := UnsafeByte(cs, e, idx, ChunkLen(cs, idx, |f|), chunkOff, |w|);
    g := OtherFile(cs, e, f, idx, p);
    var after := WriteAt(g, Start(cs, idx) + chunkOff, w);
    var r := Spliced(cs, e, idx, chunkOff, w);
    SplicedPresence(cs, e, idx, chunkOff, w, p);
    assert Wrong(cs, Some(r), after, idx, p);
    if p < |r.chunks[idx]| {
      ops := [];
      WrongIsServed(cs, Some(r), after, idx, p);
    } else {
      var op := WrongIsExposed(cs, Some(r), after, idx, p);
      ops := [op];
      OneStep(cs, Some(r), after, op);
      WrongIsServed(cs, Apply(cs, Some(r), after, op), NextFile(cs, after, op), idx, p);
    }
  }

  /** A file that differs from f at an absent byte only, and there from the buffer too. */
  lemma OtherFile(cs: nat, e: Entry, f: seq<Byte>, idx: nat, p: nat) returns (g: seq<Byte>)
    requires cs > 0 && CoherentEntry(cs, e, f) && idx in e.chunks
    requires p < ChunkLen(cs, idx, |f|) && !Present(e, idx, p)
    ensures |g| == |f| && CoherentEntry(cs, e, g)
    ensures At(g, Start(cs, idx) + p) != At(e.chunks[idx], p)
  {
    hide Start, CoherentEntry, Present;
    var wrong: Byte := if At(e.chunks[idx], p) == 0 then 1 else 0;
    g := f[Start(cs, idx) + p := wrong];
    KeysInclude(cs, e, f);
    ChunkIsOK(cs, e, idx, f);
    assert ChunkOK(cs, e, idx, g);
    OtherChunks(cs, e, e, f, g, idx);
  }

  /** The exact, checkable condition for a partial WriteThrough: edges are safe if and only if, for every
      file that agrees with the cache, every read after the write is true and stays so. */
  lemma WriteThroughExact(cs: nat, e: Entry, f: seq<Byte>, idx: nat, chunkOff: nat, w: seq<Byte>)
    requires cs > 0 && CoherentEntry(cs, e, f)
    requires WellPosed(cs, f, Write(idx, chunkOff, w))
    requires PartialWrite(cs, Some(e), f, idx, chunkOff, w)
    ensures EdgesSafe(cs, e, idx, ChunkLen(cs, idx, |f|), chunkOff, |w|) <==>
              forall g: seq<Byte> :: |g| == |f| && CoherentEntry(cs, e, g) ==>
                StaysTrue(cs, Written(cs, Some(e), g, idx, chunkOff, w), WriteAt(g, Start(cs, idx) + chunkOff, w))
  {
    hide CoherentEntry, EdgesSafe, Written, Start, WriteAt, ChunkLen, SafeRun, Run, GetSub, Get;
    if EdgesSafe(cs, e, idx, ChunkLen(cs, idx, |f|), chunkOff, |w|) {
      forall g: seq<Byte> | |g| == |f| && CoherentEntry(cs, e, g)
        ensures StaysTrue(cs, Written(cs, Some(e), g, idx, chunkOff, w), WriteAt(g, Start(cs, idx) + chunkOff, w))
      {
        WriteThroughKeeps(cs, Some(e), g, idx, chunkOff, w);
        CoherentStaysTrue(cs, Written(cs, Some(e), g, idx, chunkOff, w), WriteAt(g, Start(cs, idx) + chunkOff, w));
      }
    } else {
      var g, ops, p := WriteThroughBreaks(cs, e, f, idx, chunkOff, w);
    }
  }

  lemma SubOfSecond()
    ensures SubOf(SUB) == SubOf(SUB + 1)
  {
  }

  /** Nothing exotic is needed to get there: fill the first sub-block of a file and write one byte inside
      the second, and the byte before it is served as 0. */
  lemma UnsafeEdgeReached(cs: nat, f: seq<Byte>, b: Byte)
    requires cs > SUB + 1 && |f| >= 2 * SUB && f[SUB] != 0
    ensures var ops := [FillSub(0, 0, SUB), Write(0, SUB + 1, [b])];
            && WellPosed(cs, f, ops[0]) && WellPosed(cs, f, ops[1])
            && var (st, h) := Run(cs, None, f, ops);
               GetSub(st, 0, SUB, 1) == Some([0]) && Origin(h, SUB, 1) == [f[SUB]]
  {
    hide Overlay, SpanBits, WriteAt, Origin, Run, SafeRun, SubOf;
    var first, second := FillSub(0, 0, SUB), Write(0, SUB + 1, [b]);
    var one := PutSub(cs, None, 0, 0, Origin(f, 0, SUB));
    var two := Spliced(cs, one, 0, SUB + 1, [b]);
    var h := WriteAt(f, SUB + 1, [b]);
    assert Start(cs, 0) == 0;
    TwoSteps(cs, None, f, first, second);
    assert Run(cs, None, f, [first, second]) == (Some(two), h);
    SplicedPresence(cs, one, 0, SUB + 1, [b], SUB);
    ByteInSpan(SUB + 1, 1, SUB + 1);
    assert SubOf(SUB) == SubOf(SUB + 1) by { SubOfSecond(); }
    RangePresentIff(two, 0, SUB, 1);
    var buf := two.chunks[0];
    assert |buf| == SUB + 2 && At(buf, SUB) == 0;
    assert buf[SUB..SUB + 1] == [buf[SUB]];
    assert |Origin(h, SUB, 1)| == 1 && Origin(h, SUB, 1)[0] == At(h, SUB) == f[SUB];
  }

  // ---- fills read back, verified writes heal ------------------------------------------------

  lemma PutSubReadsBack(cs: nat, st: State, idx: nat, subOff: nat, w: seq<Byte>)
    requires cs > 0 && subOff + |w| <= cs && w != []
    ensures GetSub(Some(PutSub(cs, st, idx, subOff, w)), idx, subOff, |w|) == Some(w)
  {
    hide SpanBits, InSpan, Overlay;
    var r := PutSub(cs, st, idx, subOff, w);
    assert RangePresent(r, idx, subOff, |w|) by {
      forall s: nat | InSpan(subOff, |w|, s) ensures s in SpanBits(cs, subOff, |w|) {
        SpanBitsIs(cs, subOff, |w|, s);
      }
    }
    var b := r.chunks[idx];
    forall k | 0 <= k < |w| ensures At(b[subOff..subOff + |w|], k) == At(w, k) {
      assert At(b, subOff + k) == w[k];
    }
    SameBytes(b[subOff..subOff + |w|], w);
  }

  lemma PutReadsBack(cs: nat, st: State, idx: nat, w: seq<Byte>, h: Hash)
    ensures Get(Some(PutWhole(cs, st, idx, w, h)), idx, |w|) == Some(w)
  {
    assert w[..|w|] == w;
  }

  /** Hashed regime: there are no partial chunks. */
  predicate AllWhole(st: State) {
    st.Some? ==> st.value.partial == map[]
  }

  ghost function Do(cs: nat, hash: seq<Byte> -> Hash, st: State, c: Call): State
    requires cs > 0 && NonEmpty(c)
  {
    match c
    case CallPut(idx, w, h) => Some(PutWhole(cs, st, idx, w, h))
    case CallPutSub(idx, subOff, w) => Some(PutSub(cs, st, idx, subOff, w))
    case CallWriteChunk(idx, chunkOff, w, chunkLen, h) => WriteChunk(cs, hash, st, idx, chunkOff, w, chunkLen, h)
    case CallWriteThrough(idx, chunkOff, w, chunkLen) => WriteThrough(cs, st, idx, chunkOff, w, chunkLen)
    case CallDrop(idx) => Dropped(st, idx)
    case CallResize(newSize) => Some(ResizedEntry(cs, st, newSize))
    case CallInvalidate => None
  }

  ghost function DoAll(cs: nat, hash: seq<Byte> -> Hash, st: State, calls: seq<Call>): State
    requires cs > 0 && forall c :: c in calls ==> NonEmpty(c)
    decreases |calls|
  {
    if calls == [] then st else DoAll(cs, hash, Do(cs, hash, st, calls[0]), calls[1..])
  }

  lemma {:induction false} HashedRunsWhole(cs: nat, hash: seq<Byte> -> Hash, st: State, calls: seq<Call>)
    requires cs > 0 && AllWhole(st) && forall c :: c in calls ==> NonEmpty(c) && HashedCall(c)
    ensures AllWhole(DoAll(cs, hash, st, calls))
    decreases |calls|
  {
    if calls != [] {
      assert AllWhole(Do(cs, hash, st, calls[0])) by {
        hide Resized, Merge, Start, ChunkOf;
      }
      HashedRunsWhole(cs, hash, Do(cs, hash, st, calls[0]), calls[1..]);
    }
  }

  /** Self-healing over whole runs: after any calls of the hashed regime, let the caller's chunk be
      anything at all and let it be written with its true hash.  Then every read of the chunk misses, or
      serves the caller's bytes, or the hash has collided. */
  lemma HashedRunHeals(cs: nat, hash: seq<Byte> -> Hash, calls: seq<Call>, idx: nat, chunkOff: nat, w: seq<Byte>,
                       chunk: seq<Byte>, subOff: nat, n: nat)
    requires cs > 0 && forall c :: c in calls ==> NonEmpty(c) && HashedCall(c)
    requires chunkOff + |w| <= |chunk| && chunk[chunkOff..chunkOff + |w|] == w && subOff + n <= |chunk|
    ensures var r := WriteChunk(cs, hash, DoAll(cs, hash, None, calls), idx, chunkOff, w, |chunk|, hash(chunk));
            var whole, ranged := Get(r, idx, |chunk|), GetSub(r, idx, subOff, n);
            || (whole.None? && ranged.None?)
            || (whole == Some(chunk) && ranged == Some(chunk[subOff..subOff + n]))
            || (whole.Some? && Collision(hash, whole.value, chunk))
  {
    hide WriteChunk, DoAll, Get, GetSub;
    HashedRunsWhole(cs, hash, None, calls);
    WriteChunkHeals(cs, hash, DoAll(cs, hash, None, calls), idx, chunkOff, w, chunk, subOff, n);
  }

  /** However far the cached base had diverged, WriteChunk with the hash of the caller's chunk leaves
      every read of the chunk a miss or the caller's bytes, unless the hash collides. */
  lemma WriteChunkHeals(cs: nat, hash: seq<Byte> -> Hash, st: State, idx: nat, chunkOff: nat, w: seq<Byte>,
                        chunk: seq<Byte>, subOff: nat, n: nat)
    requires AllWhole(st) && chunkOff + |w| <= |chunk| && chunk[chunkOff..chunkOff + |w|] == w
    requires subOff + n <= |chunk|
    ensures var r := WriteChunk(cs, hash, st, idx, chunkOff, w, |chunk|, hash(chunk));
            var whole, ranged := Get(r, idx, |chunk|), GetSub(r, idx, subOff, n);
            || (whole.None? && ranged.None?)
            || (whole == Some(chunk) && ranged == Some(chunk[subOff..subOff + n]))
            || (whole.Some? && Collision(hash, whole.value, chunk))
  {
    hide Merge, Resized;
    var r := WriteChunk(cs, hash, st, idx, chunkOff, w, |chunk|, hash(chunk));
    if chunkOff == 0 && |w| == |chunk| {
      assert w == chunk;
    }
    if r.Some? && idx in r.value.chunks {
      var b := r.value.chunks[idx];
      assert |b| == |chunk| && b[..|chunk|] == b;
      assert r.value.partial == map[];
      assert RangePresent(r.value, idx, subOff, n);
    }
  }

  // ---- why the two regimes must not be mixed ------------------------------------------------

  /** A partial WriteChunk leaves a bitmap without its chunk exactly when the chunk was demand-filled and
      the merged bytes do not hash to what the caller says. */
  lemma StaleBitmapExact(cs: nat, hash: seq<Byte> -> Hash, e: Entry, idx: nat, chunkOff: nat, w: seq<Byte>,
                         chunkLen: nat, callerHash: Hash)
    requires e.partial.Keys <= e.chunks.Keys && idx in e.chunks
    requires chunkOff <= chunkLen && !(chunkOff == 0 && |w| == chunkLen)
    ensures var merged := Merge(Resized(e.chunks[idx], chunkLen), chunkOff, w);
            var r := WriteChunk(cs, hash, Some(e), idx, chunkOff, w, chunkLen, callerHash).value;
            r.partial.Keys <= r.chunks.Keys <==> idx !in e.partial || hash(merged) == callerHash
  {
    hide Merge, Resized;
    var r := WriteChunk(cs, hash, Some(e), idx, chunkOff, w, chunkLen, callerHash).value;
    assert idx in e.partial ==> idx in r.partial.Keys;
  }

  /** Every bit so left behind does harm: whatever fill of the chunk comes next, if it misses the
      sub-block, then at most one safe operation later a read of that sub-block's first byte is wrong,
      for every file that has another byte than 0 there.  The cache holds nothing of the chunk, so such
      files agree with it. */
  lemma StaleBitBreaks(cs: nat, e: Entry, f: seq<Byte>, idx: nat, s: nat, off: nat, n: nat) returns (ops: seq<Op>)
    requires cs > 0 && idx in e.partial && idx !in e.chunks && s in e.partial[idx]
    requires s * SUB + 1 < cs && Start(cs, idx) + s * SUB < |f| && f[Start(cs, idx) + s * SUB] != 0
    requires WellPosed(cs, f, FillSub(idx, off, n)) && n > 0 && !(off <= s * SUB < off + n)
    ensures |ops| <= 2 && ops != [] && ops[0] == FillSub(idx, off, n) && SafeRun(cs, Some(e), f, ops)
    ensures var (st, h) := Run(cs, Some(e), f, ops);
            GetSub(st, idx, s * SUB, 1).Some?
            && GetSub(st, idx, s * SUB, 1).value != Origin(h, Start(cs, idx) + s * SUB, 1)
  {
    hide Start, Overlay, SpanBits, Origin, SafeRun, Run, GetSub;
    var fill, p := FillSub(idx, off, n), s * SUB;
    var st := Apply(cs, Some(e), f, fill);
    assert SubOf(p) == s;
    assert Wrong(cs, st, f, idx, p);
    hide Apply, Wrong;
    if p < |st.value.chunks[idx]| {
      ops := [fill];
      OneStep(cs, Some(e), f, fill);
      WrongIsServed(cs, st, f, idx, p);
    } else {
      var op := WrongIsExposed(cs, st, f, idx, p);
      ops := [fill, op];
      TwoSteps(cs, Some(e), f, fill, op);
      WrongIsServed(cs, Apply(cs, st, f, op), NextFile(cs, f, op), idx, p);
    }
  }

  /** So mixing the regimes breaks: from any demand-filled chunk, a WriteChunk whose merged bytes do not
      hash to what the caller says, and any fill of other sub-blocks. */
  lemma MixingRegimesBreaks(cs: nat, hash: seq<Byte> -> Hash, e: Entry, f: seq<Byte>, idx: nat, chunkOff: nat,
                            w: seq<Byte>, chunkLen: nat, callerHash: Hash, s: nat, off: nat, n: nat)
    returns (ops: seq<Op>)
    requires cs > 0 && idx in e.chunks && idx in e.partial && s in e.partial[idx]
    requires chunkOff <= chunkLen && !(chunkOff == 0 && |w| == chunkLen)
    requires hash(Merge(Resized(e.chunks[idx], chunkLen), chunkOff, w)) != callerHash
    requires s * SUB + 1 < cs && Start(cs, idx) + s * SUB < |f| && f[Start(cs, idx) + s * SUB] != 0
    requires WellPosed(cs, f, FillSub(idx, off, n)) && n > 0 && !(off <= s * SUB < off + n)
    ensures var dropped := WriteChunk(cs, hash, Some(e), idx, chunkOff, w, chunkLen, callerHash);
            && SafeRun(cs, dropped, f, ops)
            && var (st, h) := Run(cs, dropped, f, ops);
               GetSub(st, idx, s * SUB, 1).Some?
               && GetSub(st, idx, s * SUB, 1).value != Origin(h, Start(cs, idx) + s * SUB, 1)
  {
    hide Start, SafeRun, Run, GetSub, Origin, Merge, Resized;
    var dropped := WriteChunk(cs, hash, Some(e), idx, chunkOff, w, chunkLen, callerHash);
    ops := StaleBitBreaks(cs, dropped.value, f, idx, s, off, n);
  }
}
