/** The chunk hashes a DiskStore entry records (pkg/blockcache/diskstore.go): over any calls, a known hash
    of a present chunk is the hash of that chunk's bytes.
 */
module RecordedHashes {
  import opened Bytes
  import opened Options
  import opened DiskModel
  import opened Caller
  import P = DiskProperties
  import R = DiskRetention

  /** The recorded hash of chunk c is the hash of its first n bytes. */
  ghost predicate HashedAs(cs: nat, hash: seq<Byte> -> Hash, e: Entry, c: nat, n: nat)
    requires c < |e.hashes|
  {
    0 < n <= cs && Start(cs, c) + n <= |e.data| && hash(e.data[Start(cs, c)..Start(cs, c) + n]) == e.hashes[c]
  }

  ghost predicate Known(e: Entry, c: nat) {
    c in e.chunks && c < |e.hashes| && e.hashes[c] != UNKNOWN_HASH
  }

  ghost predicate HashesTrue(cs: nat, hash: seq<Byte> -> Hash, st: State) {
    st.Some? ==>
      && st.value.cur == |st.value.data|
      && forall c: nat :: Known(st.value, c) ==> exists n: nat :: HashedAs(cs, hash, st.value, c, n)
  }

  /** Calls carry true hashes, and a ranged fill repeats what is cached of hashed chunks. */
  ghost predicate Honest(cs: nat, hash: seq<Byte> -> Hash, st: State, id: FileVersion, c: Call)
    requires cs > 0
  {
    match c
    case CallPut(_, w, h) => h == hash(w) || h == UNKNOWN_HASH
    case CallPutSub(idx, off, w) =>
      st.Some? ==>
        var at := Start(cs, idx) + off;
        forall i: nat :: at <= i < at + |w| && ChunkOf(cs, i) in st.value.chunks && i < |st.value.data| ==>
          At(st.value.data, i) == w[i - at]
    case CallWriteChunk(idx, off, w, len, h) =>
      (off == 0 && |w| == len ==> h == hash(w)) && !WriteChunkFails(cs, st, id, idx, off, w, len)
    case _ => true
  }

  /** A chunk whose bytes and hash stay as they are. */
  lemma HashStays(cs: nat, hash: seq<Byte> -> Hash, e: Entry, r: Entry, c: nat)
    requires Known(e, c) ==> exists n: nat :: HashedAs(cs, hash, e, c, n)
    requires Known(r, c) ==> Known(e, c) && r.hashes[c] == e.hashes[c]
    requires forall i: nat :: Start(cs, c) <= i < Start(cs, c) + cs && i < |e.data| ==>
               i < |r.data| && At(r.data, i) == At(e.data, i)
    ensures Known(r, c) ==> exists n: nat :: HashedAs(cs, hash, r, c, n)
  {
    hide Start;
    if Known(r, c) {
      var n: nat :| HashedAs(cs, hash, e, c, n);
      var at := Start(cs, c);
      assert At(r.data, at + n - 1) == At(e.data, at + n - 1) && at + n - 1 < |r.data|;
      R.SameSlice(e.data, r.data, at, n);
      assert HashedAs(cs, hash, r, c, n);
    }
  }

  /** Storing w in a loaded entry: the backing is as long as recorded, and keeps all other bytes. */
  lemma StoredTight(cs: nat, st: State, id: FileVersion, off: nat, w: seq<Byte>)
    requires cs > 0 && (st.Some? ==> st.value.cur == |st.value.data|)
    ensures var e := Load(cs, st, id, off + |w|);
            var d := WriteAt(e.data, off, w);
            && e.cur == |e.data| == |d| && off + |w| <= |d|
            && (forall i: nat :: off <= i < off + |w| ==> At(d, i) == w[i - off])
            && (st.Some? ==>
                  && |st.value.data| <= |d|
                  && (forall i: nat :: i < |st.value.data| && !(off <= i < off + |w|) ==>
                        At(d, i) == At(st.value.data, i)))
            && (st.None? ==> e.chunks == {})
            && (st.Some? ==> e.chunks == st.value.chunks && e.hashes == st.value.hashes)
  {
    hide NumChunks, ZeroHashes;
  }

  lemma PutHash(cs: nat, hash: seq<Byte> -> Hash, st: State, id: FileVersion, idx: nat, w: seq<Byte>, h: Hash)
    requires cs > 0 && HashesTrue(cs, hash, st) && 0 < |w| <= cs && (h == hash(w) || h == UNKNOWN_HASH)
    ensures HashesTrue(cs, hash, Some(PutChunk(cs, st, id, idx, w, h)))
  {
    hide Start, Load, WriteAt, SubsOf;
    StoredTight(cs, st, id, Start(cs, idx), w);
    var r := PutChunk(cs, st, id, idx, w, h);
    forall c: nat | Known(r, c) ensures exists n: nat :: HashedAs(cs, hash, r, c, n) {
      if c == idx {
        P.ReadBack(Load(cs, st, id, Start(cs, idx) + |w|).data, Start(cs, idx), w);
        assert HashedAs(cs, hash, r, c, |w|);
      } else {
        if c < idx { P.StartMonotonic(cs, c, idx); } else { P.StartMonotonic(cs, idx, c); }
        HashStays(cs, hash, st.value, r, c);
      }
    }
  }

  lemma PutSubHash(cs: nat, hash: seq<Byte> -> Hash, st: State, id: FileVersion, c: Call)
    requires cs > 0 && HashesTrue(cs, hash, st) && c.CallPutSub? && Honest(cs, hash, st, id, c)
    ensures HashesTrue(cs, hash, Some(PutSub(cs, st, id, c.idx, c.subOff, c.w)))
  {
    hide Start, Load, WriteAt, SubSpan, ChunkOf;
    var off := Start(cs, c.idx) + c.subOff;
    StoredTight(cs, st, id, off, c.w);
    var r := PutSub(cs, st, id, c.idx, c.subOff, c.w);
    forall k: nat | Known(r, k) ensures exists n: nat :: HashedAs(cs, hash, r, k, n) {
      forall i: nat | Start(cs, k) <= i < Start(cs, k) + cs && i < |st.value.data|
        ensures At(r.data, i) == At(st.value.data, i)
      {
        ChunkOfByte(cs, i, k);
      }
      HashStays(cs, hash, st.value, r, k);
    }
  }

  lemma SpliceHash(cs: nat, hash: seq<Byte> -> Hash, st: State, id: FileVersion, idx: nat, off: nat, w: seq<Byte>)
    requires cs > 0 && HashesTrue(cs, hash, st) && off + |w| <= cs
    ensures HashesTrue(cs, hash, Some(Spliced(cs, st, id, idx, Start(cs, idx) + off, w)))
  {
    hide Start, Load, WriteAt, SubSpan;
    StoredTight(cs, st, id, Start(cs, idx) + off, w);
    var r := Spliced(cs, st, id, idx, Start(cs, idx) + off, w);
    forall c: nat | Known(r, c) ensures exists n: nat :: HashedAs(cs, hash, r, c, n) {
      assert c != idx;
      if c < idx { P.StartMonotonic(cs, c, idx); } else { P.StartMonotonic(cs, idx, c); }
      HashStays(cs, hash, st.value, r, c);
    }
  }

  lemma WriteThroughHash(cs: nat, hash: seq<Byte> -> Hash, st: State, id: FileVersion, c: Call)
    requires cs > 0 && HashesTrue(cs, hash, st) && c.CallWriteThrough? && NonEmpty(c) && Fits(cs, c)
    ensures HashesTrue(cs, hash, WriteThrough(cs, st, id, c.idx, c.chunkOff, c.w, c.chunkLen))
  {
    hide HashesTrue, PutChunk, Spliced, Touches, Start;
    if c.chunkOff == 0 && |c.w| == c.chunkLen {
      PutHash(cs, hash, st, id, c.idx, c.w, UNKNOWN_HASH);
    } else if Touches(st, c.idx, Start(cs, c.idx) + c.chunkOff, |c.w|) {
      SpliceHash(cs, hash, st, id, c.idx, c.chunkOff, c.w);
    }
  }

  lemma WriteChunkHash(cs: nat, hash: seq<Byte> -> Hash, st: State, id: FileVersion, c: Call)
    requires cs > 0 && HashesTrue(cs, hash, st) && c.CallWriteChunk? && NonEmpty(c) && Fits(cs, c)
    requires Honest(cs, hash, st, id, c)
    ensures HashesTrue(cs, hash, WriteChunk(cs, hash, st, id, c.idx, c.chunkOff, c.w, c.chunkLen, c.h))
  {
    hide PutChunk, Start, HashesTrue, Load, WriteAt, Merge, Settled;
    if c.chunkOff == 0 && |c.w| == c.chunkLen {
      PutHash(cs, hash, st, id, c.idx, c.w, c.h);
    } else if st.Some? && c.idx in st.value.chunks {
      var off := Start(cs, c.idx) + c.chunkOff;
      var e := Load(cs, st, id, off + |c.w|);
      P.MergeIsWrite(e.data, Start(cs, c.idx), c.chunkLen, c.chunkOff, c.w);
      var merged := Merge(ReadAt(e.data, Start(cs, c.idx), c.chunkLen).value, c.chunkOff, c.w);
      SettledHash(cs, hash, st, id, c, merged);
    }
  }

  lemma SettledHash(cs: nat, hash: seq<Byte> -> Hash, st: State, id: FileVersion, c: Call, merged: seq<Byte>)
    requires cs > 0 && HashesTrue(cs, hash, st) && st.Some? && c.CallWriteChunk? && Fits(cs, c) && c.chunkLen > 0
    requires var off := Start(cs, c.idx) + c.chunkOff;
             ReadAt(WriteAt(Load(cs, st, id, off + |c.w|).data, off, c.w), Start(cs, c.idx), c.chunkLen) == Some(merged)
    ensures var off := Start(cs, c.idx) + c.chunkOff;
            var e := Load(cs, st, id, off + |c.w|);
            var d := e.(data := WriteAt(e.data, off, c.w));
            HashesTrue(cs, hash, Some(Settled(cs, d, c.idx, hash(merged) == c.h, c.h)))
  {
    hide Start, Load, WriteAt, SubsOf;
    var off := Start(cs, c.idx) + c.chunkOff;
    var e := Load(cs, st, id, off + |c.w|);
    StoredTight(cs, st, id, off, c.w);
    var r := Settled(cs, e.(data := WriteAt(e.data, off, c.w)), c.idx, hash(merged) == c.h, c.h);
    forall k: nat | Known(r, k) ensures exists n: nat :: HashedAs(cs, hash, r, k, n) {
      if k == c.idx {
        assert HashedAs(cs, hash, r, k, c.chunkLen);
      } else {
        if k < c.idx { P.StartMonotonic(cs, k, c.idx); } else { P.StartMonotonic(cs, c.idx, k); }
        HashStays(cs, hash, st.value, r, k);
      }
    }
  }

  lemma DropHash(cs: nat, hash: seq<Byte> -> Hash, st: State, idx: nat)
    requires HashesTrue(cs, hash, st)
    ensures HashesTrue(cs, hash, Dropped(cs, st, idx))
  {
    hide Start, SubsOf;
    if st.Some? {
      var r := ClearChunk(cs, st.value, idx);
      forall c: nat | Known(r, c) ensures exists n: nat :: HashedAs(cs, hash, r, c, n) {
        HashStays(cs, hash, st.value, r, c);
      }
    }
  }

  lemma {:induction false} ClearChunksHashes(cs: nat, e: Entry, lo: nat, hi: nat, c: nat)
    ensures var r := ClearChunks(cs, e, lo, hi);
            && r.data == e.data && r.cur == e.cur && |r.hashes| == |e.hashes|
            && (Known(r, c) ==> Known(e, c) && r.hashes[c] == e.hashes[c])
    decreases hi - lo
  {
    hide SubsOf;
    if lo < hi { ClearChunksHashes(cs, e, lo, hi - 1, c); }
  }

  lemma ResizeHash(cs: nat, hash: seq<Byte> -> Hash, st: State, newSize: nat)
    requires cs > 0 && HashesTrue(cs, hash, st) && P.IndexOK(cs, st)
    ensures HashesTrue(cs, hash, Some(ResizedEntry(cs, st, newSize)))
  {
    hide Start, SubsOf, ClearChunks, ChunkOf, NumChunks, P.IndexOK;
    var r := ResizedEntry(cs, st, newSize);
    if st.Some? {
      var e := st.value;
      forall c: nat | Known(r, c) ensures exists n: nat :: HashedAs(cs, hash, r, c, n) {
        ClearChunksHashes(cs, e, ChunkOf(cs, newSize), 8 * e.width, c);
        P.ResizeIndex(cs, e, newSize);
        P.StartMonotonic(cs, c, ChunkOf(cs, newSize));
        ChunkOfByte(cs, newSize, ChunkOf(cs, newSize));
        HashStays(cs, hash, e, r, c);
      }
    }
  }

  lemma CallKeepsHashes(cs: nat, hash: seq<Byte> -> Hash, st: State, id: FileVersion, c: Call)
    requires cs > 0 && P.IndexOK(cs, st) && HashesTrue(cs, hash, st)
    requires NonEmpty(c) && Fits(cs, c) && Honest(cs, hash, st, id, c)
    ensures HashesTrue(cs, hash, P.Do(cs, hash, st, id, c))
  {
    hide P.IndexOK, HashesTrue, PutChunk, PutSub, WriteThrough, WriteChunk, WriteChunkFails, ResizedEntry, Dropped,
         Start;
    match c
    case CallPut(idx, w, h) => PutHash(cs, hash, st, id, idx, w, h);
    case CallPutSub(_, _, _) => PutSubHash(cs, hash, st, id, c);
    case CallWriteChunk(_, _, _, _, _) => WriteChunkHash(cs, hash, st, id, c);
    case CallWriteThrough(_, _, _, _) => WriteThroughHash(cs, hash, st, id, c);
    case CallDrop(idx) => DropHash(cs, hash, st, idx);
    case CallResize(newSize) => ResizeHash(cs, hash, st, newSize);
    case CallInvalidate => NothingHashed(cs, hash);
  }

  lemma NothingHashed(cs: nat, hash: seq<Byte> -> Hash)
    ensures HashesTrue(cs, hash, None)
  {
  }

  ghost predicate HonestRun(cs: nat, hash: seq<Byte> -> Hash, st: State, id: FileVersion, calls: seq<Call>)
    requires cs > 0
    decreases |calls|
  {
    calls == [] ||
    (&& NonEmpty(calls[0]) && Fits(cs, calls[0]) && Honest(cs, hash, st, id, calls[0])
     && HonestRun(cs, hash, P.Do(cs, hash, st, id, calls[0]), id, calls[1..]))
  }

  /** After any honest calls a known hash is the hash of the leading bytes that Get serves. */
  lemma {:induction false} HashesStayTrue(cs: nat, hash: seq<Byte> -> Hash, st: State, id: FileVersion,
                                          calls: seq<Call>)
    requires cs > 0 && P.IndexOK(cs, st) && HashesTrue(cs, hash, st) && HonestRun(cs, hash, st, id, calls)
    ensures forall c :: c in calls ==> NonEmpty(c)
    ensures HashesTrue(cs, hash, P.DoAll(cs, hash, st, id, calls))
    decreases |calls|
  {
    hide P.IndexOK, HashesTrue, P.Do, Honest, NonEmpty, Fits;
    if calls != [] {
      P.CallKeepsIndex(cs, hash, st, id, calls[0]);
      CallKeepsHashes(cs, hash, st, id, calls[0]);
      HashesStayTrue(cs, hash, P.Do(cs, hash, st, id, calls[0]), id, calls[1..]);
      assert forall c :: c in calls ==> c == calls[0] || c in calls[1..];
    }
  }

  /** From nothing: a known hash of a present chunk is the hash of what Get serves of it, at some length. */
  lemma KnownHashIsTrue(cs: nat, hash: seq<Byte> -> Hash, id: FileVersion, calls: seq<Call>, c: nat)
    requires cs > 0 && HonestRun(cs, hash, None, id, calls)
    ensures forall call :: call in calls ==> NonEmpty(call)
    ensures var st := P.DoAll(cs, hash, None, id, calls);
            st.Some? && c in st.value.chunks && c < |st.value.hashes| && st.value.hashes[c] != UNKNOWN_HASH ==>
              exists n: nat :: 0 < n <= cs && Get(cs, st, c, n).Some?
                               && hash(Get(cs, st, c, n).value) == st.value.hashes[c]
  {
    hide Start, P.DoAll, HonestRun;
    P.NoneIndex(cs);
    HashesStayTrue(cs, hash, None, id, calls);
    var st := P.DoAll(cs, hash, None, id, calls);
    if st.Some? && Known(st.value, c) {
      var n: nat :| HashedAs(cs, hash, st.value, c, n);
      assert Get(cs, st, c, n) == Some(st.value.data[Start(cs, c)..Start(cs, c) + n]);
    }
  }

  /** The condition on ranged fills is needed: one that changes a hashed chunk leaves the old hash. */
  lemma RangedFillLeavesHash(cs: nat, hash: seq<Byte> -> Hash, id: FileVersion, w: seq<Byte>, other: seq<Byte>)
    requires cs > 0 && 0 < |w| == |other| <= cs
    ensures var st := Some(PutSub(cs, Some(PutChunk(cs, None, id, 0, w, hash(w))), id, 0, 0, other));
            && Get(cs, st, 0, |w|) == Some(other)
            && 0 < |st.value.hashes| && st.value.hashes[0] == hash(w)
  {
    hide Load, WriteAt, SubsOf, SubSpan;
    var e := PutChunk(cs, None, id, 0, w, hash(w));
    assert Start(cs, 0) == 0;
    P.ReadBack(Load(cs, Some(e), id, |other|).data, 0, other);
    StoredTight(cs, None, id, 0, w);
    StoredTight(cs, Some(e), id, 0, other);
  }
}
