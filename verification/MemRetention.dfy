/** What a MemStore entry keeps (pkg/blockcache/memstore.go): as for the disk store, what was stored is
    served until an operation has a reason to forget it, a verified write keeps its chunk, and a
    recorded hash is the hash of the recorded bytes.
 */
module MemRetention {
  import opened Bytes
  import opened Options
  import opened MemModel
  import opened Caller
  import C = MemCoherence

  // ---- verified writes ----------------------------------------------------------------------

  /** A verified write to a cached chunk that agrees with the caller's keeps the chunk: it is served
      whole and in every range as the caller has it, its hash is recorded, and every other chunk reads
      as before. */
  lemma WriteChunkKeeps(cs: nat, hash: seq<Byte> -> Hash, st: State, idx: nat, off: nat, w: seq<Byte>,
                        base: seq<Byte>, chunk: seq<Byte>, c: nat, subOff: nat, n: nat)
    requires Get(st, idx, |base|) == Some(base) && Patches(base, off, w, chunk)
    ensures var r := WriteChunk(cs, hash, st, idx, off, w, |chunk|, hash(chunk));
            && Get(r, idx, |chunk|) == Some(chunk)
            && idx in r.value.hashes && r.value.hashes[idx] == hash(chunk)
            && (c == idx && subOff + n <= |chunk| ==> GetSub(r, c, subOff, n) == Some(chunk[subOff..subOff + n]))
            && (c != idx ==> Get(r, c, n) == Get(st, c, n) && GetSub(r, c, subOff, n) == GetSub(st, c, subOff, n))
  {
    hide Start, Merge, Resized, InSpan;
    var e := st.value;
    if off == 0 && |w| == |chunk| {
      assert w == chunk;
    } else {
      var m := Merge(Resized(e.chunks[idx], |chunk|), off, w);
      forall k | 0 <= k < |chunk| ensures At(m, k) == At(chunk, k) {
        assert At(Resized(e.chunks[idx], |chunk|), k) == At(e.chunks[idx], k) == base[k];
        if off <= k < off + |w| { assert chunk[off..off + |w|][k - off] == chunk[k]; }
      }
      SameBytes(m, chunk);
    }
    assert chunk[..|chunk|] == chunk;
  }

  // ---- Resize -------------------------------------------------------------------------------

  /** The chunks a Resize keeps: those below the boundary chunk, but for the old last one. */
  predicate Survives(cs: nat, e: Entry, newSize: nat, c: nat)
    requires cs > 0
  {
    c < ChunkOf(cs, newSize) && !(e.cur > 0 && c == ChunkOf(cs, e.cur - 1))
  }

  /** After a Resize the chunks it keeps read as before, with their hashes, and no other read hits. */
  lemma ResizeReads(cs: nat, e: Entry, newSize: nat, c: nat, subOff: nat, n: nat)
    requires cs > 0
    ensures var r := ResizedEntry(cs, Some(e), newSize);
            && r.cur == newSize
            && Get(Some(r), c, n) == (if Survives(cs, e, newSize, c) then Get(Some(e), c, n) else None)
            && GetSub(Some(r), c, subOff, n) ==
                 (if Survives(cs, e, newSize, c) then GetSub(Some(e), c, subOff, n) else None)
            && (c in r.chunks && c in r.hashes <==> Survives(cs, e, newSize, c) && c in e.chunks && c in e.hashes)
            && (c in r.chunks && c in r.hashes ==> r.hashes[c] == e.hashes[c])
  {
    hide ChunkOf, InSpan;
  }

  // ---- what was stored stays, until something forgets it ------------------------------------

  /** Byte j of chunk idx is cached. */
  ghost predicate Held(st: State, idx: nat, j: nat) {
    st.Some? && Present(st.value, idx, j) && j < |st.value.chunks[idx]|
  }

  function Overwritten(e: Entry, idx: nat, off: nat, w: seq<Byte>, k: nat): Byte
    requires idx in e.chunks
  {
    if off <= k < off + |w| then w[k - off] else At(e.chunks[idx], k)
  }

  /** The cached chunk with w over it does not hash to h. */
  ghost predicate Disagrees(hash: seq<Byte> -> Hash, e: Entry, idx: nat, off: nat, w: seq<Byte>, len: nat, h: Hash)
    requires idx in e.chunks
  {
    hash(seq(len, k requires k >= 0 => Overwritten(e, idx, off, w, k))) != h
  }

  /** Where in its chunk the bytes of a call go. */
  function Where(c: Call): nat {
    match c
    case CallPutSub(_, off, _) => off
    case CallWriteThrough(_, off, _, _) => off
    case CallWriteChunk(_, off, _, _, _) => off
    case _ => 0
  }

  predicate FitsChunk(cs: nat, c: Call) {
    Fits(cs, c) && (c.CallPutSub? ==> c.subOff + |c.w| <= cs)
  }

  predicate Covers(c: Call) {
    match c
    case CallPut(_, _, _) => true
    case CallWriteThrough(_, off, w, len) => off == 0 && |w| == len
    case CallWriteChunk(_, off, w, len, _) => off == 0 && |w| == len
    case _ => false
  }

  /** The store takes byte j of chunk idx from the call. */
  ghost predicate Given(hash: seq<Byte> -> Hash, st: State, c: Call, idx: nat, j: nat) {
    && (c.CallPut? || c.CallPutSub? || c.CallWriteThrough? || c.CallWriteChunk?)
    && c.idx == idx && Where(c) <= j < Where(c) + |What(c)|
    && (|| Covers(c) || c.CallPutSub?
        || (c.CallWriteThrough? && st.Some? && idx in st.value.chunks)
        || (&& c.CallWriteChunk? && st.Some? && Present(st.value, idx, j)
            && !Disagrees(hash, st.value, idx, c.chunkOff, c.w, c.chunkLen, c.h)))
  }

  /** The call has a reason to forget byte j of chunk idx. */
  ghost predicate Forgets(cs: nat, hash: seq<Byte> -> Hash, st: State, c: Call, idx: nat, j: nat)
    requires cs > 0
  {
    match c
    case CallDrop(k) => k == idx
    case CallResize(newSize) => st.Some? && !Survives(cs, st.value, newSize, idx)
    case CallInvalidate => true
    case CallPut(k, w, _) => k == idx && j >= |w|
    case CallWriteThrough(k, _, w, _) => k == idx && Covers(c) && j >= |w|
    case CallWriteChunk(k, off, w, len, h) =>
      && k == idx
      && (|| j >= len
          || (!Covers(c) && st.Some? && idx in st.value.chunks && Disagrees(hash, st.value, idx, off, w, len, h)))
    case CallPutSub(_, _, _) => false
  }

  ghost predicate Retains(cs: nat, hash: seq<Byte> -> Hash, st: State, c: Call, idx: nat, j: nat, r: State)
    requires cs > 0
  {
    && (Given(hash, st, c, idx, j) ==> Held(r, idx, j) && At(r.value.chunks[idx], j) == What(c)[j - Where(c)])
    && (Held(st, idx, j) && !Forgets(cs, hash, st, c, idx, j) && !Given(hash, st, c, idx, j) ==>
          Held(r, idx, j) && At(r.value.chunks[idx], j) == At(st.value.chunks[idx], j))
  }

  lemma PutSubRetains(cs: nat, hash: seq<Byte> -> Hash, st: State, c: Call, idx: nat, j: nat)
    requires cs > 0 && c.CallPutSub? && FitsChunk(cs, c)
    ensures Retains(cs, hash, st, c, idx, j, Some(PutSub(cs, st, c.idx, c.subOff, c.w)))
  {
    hide SpanBits, SubOf, Overlay, InSpan;
    if c.subOff <= j < c.subOff + |c.w| {
      C.SpanBitsIs(cs, c.subOff, |c.w|, SubOf(j));
      ByteInSpan(c.subOff, |c.w|, j);
    }
  }

  lemma WriteThroughRetains(cs: nat, hash: seq<Byte> -> Hash, st: State, c: Call, idx: nat, j: nat)
    requires cs > 0 && c.CallWriteThrough? && FitsChunk(cs, c)
    ensures Retains(cs, hash, st, c, idx, j, WriteThrough(cs, st, c.idx, c.chunkOff, c.w, c.chunkLen))
  {
    hide SpanBits, SubOf, Overlay, InSpan, Start;
    if c.chunkOff <= j < c.chunkOff + |c.w| {
      C.SpanBitsIs(cs, c.chunkOff, |c.w|, SubOf(j));
      ByteInSpan(c.chunkOff, |c.w|, j);
    }
  }

  lemma MergedIs(e: Entry, idx: nat, off: nat, w: seq<Byte>, len: nat)
    requires idx in e.chunks && off + |w| <= len
    ensures Merge(Resized(e.chunks[idx], len), off, w) == seq(len, k requires k >= 0 => Overwritten(e, idx, off, w, k))
  {
    var m := Merge(Resized(e.chunks[idx], len), off, w);
    forall k | 0 <= k < len ensures m[k] == Overwritten(e, idx, off, w, k) {
      assert At(Resized(e.chunks[idx], len), k) == At(e.chunks[idx], k);
    }
  }

  lemma WriteChunkRetains(cs: nat, hash: seq<Byte> -> Hash, st: State, c: Call, idx: nat, j: nat)
    requires cs > 0 && c.CallWriteChunk? && FitsChunk(cs, c)
    ensures Retains(cs, hash, st, c, idx, j, WriteChunk(cs, hash, st, c.idx, c.chunkOff, c.w, c.chunkLen, c.h))
  {
    hide SubOf, Merge, Resized, Start;
    if st.Some? && c.idx in st.value.chunks {
      MergedIs(st.value, c.idx, c.chunkOff, c.w, c.chunkLen);
    }
  }

  lemma CallRetains(cs: nat, hash: seq<Byte> -> Hash, st: State, c: Call, idx: nat, j: nat)
    requires cs > 0 && NonEmpty(c) && FitsChunk(cs, c)
    ensures Retains(cs, hash, st, c, idx, j, C.Do(cs, hash, st, c))
  {
    hide PutSub, WriteThrough, WriteChunk, ChunkOf, SubOf, Start;
    match c
    case CallPut(_, _, _) =>
    case CallPutSub(_, _, _) => PutSubRetains(cs, hash, st, c, idx, j);
    case CallWriteChunk(_, _, _, _, _) => WriteChunkRetains(cs, hash, st, c, idx, j);
    case CallWriteThrough(_, _, _, _) => WriteThroughRetains(cs, hash, st, c, idx, j);
    case CallDrop(_) =>
    case CallResize(_) =>
    case CallInvalidate =>
  }

  ghost function NextByte(cs: nat, hash: seq<Byte> -> Hash, st: State, c: Call, idx: nat, j: nat,
                          b: Option<Byte>): Option<Byte>
    requires cs > 0
  {
    if Given(hash, st, c, idx, j) then Some(What(c)[j - Where(c)])
    else if Forgets(cs, hash, st, c, idx, j) then None
    else b
  }

  /** The byte the calls leave at position j of chunk idx: the one given last, unless forgotten since. */
  ghost function Kept(cs: nat, hash: seq<Byte> -> Hash, st: State, calls: seq<Call>, idx: nat, j: nat,
                      b: Option<Byte>): Option<Byte>
    requires cs > 0 && forall c :: c in calls ==> NonEmpty(c)
    decreases |calls|
  {
    if calls == [] then b
    else
      Kept(cs, hash, C.Do(cs, hash, st, calls[0]), calls[1..], idx, j, NextByte(cs, hash, st, calls[0], idx, j, b))
  }

  ghost predicate Holding(st: State, idx: nat, j: nat, b: Option<Byte>) {
    b.Some? ==> Held(st, idx, j) && At(st.value.chunks[idx], j) == b.value
  }

  lemma NextHolding(cs: nat, hash: seq<Byte> -> Hash, st: State, c: Call, idx: nat, j: nat, b: Option<Byte>, r: State)
    requires cs > 0 && Holding(st, idx, j, b) && Retains(cs, hash, st, c, idx, j, r)
    ensures Holding(r, idx, j, NextByte(cs, hash, st, c, idx, j, b))
  {
    hide Held, Forgets;
  }

  /** Whatever the calls, in either regime or mixed: the store holds the byte given last. */
  lemma {:induction false} RunHolds(cs: nat, hash: seq<Byte> -> Hash, st: State, calls: seq<Call>, idx: nat, j: nat,
                                    b: Option<Byte>)
    requires cs > 0 && forall c :: c in calls ==> NonEmpty(c) && FitsChunk(cs, c)
    requires Holding(st, idx, j, b)
    ensures Holding(C.DoAll(cs, hash, st, calls), idx, j, Kept(cs, hash, st, calls, idx, j, b))
    decreases |calls|
  {
    hide Holding, Retains, C.Do, NextByte;
    if calls != [] {
      var c := calls[0];
      assert NonEmpty(c) && FitsChunk(cs, c);
      CallRetains(cs, hash, st, c, idx, j);
      NextHolding(cs, hash, st, c, idx, j, b, C.Do(cs, hash, st, c));
      RunHolds(cs, hash, C.Do(cs, hash, st, c), calls[1..], idx, j, NextByte(cs, hash, st, c, idx, j, b));
    }
  }

  /** Read what was stored: after any calls from nothing, a range whose every byte has been given and not
      forgotten since is served, and each byte is the one given last. */
  lemma StoredIsServed(cs: nat, hash: seq<Byte> -> Hash, calls: seq<Call>, idx: nat, subOff: nat, n: nat)
    requires cs > 0 && forall c :: c in calls ==> NonEmpty(c) && FitsChunk(cs, c)
    requires n > 0 && forall j: nat :: subOff <= j < subOff + n ==> Kept(cs, hash, None, calls, idx, j, None).Some?
    ensures var got := GetSub(C.DoAll(cs, hash, None, calls), idx, subOff, n);
            && got.Some? && |got.value| == n && HashedRange(C.DoAll(cs, hash, None, calls), idx, subOff, n) == got
            && forall k: nat :: k < n ==> Some(got.value[k]) == Kept(cs, hash, None, calls, idx, subOff + k, None)
  {
    hide C.DoAll, Kept, SubOf, RangePresent;
    var st := C.DoAll(cs, hash, None, calls);
    forall j: nat | subOff <= j < subOff + n
      ensures Held(st, idx, j) && Some(At(st.value.chunks[idx], j)) == Kept(cs, hash, None, calls, idx, j, None)
    {
      RunHolds(cs, hash, None, calls, idx, j, None);
    }
    HeldIsServed(st, idx, subOff, n);
    var got := GetSub(st, idx, subOff, n).value;
    forall k: nat | k < n ensures Some(got[k]) == Kept(cs, hash, None, calls, idx, subOff + k, None) {
      assert got[k] == At(st.value.chunks[idx], subOff + k);
    }
  }

  lemma HeldIsServed(st: State, idx: nat, subOff: nat, n: nat)
    requires n > 0 && forall j: nat :: subOff <= j < subOff + n ==> Held(st, idx, j)
    ensures st.Some? && idx in st.value.chunks && subOff + n <= |st.value.chunks[idx]|
    ensures GetSub(st, idx, subOff, n) == Some(st.value.chunks[idx][subOff..subOff + n])
  {
    hide RangePresent;
    assert Held(st, idx, subOff + n - 1);
    forall j: nat | subOff <= j < subOff + n ensures Present(st.value, idx, j) { assert Held(st, idx, j); }
    C.RangePresentIff(st.value, idx, subOff, n);
  }

  // ---- recorded hashes ----------------------------------------------------------------------

  ghost predicate HashedAs(hash: seq<Byte> -> Hash, e: Entry, c: nat, n: nat)
    requires c in e.chunks && c in e.hashes
  {
    0 < n <= |e.chunks[c]| && hash(e.chunks[c][..n]) == e.hashes[c]
  }

  ghost predicate HashesTrue(hash: seq<Byte> -> Hash, st: State) {
    st.Some? ==>
      && st.value.hashes.Keys <= st.value.chunks.Keys
      && forall c :: c in st.value.hashes && st.value.hashes[c] != UNKNOWN_HASH ==>
           exists n: nat :: HashedAs(hash, st.value, c, n)
  }

  /** Calls carry true hashes, and a ranged fill repeats what is cached. */
  ghost predicate Honest(hash: seq<Byte> -> Hash, st: State, c: Call) {
    match c
    case CallPut(_, w, h) => h == hash(w) || h == UNKNOWN_HASH
    case CallPutSub(idx, off, w) =>
      st.Some? && idx in st.value.chunks ==>
        forall j: nat :: off <= j < off + |w| && j < |st.value.chunks[idx]| ==> st.value.chunks[idx][j] == w[j - off]
    case CallWriteChunk(_, off, w, len, h) => off == 0 && |w| == len ==> h == hash(w)
    case _ => true
  }

  lemma PutSubHash(cs: nat, hash: seq<Byte> -> Hash, st: State, c: Call)
    requires HashesTrue(hash, st) && c.CallPutSub? && Honest(hash, st, c)
    ensures HashesTrue(hash, Some(PutSub(cs, st, c.idx, c.subOff, c.w)))
  {
    hide SpanBits, Overlay;
    var e, r := Loaded(st), PutSub(cs, st, c.idx, c.subOff, c.w);
    forall k | k in r.hashes && r.hashes[k] != UNKNOWN_HASH ensures exists n: nat :: HashedAs(hash, r, k, n) {
      assert k in e.chunks;
      var n: nat :| HashedAs(hash, e, k, n);
      var a, b := r.chunks[k][..n], e.chunks[k][..n];
      forall j | 0 <= j < n ensures At(a, j) == At(b, j) {
        assert At(r.chunks[k], j) == At(e.chunks[k], j);
      }
      SameBytes(a, b);
      assert HashedAs(hash, r, k, n);
    }
  }

  lemma PutHash(cs: nat, hash: seq<Byte> -> Hash, st: State, idx: nat, w: seq<Byte>, h: Hash)
    requires HashesTrue(hash, st) && w != [] && (h == hash(w) || h == UNKNOWN_HASH)
    ensures HashesTrue(hash, Some(PutWhole(cs, st, idx, w, h)))
  {
    hide Start;
    var e, r := Loaded(st), PutWhole(cs, st, idx, w, h);
    assert w[..|w|] == w;
    forall k | k in r.hashes && r.hashes[k] != UNKNOWN_HASH ensures exists n: nat :: HashedAs(hash, r, k, n) {
      if k == idx {
        assert HashedAs(hash, r, k, |w|);
      } else {
        var n: nat :| HashedAs(hash, e, k, n);
        assert HashedAs(hash, r, k, n);
      }
    }
  }

  /** Another entry that has no other hashes, of the same chunks. */
  lemma HashesStay(hash: seq<Byte> -> Hash, e: Entry, r: Entry)
    requires HashesTrue(hash, Some(e)) && r.hashes.Keys <= r.chunks.Keys
    requires forall k :: k in r.hashes && r.hashes[k] != UNKNOWN_HASH ==>
               && k in e.hashes && r.hashes[k] == e.hashes[k]
               && k in r.chunks && k in e.chunks && r.chunks[k] == e.chunks[k]
    ensures HashesTrue(hash, Some(r))
  {
    forall k | k in r.hashes && r.hashes[k] != UNKNOWN_HASH ensures exists n: nat :: HashedAs(hash, r, k, n) {
      var n: nat :| HashedAs(hash, e, k, n);
      assert HashedAs(hash, r, k, n);
    }
  }

  lemma WriteChunkHash(cs: nat, hash: seq<Byte> -> Hash, st: State, c: Call)
    requires HashesTrue(hash, st) && c.CallWriteChunk? && NonEmpty(c) && Honest(hash, st, c)
    ensures HashesTrue(hash, WriteChunk(cs, hash, st, c.idx, c.chunkOff, c.w, c.chunkLen, c.h))
  {
    hide Merge, Resized, Start;
    if c.chunkOff == 0 && |c.w| == c.chunkLen {
      PutHash(cs, hash, st, c.idx, c.w, c.h);
    } else if st.Some? && c.idx in st.value.chunks {
      var e := st.value;
      var merged := Merge(Resized(e.chunks[c.idx], c.chunkLen), c.chunkOff, c.w);
      if hash(merged) == c.h {
        PutHash(cs, hash, st, c.idx, merged, c.h);
        HashesStay(hash, PutWhole(cs, st, c.idx, merged, c.h),
                   WriteChunk(cs, hash, st, c.idx, c.chunkOff, c.w, c.chunkLen, c.h).value);
      } else {
        HashesStay(hash, e, WriteChunk(cs, hash, st, c.idx, c.chunkOff, c.w, c.chunkLen, c.h).value);
      }
    }
  }

  lemma WriteThroughHash(cs: nat, hash: seq<Byte> -> Hash, st: State, c: Call)
    requires HashesTrue(hash, st) && c.CallWriteThrough? && NonEmpty(c)
    ensures HashesTrue(hash, WriteThrough(cs, st, c.idx, c.chunkOff, c.w, c.chunkLen))
  {
    hide Overlay, SpanBits, Start;
    if c.chunkOff == 0 && |c.w| == c.chunkLen {
      PutHash(cs, hash, st, c.idx, c.w, UNKNOWN_HASH);
    } else if st.Some? && c.idx in st.value.chunks {
      HashesStay(hash, st.value, Spliced(cs, st.value, c.idx, c.chunkOff, c.w));
    }
  }

  lemma CallKeepsHashes(cs: nat, hash: seq<Byte> -> Hash, st: State, c: Call)
    requires cs > 0 && HashesTrue(hash, st) && NonEmpty(c) && Honest(hash, st, c)
    ensures HashesTrue(hash, C.Do(cs, hash, st, c))
  {
    hide PutSub, WriteThrough, WriteChunk, ChunkOf, HashesTrue;
    match c
    case CallPut(idx, w, h) => PutHash(cs, hash, st, idx, w, h);
    case CallPutSub(_, _, _) => PutSubHash(cs, hash, st, c);
    case CallWriteChunk(_, _, _, _, _) => WriteChunkHash(cs, hash, st, c);
    case CallWriteThrough(_, _, _, _) => WriteThroughHash(cs, hash, st, c);
    case CallDrop(idx) => WithoutHash(hash, st, {idx});
    case CallResize(newSize) => ResizeHash(cs, hash, st, newSize);
    case CallInvalidate => NothingHashed(hash);
  }

  lemma WithoutHash(hash: seq<Byte> -> Hash, st: State, gone: set<nat>)
    requires HashesTrue(hash, st)
    ensures st.Some? ==> HashesTrue(hash, Some(Without(st.value, gone)))
  {
    if st.Some? { HashesStay(hash, st.value, Without(st.value, gone)); }
  }

  lemma ResizeHash(cs: nat, hash: seq<Byte> -> Hash, st: State, newSize: nat)
    requires cs > 0 && HashesTrue(hash, st)
    ensures HashesTrue(hash, Some(ResizedEntry(cs, st, newSize)))
  {
    hide ChunkOf;
    HashesStay(hash, Loaded(st), ResizedEntry(cs, st, newSize));
  }

  lemma NothingHashed(hash: seq<Byte> -> Hash)
    ensures HashesTrue(hash, None)
  {
  }

  ghost predicate HonestRun(cs: nat, hash: seq<Byte> -> Hash, st: State, calls: seq<Call>)
    requires cs > 0
    decreases |calls|
  {
    calls == [] ||
    (&& NonEmpty(calls[0]) && Honest(hash, st, calls[0])
     && HonestRun(cs, hash, C.Do(cs, hash, st, calls[0]), calls[1..]))
  }

  /** After any honest calls a known hash is the hash of leading bytes of the cached chunk. */
  lemma {:induction false} HashesStayTrue(cs: nat, hash: seq<Byte> -> Hash, st: State, calls: seq<Call>)
    requires cs > 0 && HashesTrue(hash, st) && HonestRun(cs, hash, st, calls)
    ensures forall c :: c in calls ==> NonEmpty(c)
    ensures HashesTrue(hash, C.DoAll(cs, hash, st, calls))
    decreases |calls|
  {
    hide HashesTrue, C.Do, Honest, NonEmpty;
    if calls != [] {
      CallKeepsHashes(cs, hash, st, calls[0]);
      HashesStayTrue(cs, hash, C.Do(cs, hash, st, calls[0]), calls[1..]);
      assert forall c :: c in calls ==> c == calls[0] || c in calls[1..];
    }
  }
}
