/** What a DiskStore entry keeps (pkg/blockcache/diskstore.go).

    Coherence says that a hit is right; a store that forgot everything would satisfy it.  Here: what
    was stored is served until an operation has a reason to forget it, and a verified write keeps its
    chunk and leaves every other one alone.
 */
module DiskRetention {
  import opened Bytes
  import opened Options
  import opened DiskModel
  import opened Caller
  import C = DiskCoherence
  import P = DiskProperties

  // ---- verified writes ----------------------------------------------------------------------

  /** The store after a WriteChunk of w that carries the hash of the caller's whole chunk. */
  ghost function Verified(cs: nat, hash: seq<Byte> -> Hash, st: State, id: FileVersion, idx: nat, off: nat,
                          w: seq<Byte>, chunk: seq<Byte>): State
    requires cs > 0 && off <= |chunk| && !WriteChunkFails(cs, st, id, idx, off, w, |chunk|)
  {
    WriteChunk(cs, hash, st, id, idx, off, w, |chunk|, hash(chunk))
  }

  lemma SameSlice(a: seq<Byte>, b: seq<Byte>, off: nat, n: nat)
    requires off + n <= |a| && off + n <= |b|
    requires forall i: nat :: off <= i < off + n ==> At(a, i) == At(b, i)
    ensures a[off..off + n] == b[off..off + n]
  {
    var x, y := a[off..off + n], b[off..off + n];
    forall k | 0 <= k < n ensures At(x, k) == At(y, k) {
      assert At(a, off + k) == At(b, off + k);
    }
    SameBytes(x, y);
  }

  /** Loading does not change what can be read of a chunk that can be read afterwards. */
  lemma LoadReads(cs: nat, st: State, id: FileVersion, minBacking: nat, off: nat, n: nat)
    requires cs > 0 && st.Some? && ReadAt(st.value.data, off, n).Some?
    requires ReadAt(Load(cs, st, id, minBacking).data, off, n).Some?
    ensures ReadAt(Load(cs, st, id, minBacking).data, off, n) == ReadAt(st.value.data, off, n)
  {
    var a, b := Load(cs, st, id, minBacking).data, st.value.data;
    if n > 0 {
      SameSlice(a, b, off, n);
    }
  }

  lemma MergeIsPatch(base: seq<Byte>, off: nat, w: seq<Byte>, chunk: seq<Byte>)
    requires Patches(base, off, w, chunk)
    ensures Merge(base, off, w) == chunk
  {
    var m := Merge(base, off, w);
    forall i | 0 <= i < |chunk| ensures m[i] == chunk[i] {
      if off <= i < off + |w| { assert chunk[off..off + |w|][i - off] == chunk[i]; }
    }
  }

  /** A verified write to a chunk that agrees with the caller's keeps the chunk: it is served whole, as
      the caller has it, and its hash is recorded. */
  lemma WriteChunkKeeps(cs: nat, hash: seq<Byte> -> Hash, st: State, id: FileVersion, idx: nat, off: nat,
                        w: seq<Byte>, base: seq<Byte>, chunk: seq<Byte>)
    requires cs > 0 && Get(cs, st, idx, |base|) == Some(base) && Patches(base, off, w, chunk)
    requires !WriteChunkFails(cs, st, id, idx, off, w, |chunk|)
    ensures var r := Verified(cs, hash, st, id, idx, off, w, chunk);
            && Get(cs, r, idx, |chunk|) == Some(chunk)
            && idx < |r.value.hashes| && r.value.hashes[idx] == hash(chunk)
  {
    hide Start, Load, Merge, WriteAt, PutChunk, SubsOf;
    if off == 0 && |w| == |chunk| {
      assert w == chunk;
      P.PutReadsBack(cs, st, id, idx, w, hash(chunk));
    } else {
      var e := Load(cs, st, id, Start(cs, idx) + off + |w|);
      LoadReads(cs, st, id, Start(cs, idx) + off + |w|, Start(cs, idx), |chunk|);
      MergeIsPatch(base, off, w, chunk);
      P.MergeIsWrite(e.data, Start(cs, idx), |chunk|, off, w);
    }
  }

  /** Every range of a marked chunk that can be read whole is served. */
  lemma MarkedServes(cs: nat, e: Entry, idx: nat, len: nat, subOff: nat, n: nat)
    requires cs > 0 && SubsOf(cs, idx) <= e.subs && ReadAt(e.data, Start(cs, idx), len).Some?
    requires 0 < n && subOff + n <= len <= cs
    ensures GetSub(cs, Some(e), idx, subOff, n) ==
              Some(ReadAt(e.data, Start(cs, idx), len).value[subOff..subOff + n])
  {
    hide ChunkOf, SubSpan;
    var off := Start(cs, idx) + subOff;
    forall s: nat | InSpan(off, n, s) ensures s in e.subs {
      SpanIs(off, n, s);
      assert Start(cs, idx + 1) == Start(cs, idx) + cs;
      InItsChunk(cs, idx, off, n, s);
    }
    SliceOfSlice(e.data, Start(cs, idx), len, subOff, subOff + n);
  }

  lemma InItsChunk(cs: nat, idx: nat, off: nat, n: nat, s: nat)
    requires Start(cs, idx) <= off && off + n <= Start(cs, idx + 1) && s * SUB < off + n && off < s * SUB + SUB
    ensures s in SubsOf(cs, idx)
  {
    hide Start;
  }

  /** An entry reads, in chunk c, as another one does. */
  lemma SameReads(cs: nat, a: Entry, b: Entry, c: nat, subOff: nat, n: nat)
    requires IsChunkSize(cs) && 0 < n && subOff + n <= cs
    requires c in a.chunks <==> c in b.chunks
    requires forall i: nat :: ChunkOf(cs, i) == c ==> (Present(cs, a, i) <==> Present(cs, b, i))
    requires forall i: nat :: ChunkOf(cs, i) == c && Present(cs, a, i) ==>
               At(a.data, i) == At(b.data, i) && (i < |a.data| <==> i < |b.data|)
    ensures GetSub(cs, Some(a), c, subOff, n) == GetSub(cs, Some(b), c, subOff, n)
    ensures subOff == 0 ==> Get(cs, Some(a), c, n) == Get(cs, Some(b), c, n)
  {
    hide Start, ChunkOf, SubsPresent, Present;
    var off := Start(cs, c) + subOff;
    C.SubsPresentIff(cs, a, off, n);
    C.SubsPresentIff(cs, b, off, n);
    forall i: nat | off <= i < off + n ensures ChunkOf(cs, i) == c { ChunkOfByte(cs, i, c); }
    if forall i: nat :: off <= i < off + n ==> Present(cs, a, i) {
      assert Present(cs, a, off + n - 1);
      if off + n <= |a.data| { SameSlice(a.data, b.data, off, n); }
    }
    if c in a.chunks && subOff == 0 {
      forall i: nat | off <= i < off + n ensures Present(cs, a, i) { ChunkBitPresent(cs, a, i, c); }
    }
  }

  lemma ChunkBitPresent(cs: nat, e: Entry, i: nat, c: nat)
    requires cs > 0 && c in e.chunks && ChunkOf(cs, i) == c
    ensures Present(cs, e, i)
  {
  }

  /** What a verified write makes of the entry. */
  lemma VerifiedShape(cs: nat, hash: seq<Byte> -> Hash, st: State, id: FileVersion, idx: nat, off: nat,
                      w: seq<Byte>, base: seq<Byte>, chunk: seq<Byte>)
    requires cs > 0 && Get(cs, st, idx, |base|) == Some(base) && Patches(base, off, w, chunk)
    requires !WriteChunkFails(cs, st, id, idx, off, w, |chunk|)
    ensures st.Some?
    ensures var r := Verified(cs, hash, st, id, idx, off, w, chunk);
            var need := Start(cs, idx) + off + |w|;
            && r.Some? && r.value.chunks == st.value.chunks && r.value.subs == st.value.subs + SubsOf(cs, idx)
            && r.value.data == WriteAt(Load(cs, st, id, need).data, Start(cs, idx) + off, w)
  {
    hide Start, Load, Merge, WriteAt, SubsOf;
    var need := Start(cs, idx) + off + |w|;
    LoadSame(cs, st, id, need);
    if !(off == 0 && |w| == |chunk|) {
      LoadReads(cs, st, id, need, Start(cs, idx), |chunk|);
      MergeIsPatch(base, off, w, chunk);
    }
  }

  lemma LoadSame(cs: nat, st: State, id: FileVersion, need: nat)
    requires cs > 0 && st.Some?
    ensures var e := Load(cs, st, id, need);
            && e.chunks == st.value.chunks && e.subs == st.value.subs
            && e.data == if st.value.cur < need then Resized(st.value.data, need) else st.value.data
  {
  }

  /** It leaves every other chunk as it was, for a well-formed index of the hashed regime. */
  lemma WriteChunkLeaves(cs: nat, hash: seq<Byte> -> Hash, st: State, id: FileVersion, idx: nat, off: nat,
                         w: seq<Byte>, base: seq<Byte>, chunk: seq<Byte>, c: nat, subOff: nat, n: nat)
    requires IsChunkSize(cs) && P.IndexOK(cs, st) && P.WholeChunks(cs, st)
    requires Get(cs, st, idx, |base|) == Some(base) && Patches(base, off, w, chunk) && |chunk| <= cs
    requires !WriteChunkFails(cs, st, id, idx, off, w, |chunk|)
    requires c != idx && 0 < n && subOff + n <= cs
    ensures var r := Verified(cs, hash, st, id, idx, off, w, chunk);
            GetSub(cs, r, c, subOff, n) == GetSub(cs, st, c, subOff, n) &&
            (subOff == 0 ==> Get(cs, r, c, n) == Get(cs, st, c, n))
  {
    hide Verified, Start, Load, WriteAt, GetSub, Get, SubsOf, ChunkOf, Present, P.IndexOK, P.WholeChunks,
         WriteChunkFails;
    VerifiedShape(cs, hash, st, id, idx, off, w, base, chunk);
    var r := Verified(cs, hash, st, id, idx, off, w, chunk);
    forall i: nat | ChunkOf(cs, i) == c
      ensures Present(cs, st.value, i) <==> Present(cs, r.value, i)
      ensures Present(cs, st.value, i) ==>
                At(st.value.data, i) == At(r.value.data, i) && (i < |st.value.data| <==> i < |r.value.data|)
    {
      OtherBit(cs, st.value, r.value, idx, i);
      if Present(cs, st.value, i) { OtherByte(cs, hash, st, id, idx, off, w, base, chunk, i); }
    }
    SameReads(cs, st.value, r.value, c, subOff, n);
  }

  lemma OtherBit(cs: nat, e: Entry, r: Entry, idx: nat, i: nat)
    requires IsChunkSize(cs) && ChunkOf(cs, i) != idx && r.chunks == e.chunks && r.subs == e.subs + SubsOf(cs, idx)
    ensures Present(cs, e, i) <==> Present(cs, r, i)
  {
    hide ChunkOf, SubOf, FirstSub, LastSub;
    ChunkSubs(cs, idx, i);
  }

  /** The backing is cut, if at all, behind the chunk, where nothing is marked. */
  lemma OtherByte(cs: nat, hash: seq<Byte> -> Hash, st: State, id: FileVersion, idx: nat, off: nat,
                  w: seq<Byte>, base: seq<Byte>, chunk: seq<Byte>, i: nat)
    requires IsChunkSize(cs) && P.IndexOK(cs, st) && P.WholeChunks(cs, st)
    requires Get(cs, st, idx, |base|) == Some(base) && Patches(base, off, w, chunk) && |chunk| <= cs
    requires !WriteChunkFails(cs, st, id, idx, off, w, |chunk|)
    requires ChunkOf(cs, i) != idx && Present(cs, st.value, i)
    ensures var d := WriteAt(Load(cs, st, id, Start(cs, idx) + off + |w|).data, Start(cs, idx) + off, w);
            At(st.value.data, i) == At(d, i) && (i < |st.value.data| <==> i < |d|)
  {
    hide Start, ChunkOf, NumChunks, WriteAt, Load, Present;
    var need := Start(cs, idx) + off + |w|;
    LoadSame(cs, st, id, need);
    var c := ChunkOf(cs, i);
    ChunkOfByte(cs, i, c);
    assert c in st.value.chunks && P.BitOK(cs, st.value, c);
    NumChunksIs(st.value.cur, cs, c);
    if c < idx { P.StartMonotonic(cs, c, idx); } else { P.StartMonotonic(cs, idx, c); }
    assert P.BitOK(cs, st.value, idx);
    NumChunksIs(st.value.cur, cs, idx);
  }

  /** Over whole runs of the hashed regime: a verified write to a cached chunk that agrees with the
      caller's leaves that chunk served, whole and in every range, as the caller has it, with its hash
      recorded; and every read of any other chunk answers as before. */
  lemma HashedRunKeeps(cs: nat, hash: seq<Byte> -> Hash, id: FileVersion, calls: seq<Call>, idx: nat, off: nat,
                       w: seq<Byte>, base: seq<Byte>, chunk: seq<Byte>, c: nat, subOff: nat, n: nat)
    requires IsChunkSize(cs) && forall call :: call in calls ==> NonEmpty(call) && HashedCall(call)
    requires Get(cs, P.DoAll(cs, hash, None, id, calls), idx, |base|) == Some(base)
    requires Patches(base, off, w, chunk) && |chunk| <= cs
    requires !WriteChunkFails(cs, P.DoAll(cs, hash, None, id, calls), id, idx, off, w, |chunk|)
    requires 0 < n && subOff + n <= cs
    ensures var st := P.DoAll(cs, hash, None, id, calls);
            var r := Verified(cs, hash, st, id, idx, off, w, chunk);
            && r.Some? && idx < |r.value.hashes| && r.value.hashes[idx] == hash(chunk)
            && Get(cs, r, idx, |chunk|) == Some(chunk)
            && (c == idx && subOff + n <= |chunk| ==>
                  GetSub(cs, r, c, subOff, n) == Some(chunk[subOff..subOff + n]))
            && (c != idx ==>
                  && GetSub(cs, r, c, subOff, n) == GetSub(cs, st, c, subOff, n)
                  && (subOff == 0 ==> Get(cs, r, c, n) == Get(cs, st, c, n)))
  {
    hide P.IndexOK, P.WholeChunks, P.DoAll, WriteChunkFails, Verified, GetSub, Get, Start, Load, WriteAt, SubsOf;
    P.NoneIndex(cs);
    P.NoneWhole(cs);
    P.IndexAlwaysOK(cs, hash, None, id, calls);
    P.HashedRunsWhole(cs, hash, None, id, calls);
    var st := P.DoAll(cs, hash, None, id, calls);
    VerifiedShape(cs, hash, st, id, idx, off, w, base, chunk);
    WriteChunkKeeps(cs, hash, st, id, idx, off, w, base, chunk);
    var r := Verified(cs, hash, st, id, idx, off, w, chunk);
    if c == idx && subOff + n <= |chunk| {
      GetReads(cs, r, idx, chunk);
      MarkedServes(cs, r.value, idx, |chunk|, subOff, n);
    } else if c != idx {
      WriteChunkLeaves(cs, hash, st, id, idx, off, w, base, chunk, c, subOff, n);
    }
  }

  lemma GetReads(cs: nat, st: State, idx: nat, chunk: seq<Byte>)
    requires Get(cs, st, idx, |chunk|) == Some(chunk)
    ensures st.Some? && ReadAt(st.value.data, Start(cs, idx), |chunk|) == Some(chunk)
  {
  }

  // ---- what was stored stays, until something forgets it ------------------------------------

  /** Byte i is cached, inside the recorded size. */
  ghost predicate Held(cs: nat, st: State, i: nat)
    requires cs > 0
  {
    st.Some? && Present(cs, st.value, i) && i < st.value.cur
  }

  ghost predicate Backed(st: State) {
    st.Some? ==> st.value.cur <= |st.value.data|
  }

  /** Byte k of the cached chunk with w over it. */
  function Overwritten(cs: nat, e: Entry, idx: nat, off: nat, w: seq<Byte>, k: nat): Byte {
    if off <= k < off + |w| then w[k - off] else At(e.data, Start(cs, idx) + k)
  }

  /** The cached chunk with w over it does not hash to h. */
  ghost predicate Disagrees(cs: nat, hash: seq<Byte> -> Hash, e: Entry, idx: nat, off: nat, w: seq<Byte>, len: nat,
                            h: Hash)
  {
    hash(seq(len, k requires k >= 0 => Overwritten(cs, e, idx, off, w, k))) != h
  }

  /** The bytes a call hands to the store for keeping: where they go, if it takes them. */
  ghost predicate Takes(cs: nat, hash: seq<Byte> -> Hash, st: State, id: FileVersion, c: Call)
    requires cs > 0
  {
    match c
    case CallPut(_, _, _) => true
    case CallPutSub(_, _, _) => true
    case CallWriteThrough(idx, off, w, len) =>
      (off == 0 && |w| == len) || Touches(st, idx, Start(cs, idx) + off, |w|)
    case CallWriteChunk(idx, off, w, len, h) =>
      || (off == 0 && |w| == len)
      || (&& st.Some? && idx in st.value.chunks && !WriteChunkFails(cs, st, id, idx, off, w, len)
          && !Disagrees(cs, hash, st.value, idx, off, w, len, h))
    case _ => false
  }

  function Where(cs: nat, c: Call): nat {
    match c
    case CallPut(idx, _, _) => Start(cs, idx)
    case CallPutSub(idx, off, _) => Start(cs, idx) + off
    case CallWriteThrough(idx, off, _, _) => Start(cs, idx) + off
    case CallWriteChunk(idx, off, _, _, _) => Start(cs, idx) + off
    case _ => 0
  }

  /** A partial write through is taken exactly when some byte of a sub-block it touches is cached. */
  lemma TouchesExactly(cs: nat, e: Entry, idx: nat, chunkOff: nat, n: nat)
    requires IsChunkSize(cs) && 0 < n && chunkOff + n <= cs
    ensures var off := Start(cs, idx) + chunkOff;
            Touches(Some(e), idx, off, n) <==> exists i: nat :: InSpan(off, n, SubOf(i)) && Present(cs, e, i)
  {
    hide Start, ChunkOf, SubSpan;
    var off := Start(cs, idx) + chunkOff;
    if Touches(Some(e), idx, off, n) {
      if idx in e.chunks {
        ByteInSpan(off, n, off);
        ChunkOfByte(cs, off, idx);
        assert Present(cs, e, off);
      } else {
        var s: nat :| InSpan(off, n, s) && s in e.subs;
        assert SubOf(s * SUB) == s;
        assert Present(cs, e, s * SUB);
      }
    }
    if i: nat :| InSpan(off, n, SubOf(i)) && Present(cs, e, i) {
      SpanIs(off, n, SubOf(i));
      var j: nat := if SubOf(i) * SUB < off then off else SubOf(i) * SUB;
      assert SubOf(j) == SubOf(i);
      SameSubSameChunk(cs, i, j);
      ChunkOfByte(cs, j, idx);
    }
  }

  /** The call has a reason to forget byte i. */
  ghost predicate Forgets(cs: nat, hash: seq<Byte> -> Hash, st: State, id: FileVersion, c: Call, i: nat)
    requires cs > 0
  {
    match c
    case CallDrop(idx) => ChunkOf(cs, i) == idx
    case CallResize(newSize) =>
      || ChunkOf(cs, i) >= ChunkOf(cs, newSize)
      || (st.Some? && st.value.cur > 0 && ChunkOf(cs, i) == ChunkOf(cs, st.value.cur - 1))
    case CallInvalidate => true
    case CallWriteChunk(idx, off, w, len, h) =>
      && ChunkOf(cs, i) == idx && !(off == 0 && |w| == len) && !WriteChunkFails(cs, st, id, idx, off, w, len)
      && st.Some? && idx in st.value.chunks && Disagrees(cs, hash, st.value, idx, off, w, len, h)
    case _ => false
  }

  ghost predicate Given(cs: nat, hash: seq<Byte> -> Hash, st: State, id: FileVersion, c: Call, i: nat)
    requires cs > 0
  {
    Takes(cs, hash, st, id, c) && Where(cs, c) <= i < Where(cs, c) + |What(c)|
  }

  /** One call: what it gives is held, and what was held and is not forgotten is held on, unchanged
      but for what is given. */
  ghost predicate Retains(cs: nat, hash: seq<Byte> -> Hash, st: State, id: FileVersion, c: Call, i: nat, r: State)
    requires cs > 0
  {
    && (Given(cs, hash, st, id, c, i) ==>
          Held(cs, r, i) && At(r.value.data, i) == What(c)[i - Where(cs, c)])
    && (Held(cs, st, i) && !Forgets(cs, hash, st, id, c, i) && !Given(cs, hash, st, id, c, i) ==>
          Held(cs, r, i) && At(r.value.data, i) == At(st.value.data, i))
  }

  /** Storing w at off in a loaded entry. */
  lemma StoredBytes(cs: nat, st: State, id: FileVersion, off: nat, w: seq<Byte>, i: nat)
    requires cs > 0 && Backed(st)
    ensures var e := Load(cs, st, id, off + |w|);
            var d := WriteAt(e.data, off, w);
            && off + |w| <= e.cur <= |d|
            && (off <= i < off + |w| ==> At(d, i) == w[i - off])
            && (st.Some? && i < st.value.cur && !(off <= i < off + |w|) ==>
                  i < e.cur && At(d, i) == At(st.value.data, i))
            && (st.Some? ==> e.chunks == st.value.chunks && e.subs == st.value.subs)
  {
    hide NumChunks, ZeroHashes;
  }

  lemma PutRetains(cs: nat, hash: seq<Byte> -> Hash, st: State, id: FileVersion, c: Call, idx: nat, w: seq<Byte>,
                   h: Hash, i: nat)
    requires IsChunkSize(cs) && Backed(st) && |w| <= cs
    requires Where(cs, c) == Start(cs, idx) && What(c) == w && Takes(cs, hash, st, id, c)
    ensures Retains(cs, hash, st, id, c, i, Some(PutChunk(cs, st, id, idx, w, h)))
    ensures Backed(Some(PutChunk(cs, st, id, idx, w, h)))
  {
    hide Start, Load, WriteAt, SubsOf, ChunkOf, Present, Takes, Forgets, Where, What;
    var e := Load(cs, st, id, Start(cs, idx) + |w|);
    var d := WriteAt(e.data, Start(cs, idx), w);
    StoredBytes(cs, st, id, Start(cs, idx), w, i);
    C.MarkChunkPresence(cs, e.(data := d), idx, h, i);
    C.LoadPresence(cs, st, id, Start(cs, idx) + |w|, d, i);
    ChunkOfByte(cs, i, idx);
  }

  lemma PutSubRetains(cs: nat, hash: seq<Byte> -> Hash, st: State, id: FileVersion, c: Call, i: nat)
    requires cs > 0 && Backed(st) && c.CallPutSub?
    ensures var r := Some(PutSub(cs, st, id, c.idx, c.subOff, c.w)); Retains(cs, hash, st, id, c, i, r) && Backed(r)
  {
    hide Start, Load, WriteAt, Present, SubSpan, SubOf;
    var off := Start(cs, c.idx) + c.subOff;
    var e := Load(cs, st, id, off + |c.w|);
    var d := WriteAt(e.data, off, c.w);
    StoredBytes(cs, st, id, off, c.w, i);
    C.MarkSpanPresence(cs, e.(data := d), off, |c.w|, i);
    C.LoadPresence(cs, st, id, off + |c.w|, d, i);
    if off <= i < off + |c.w| { ByteInSpan(off, |c.w|, i); }
  }

  lemma SpliceRetains(cs: nat, hash: seq<Byte> -> Hash, st: State, id: FileVersion, c: Call, i: nat)
    requires cs > 0 && Backed(st) && c.CallWriteThrough? && Takes(cs, hash, st, id, c)
    ensures var r := Some(Spliced(cs, st, id, c.idx, Start(cs, c.idx) + c.chunkOff, c.w));
            Retains(cs, hash, st, id, c, i, r) && Backed(r)
  {
    hide Start, Load, WriteAt, SubSpan, SubOf, Present, GrowHashes;
    var off := Start(cs, c.idx) + c.chunkOff;
    var e := Load(cs, st, id, off + |c.w|);
    var d := WriteAt(e.data, off, c.w);
    var r := Spliced(cs, st, id, c.idx, off, c.w);
    StoredBytes(cs, st, id, off, c.w, i);
    C.MarkSpanPresence(cs, e.(data := d), off, |c.w|, i);
    C.LoadPresence(cs, st, id, off + |c.w|, d, i);
    SamePresence(cs, MarkSpan(e.(data := d), off, |c.w|), r, i);
    if off <= i < off + |c.w| { ByteInSpan(off, |c.w|, i); }
  }

  lemma WriteThroughRetains(cs: nat, hash: seq<Byte> -> Hash, st: State, id: FileVersion, c: Call, i: nat)
    requires IsChunkSize(cs) && Backed(st) && c.CallWriteThrough? && Fits(cs, c)
    ensures var r := WriteThrough(cs, st, id, c.idx, c.chunkOff, c.w, c.chunkLen);
            Retains(cs, hash, st, id, c, i, r) && Backed(r)
  {
    hide Start, Held, PutChunk, Spliced, Touches;
    if c.chunkOff == 0 && |c.w| == c.chunkLen {
      assert Where(cs, c) == Start(cs, c.idx);
      PutRetains(cs, hash, st, id, c, c.idx, c.w, UNKNOWN_HASH, i);
    } else if Touches(st, c.idx, Start(cs, c.idx) + c.chunkOff, |c.w|) {
      SpliceRetains(cs, hash, st, id, c, i);
    }
  }

  /** What WriteChunk hashes is the cached chunk with w over it. */
  lemma MergedIs(cs: nat, st: State, id: FileVersion, idx: nat, off: nat, w: seq<Byte>, len: nat)
    requires cs > 0 && st.Some? && off + |w| <= len
    requires ReadAt(Load(cs, st, id, Start(cs, idx) + off + |w|).data, Start(cs, idx), len).Some?
    ensures var base := ReadAt(Load(cs, st, id, Start(cs, idx) + off + |w|).data, Start(cs, idx), len).value;
            Merge(base, off, w) == seq(len, k requires k >= 0 => Overwritten(cs, st.value, idx, off, w, k))
  {
    hide Start;
    var d := Load(cs, st, id, Start(cs, idx) + off + |w|).data;
    var m := Merge(ReadAt(d, Start(cs, idx), len).value, off, w);
    forall k | 0 <= k < len ensures m[k] == Overwritten(cs, st.value, idx, off, w, k) {
      assert At(d, Start(cs, idx) + k) == d[Start(cs, idx) + k];
    }
  }

  lemma WriteChunkRetains(cs: nat, hash: seq<Byte> -> Hash, st: State, id: FileVersion, c: Call, i: nat)
    requires IsChunkSize(cs) && Backed(st) && c.CallWriteChunk? && Fits(cs, c)
    requires !WriteChunkFails(cs, st, id, c.idx, c.chunkOff, c.w, c.chunkLen)
    ensures var r := WriteChunk(cs, hash, st, id, c.idx, c.chunkOff, c.w, c.chunkLen, c.h);
            Retains(cs, hash, st, id, c, i, r) && Backed(r)
  {
    hide Start, Held, PutChunk, Load, Merge, MarkChunk, ClearChunk, Grown, WriteAt;
    if c.chunkOff == 0 && |c.w| == c.chunkLen {
      assert Where(cs, c) == Start(cs, c.idx);
      PutRetains(cs, hash, st, id, c, c.idx, c.w, c.h, i);
    } else if st.Some? && c.idx in st.value.chunks {
      MergedIs(cs, st, id, c.idx, c.chunkOff, c.w, c.chunkLen);
      SettledRetains(cs, hash, st, id, c, i);
    }
  }

  lemma SettledRetains(cs: nat, hash: seq<Byte> -> Hash, st: State, id: FileVersion, c: Call, i: nat)
    requires IsChunkSize(cs) && Backed(st) && c.CallWriteChunk? && c.chunkOff + |c.w| <= c.chunkLen <= cs
    requires !WriteChunkFails(cs, st, id, c.idx, c.chunkOff, c.w, c.chunkLen)
    requires st.Some? && c.idx in st.value.chunks && !(c.chunkOff == 0 && |c.w| == c.chunkLen)
    ensures var off := Start(cs, c.idx) + c.chunkOff;
            var e := Load(cs, st, id, off + |c.w|);
            var agrees := !Disagrees(cs, hash, st.value, c.idx, c.chunkOff, c.w, c.chunkLen, c.h);
            var r := Some(Settled(cs, e.(data := WriteAt(e.data, off, c.w)), c.idx, agrees, c.h));
            Retains(cs, hash, st, id, c, i, r) && Backed(r)
  {
    hide Start, Load, WriteAt, SubsOf, Present, Disagrees, GrowHashes, ChunkOf, WriteChunkFails;
    var off := Start(cs, c.idx) + c.chunkOff;
    StoredBytes(cs, st, id, off, c.w, i);
    var e := Load(cs, st, id, off + |c.w|);
    var d := e.(data := WriteAt(e.data, off, c.w));
    C.MarkChunkPresence(cs, Grown(d, c.idx), c.idx, c.h, i);
    C.ClearChunkPresence(cs, Grown(d, c.idx), c.idx, i);
    SamePresence(cs, st.value, Grown(d, c.idx), i);
    ChunkOfByte(cs, i, c.idx);
  }

  lemma SamePresence(cs: nat, a: Entry, b: Entry, i: nat)
    requires cs > 0 && a.chunks == b.chunks && a.subs == b.subs
    ensures Present(cs, a, i) <==> Present(cs, b, i)
  {
  }

  lemma {:induction false} ClearChunksPresence(cs: nat, e: Entry, lo: nat, hi: nat, i: nat)
    requires IsChunkSize(cs)
    ensures var r := ClearChunks(cs, e, lo, hi);
            && r.data == e.data && r.cur == e.cur && r.width == e.width
            && (Present(cs, r, i) <==> Present(cs, e, i) && !(lo <= ChunkOf(cs, i) < hi))
    decreases hi - lo
  {
    hide Present, ChunkOf, SubsOf;
    if lo < hi {
      ClearChunksPresence(cs, e, lo, hi - 1, i);
      C.ClearChunkPresence(cs, ClearChunks(cs, e, lo, hi - 1), hi - 1, i);
    }
  }

  /** Cutting the arrays to the new size loses no chunk that starts below the boundary chunk. */
  lemma CutPresence(cs: nat, e: Entry, newSize: nat, i: nat)
    requires IsChunkSize(cs) && ChunkOf(cs, i) < ChunkOf(cs, newSize) && Present(cs, e, i)
    requires ChunkOf(cs, i) in e.chunks ==> ChunkOf(cs, i) < 8 * e.width
    ensures i < newSize && Present(cs, CutTo(cs, e, newSize), i)
  {
    hide ChunkOf, SubOf, NumChunks, Start;
    var c := ChunkOf(cs, i);
    P.BoundaryChunk(cs, newSize, c);
    ChunkOfByte(cs, i, c);
    ChunkOfByte(cs, newSize, ChunkOf(cs, newSize));
    P.StartMonotonic(cs, c, ChunkOf(cs, newSize));
  }

  /** Exactly what a Resize leaves present: not the chunks from the boundary chunk on, as far as the bitmap
      reaches, and not the old last chunk. */
  lemma ResizePresence(cs: nat, e: Entry, newSize: nat, i: nat)
    requires IsChunkSize(cs) && P.IndexOK(cs, Some(e))
    ensures var c := ChunkOf(cs, i);
            Present(cs, ResizedEntry(cs, Some(e), newSize), i) <==>
              && Present(cs, e, i) && !(ChunkOf(cs, newSize) <= c < 8 * e.width)
              && !(e.cur > 0 && c == ChunkOf(cs, e.cur - 1))
  {
    hide ChunkOf, SubsOf, ClearChunks, SubOf, NumChunks, Present;
    var d := ClearChunks(cs, e, ChunkOf(cs, newSize), 8 * e.width);
    ClearChunksPresence(cs, e, ChunkOf(cs, newSize), 8 * e.width, i);
    P.ClearChunksBits(cs, e, ChunkOf(cs, newSize), 8 * e.width);
    var s := if e.cur > 0 then ClearChunk(cs, d, ChunkOf(cs, e.cur - 1)) else d;
    if e.cur > 0 { C.ClearChunkPresence(cs, d, ChunkOf(cs, e.cur - 1), i); }
    assert forall c :: c in s.chunks ==> c in e.chunks && c < ChunkOf(cs, newSize) && c < 8 * e.width by {
      forall c | c in s.chunks ensures c in e.chunks && c < ChunkOf(cs, newSize) && c < 8 * e.width {
        assert P.BitOK(cs, e, c);
      }
    }
    CutPresenceIff(cs, s, newSize, i);
  }

  lemma CutPresenceIff(cs: nat, e: Entry, newSize: nat, i: nat)
    requires cs > 0 && forall c :: c in e.chunks ==> c < ChunkOf(cs, newSize) && c < 8 * e.width
    ensures Present(cs, CutTo(cs, e, newSize), i) <==> Present(cs, e, i)
  {
    hide ChunkOf, SubOf, NumChunks;
    var c := ChunkOf(cs, i);
    if c in e.chunks { P.BoundaryChunk(cs, newSize, c); }
  }

  lemma ResizeRetains(cs: nat, hash: seq<Byte> -> Hash, st: State, id: FileVersion, newSize: nat, i: nat)
    requires IsChunkSize(cs) && P.IndexOK(cs, st)
    ensures var r := Some(ResizedEntry(cs, st, newSize));
            Retains(cs, hash, st, id, CallResize(newSize), i, r) && Backed(r)
  {
    hide ChunkOf, Present, SubsOf, ClearChunks, P.BitOK;
    if Held(cs, st, i) && !Forgets(cs, hash, st, id, CallResize(newSize), i) {
      var e := st.value;
      var d := ClearChunks(cs, e, ChunkOf(cs, newSize), 8 * e.width);
      ClearChunksPresence(cs, e, ChunkOf(cs, newSize), 8 * e.width, i);
      P.ClearChunksBits(cs, e, ChunkOf(cs, newSize), 8 * e.width);
      C.ClearChunkPresence(cs, d, ChunkOf(cs, e.cur - 1), i);
      assert ChunkOf(cs, i) in e.chunks ==> ChunkOf(cs, i) < 8 * e.width by {
        if ChunkOf(cs, i) in e.chunks { BitInside(cs, e, ChunkOf(cs, i)); }
      }
      CutPresence(cs, ClearChunk(cs, d, ChunkOf(cs, e.cur - 1)), newSize, i);
    }
  }

  lemma BitInside(cs: nat, e: Entry, c: nat)
    requires cs > 0 && P.BitOK(cs, e, c)
    ensures c < 8 * e.width
  {
  }

  lemma CallRetains(cs: nat, hash: seq<Byte> -> Hash, st: State, id: FileVersion, c: Call, i: nat)
    requires IsChunkSize(cs) && P.IndexOK(cs, st) && Backed(st) && NonEmpty(c) && Fits(cs, c)
    ensures var r := P.Do(cs, hash, st, id, c); Retains(cs, hash, st, id, c, i, r) && Backed(r)
  {
    hide P.IndexOK, Retains, Backed, Fits, PutChunk, PutSub, WriteThrough, WriteChunk, WriteChunkFails, ResizedEntry,
         Dropped, Start, Takes;
    match c
    case CallPut(idx, w, h) => PutCall(cs, hash, st, id, c, i);
    case CallPutSub(_, _, _) => PutSubRetains(cs, hash, st, id, c, i);
    case CallWriteChunk(idx, off, w, len, _) =>
      if WriteChunkFails(cs, st, id, idx, off, w, len) {
        FailureRetains(cs, hash, st, id, c, i);
      } else {
        WriteChunkRetains(cs, hash, st, id, c, i);
      }
    case CallWriteThrough(_, _, _, _) => WriteThroughRetains(cs, hash, st, id, c, i);
    case CallDrop(_) => DropRetains(cs, hash, st, id, c, i);
    case CallResize(newSize) => ResizeRetains(cs, hash, st, id, newSize, i);
    case CallInvalidate => InvalidateRetains(cs, hash, st, id, i);
  }

  lemma PutCall(cs: nat, hash: seq<Byte> -> Hash, st: State, id: FileVersion, c: Call, i: nat)
    requires IsChunkSize(cs) && Backed(st) && c.CallPut? && Fits(cs, c)
    ensures var r := Some(PutChunk(cs, st, id, c.idx, c.w, c.h)); Retains(cs, hash, st, id, c, i, r) && Backed(r)
  {
    hide PutChunk, Start;
    PutRetains(cs, hash, st, id, c, c.idx, c.w, c.h, i);
  }

  /** A failing WriteChunk leaves the index alone, and the bytes below the recorded size. */
  lemma FailureRetains(cs: nat, hash: seq<Byte> -> Hash, st: State, id: FileVersion, c: Call, i: nat)
    requires cs > 0 && Backed(st) && c.CallWriteChunk?
    requires WriteChunkFails(cs, st, id, c.idx, c.chunkOff, c.w, c.chunkLen)
    ensures st.Some?
    ensures var d := Load(cs, st, id, Start(cs, c.idx) + c.chunkOff + |c.w|).data;
            Retains(cs, hash, st, id, c, i, Some(st.value.(data := d))) && Backed(Some(st.value.(data := d)))
  {
    hide Start, SubOf, ChunkOf, Disagrees;
  }

  lemma DropRetains(cs: nat, hash: seq<Byte> -> Hash, st: State, id: FileVersion, c: Call, i: nat)
    requires IsChunkSize(cs) && Backed(st) && c.CallDrop?
    ensures Retains(cs, hash, st, id, c, i, Dropped(cs, st, c.idx)) && Backed(Dropped(cs, st, c.idx))
  {
    hide Present, ChunkOf, SubsOf;
    if st.Some? { C.ClearChunkPresence(cs, st.value, c.idx, i); }
  }

  lemma InvalidateRetains(cs: nat, hash: seq<Byte> -> Hash, st: State, id: FileVersion, i: nat)
    requires cs > 0
    ensures Retains(cs, hash, st, id, CallInvalidate, i, None) && Backed(None)
  {
  }

  ghost function NextByte(cs: nat, hash: seq<Byte> -> Hash, st: State, id: FileVersion, c: Call, i: nat,
                          b: Option<Byte>): Option<Byte>
    requires cs > 0
  {
    if Given(cs, hash, st, id, c, i) then Some(What(c)[i - Where(cs, c)])
    else if Forgets(cs, hash, st, id, c, i) then None
    else b
  }

  lemma NextHolding(cs: nat, hash: seq<Byte> -> Hash, st: State, id: FileVersion, c: Call, i: nat, b: Option<Byte>,
                    r: State)
    requires cs > 0 && Holding(cs, st, i, b) && Retains(cs, hash, st, id, c, i, r)
    ensures Holding(cs, r, i, NextByte(cs, hash, st, id, c, i, b))
  {
    hide Held, Takes, Forgets;
  }

  /** The byte the calls leave at position i: the one given last, unless forgotten since. */
  ghost function Kept(cs: nat, hash: seq<Byte> -> Hash, st: State, id: FileVersion, calls: seq<Call>, i: nat,
                      b: Option<Byte>): Option<Byte>
    requires cs > 0 && forall c :: c in calls ==> NonEmpty(c)
    decreases |calls|
  {
    if calls == [] then b
    else
      Kept(cs, hash, P.Do(cs, hash, st, id, calls[0]), id, calls[1..], i, NextByte(cs, hash, st, id, calls[0], i, b))
  }

  ghost predicate Holding(cs: nat, st: State, i: nat, b: Option<Byte>)
    requires cs > 0
  {
    b.Some? ==> Held(cs, st, i) && At(st.value.data, i) == b.value
  }

  /** Whatever the calls, in either regime or mixed: the store holds the byte given last. */
  lemma {:induction false} RunHolds(cs: nat, hash: seq<Byte> -> Hash, st: State, id: FileVersion, calls: seq<Call>,
                                    i: nat, b: Option<Byte>)
    requires IsChunkSize(cs) && P.IndexOK(cs, st) && Backed(st)
    requires forall c :: c in calls ==> NonEmpty(c) && Fits(cs, c)
    requires Holding(cs, st, i, b)
    ensures var r := P.DoAll(cs, hash, st, id, calls);
            Holding(cs, r, i, Kept(cs, hash, st, id, calls, i, b)) && Backed(r)
    decreases |calls|
  {
    hide P.IndexOK, Backed, Holding, Retains, P.Do, NextByte;
    if calls != [] {
      var c := calls[0];
      assert NonEmpty(c) && Fits(cs, c);
      P.CallKeepsIndex(cs, hash, st, id, c);
      CallRetains(cs, hash, st, id, c, i);
      NextHolding(cs, hash, st, id, c, i, b, P.Do(cs, hash, st, id, c));
      RunHolds(cs, hash, P.Do(cs, hash, st, id, c), id, calls[1..], i, NextByte(cs, hash, st, id, c, i, b));
    }
  }

  /** Read what was stored: after any calls from nothing, a range whose every byte has been given and not
      forgotten since is served, and each byte is the one given last. */
  lemma StoredIsServed(cs: nat, hash: seq<Byte> -> Hash, id: FileVersion, calls: seq<Call>, idx: nat, subOff: nat,
                       n: nat)
    requires IsChunkSize(cs) && forall c :: c in calls ==> NonEmpty(c) && Fits(cs, c)
    requires n > 0 && forall i: nat :: Start(cs, idx) + subOff <= i < Start(cs, idx) + subOff + n ==>
                         Kept(cs, hash, None, id, calls, i, None).Some?
    ensures var got := GetSub(cs, P.DoAll(cs, hash, None, id, calls), idx, subOff, n);
            && got.Some? && |got.value| == n
            && (subOff + n <= cs ==> HashedRange(cs, P.DoAll(cs, hash, None, id, calls), idx, subOff, n) == got)
            && forall k: nat :: k < n ==>
                 Some(got.value[k]) == Kept(cs, hash, None, id, calls, Start(cs, idx) + subOff + k, None)
  {
    hide Start, P.DoAll, Kept, Present, P.IndexOK;
    P.NoneIndex(cs);
    var st, off := P.DoAll(cs, hash, None, id, calls), Start(cs, idx) + subOff;
    forall i: nat | off <= i < off + n
      ensures Held(cs, st, i) && Some(At(st.value.data, i)) == Kept(cs, hash, None, id, calls, i, None)
    {
      RunHolds(cs, hash, None, id, calls, i, None);
    }
    RunHolds(cs, hash, None, id, calls, off, None);
    HeldIsServed(cs, st, idx, subOff, n);
    var got := GetSub(cs, st, idx, subOff, n).value;
    forall k: nat | k < n ensures Some(got[k]) == Kept(cs, hash, None, id, calls, off + k, None) {
      assert got[k] == At(st.value.data, off + k);
    }
  }

  lemma HeldIsServed(cs: nat, st: State, idx: nat, subOff: nat, n: nat)
    requires IsChunkSize(cs) && Backed(st)
    requires n > 0 && forall i: nat :: Start(cs, idx) + subOff <= i < Start(cs, idx) + subOff + n ==> Held(cs, st, i)
    ensures var off := Start(cs, idx) + subOff;
            && st.Some? && off + n <= |st.value.data|
            && GetSub(cs, st, idx, subOff, n) == Some(st.value.data[off..off + n])
            && (subOff + n <= cs ==> HashedRange(cs, st, idx, subOff, n) == GetSub(cs, st, idx, subOff, n))
  {
    hide Start, Present, SubsPresent, HashedRange;
    var off := Start(cs, idx) + subOff;
    assert Held(cs, st, off + n - 1);
    forall i: nat | off <= i < off + n ensures Present(cs, st.value, i) { assert Held(cs, st, i); }
    C.SubsPresentIff(cs, st.value, off, n);
    if subOff + n <= cs { ServedIsHashed(cs, st.value, idx, subOff, n); }
  }

  /** What is served of a chunk, below the recorded size, is hashed. */
  lemma ServedIsHashed(cs: nat, e: Entry, idx: nat, subOff: nat, n: nat)
    requires IsChunkSize(cs) && 0 < n && subOff + n <= cs && SubsPresent(cs, e, Start(cs, idx) + subOff, n)
    requires Start(cs, idx) + subOff + n <= e.cur <= |e.data|
    ensures HashedRange(cs, Some(e), idx, subOff, n) == ReadAt(e.data, Start(cs, idx) + subOff, n)
  {
    hide Start, ChunkOf, SubSpan;
    var off := Start(cs, idx) + subOff;
    forall s: nat | InSpan(off, n, s) ensures s in e.subs || idx in e.chunks {
      SpanIs(off, n, s);
      StartAligned(cs, idx);
      ChunkOfByte(cs, s * SUB, idx);
    }
  }

  /** The call that mirrors an operation of a demand-filling caller. */
  function CallOf(cs: nat, f: seq<Byte>, op: Op): Call {
    match op
    case Fill(idx, h) => CallPut(idx, Origin(f, Start(cs, idx), cs), h)
    case FillSub(idx, subOff, n) => CallPutSub(idx, subOff, Origin(f, Start(cs, idx) + subOff, n))
    case Write(idx, chunkOff, w) =>
      CallWriteThrough(idx, chunkOff, w, ChunkLen(cs, idx, |WriteAt(f, Start(cs, idx) + chunkOff, w)|))
    case Drop(idx) => CallDrop(idx)
    case Resize(newSize) => CallResize(newSize)
    case Invalidate => CallInvalidate
  }

  /** So all of this is about the demand-filled runs too. */
  lemma OperationIsCall(cs: nat, hash: seq<Byte> -> Hash, st: State, id: FileVersion, f: seq<Byte>, op: Op)
    requires cs > 0 && WellPosed(cs, f, op) && (op.Fill? ==> Start(cs, op.idx) < |f|)
    ensures NonEmpty(CallOf(cs, f, op)) && Fits(cs, CallOf(cs, f, op))
    ensures C.Apply(cs, st, id, f, op) == P.Do(cs, hash, st, id, CallOf(cs, f, op))
  {
    hide Start, PutChunk, PutSub, WriteThrough, ResizedEntry, Dropped;
  }
}
