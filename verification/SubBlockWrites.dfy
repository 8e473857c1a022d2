/** Verified sub-block writes (pkg/wire/blockproxy.go: applyWriteSubBlock; pkg/wire/blockserver.go:
    forEachWriteUnit) over the disk store, for writes inside one chunk.

    After writing through, the proxy hashes every touched sub-block it has cached against the caller's
    hash and drops the chunk on a mismatch.  That repairs what an unsafe edge spoils, but only where the
    sub-block can be hashed: a last sub-block that the backing file does not reach is not checked.
    Reads stay true, up to collisions, exactly when every unsafe edge is checked.
 */
module SubBlockWrites {
  import opened Bytes
  import opened Options
  import opened DiskModel
  import opened DiskCoherence
  import opened Caller
  import DiskProperties

  type Hasher = seq<Byte> -> Hash

  /** Valid length of sub-block s in a file of the given length. */
  function UnitLen(len: nat, s: nat): nat {
    if len <= s * SUB then 0 else Min(SUB, len - s * SUB)
  }

  /** The bytes the store hashes for sub-block s, when it has them all. */
  ghost function UnitOf(cs: nat, st: State, idx: nat, len: nat, s: nat): Option<seq<Byte>> {
    HashedRange(cs, st, idx, s * SUB - Start(cs, idx), UnitLen(len, s))
  }

  ghost function Theirs(h: seq<Byte>, s: nat): seq<Byte> {
    Origin(h, s * SUB, UnitLen(|h|, s))
  }

  ghost predicate Mismatch(cs: nat, hash: Hasher, st: State, idx: nat, h: seq<Byte>, s: nat) {
    UnitOf(cs, st, idx, |h|, s).Some? && hash(UnitOf(cs, st, idx, |h|, s).value) != hash(Theirs(h, s))
  }

  /** The loop over the touched sub-blocks: drop the chunk on a mismatch. */
  ghost function Reconciled(cs: nat, hash: Hasher, st: State, idx: nat, h: seq<Byte>, s: nat, last: nat): State
    decreases last + 1 - s
  {
    if s > last then st
    else
      var next := if Mismatch(cs, hash, st, idx, h, s) then Dropped(cs, st, idx) else st;
      Reconciled(cs, hash, next, idx, h, s + 1, last)
  }

  ghost function VerifiedWrite(cs: nat, hash: Hasher, st: State, id: FileVersion, f: seq<Byte>, idx: nat, chunkOff: nat,
                               w: seq<Byte>): State
    requires cs > 0
  {
    var off := Start(cs, idx) + chunkOff;
    Reconciled(cs, hash, Written(cs, st, id, f, idx, chunkOff, w), idx, WriteAt(f, off, w),
               SubSpan(off, |w|).0, SubSpan(off, |w|).1)
  }

  /** Two different sub-blocks hash alike in this write's checks. */
  ghost predicate WriteCollides(cs: nat, hash: Hasher, st: State, id: FileVersion, f: seq<Byte>, idx: nat,
                                chunkOff: nat, w: seq<Byte>)
    requires cs > 0
  {
    var r := Written(cs, st, id, f, idx, chunkOff, w);
    var h := WriteAt(f, Start(cs, idx) + chunkOff, w);
    exists s: nat :: InSpan(Start(cs, idx) + chunkOff, |w|, s)
                     && UnitOf(cs, r, idx, |h|, s).Some?
                         && Collision(hash, UnitOf(cs, r, idx, |h|, s).value, Theirs(h, s))
  }

  // ---- the loop -----------------------------------------------------------------------------

  /** A sub-block of chunk idx that the file reaches. */
  predicate UnitIn(cs: nat, idx: nat, len: nat, s: nat) {
    Start(cs, idx) <= s * SUB && s * SUB + UnitLen(len, s) <= Start(cs, idx) + cs && UnitLen(len, s) > 0
  }

  /** Nothing of a dropped chunk is hashed. */
  lemma DroppedNotHashed(cs: nat, st: State, idx: nat, len: nat, s: nat)
    requires IsChunkSize(cs) && UnitIn(cs, idx, len, s)
    ensures UnitOf(cs, Dropped(cs, st, idx), idx, len, s).None?
  {
    hide Start, HashedRange, Dropped;
    DiskProperties.DropReadsAbsent(cs, st, idx, s * SUB - Start(cs, idx), UnitLen(len, s));
  }

  /** The loop drops the chunk exactly when some touched sub-block does not match. */
  lemma {:induction false} ReconciledIs(cs: nat, hash: Hasher, st: State, idx: nat, h: seq<Byte>, s: nat, last: nat)
    requires IsChunkSize(cs) && forall u: nat :: s <= u <= last ==> UnitIn(cs, idx, |h|, u)
    ensures Reconciled(cs, hash, st, idx, h, s, last) ==
              if exists u: nat :: s <= u <= last && Mismatch(cs, hash, st, idx, h, u) then Dropped(cs, st, idx) else st
    decreases last + 1 - s
  {
    hide Mismatch, Dropped, UnitIn;
    if s <= last {
      if Mismatch(cs, hash, st, idx, h, s) {
        NoMoreMismatch(cs, hash, Dropped(cs, st, idx), st, idx, h, s + 1, last);
      } else {
        ReconciledIs(cs, hash, st, idx, h, s + 1, last);
      }
    }
  }

  lemma {:induction false} NoMoreMismatch(cs: nat, hash: Hasher, d: State, st: State, idx: nat, h: seq<Byte>, s: nat,
                                          last: nat)
    requires IsChunkSize(cs) && d == Dropped(cs, st, idx) && forall u: nat :: s <= u <= last ==> UnitIn(cs, idx, |h|, u)
    ensures Reconciled(cs, hash, d, idx, h, s, last) == d
    decreases last + 1 - s
  {
    hide Dropped, UnitIn, UnitOf, Theirs;
    if s <= last {
      DroppedNotHashed(cs, st, idx, |h|, s);
      NoMoreMismatch(cs, hash, d, st, idx, h, s + 1, last);
    }
  }

  /** The sub-blocks a write touches are in its chunk and in the file. */
  lemma TouchedUnits(cs: nat, f: seq<Byte>, idx: nat, chunkOff: nat, w: seq<Byte>, s: nat)
    requires IsChunkSize(cs) && WellPosed(cs, f, Write(idx, chunkOff, w))
    requires InSpan(Start(cs, idx) + chunkOff, |w|, s)
    ensures UnitIn(cs, idx, |WriteAt(f, Start(cs, idx) + chunkOff, w)|, s)
  {
    hide Start, InSpan, WriteAt;
    StartAligned(cs, idx);
    SpanIs(Start(cs, idx) + chunkOff, |w|, s);
  }

  // ---- when it works ------------------------------------------------------------------------

  /** The backing reaches the end of the last touched sub-block, or of the file, after the write. */
  predicate UnitBacked(e: Entry, fileLen: nat, off: nat, n: nat)
    requires n > 0
  {
    var s := SubOf(off + n - 1);
    s * SUB + UnitLen(Max(fileLen, off + n), s) <= Max(e.cur, off + n)
  }

  /** Each edge is safe, or its sub-block is one the check covers. */
  ghost predicate EdgesChecked(cs: nat, e: Entry, fileLen: nat, off: nat, n: nat)
    requires cs > 0 && n > 0
  {
    var backed := UnitBacked(e, fileLen, off, n);
    && (off % SUB == 0 || Present(cs, e, off) || SubOf(off) * SUB >= fileLen
        || SubOf(off) < SubOf(off + n - 1) || backed)
    && ((off + n) % SUB == 0 || Present(cs, e, off + n - 1) || off + n >= fileLen || backed)
  }

  /** What a partial write leaves in the entry; the recorded size reaches the write. */
  lemma PartialSize(cs: nat, e: Entry, id: FileVersion, f: seq<Byte>, idx: nat, chunkOff: nat, w: seq<Byte>)
    requires cs > 0 && CoherentEntry(cs, e, f) && w != [] && PartialWrite(cs, Some(e), f, idx, chunkOff, w)
    ensures Written(cs, Some(e), id, f, idx, chunkOff, w).Some?
    ensures Written(cs, Some(e), id, f, idx, chunkOff, w).value.cur == Max(e.cur, Start(cs, idx) + chunkOff + |w|)
  {
    hide Start, Touches, WriteAt, ChunkLen, Present, SubSpan;
  }

  /** A touched sub-block is hashed exactly when the recorded size reaches its end. */
  lemma UnitHashed(cs: nat, e: Entry, id: FileVersion, f: seq<Byte>, idx: nat, chunkOff: nat, w: seq<Byte>, s: nat)
    requires IsChunkSize(cs) && CoherentEntry(cs, e, f) && WellPosed(cs, f, Write(idx, chunkOff, w))
    requires PartialWrite(cs, Some(e), f, idx, chunkOff, w) && InSpan(Start(cs, idx) + chunkOff, |w|, s)
    ensures var r := Written(cs, Some(e), id, f, idx, chunkOff, w);
            var len := |WriteAt(f, Start(cs, idx) + chunkOff, w)|;
            && r.Some?
            && (UnitOf(cs, r, idx, len, s).Some? <==> s * SUB + UnitLen(len, s) <= r.value.cur)
            && (UnitOf(cs, r, idx, len, s).Some? ==>
                  UnitOf(cs, r, idx, len, s).value == r.value.data[s * SUB..s * SUB + UnitLen(len, s)])
  {
    hide Start, Touches, WriteAt, ChunkLen, Present, Written, SubOf;
    PartialResult(cs, e, id, f, idx, chunkOff, w);
    TouchedUnits(cs, f, idx, chunkOff, w, s);
    var len := |WriteAt(f, Start(cs, idx) + chunkOff, w)|;
    MarkedUnit(cs, e, id, f, idx, chunkOff, w, s);
    UnitSpan(s, UnitLen(len, s));
  }

  lemma UnitSpan(s: nat, n: nat)
    requires 0 < n <= SUB
    ensures forall u: nat :: InSpan(s * SUB, n, u) <==> u == s
  {
  }

  lemma MarkedUnit(cs: nat, e: Entry, id: FileVersion, f: seq<Byte>, idx: nat, chunkOff: nat, w: seq<Byte>, s: nat)
    requires cs > 0 && w != [] && PartialWrite(cs, Some(e), f, idx, chunkOff, w)
    requires InSpan(Start(cs, idx) + chunkOff, |w|, s)
    ensures var r := Written(cs, Some(e), id, f, idx, chunkOff, w); r.Some? && s in r.value.subs
  {
    hide Start, Touches, WriteAt, ChunkLen, Load;
  }

  /** An uncovered byte on a safe side of the write was right already. */
  lemma SafeSide(cs: nat, e: Entry, f: seq<Byte>, off: nat, n: nat, i: nat)
    requires IsChunkSize(cs) && n > 0 && CoherentEntry(cs, e, f)
    requires InSpan(off, n, SubOf(i)) && !(off <= i < off + n)
    requires i < off ==> off % SUB == 0 || Present(cs, e, off) || SubOf(off) * SUB >= |f|
    requires i >= off + n ==> (off + n) % SUB == 0 || Present(cs, e, off + n - 1) || off + n >= |f|
    ensures At(e.data, i) == At(f, i)
  {
    hide ChunkOf;
    var edge := if i < off then off else off + n - 1;
    assert SubOf(i) == SubOf(edge);
    SameSubSameChunk(cs, i, edge);
    assert Present(cs, e, edge) <==> Present(cs, e, i);
  }

  /** A sub-block that hashes as theirs is theirs, or they collide. */
  lemma HashedIsTheirs(cs: nat, hash: Hasher, r: Entry, idx: nat, h: seq<Byte>, s: nat, i: nat)
    requires |r.data| <= |h| && SubOf(i) == s
    requires s * SUB + UnitLen(|h|, s) <= |r.data| && UnitLen(|h|, s) > 0
    requires UnitOf(cs, Some(r), idx, |h|, s) == Some(r.data[s * SUB..s * SUB + UnitLen(|h|, s)])
    requires !Mismatch(cs, hash, Some(r), idx, h, s)
    requires !Collision(hash, UnitOf(cs, Some(r), idx, |h|, s).value, Theirs(h, s))
    ensures At(r.data, i) == At(h, i)
  {
    hide UnitOf, Origin;
    var n := UnitLen(|h|, s);
    var ours, theirs := r.data[s * SUB..s * SUB + n], Origin(h, s * SUB, n);
    assert ours == theirs;
    var k := i - s * SUB;
    if k < n {
      assert ours[k] == r.data[i];
      assert theirs[k] == At(h, s * SUB + k);
    }
  }

  /** Touched sub-blocks before the last are always hashed, the last when it is backed. */
  lemma WhichAreHashed(cs: nat, e: Entry, id: FileVersion, f: seq<Byte>, idx: nat, chunkOff: nat, w: seq<Byte>, s: nat)
    requires IsChunkSize(cs) && CoherentEntry(cs, e, f) && WellPosed(cs, f, Write(idx, chunkOff, w))
    requires PartialWrite(cs, Some(e), f, idx, chunkOff, w) && InSpan(Start(cs, idx) + chunkOff, |w|, s)
    ensures var off := Start(cs, idx) + chunkOff;
            UnitOf(cs, Written(cs, Some(e), id, f, idx, chunkOff, w), idx, |WriteAt(f, off, w)|, s).Some? <==>
              s < SubOf(off + |w| - 1) || UnitBacked(e, |f|, off, |w|)
  {
    hide Start, WriteAt, Written, PartialWrite, UnitOf, CoherentEntry;
    UnitHashed(cs, e, id, f, idx, chunkOff, w, s);
    PartialSize(cs, e, id, f, idx, chunkOff, w);
  }

  /** With nothing dropped and no collision, an uncovered byte the write marked is right. */
  lemma CheckedByte(cs: nat, hash: Hasher, e: Entry, id: FileVersion, f: seq<Byte>, idx: nat, chunkOff: nat,
                    w: seq<Byte>, i: nat)
    requires IsChunkSize(cs) && CoherentEntry(cs, e, f) && WellPosed(cs, f, Write(idx, chunkOff, w))
    requires PartialWrite(cs, Some(e), f, idx, chunkOff, w)
    requires EdgesChecked(cs, e, |f|, Start(cs, idx) + chunkOff, |w|)
    requires InSpan(Start(cs, idx) + chunkOff, |w|, SubOf(i))
               && !(Start(cs, idx) + chunkOff <= i < Start(cs, idx) + chunkOff + |w|)
    requires !WriteCollides(cs, hash, Some(e), id, f, idx, chunkOff, w)
    requires !Mismatch(cs, hash, Written(cs, Some(e), id, f, idx, chunkOff, w), idx,
                       WriteAt(f, Start(cs, idx) + chunkOff, w), SubOf(i))
    ensures var r := Written(cs, Some(e), id, f, idx, chunkOff, w);
            r.Some? && At(r.value.data, i) == At(WriteAt(f, Start(cs, idx) + chunkOff, w), i)
  {
    hide Start, WriteAt, Written, PartialWrite, UnitOf, Mismatch, Present, InSpan, EdgesChecked, UnitBacked,
         CoherentEntry, UnitIn;
    var off, s := Start(cs, idx) + chunkOff, SubOf(i);
    PartialResult(cs, e, id, f, idx, chunkOff, w);
    WhichAreHashed(cs, e, id, f, idx, chunkOff, w, s);
    UnitHashed(cs, e, id, f, idx, chunkOff, w, s);
    TouchedUnits(cs, f, idx, chunkOff, w, s);
    var r, h := Written(cs, Some(e), id, f, idx, chunkOff, w), WriteAt(f, off, w);
    if UnitOf(cs, r, idx, |h|, s).Some? {
      assert UnitLen(|h|, s) > 0 by { UnitIsIn(cs, idx, |h|, s); }
      HashedIsTheirs(cs, hash, r.value, idx, h, s, i);
    } else {
      SafeWhenUnchecked(cs, e, f, off, |w|, i);
    }
  }

  lemma UnitIsIn(cs: nat, idx: nat, len: nat, s: nat)
    requires UnitIn(cs, idx, len, s)
    ensures UnitLen(len, s) > 0
  {
  }

  /** In a last sub-block that is not hashed, checked edges are safe edges. */
  lemma SafeWhenUnchecked(cs: nat, e: Entry, f: seq<Byte>, off: nat, n: nat, i: nat)
    requires IsChunkSize(cs) && n > 0 && CoherentEntry(cs, e, f) && EdgesChecked(cs, e, |f|, off, n)
    requires InSpan(off, n, SubOf(i)) && !(off <= i < off + n)
    requires SubOf(i) >= SubOf(off + n - 1) && !UnitBacked(e, |f|, off, n)
    ensures At(e.data, i) == At(f, i)
  {
    hide Present, CoherentEntry, UnitBacked;
    SafeSide(cs, e, f, off, n, i);
  }

  /** Dropping the chunk leaves nothing a write inside it could have spoiled. */
  lemma DropHeals(cs: nat, e: Entry, id: FileVersion, f: seq<Byte>, idx: nat, chunkOff: nat, w: seq<Byte>)
    requires IsChunkSize(cs) && CoherentEntry(cs, e, f) && WellPosed(cs, f, Write(idx, chunkOff, w))
    requires PartialWrite(cs, Some(e), f, idx, chunkOff, w)
    ensures Coherent(cs, Dropped(cs, Written(cs, Some(e), id, f, idx, chunkOff, w), idx),
                     WriteAt(f, Start(cs, idx) + chunkOff, w))
  {
    hide Start, WriteAt, Written, PartialWrite, Present, InSpan, SubOf, ChunkOf, SubsOf;
    var off := Start(cs, idx) + chunkOff;
    PartialResult(cs, e, id, f, idx, chunkOff, w);
    var r := Written(cs, Some(e), id, f, idx, chunkOff, w).value;
    forall i: nat | Present(cs, ClearChunk(cs, r, idx), i) ensures At(r.data, i) == At(WriteAt(f, off, w), i) {
      ClearChunkPresence(cs, r, idx, i);
      OtherChunkByte(cs, f, idx, chunkOff, w, i);
      assert Present(cs, e, i);
      assert At(e.data, i) == At(f, i);
    }
  }

  lemma OtherChunkByte(cs: nat, f: seq<Byte>, idx: nat, chunkOff: nat, w: seq<Byte>, i: nat)
    requires IsChunkSize(cs) && WellPosed(cs, f, Write(idx, chunkOff, w)) && ChunkOf(cs, i) != idx
    ensures !InSpan(Start(cs, idx) + chunkOff, |w|, SubOf(i))
    ensures !(Start(cs, idx) + chunkOff <= i < Start(cs, idx) + chunkOff + |w|)
  {
    hide Start, ChunkOf;
    StartAligned(cs, idx);
    ChunkOfByte(cs, i, idx);
  }

  /** Up to a collision, a verified write keeps coherence when every unsafe edge is checked. */
  lemma VerifiedKeeps(cs: nat, hash: Hasher, st: State, id: FileVersion, f: seq<Byte>, idx: nat, chunkOff: nat,
                      w: seq<Byte>)
    requires IsChunkSize(cs) && Coherent(cs, st, f) && id.writable && WellPosed(cs, f, Write(idx, chunkOff, w))
    requires PartialWrite(cs, st, f, idx, chunkOff, w) ==>
               EdgesChecked(cs, st.value, |f|, Start(cs, idx) + chunkOff, |w|)
    ensures Coherent(cs, VerifiedWrite(cs, hash, st, id, f, idx, chunkOff, w), WriteAt(f, Start(cs, idx) + chunkOff, w))
            || WriteCollides(cs, hash, st, id, f, idx, chunkOff, w)
  {
    hide Start, WriteAt, Written, PartialWrite, CoherentEntry, EdgesChecked, Mismatch, ClearChunk, Reconciled;
    var h := WriteAt(f, Start(cs, idx) + chunkOff, w);
    var r := Written(cs, st, id, f, idx, chunkOff, w);
    VerifiedIs(cs, hash, st, id, f, idx, chunkOff, w);
    if !PartialWrite(cs, st, f, idx, chunkOff, w) {
      WriteThroughKeeps(cs, st, id, f, idx, chunkOff, w);
      if r.Some? { ClearKeeps(cs, r.value, h, idx); }
    } else {
      PartialSome(cs, st, f, idx, chunkOff, w);
      DropHeals(cs, st.value, id, f, idx, chunkOff, w);
      if NoMismatch(cs, hash, r, idx, h, Start(cs, idx) + chunkOff, |w|)
          && !WriteCollides(cs, hash, st, id, f, idx, chunkOff, w) {
        UndroppedKeeps(cs, hash, st.value, id, f, idx, chunkOff, w);
      }
    }
  }

  lemma PartialSome(cs: nat, st: State, f: seq<Byte>, idx: nat, chunkOff: nat, w: seq<Byte>)
    requires PartialWrite(cs, st, f, idx, chunkOff, w)
    ensures st.Some?
  {
  }

  ghost predicate NoMismatch(cs: nat, hash: Hasher, r: State, idx: nat, h: seq<Byte>, off: nat, n: nat) {
    forall s: nat :: InSpan(off, n, s) ==> !Mismatch(cs, hash, r, idx, h, s)
  }

  /** A verified write is the write through, or that with the chunk dropped. */
  lemma VerifiedIs(cs: nat, hash: Hasher, st: State, id: FileVersion, f: seq<Byte>, idx: nat, chunkOff: nat,
                   w: seq<Byte>)
    requires IsChunkSize(cs) && WellPosed(cs, f, Write(idx, chunkOff, w))
    ensures var r := Written(cs, st, id, f, idx, chunkOff, w);
            var h := WriteAt(f, Start(cs, idx) + chunkOff, w);
            VerifiedWrite(cs, hash, st, id, f, idx, chunkOff, w) ==
              if NoMismatch(cs, hash, r, idx, h, Start(cs, idx) + chunkOff, |w|) then r else Dropped(cs, r, idx)
  {
    hide Start, WriteAt, Written, Mismatch, Reconciled, Dropped, UnitIn, SubSpan;
    var off := Start(cs, idx) + chunkOff;
    var r, h := Written(cs, st, id, f, idx, chunkOff, w), WriteAt(f, off, w);
    forall s: nat | SubSpan(off, |w|).0 <= s <= SubSpan(off, |w|).1 ensures UnitIn(cs, idx, |h|, s) {
      TouchedUnits(cs, f, idx, chunkOff, w, s);
    }
    ReconciledIs(cs, hash, r, idx, h, SubSpan(off, |w|).0, SubSpan(off, |w|).1);
  }

  /** A write whose edges are safe costs nothing: no check fails, whatever the hash, and the chunk stays. */
  lemma SafeWriteIsNotDropped(cs: nat, hash: Hasher, st: State, id: FileVersion, f: seq<Byte>, idx: nat,
                              chunkOff: nat, w: seq<Byte>)
    requires IsChunkSize(cs) && Coherent(cs, st, f) && id.writable && Safe(cs, st, f, Write(idx, chunkOff, w))
    ensures VerifiedWrite(cs, hash, st, id, f, idx, chunkOff, w) == Written(cs, st, id, f, idx, chunkOff, w)
  {
    hide Start, WriteAt, Written, VerifiedWrite, CoherentEntry, PartialWrite, EdgesSafe, HashedRange, Origin, InSpan;
    var h := WriteAt(f, Start(cs, idx) + chunkOff, w);
    var r := Written(cs, st, id, f, idx, chunkOff, w);
    WriteThroughKeeps(cs, st, id, f, idx, chunkOff, w);
    forall s: nat | InSpan(Start(cs, idx) + chunkOff, |w|, s) ensures !Mismatch(cs, hash, r, idx, h, s) {
      HashRangeTruth(cs, r, h, idx, s * SUB - Start(cs, idx), UnitLen(|h|, s));
    }
    VerifiedIs(cs, hash, st, id, f, idx, chunkOff, w);
  }

  lemma UndroppedKeeps(cs: nat, hash: Hasher, e: Entry, id: FileVersion, f: seq<Byte>, idx: nat, chunkOff: nat,
                       w: seq<Byte>)
    requires IsChunkSize(cs) && CoherentEntry(cs, e, f) && WellPosed(cs, f, Write(idx, chunkOff, w))
    requires PartialWrite(cs, Some(e), f, idx, chunkOff, w)
    requires EdgesChecked(cs, e, |f|, Start(cs, idx) + chunkOff, |w|)
    requires !WriteCollides(cs, hash, Some(e), id, f, idx, chunkOff, w)
    requires NoMismatch(cs, hash, Written(cs, Some(e), id, f, idx, chunkOff, w), idx,
                        WriteAt(f, Start(cs, idx) + chunkOff, w), Start(cs, idx) + chunkOff, |w|)
    ensures Coherent(cs, Written(cs, Some(e), id, f, idx, chunkOff, w), WriteAt(f, Start(cs, idx) + chunkOff, w))
  {
    hide Start, WriteAt, Written, PartialWrite, EdgesChecked, Mismatch, Present, InSpan, SubOf, WriteCollides;
    var off := Start(cs, idx) + chunkOff;
    PartialResult(cs, e, id, f, idx, chunkOff, w);
    var r := Written(cs, Some(e), id, f, idx, chunkOff, w).value;
    forall i: nat | Present(cs, r, i) ensures At(r.data, i) == At(WriteAt(f, off, w), i) {
      if !(off <= i < off + |w|) && !Present(cs, e, i) {
        CheckedByte(cs, hash, e, id, f, idx, chunkOff, w, i);
      }
    }
  }

  // ---- whole runs ---------------------------------------------------------------------------

  /** The store's side of an operation, writes verified. */
  ghost function Apply(cs: nat, hash: Hasher, st: State, id: FileVersion, f: seq<Byte>, op: Op): State
    requires cs > 0
  {
    match op
    case Write(idx, chunkOff, w) => VerifiedWrite(cs, hash, st, id, f, idx, chunkOff, w)
    case _ => DiskCoherence.Apply(cs, st, id, f, op)
  }

  /** What the caller owes: a well-posed operation, and checked edges for a partial write. */
  ghost predicate Checked(cs: nat, st: State, f: seq<Byte>, op: Op)
    requires cs > 0
  {
    && WellPosed(cs, f, op)
    && (op.Write? && PartialWrite(cs, st, f, op.idx, op.chunkOff, op.w) ==>
          EdgesChecked(cs, st.value, |f|, Start(cs, op.idx) + op.chunkOff, |op.w|))
  }

  ghost predicate CheckedRun(cs: nat, hash: Hasher, st: State, id: FileVersion, f: seq<Byte>, ops: seq<Op>)
    requires cs > 0
    decreases |ops|
  {
    ops == [] ||
    (Checked(cs, st, f, ops[0]) &&
     CheckedRun(cs, hash, Apply(cs, hash, st, id, f, ops[0]), id, NextFile(cs, f, ops[0]), ops[1..]))
  }

  ghost function Run(cs: nat, hash: Hasher, st: State, id: FileVersion, f: seq<Byte>, ops: seq<Op>): (State, seq<Byte>)
    requires cs > 0
    decreases |ops|
  {
    if ops == [] then (st, f)
    else Run(cs, hash, Apply(cs, hash, st, id, f, ops[0]), id, NextFile(cs, f, ops[0]), ops[1..])
  }

  ghost predicate Collides(cs: nat, hash: Hasher, st: State, id: FileVersion, f: seq<Byte>, op: Op)
    requires cs > 0
  {
    op.Write? && WriteCollides(cs, hash, st, id, f, op.idx, op.chunkOff, op.w)
  }

  /** Some check of the run compares two different sub-blocks that hash alike. */
  ghost predicate RunCollides(cs: nat, hash: Hasher, st: State, id: FileVersion, f: seq<Byte>, ops: seq<Op>)
    requires cs > 0
    decreases |ops|
  {
    ops != [] &&
    (Collides(cs, hash, st, id, f, ops[0]) ||
     RunCollides(cs, hash, Apply(cs, hash, st, id, f, ops[0]), id, NextFile(cs, f, ops[0]), ops[1..]))
  }

  lemma StepKeeps(cs: nat, hash: Hasher, st: State, id: FileVersion, f: seq<Byte>, op: Op)
    requires IsChunkSize(cs) && Coherent(cs, st, f) && id.writable && Checked(cs, st, f, op)
    ensures Coherent(cs, Apply(cs, hash, st, id, f, op), NextFile(cs, f, op)) || Collides(cs, hash, st, id, f, op)
  {
    hide Coherent, VerifiedWrite, WriteCollides, PartialWrite, EdgesChecked, DiskCoherence.Apply, Start;
    if op.Write? {
      VerifiedKeeps(cs, hash, st, id, f, op.idx, op.chunkOff, op.w);
    } else {
      DiskCoherence.StepKeeps(cs, st, id, f, op);
    }
  }

  /** Over every run, coherence is kept or a collision has happened. */
  lemma {:induction false} RunKeeps(cs: nat, hash: Hasher, st: State, id: FileVersion, f: seq<Byte>, ops: seq<Op>)
    requires IsChunkSize(cs) && Coherent(cs, st, f) && id.writable && CheckedRun(cs, hash, st, id, f, ops)
    ensures Coherent(cs, Run(cs, hash, st, id, f, ops).0, Run(cs, hash, st, id, f, ops).1)
            || RunCollides(cs, hash, st, id, f, ops)
    decreases |ops|
  {
    hide Coherent, Apply, Checked, NextFile, Collides;
    if ops != [] {
      StepKeeps(cs, hash, st, id, f, ops[0]);
      if !Collides(cs, hash, st, id, f, ops[0]) {
        RunKeeps(cs, hash, Apply(cs, hash, st, id, f, ops[0]), id, NextFile(cs, f, ops[0]), ops[1..]);
      }
    }
  }

  /** Every hit is the caller's current bytes, now and after whatever checked operations follow, up to
      collisions. */
  ghost predicate StaysTrue(cs: nat, hash: Hasher, st: State, id: FileVersion, f: seq<Byte>)
    requires cs > 0
  {
    forall ops: seq<Op> :: CheckedRun(cs, hash, st, id, f, ops) ==>
      ReadsTrue(cs, Run(cs, hash, st, id, f, ops).0, Run(cs, hash, st, id, f, ops).1)
      || RunCollides(cs, hash, st, id, f, ops)
  }

  lemma CoherentStaysTrue(cs: nat, hash: Hasher, st: State, id: FileVersion, f: seq<Byte>)
    requires IsChunkSize(cs) && Coherent(cs, st, f) && id.writable
    ensures StaysTrue(cs, hash, st, id, f)
  {
    hide Coherent, CheckedRun, Run, ReadsTrue, RunCollides;
    forall ops: seq<Op> | CheckedRun(cs, hash, st, id, f, ops)
      ensures ReadsTrue(cs, Run(cs, hash, st, id, f, ops).0, Run(cs, hash, st, id, f, ops).1)
              || RunCollides(cs, hash, st, id, f, ops)
    {
      RunKeeps(cs, hash, st, id, f, ops);
      var (st', f') := Run(cs, hash, st, id, f, ops);
      if Coherent(cs, st', f') { CoherentReadsTrue(cs, st', f'); }
    }
  }

  // ---- when it does not ---------------------------------------------------------------------

  lemma OneStep(cs: nat, hash: Hasher, st: State, id: FileVersion, f: seq<Byte>, op: Op)
    requires cs > 0
    ensures CheckedRun(cs, hash, st, id, f, [op]) <==> Checked(cs, st, f, op)
    ensures Run(cs, hash, st, id, f, [op]) == (Apply(cs, hash, st, id, f, op), NextFile(cs, f, op))
    ensures RunCollides(cs, hash, st, id, f, [op]) <==> Collides(cs, hash, st, id, f, op)
  {
    hide Apply, Checked, NextFile, Collides;
    assert [op][1..] == [];
  }

  lemma FirstStep(cs: nat, hash: Hasher, st: State, id: FileVersion, f: seq<Byte>, op: Op, ops: seq<Op>)
    requires cs > 0
    ensures var (st', f') := (Apply(cs, hash, st, id, f, op), NextFile(cs, f, op));
            && (CheckedRun(cs, hash, st, id, f, [op] + ops) <==>
                  Checked(cs, st, f, op) && CheckedRun(cs, hash, st', id, f', ops))
            && Run(cs, hash, st, id, f, [op] + ops) == Run(cs, hash, st', id, f', ops)
            && (RunCollides(cs, hash, st, id, f, [op] + ops) <==>
                  Collides(cs, hash, st, id, f, op) || RunCollides(cs, hash, st', id, f', ops))
  {
    hide Apply, Checked, NextFile, Collides;
    assert ([op] + ops)[1..] == ops;
  }

  /** Filling the sub-block at q above p, when the file reaches it: fills are not checked. */
  lemma FillAt(cs: nat, hash: Hasher, st: State, id: FileVersion, f: seq<Byte>, p: nat, q: nat) returns (op: Op)
    requires IsChunkSize(cs) && Wrong(cs, st, f, p) && q % SUB == 0 && p < q < |f|
    ensures op.FillSub? && Checked(cs, st, f, op) && !Collides(cs, hash, st, id, f, op) && NextFile(cs, f, op) == f
    ensures var st' := Apply(cs, hash, st, id, f, op); Wrong(cs, st', f, p) && p < |st'.value.data|
  {
    hide Start, ChunkOf, Wrong, DiskCoherence.Apply;
    var idx, n := ChunkOf(cs, q), Min(SUB, |f| - q);
    ChunkOfByte(cs, q, idx);
    StartAligned(cs, idx);
    var off := q - Start(cs, idx);
    op := FillSub(idx, off, n);
    assert cs - off >= SUB;
    FillLeavesWrong(cs, st, id, f, p, idx, off, n);
  }

  lemma UnitBytes(cs: nat, st: State, idx: nat, len: nat, s: nat)
    requires UnitOf(cs, st, idx, len, s).Some? && Start(cs, idx) <= s * SUB && UnitLen(len, s) > 0
    ensures st.Some? && s * SUB + UnitLen(len, s) <= |st.value.data|
    ensures UnitOf(cs, st, idx, len, s).value == st.value.data[s * SUB..s * SUB + UnitLen(len, s)]
  {
    hide Start;
  }

  /** Checks that compare equal bytes neither drop nor collide. */
  lemma EqualUnits(cs: nat, hash: Hasher, st: State, id: FileVersion, f: seq<Byte>, idx: nat, chunkOff: nat,
                   w: seq<Byte>)
    requires IsChunkSize(cs) && WellPosed(cs, f, Write(idx, chunkOff, w))
    requires var r := Written(cs, st, id, f, idx, chunkOff, w);
             var h := WriteAt(f, Start(cs, idx) + chunkOff, w);
             forall s: nat :: InSpan(Start(cs, idx) + chunkOff, |w|, s) && UnitOf(cs, r, idx, |h|, s).Some? ==>
               UnitOf(cs, r, idx, |h|, s).value == Theirs(h, s)
    ensures VerifiedWrite(cs, hash, st, id, f, idx, chunkOff, w) == Written(cs, st, id, f, idx, chunkOff, w)
    ensures !WriteCollides(cs, hash, st, id, f, idx, chunkOff, w)
  {
    hide Start, WriteAt, Written, UnitOf, Theirs, InSpan, VerifiedWrite;
    VerifiedIs(cs, hash, st, id, f, idx, chunkOff, w);
  }

  lemma WrongBounds(cs: nat, st: State, f: seq<Byte>, p: nat)
    requires cs > 0 && Wrong(cs, st, f, p)
    ensures p < |f| && st.Some?
  {
  }

  /** Past the end of the backing a written zero is the only byte there. */
  lemma ZeroAt(cs: nat, st: State, id: FileVersion, f: seq<Byte>, p: nat, q: nat)
    requires cs > 0 && Wrong(cs, st, f, p) && |st.value.data| <= q
    ensures var r := DiskCoherence.Apply(cs, st, id, f, WriteByte(cs, q)); r.Some? && At(r.value.data, q) == 0
  {
    hide Start, ChunkOf, SubOf, WriteAt, Load, SubSpan, GrowHashes, SubsOf, Present;
    ChunkOfByte(cs, q, ChunkOf(cs, q));
    LoadBytes(cs, st.value, id, q + 1);
  }

  /** Writing the first byte of a sub-block past the end of the file: its check finds nothing wrong. */
  lemma WritePastEnd(cs: nat, hash: Hasher, st: State, id: FileVersion, f: seq<Byte>, p: nat, q: nat)
    requires IsChunkSize(cs) && Wrong(cs, st, f, p) && |st.value.data| <= |f| <= q && q % SUB == 0
    ensures var op := WriteByte(cs, q);
            && Checked(cs, st, f, op) && !Collides(cs, hash, st, id, f, op)
            && NextFile(cs, f, op) == WriteAt(f, q, [0])
            && Wrong(cs, Apply(cs, hash, st, id, f, op), WriteAt(f, q, [0]), p)
  {
    hide Start, ChunkOf, Wrong, WriteAt, Written, PartialWrite, VerifiedWrite, WriteCollides, Present;
    var op := WriteByte(cs, q);
    ChunkOfByte(cs, q, op.idx);
    WrongBounds(cs, st, f, p);
    WriteLeavesWrong(cs, st, id, f, p, q);
    var r, h := Written(cs, st, id, f, op.idx, op.chunkOff, [0]), WriteAt(f, q, [0]);
    forall s: nat | InSpan(q, 1, s) && UnitOf(cs, r, op.idx, |h|, s).Some?
      ensures UnitOf(cs, r, op.idx, |h|, s).value == Theirs(h, s)
    {
      ZeroAt(cs, st, id, f, p, q);
      LastUnit(cs, r, op.idx, h, q, s);
    }
    EqualUnits(cs, hash, st, id, f, op.idx, op.chunkOff, [0]);
  }

  lemma LastUnit(cs: nat, r: State, idx: nat, h: seq<Byte>, q: nat, s: nat)
    requires Start(cs, idx) <= q && q % SUB == 0 && |h| == q + 1 && InSpan(q, 1, s)
    requires UnitOf(cs, r, idx, |h|, s).Some? && r.Some? && At(r.value.data, q) == At(h, q)
    ensures UnitOf(cs, r, idx, |h|, s).value == Theirs(h, s)
  {
    hide Start, UnitOf, Origin;
    assert s * SUB == q && UnitLen(|h|, s) == 1;
    UnitBytes(cs, r, idx, |h|, s);
    var ours, theirs := UnitOf(cs, r, idx, |h|, s).value, Origin(h, q, 1);
    assert |ours| == 1 && ours[0] == At(r.value.data, q);
    assert |theirs| == 1 && theirs[0] == At(h, q);
  }

  /** A wrong byte whose sub-block the backing does not reach is served after at most two checked
      operations. */
  lemma WrongIsExposed(cs: nat, hash: Hasher, st: State, id: FileVersion, f: seq<Byte>, p: nat) returns (ops: seq<Op>)
    requires IsChunkSize(cs) && Wrong(cs, st, f, p) && |st.value.data| <= |f|
    ensures CheckedRun(cs, hash, st, id, f, ops) && !RunCollides(cs, hash, st, id, f, ops)
    ensures var (st', f') := Run(cs, hash, st, id, f, ops); Wrong(cs, st', f', p) && p < |st'.value.data|
  {
    hide Wrong, Apply, Run, CheckedRun, RunCollides, Checked, Collides, NextFile, WriteAt;
    var q := (SubOf(p) + 1) * SUB;
    if q < |f| {
      var op := FillAt(cs, hash, st, id, f, p, q);
      ops := [op];
      OneStep(cs, hash, st, id, f, op);
    } else {
      var extend := WriteByte(cs, q);
      WritePastEnd(cs, hash, st, id, f, p, q);
      var st1, f1 := Apply(cs, hash, st, id, f, extend), WriteAt(f, q, [0]);
      var op := FillAt(cs, hash, st1, id, f1, p, q);
      ops := [extend] + [op];
      FirstStep(cs, hash, st, id, f, extend, [op]);
      OneStep(cs, hash, st1, id, f1, op);
    }
  }

  /** An unchecked edge names a byte of the last touched sub-block. */
  lemma UncheckedByte(cs: nat, e: Entry, fileLen: nat, off: nat, n: nat) returns (p: nat)
    requires IsChunkSize(cs) && n > 0 && !EdgesChecked(cs, e, fileLen, off, n)
    ensures p < fileLen && !(off <= p < off + n) && !Present(cs, e, p)
    ensures SubOf(p) == SubOf(off + n - 1) && !UnitBacked(e, fileLen, off, n)
  {
    hide ChunkOf;
    var first := off % SUB != 0 && !Present(cs, e, off) && SubOf(off) * SUB < fileLen
        && SubOf(off) == SubOf(off + n - 1);
    p := if first then SubOf(off) * SUB else off + n;
    var edge := if first then off else off + n - 1;
    assert SubOf(p) == SubOf(edge);
    SameSubSameChunk(cs, p, edge);
  }

  /** A file that is what the backing holds, except for one absent byte. */
  lemma BackingAsFile(cs: nat, e: Entry, f: seq<Byte>, p: nat) returns (g: seq<Byte>)
    requires cs > 0 && CoherentEntry(cs, e, f) && p < |f| && !Present(cs, e, p)
    ensures |g| == |f| && CoherentEntry(cs, e, g) && At(g, p) != At(e.data, p)
    ensures forall i: nat :: i != p ==> At(g, i) == At(e.data, i)
  {
    hide Present;
    var wrong: Byte := if At(e.data, p) == 0 then 1 else 0;
    g := Resized(e.data, |f|)[p := wrong];
    forall i: nat | i != p ensures At(g, i) == At(e.data, i) {
      assert At(Resized(e.data, |f|), i) == At(e.data, i);
    }
  }

  /** With an unchecked edge there is a file that agrees with everything cached, and at most two checked
      operations after which a read serves a byte that file does not have, with no collision anywhere. */
  lemma VerifiedBreaks(cs: nat, hash: Hasher, e: Entry, id: FileVersion, f: seq<Byte>, idx: nat, chunkOff: nat,
                       w: seq<Byte>)
    returns (g: seq<Byte>, ops: seq<Op>, p: nat)
    requires IsChunkSize(cs) && CoherentEntry(cs, e, f) && WellPosed(cs, f, Write(idx, chunkOff, w))
    requires PartialWrite(cs, Some(e), f, idx, chunkOff, w)
    requires !EdgesChecked(cs, e, |f|, Start(cs, idx) + chunkOff, |w|)
    ensures |g| == |f| && CoherentEntry(cs, e, g) && !WriteCollides(cs, hash, Some(e), id, g, idx, chunkOff, w)
    ensures var (st, h) := (VerifiedWrite(cs, hash, Some(e), id, g, idx, chunkOff, w),
                            WriteAt(g, Start(cs, idx) + chunkOff, w));
            && CheckedRun(cs, hash, st, id, h, ops) && !RunCollides(cs, hash, st, id, h, ops)
            && var (st', h') := Run(cs, hash, st, id, h, ops);
               GetSub(cs, st', 0, p, 1).Some? && GetSub(cs, st', 0, p, 1).value != Origin(h', p, 1)
  {
    hide Present, Written, Start, EdgesChecked, InSpan, SubOf, ChunkLen, Touches, WriteAt, CheckedRun, Run, RunCollides,
         GetSub, Origin, VerifiedWrite, WriteCollides, UnitBacked;
    var off := Start(cs, idx) + chunkOff;
    p := UncheckedByte(cs, e, |f|, off, |w|);
    g := BackingAsFile(cs, e, f, p);
    PartialResult(cs, e, id, g, idx, chunkOff, w);
    ByteInSpan(off, |w|, off + |w| - 1);
    var r, h := Written(cs, Some(e), id, g, idx, chunkOff, w), WriteAt(g, off, w);
    assert Wrong(cs, r, h, p);
    NothingToFind(cs, e, id, g, idx, chunkOff, w, p);
    EqualUnits(cs, hash, Some(e), id, g, idx, chunkOff, w);
    ops := WrongIsExposed(cs, hash, r, id, h, p);
    StartOfFirst(cs);
    WrongIsServed(cs, Run(cs, hash, r, id, h, ops).0, Run(cs, hash, r, id, h, ops).1, p, 0);
  }

  /** When the file is the backing but for a byte of a sub-block that is not hashed, every check passes. */
  lemma NothingToFind(cs: nat, e: Entry, id: FileVersion, g: seq<Byte>, idx: nat, chunkOff: nat, w: seq<Byte>, p: nat)
    requires IsChunkSize(cs) && CoherentEntry(cs, e, g) && WellPosed(cs, g, Write(idx, chunkOff, w))
    requires PartialWrite(cs, Some(e), g, idx, chunkOff, w)
    requires forall i: nat :: i != p ==> At(g, i) == At(e.data, i)
    requires SubOf(p) == SubOf(Start(cs, idx) + chunkOff + |w| - 1)
    requires !UnitBacked(e, |g|, Start(cs, idx) + chunkOff, |w|)
    ensures var r := Written(cs, Some(e), id, g, idx, chunkOff, w);
            var h := WriteAt(g, Start(cs, idx) + chunkOff, w);
            forall s: nat :: InSpan(Start(cs, idx) + chunkOff, |w|, s) && UnitOf(cs, r, idx, |h|, s).Some? ==>
              UnitOf(cs, r, idx, |h|, s).value == Theirs(h, s)
  {
    hide Present, Written, Start, InSpan, PartialWrite, WriteAt, UnitOf, Origin, UnitBacked, SubOf;
    var off := Start(cs, idx) + chunkOff;
    var r, h := Written(cs, Some(e), id, g, idx, chunkOff, w), WriteAt(g, off, w);
    PartialResult(cs, e, id, g, idx, chunkOff, w);
    forall s: nat | InSpan(off, |w|, s) && UnitOf(cs, r, idx, |h|, s).Some?
      ensures UnitOf(cs, r, idx, |h|, s).value == Theirs(h, s)
    {
      WhichAreHashed(cs, e, id, g, idx, chunkOff, w, s);
      TouchedUnits(cs, g, idx, chunkOff, w, s);
      UnitBytes(cs, r, idx, |h|, s);
      var n := UnitLen(|h|, s);
      var ours, theirs := r.value.data[s * SUB..s * SUB + n], Origin(h, s * SUB, n);
      forall k | 0 <= k < n ensures At(ours, k) == At(theirs, k) {
        InUnit(s, k, p);
        assert At(r.value.data, s * SUB + k) == ours[k];
        assert At(h, s * SUB + k) == theirs[k];
      }
      SameBytes(ours, theirs);
    }
  }

  lemma InUnit(s: nat, k: nat, p: nat)
    requires s != SubOf(p) && k < SUB
    ensures s * SUB + k != p
  {
  }

  /** The exact, checkable condition for a verified write: every unsafe edge is checked if and only if, for
      every file that agrees with the cache, every read after the write is true and stays so, up to
      collisions. */
  lemma VerifiedExact(cs: nat, hash: Hasher, e: Entry, id: FileVersion, f: seq<Byte>, idx: nat, chunkOff: nat,
                      w: seq<Byte>)
    requires IsChunkSize(cs) && CoherentEntry(cs, e, f) && id.writable && WellPosed(cs, f, Write(idx, chunkOff, w))
    requires PartialWrite(cs, Some(e), f, idx, chunkOff, w)
    ensures EdgesChecked(cs, e, |f|, Start(cs, idx) + chunkOff, |w|) <==>
              forall g: seq<Byte> :: |g| == |f| && CoherentEntry(cs, e, g) ==>
                || WriteCollides(cs, hash, Some(e), id, g, idx, chunkOff, w)
                || StaysTrue(cs, hash, VerifiedWrite(cs, hash, Some(e), id, g, idx, chunkOff, w), id,
                             WriteAt(g, Start(cs, idx) + chunkOff, w))
  {
    hide CoherentEntry, EdgesChecked, VerifiedWrite, WriteCollides, Start, WriteAt, CheckedRun, Run, RunCollides,
         GetSub, Get, HashedRange;
    if EdgesChecked(cs, e, |f|, Start(cs, idx) + chunkOff, |w|) {
      forall g: seq<Byte> | |g| == |f| && CoherentEntry(cs, e, g)
          && !WriteCollides(cs, hash, Some(e), id, g, idx, chunkOff, w)
        ensures StaysTrue(cs, hash, VerifiedWrite(cs, hash, Some(e), id, g, idx, chunkOff, w), id,
                          WriteAt(g, Start(cs, idx) + chunkOff, w))
      {
        VerifiedKeeps(cs, hash, Some(e), id, g, idx, chunkOff, w);
        CoherentStaysTrue(cs, hash, VerifiedWrite(cs, hash, Some(e), id, g, idx, chunkOff, w), id,
                          WriteAt(g, Start(cs, idx) + chunkOff, w));
      }
    } else {
      var g, ops, p := VerifiedBreaks(cs, hash, e, id, f, idx, chunkOff, w);
      StartOfFirst(cs);
    }
  }

  /** From nothing cached, every hit after any checked run is the caller's current bytes, or a collision has
      happened. */
  lemma RunReadsTrue(cs: nat, hash: Hasher, id: FileVersion, f: seq<Byte>, ops: seq<Op>)
    requires IsChunkSize(cs) && id.writable && CheckedRun(cs, hash, None, id, f, ops)
    ensures ReadsTrue(cs, Run(cs, hash, None, id, f, ops).0, Run(cs, hash, None, id, f, ops).1)
            || RunCollides(cs, hash, None, id, f, ops)
  {
    hide CheckedRun, Run, ReadsTrue, RunCollides;
    CoherentStaysTrue(cs, hash, None, id, f);
  }

  lemma ApplyWrite(cs: nat, st: State, id: FileVersion, f: seq<Byte>, idx: nat, chunkOff: nat, w: seq<Byte>)
    requires cs > 0
    ensures DiskCoherence.Apply(cs, st, id, f, Write(idx, chunkOff, w)) == Written(cs, st, id, f, idx, chunkOff, w)
    ensures NextFile(cs, f, Write(idx, chunkOff, w)) == WriteAt(f, Start(cs, idx) + chunkOff, w)
  {
  }

  /** The backing after filling the first sub-block of a file of zeros but for one byte above it. */
  lemma ZeroBacked(cs: nat, id: FileVersion, f: seq<Byte>)
    requires cs > SUB && id.writable && |f| >= 2 * SUB
    requires forall i: nat :: i != SUB + 1 ==> At(f, i) == 0
    ensures var st := DiskCoherence.Apply(cs, None, id, f, FillSub(0, 0, SUB));
            st.Some? && st.value.cur == SUB && forall i: nat :: At(st.value.data, i) == 0
  {
    hide WriteAt, Origin, Start;
    StartOfFirst(cs);
    var w := Origin(f, 0, SUB);
    forall i | 0 <= i < SUB ensures w[i] == 0 {
      assert At(f, i) == w[i - 0];
    }
  }

  lemma NotBacked(cs: nat, e: Entry, f: seq<Byte>, w: seq<Byte>)
    requires cs > SUB && e.cur == SUB && |f| == 3 * SUB && |w| == 2 && Touches(Some(e), 0, SUB - 1, 2)
    ensures SubOf(SUB + 1) == SubOf(Start(cs, 0) + (SUB - 1) + |w| - 1)
    ensures !UnitBacked(e, |f|, Start(cs, 0) + (SUB - 1), |w|) && PartialWrite(cs, Some(e), f, 0, SUB - 1, w)
  {
    hide Touches;
    StartOfFirst(cs);
  }

  /** And it is reached from nothing cached: fill the first sub-block, write two bytes across its end, fill the
      third.  No check notices, and a byte of the second sub-block is served that the file does not have. */
  lemma UncheckedEdgeReached(cs: nat, hash: Hasher, id: FileVersion, w: seq<Byte>) returns (op: Op)
    requires IsChunkSize(cs) && cs > SUB && id.writable && |w| == 2
    ensures var f: seq<Byte> := Zeros(3 * SUB)[SUB + 1 := 1];
            var ops := [FillSub(0, 0, SUB), Write(0, SUB - 1, w), op];
            && op.FillSub? && WellPosed(cs, f, ops[0]) && WellPosed(cs, f, ops[1]) && WellPosed(cs, f, op)
            && !RunCollides(cs, hash, None, id, f, ops)
            && var (st, h) := Run(cs, hash, None, id, f, ops);
               GetSub(cs, st, 0, SUB + 1, 1).Some? && GetSub(cs, st, 0, SUB + 1, 1).value != Origin(h, SUB + 1, 1)
  {
    hide Start, Run, RunCollides, CheckedRun, WriteAt, Present, InSpan, Wrong, GetSub, Origin, NextFile, CoherentEntry,
         VerifiedWrite, WriteCollides, Written, DiskCoherence.Apply, Zeros, UnitBacked, SubOf, PartialWrite;
    var f: seq<Byte> := Zeros(3 * SUB)[SUB + 1 := 1];
    assert forall i: nat :: i != SUB + 1 ==> At(f, i) == At(Zeros(3 * SUB), i);
    StartOfFirst(cs);
    var one, two := FillSub(0, 0, SUB), Write(0, SUB - 1, w);
    var st1 := FirstFill(cs, id, f);
    FillChangesNothing(cs, f, one);
    ZeroBacked(cs, id, f);
    AcrossIsWrong(cs, st1, id, f, w);
    ApplyWrite(cs, st1, id, f, 0, SUB - 1, w);
    NotBacked(cs, st1.value, f, w);
    NothingToFind(cs, st1.value, id, f, 0, SUB - 1, w, SUB + 1);
    EqualUnits(cs, hash, st1, id, f, 0, SUB - 1, w);
    var st2, h := Apply(cs, hash, st1, id, f, two), NextFile(cs, f, two);
    op := FillAt(cs, hash, st2, id, h, SUB + 1, 2 * SUB);
    assert [one, two, op] == [one] + ([two] + [op]);
    FirstStep(cs, hash, None, id, f, one, [two] + [op]);
    FirstStep(cs, hash, st1, id, f, two, [op]);
    OneStep(cs, hash, st2, id, h, op);
    WrongIsServed(cs, Apply(cs, hash, st2, id, h, op), h, SUB + 1, 0);
    assert |h| == |f|;
  }
}
