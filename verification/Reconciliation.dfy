/** Writing through without conditions, and reconciling later (pkg/wire/blockproxy.go: applyWriteThrough,
    applyWriteSubBlock, FSync) over the disk store.

    Writes are not asked to have safe edges.  The sub-blocks they may spoil are put under doubt, and a
    check, one sub-block at a time, clears a doubt or drops the chunk.  Checks may come right after a
    write, after all pieces of a write over several chunks, or in a batch at fsync: over every run, what is
    served outside the sub-blocks under doubt is the caller's current bytes, up to collisions.
 */
module Reconciliation {
  import opened Bytes
  import opened Options
  import opened DiskModel
  import opened Caller
  import C = DiskCoherence
  import V = SubBlockWrites

  datatype Step =
    | Do(op: Op)      // an operation of the caller, mirrored into the store
    | Check(s: nat)   // HashRange of sub-block s against the caller's hash, Drop on a mismatch

  function ChunkOfUnit(cs: nat, s: nat): nat
    requires cs > 0
  {
    ChunkOf(cs, s * SUB)
  }

  ghost function NextStore(cs: nat, hash: V.Hasher, st: State, id: FileVersion, h: seq<Byte>, step: Step): State
    requires cs > 0
  {
    match step
    case Do(op) => C.Apply(cs, st, id, h, op)
    case Check(s) =>
      if V.Mismatch(cs, hash, st, ChunkOfUnit(cs, s), h, s) then Dropped(cs, st, ChunkOfUnit(cs, s)) else st
  }

  function NextHost(cs: nat, h: seq<Byte>, step: Step): seq<Byte> {
    match step
    case Do(op) => NextFile(cs, h, op)
    case Check(_) => h
  }

  /** The edge sub-blocks of a partial write that may be spoilt. */
  ghost function UnsafeEdges(cs: nat, e: Entry, fileLen: nat, off: nat, n: nat): set<nat>
    requires cs > 0 && n > 0
  {
    (if off % SUB == 0 || Present(cs, e, off) || SubOf(off) * SUB >= fileLen then {} else {SubOf(off)}) +
    (if (off + n) % SUB == 0 || Present(cs, e, off + n - 1) || off + n >= fileLen then {} else {SubOf(off + n - 1)})
  }

  /** The sub-blocks that a ranged fill covers, as far as the file has them. */
  ghost function Covered(doubt: set<nat>, len: nat, off: nat, n: nat): set<nat> {
    set s | s in doubt && off <= s * SUB && s * SUB + V.UnitLen(len, s) <= off + n
  }

  /** The sub-blocks under doubt after a step. */
  ghost function NextDoubt(cs: nat, hash: V.Hasher, st: State, h: seq<Byte>, doubt: set<nat>, step: Step): set<nat>
    requires cs > 0 && (step.Do? ==> WellPosed(cs, h, step.op))
  {
    match step
    case Do(Fill(idx, _)) => doubt - SubsOf(cs, idx)
    case Do(FillSub(idx, subOff, n)) => doubt - Covered(doubt, |h|, Start(cs, idx) + subOff, n)
    case Do(Write(idx, chunkOff, w)) =>
      if C.PartialWrite(cs, st, h, idx, chunkOff, w)
      then doubt + UnsafeEdges(cs, st.value, |h|, Start(cs, idx) + chunkOff, |w|)
      else doubt
    case Do(Drop(idx)) => doubt - SubsOf(cs, idx)
    case Do(Resize(_)) => doubt
    case Do(Invalidate) => {}
    case Check(s) =>
      if V.UnitOf(cs, st, ChunkOfUnit(cs, s), |h|, s).None? then doubt
      else if V.Mismatch(cs, hash, st, ChunkOfUnit(cs, s), h, s) then doubt - SubsOf(cs, ChunkOfUnit(cs, s))
      else doubt - {s}
  }

  ghost predicate Enabled(cs: nat, h: seq<Byte>, step: Step) {
    match step
    case Do(op) => WellPosed(cs, h, op)
    case Check(s) => s * SUB < |h|
  }

  /** The check compares two different sub-blocks that hash alike. */
  ghost predicate Collides(cs: nat, hash: V.Hasher, st: State, h: seq<Byte>, step: Step)
    requires cs > 0
  {
    step.Check? &&
    var unit := V.UnitOf(cs, st, ChunkOfUnit(cs, step.s), |h|, step.s);
    unit.Some? && Collision(hash, unit.value, V.Theirs(h, step.s))
  }

  // ---- the cache's idea of the file ---------------------------------------------------------

  /** What the cache holds is coherent with idea, a file that differs from the caller's only under doubt. */
  ghost predicate Believes(cs: nat, st: State, idea: seq<Byte>, h: seq<Byte>, doubt: set<nat>)
    requires cs > 0
  {
    && |idea| == |h| && C.Coherent(cs, st, idea)
    && forall i: nat :: SubOf(i) !in doubt ==> At(idea, i) == At(h, i)
  }

  lemma FillKeeps(cs: nat, st: State, id: FileVersion, idea: seq<Byte>, h: seq<Byte>, doubt: set<nat>, idx: nat,
                  hash: Hash)
    returns (next: seq<Byte>)
    requires IsChunkSize(cs) && id.writable && Believes(cs, st, idea, h, doubt) && WellPosed(cs, h, Fill(idx, hash))
    ensures Believes(cs, C.Apply(cs, st, id, h, Fill(idx, hash)), next, h, doubt - SubsOf(cs, idx))
  {
    hide Start, ChunkOf, WriteAt, Origin, SubOf, C.CoherentEntry, PutChunk, FirstSub, LastSub;
    var w := Origin(h, Start(cs, idx), cs);
    next := WriteAt(idea, Start(cs, idx), w);
    FilledIsHost(idea, h, Start(cs, idx), cs, next);
    SameOrigin(next, h, Start(cs, idx), cs);
    C.PutChunkKeeps(cs, st, id, idea, next, idx, w, hash);
    forall i: nat | SubOf(i) !in doubt - SubsOf(cs, idx) ensures At(next, i) == At(h, i) {
      ChunkSubs(cs, idx, i);
      ChunkOfByte(cs, i, idx);
    }
  }

  /** Writing the caller's bytes of a range into another file of the same length. */
  lemma FilledIsHost(idea: seq<Byte>, h: seq<Byte>, off: nat, n: nat, next: seq<Byte>)
    requires |idea| == |h| && off <= |h| && next == WriteAt(idea, off, Origin(h, off, n))
    ensures |next| == |h|
    ensures forall i: nat :: At(next, i) == if off <= i < off + n then At(h, i) else At(idea, i)
  {
    hide WriteAt, Origin;
    var w := Origin(h, off, n);
    forall i: nat ensures At(next, i) == if off <= i < off + n then At(h, i) else At(idea, i) {
      if off <= i < off + |w| { assert At(h, i) == w[i - off]; }
    }
  }

  lemma SameOrigin(a: seq<Byte>, b: seq<Byte>, off: nat, n: nat)
    requires |a| == |b| && forall i: nat :: off <= i < off + n ==> At(a, i) == At(b, i)
    ensures Origin(a, off, n) == Origin(b, off, n)
  {
    hide Origin;
    var x, y := Origin(a, off, n), Origin(b, off, n);
    OriginLength(a, off, n);
    OriginLength(b, off, n);
    forall k | 0 <= k < |x| ensures At(x, k) == At(y, k) {
      assert At(a, off + k) == x[k] && At(b, off + k) == y[k];
    }
    SameBytes(x, y);
  }

  lemma OriginLength(f: seq<Byte>, off: nat, n: nat)
    ensures |Origin(f, off, n)| == if off >= |f| then 0 else Min(n, |f| - off)
  {
  }

  lemma FillSubKeeps(cs: nat, st: State, id: FileVersion, idea: seq<Byte>, h: seq<Byte>, doubt: set<nat>,
                     idx: nat, subOff: nat, n: nat)
    returns (next: seq<Byte>)
    requires IsChunkSize(cs) && id.writable && Believes(cs, st, idea, h, doubt)
               && WellPosed(cs, h, FillSub(idx, subOff, n))
    ensures Believes(cs, C.Apply(cs, st, id, h, FillSub(idx, subOff, n)), next, h,
                     doubt - Covered(doubt, |h|, Start(cs, idx) + subOff, n))
  {
    hide Start, WriteAt, Origin, SubOf, C.CoherentEntry, PutSub, Covered;
    var off := Start(cs, idx) + subOff;
    var w := Origin(h, off, n);
    next := WriteAt(idea, off, w);
    FilledIsHost(idea, h, off, n, next);
    SameOrigin(next, h, off, n);
    OriginLength(h, off, n);
    C.PutSubKeeps(cs, st, id, idea, next, idx, subOff, w);
    forall i: nat | SubOf(i) !in doubt - Covered(doubt, |h|, off, n) ensures At(next, i) == At(h, i) {
      if SubOf(i) in Covered(doubt, |h|, off, n) && i < |h| { CoveredByte(doubt, |h|, off, n, i); }
    }
  }

  lemma CoveredByte(doubt: set<nat>, len: nat, off: nat, n: nat, i: nat)
    requires SubOf(i) in Covered(doubt, len, off, n) && i < len
    ensures off <= i < off + n
  {
  }

  /** A byte in a touched sub-block that the write does not cover and that was absent. */
  ghost predicate Uncovered(cs: nat, e: Entry, off: nat, n: nat, i: nat)
    requires cs > 0
  {
    InSpan(off, n, SubOf(i)) && !(off <= i < off + n) && !Present(cs, e, i)
  }

  /** The file as the cache sees it after a partial write: what the backing holds in the absent bytes of the
      edge sub-blocks. */
  ghost function Patched(cs: nat, e: Entry, f: seq<Byte>, off: nat, w: seq<Byte>): (r: seq<Byte>)
    requires cs > 0
    ensures |r| == |WriteAt(f, off, w)|
    ensures forall i: nat :: i < |r| ==>
              At(r, i) == if Uncovered(cs, e, off, |w|, i) then At(e.data, i) else At(WriteAt(f, off, w), i)
  {
    var g := WriteAt(f, off, w);
    seq(|g|, i requires 0 <= i < |g| => if Uncovered(cs, e, off, |w|, i) then At(e.data, i) else g[i])
  }

  lemma PatchedCoherent(cs: nat, e: Entry, id: FileVersion, idea: seq<Byte>, idx: nat, chunkOff: nat, w: seq<Byte>)
    requires IsChunkSize(cs) && C.CoherentEntry(cs, e, idea) && WellPosed(cs, idea, Write(idx, chunkOff, w))
    requires C.PartialWrite(cs, Some(e), idea, idx, chunkOff, w)
    ensures C.Coherent(cs, C.Written(cs, Some(e), id, idea, idx, chunkOff, w),
                       Patched(cs, e, idea, Start(cs, idx) + chunkOff, w))
  {
    hide Start, WriteAt, C.Written, C.PartialWrite, Present, InSpan, SubOf, Patched;
    var off := Start(cs, idx) + chunkOff;
    C.PartialResult(cs, e, id, idea, idx, chunkOff, w);
    var r, next := C.Written(cs, Some(e), id, idea, idx, chunkOff, w).value, Patched(cs, e, idea, off, w);
    forall i: nat | Present(cs, r, i) ensures At(r.data, i) == At(next, i) {
      if Present(cs, e, i) { assert At(e.data, i) == At(idea, i); }
    }
  }

  /** Outside the doubt a patched file is the caller's. */
  lemma PatchedIsHost(cs: nat, e: Entry, idea: seq<Byte>, h: seq<Byte>, doubt: set<nat>, off: nat, w: seq<Byte>, i: nat)
    requires IsChunkSize(cs) && w != [] && Believes(cs, Some(e), idea, h, doubt)
    requires SubOf(i) !in doubt + UnsafeEdges(cs, e, |h|, off, |w|)
    ensures At(Patched(cs, e, idea, off, w), i) == At(WriteAt(h, off, w), i)
  {
    hide WriteAt, Present, Patched;
    if Uncovered(cs, e, off, |w|, i) {
      EdgeOf(off, |w|, i);
      V.SafeSide(cs, e, idea, off, |w|, i);
    }
  }

  lemma EdgeOf(off: nat, n: nat, i: nat)
    requires n > 0 && InSpan(off, n, SubOf(i)) && !(off <= i < off + n)
    ensures SubOf(i) == if i < off then SubOf(off) else SubOf(off + n - 1)
  {
  }

  lemma WriteKeeps(cs: nat, st: State, id: FileVersion, idea: seq<Byte>, h: seq<Byte>, doubt: set<nat>,
                   idx: nat, chunkOff: nat, w: seq<Byte>)
    returns (next: seq<Byte>)
    requires IsChunkSize(cs) && id.writable && Believes(cs, st, idea, h, doubt)
               && WellPosed(cs, h, Write(idx, chunkOff, w))
    ensures Believes(cs, C.Apply(cs, st, id, h, Write(idx, chunkOff, w)), next,
                     WriteAt(h, Start(cs, idx) + chunkOff, w),
                     if C.PartialWrite(cs, st, h, idx, chunkOff, w)
                     then doubt + UnsafeEdges(cs, st.value, |h|, Start(cs, idx) + chunkOff, |w|) else doubt)
  {
    hide Start, WriteAt, C.Written, C.PartialWrite, C.CoherentEntry, Patched, UnsafeEdges, SubOf;
    var off := Start(cs, idx) + chunkOff;
    SameWrite(cs, st, id, idea, h, idx, chunkOff, w);
    if C.PartialWrite(cs, st, h, idx, chunkOff, w) {
      V.PartialSome(cs, st, h, idx, chunkOff, w);
      next := Patched(cs, st.value, idea, off, w);
      PatchedCoherent(cs, st.value, id, idea, idx, chunkOff, w);
      forall i: nat | SubOf(i) !in doubt + UnsafeEdges(cs, st.value, |h|, off, |w|)
        ensures At(next, i) == At(WriteAt(h, off, w), i)
      {
        PatchedIsHost(cs, st.value, idea, h, doubt, off, w, i);
      }
    } else {
      next := WriteAt(idea, off, w);
      C.WriteThroughKeeps(cs, st, id, idea, idx, chunkOff, w);
    }
  }

  /** What a write does depends on the length of the file only. */
  lemma SameWrite(cs: nat, st: State, id: FileVersion, idea: seq<Byte>, h: seq<Byte>, idx: nat, chunkOff: nat,
                  w: seq<Byte>)
    requires cs > 0 && |idea| == |h|
    ensures C.PartialWrite(cs, st, idea, idx, chunkOff, w) == C.PartialWrite(cs, st, h, idx, chunkOff, w)
    ensures C.Apply(cs, st, id, h, Write(idx, chunkOff, w)) == C.Written(cs, st, id, idea, idx, chunkOff, w)
    ensures WellPosed(cs, idea, Write(idx, chunkOff, w)) == WellPosed(cs, h, Write(idx, chunkOff, w))
  {
    hide Start, WriteAt, Touches, PutChunk, Spliced;
  }

  /** The file with chunk idx as the caller has it. */
  lemma DropKeeps(cs: nat, st: State, idea: seq<Byte>, h: seq<Byte>, doubt: set<nat>,
                  idx: nat) returns (next: seq<Byte>)
    requires IsChunkSize(cs) && Believes(cs, st, idea, h, doubt)
    ensures Believes(cs, Dropped(cs, st, idx), next, h, doubt - SubsOf(cs, idx))
  {
    hide Start, ChunkOf, SubOf, Present, WriteAt, Origin, FirstSub, LastSub;
    var lo := Start(cs, idx);
    next := if lo <= |h| then WriteAt(idea, lo, Origin(h, lo, cs)) else idea;
    if lo <= |h| { FilledIsHost(idea, h, lo, cs, next); }
    forall i: nat ensures ChunkOf(cs, i) == idx ==> At(next, i) == At(h, i)
                  ensures ChunkOf(cs, i) != idx ==> At(next, i) == At(idea, i)
    {
      ChunkOfByte(cs, i, idx);
    }
    if st.Some? { DroppedCoherent(cs, st.value, idea, next, idx); }
    forall i: nat | SubOf(i) !in doubt - SubsOf(cs, idx) ensures At(next, i) == At(h, i) {
      ChunkSubs(cs, idx, i);
    }
  }

  lemma DroppedCoherent(cs: nat, e: Entry, idea: seq<Byte>, next: seq<Byte>, idx: nat)
    requires IsChunkSize(cs) && C.CoherentEntry(cs, e, idea) && |next| == |idea|
    requires forall i: nat :: ChunkOf(cs, i) != idx ==> At(next, i) == At(idea, i)
    ensures C.CoherentEntry(cs, ClearChunk(cs, e, idx), next)
  {
    hide Present, ChunkOf, SubsOf;
    forall i: nat | Present(cs, ClearChunk(cs, e, idx), i) ensures At(e.data, i) == At(next, i) {
      C.ClearChunkPresence(cs, e, idx, i);
      assert At(e.data, i) == At(idea, i);
    }
  }

  /** A unit is hashed as the cache believes it to be. */
  lemma UnitBelieved(cs: nat, st: State, idea: seq<Byte>, h: seq<Byte>, doubt: set<nat>, s: nat)
    requires IsChunkSize(cs) && Believes(cs, st, idea, h, doubt)
    requires V.UnitOf(cs, st, ChunkOfUnit(cs, s), |h|, s).Some?
    ensures V.UnitOf(cs, st, ChunkOfUnit(cs, s), |h|, s).value == V.Theirs(idea, s)
  {
    hide Start, ChunkOf, HashedRange, C.CoherentEntry, Origin;
    var idx := ChunkOfUnit(cs, s);
    ChunkOfByte(cs, s * SUB, idx);
    C.HashRangeTruth(cs, st, idea, idx, s * SUB - Start(cs, idx), V.UnitLen(|h|, s));
  }

  lemma SameUnit(a: seq<Byte>, b: seq<Byte>, s: nat, i: nat)
    requires |a| == |b| && V.Theirs(a, s) == V.Theirs(b, s) && SubOf(i) == s
    ensures At(a, i) == At(b, i)
  {
    hide Origin;
    var n := V.UnitLen(|a|, s);
    OriginLength(a, s * SUB, n);
    if i < |a| {
      assert At(a, i) == V.Theirs(a, s)[i - s * SUB];
      assert At(b, i) == V.Theirs(b, s)[i - s * SUB];
    }
  }

  lemma CheckKeeps(cs: nat, hash: V.Hasher, st: State, idea: seq<Byte>, h: seq<Byte>, doubt: set<nat>, s: nat)
    returns (next: seq<Byte>)
    requires IsChunkSize(cs) && Believes(cs, st, idea, h, doubt) && !Collides(cs, hash, st, h, Check(s))
    ensures var idx := ChunkOfUnit(cs, s);
            var st' := if V.Mismatch(cs, hash, st, idx, h, s) then Dropped(cs, st, idx) else st;
            Believes(cs, st', next, h,
                     if V.UnitOf(cs, st, idx, |h|, s).None? then doubt
                     else if V.Mismatch(cs, hash, st, idx, h, s) then doubt - SubsOf(cs, idx) else doubt - {s})
  {
    hide V.UnitOf, V.Theirs, C.Coherent, Dropped, SubsOf, ChunkOfUnit, SubOf;
    var idx := ChunkOfUnit(cs, s);
    if V.UnitOf(cs, st, idx, |h|, s).None? {
      next := idea;
    } else if V.Mismatch(cs, hash, st, idx, h, s) {
      next := DropKeeps(cs, st, idea, h, doubt, idx);
    } else {
      next := idea;
      UnitBelieved(cs, st, idea, h, doubt, s);
      forall i: nat | SubOf(i) !in doubt - {s} ensures At(idea, i) == At(h, i) {
        if SubOf(i) == s { SameUnit(idea, h, s, i); }
      }
    }
  }

  /** Every step keeps an idea of the file that differs from the caller's only under doubt, or collides. */
  lemma StepKeeps(cs: nat, hash: V.Hasher, st: State, id: FileVersion, idea: seq<Byte>, h: seq<Byte>, doubt: set<nat>,
                  step: Step)
    returns (next: seq<Byte>)
    requires IsChunkSize(cs) && id.writable && Believes(cs, st, idea, h, doubt) && Enabled(cs, h, step)
    requires !Collides(cs, hash, st, h, step)
    ensures Believes(cs, NextStore(cs, hash, st, id, h, step), next, NextHost(cs, h, step),
                     NextDoubt(cs, hash, st, h, doubt, step))
  {
    hide C.CoherentEntry, C.PartialWrite, UnsafeEdges, SubsOf, Covered, V.UnitOf, V.Theirs, SubOf, Start, ChunkOf,
         PutChunk, PutSub, WriteAt, C.Written, Resized, ResizedEntry;
    match step
    case Do(Fill(idx, hsh)) => next := FillKeeps(cs, st, id, idea, h, doubt, idx, hsh);
    case Do(FillSub(idx, subOff, n)) => next := FillSubKeeps(cs, st, id, idea, h, doubt, idx, subOff, n);
    case Do(Write(idx, chunkOff, w)) => next := WriteKeeps(cs, st, id, idea, h, doubt, idx, chunkOff, w);
    case Do(Drop(idx)) => next := DropKeeps(cs, st, idea, h, doubt, idx);
    case Do(Resize(n)) =>
      next := Resized(idea, n);
      C.ResizeKeeps(cs, st, idea, n);
    case Do(Invalidate) => next := h;
    case Check(s) => next := CheckKeeps(cs, hash, st, idea, h, doubt, s);
  }

  // ---- whole runs ---------------------------------------------------------------------------

  /** The store, the caller's file, and the sub-blocks under doubt. */
  datatype World = World(st: State, h: seq<Byte>, doubt: set<nat>)

  ghost function Next(cs: nat, hash: V.Hasher, id: FileVersion, w: World, step: Step): World
    requires cs > 0 && Enabled(cs, w.h, step)
  {
    World(NextStore(cs, hash, w.st, id, w.h, step), NextHost(cs, w.h, step),
          NextDoubt(cs, hash, w.st, w.h, w.doubt, step))
  }

  ghost predicate Legal(cs: nat, hash: V.Hasher, id: FileVersion, w: World, steps: seq<Step>)
    requires cs > 0
    decreases |steps|
  {
    steps == [] || (Enabled(cs, w.h, steps[0]) && Legal(cs, hash, id, Next(cs, hash, id, w, steps[0]), steps[1..]))
  }

  ghost function Exec(cs: nat, hash: V.Hasher, id: FileVersion, w: World, steps: seq<Step>): World
    requires cs > 0 && Legal(cs, hash, id, w, steps)
    decreases |steps|
  {
    if steps == [] then w else Exec(cs, hash, id, Next(cs, hash, id, w, steps[0]), steps[1..])
  }

  /** Some check of the run compares two different sub-blocks that hash alike. */
  ghost predicate RunCollides(cs: nat, hash: V.Hasher, id: FileVersion, w: World, steps: seq<Step>)
    requires cs > 0 && Legal(cs, hash, id, w, steps)
    decreases |steps|
  {
    steps != [] &&
    (Collides(cs, hash, w.st, w.h, steps[0]) || RunCollides(cs, hash, id, Next(cs, hash, id, w, steps[0]), steps[1..]))
  }

  ghost predicate Trusted(cs: nat, w: World)
    requires cs > 0
  {
    exists idea: seq<Byte> :: Believes(cs, w.st, idea, w.h, w.doubt)
  }

  lemma NextTrusted(cs: nat, hash: V.Hasher, id: FileVersion, w: World, step: Step)
    requires IsChunkSize(cs) && id.writable && Trusted(cs, w) && Enabled(cs, w.h, step)
    requires !Collides(cs, hash, w.st, w.h, step)
    ensures Trusted(cs, Next(cs, hash, id, w, step))
  {
    hide Believes, NextStore, NextHost, NextDoubt, Enabled, Collides;
    var idea: seq<Byte> :| Believes(cs, w.st, idea, w.h, w.doubt);
    var next := StepKeeps(cs, hash, w.st, id, idea, w.h, w.doubt, step);
  }

  /** A check of a sub-block that is not under doubt never drops anything. */
  lemma TrueCheckDropsNothing(cs: nat, hash: V.Hasher, id: FileVersion, w: World, s: nat)
    requires IsChunkSize(cs) && Trusted(cs, w) && s * SUB < |w.h| && s !in w.doubt
    ensures Next(cs, hash, id, w, Check(s)).st == w.st && Next(cs, hash, id, w, Check(s)).doubt == w.doubt
  {
    hide C.Coherent, V.UnitOf, V.Theirs, ChunkOfUnit, SubsOf;
    var idea: seq<Byte> :| Believes(cs, w.st, idea, w.h, w.doubt);
    if V.UnitOf(cs, w.st, ChunkOfUnit(cs, s), |w.h|, s).Some? {
      UnitBelieved(cs, w.st, idea, w.h, w.doubt, s);
      SameTheirs(idea, w.h, s);
    }
  }

  lemma SameTheirs(a: seq<Byte>, b: seq<Byte>, s: nat)
    requires |a| == |b| && forall i: nat :: SubOf(i) == s ==> At(a, i) == At(b, i)
    ensures V.Theirs(a, s) == V.Theirs(b, s)
  {
    var n := V.UnitLen(|a|, s);
    SameOrigin(a, b, s * SUB, n);
  }

  lemma {:induction false} RunKeeps(cs: nat, hash: V.Hasher, id: FileVersion, w: World, steps: seq<Step>)
    requires IsChunkSize(cs) && id.writable && Trusted(cs, w) && Legal(cs, hash, id, w, steps)
    ensures Trusted(cs, Exec(cs, hash, id, w, steps)) || RunCollides(cs, hash, id, w, steps)
    decreases |steps|
  {
    hide Trusted, Next, Enabled, Collides;
    if steps != [] && !Collides(cs, hash, w.st, w.h, steps[0]) {
      NextTrusted(cs, hash, id, w, steps[0]);
      RunKeeps(cs, hash, id, Next(cs, hash, id, w, steps[0]), steps[1..]);
    }
  }

  /** No sub-block of the range is under doubt. */
  ghost predicate Clear(doubt: set<nat>, off: nat, n: nat) {
    forall i: nat :: off <= i < off + n ==> SubOf(i) !in doubt
  }

  /** What is served outside the doubt is the caller's. */
  lemma ClearReadsTrue(cs: nat, w: World, idx: nat, subOff: nat, n: nat)
    requires IsChunkSize(cs) && Trusted(cs, w) && Clear(w.doubt, Start(cs, idx) + subOff, n)
    ensures GetSub(cs, w.st, idx, subOff, n).Some? ==>
              GetSub(cs, w.st, idx, subOff, n).value == Origin(w.h, Start(cs, idx) + subOff, n)
    ensures subOff == 0 && n <= cs && Get(cs, w.st, idx, n).Some? ==>
              Get(cs, w.st, idx, n).value == Origin(w.h, Start(cs, idx), n)
  {
    hide Start, GetSub, Get, C.Coherent, SubOf;
    var idea: seq<Byte> :| Believes(cs, w.st, idea, w.h, w.doubt);
    SameOrigin(idea, w.h, Start(cs, idx) + subOff, n);
    C.GetSubTruth(cs, w.st, idea, idx, subOff, n);
    if subOff == 0 && n <= cs { C.GetTruth(cs, w.st, idea, idx, n); }
  }

  /** From nothing cached, over every run of operations and checks in any order: a hit outside the sub-blocks
      under doubt is the caller's current bytes, or a collision has happened. */
  lemma RunReadsTrue(cs: nat, hash: V.Hasher, id: FileVersion, f: seq<Byte>, steps: seq<Step>, idx: nat, subOff: nat,
                     n: nat)
    requires IsChunkSize(cs) && id.writable && Legal(cs, hash, id, World(None, f, {}), steps)
    ensures var w := Exec(cs, hash, id, World(None, f, {}), steps);
            || RunCollides(cs, hash, id, World(None, f, {}), steps)
            || (Clear(w.doubt, Start(cs, idx) + subOff, n) && GetSub(cs, w.st, idx, subOff, n).Some? ==>
                  GetSub(cs, w.st, idx, subOff, n).value == Origin(w.h, Start(cs, idx) + subOff, n))
  {
    hide Legal, Exec, RunCollides, GetSub, Start, Clear, Trusted;
    NothingTrusted(cs, f);
    RunKeeps(cs, hash, id, World(None, f, {}), steps);
    var w := Exec(cs, hash, id, World(None, f, {}), steps);
    if Trusted(cs, w) && Clear(w.doubt, Start(cs, idx) + subOff, n) { ClearReadsTrue(cs, w, idx, subOff, n); }
  }

  lemma NothingTrusted(cs: nat, f: seq<Byte>)
    requires cs > 0
    ensures Trusted(cs, World(None, f, {}))
  {
    assert Believes(cs, None, f, f, {});
  }

  lemma FirstStep(cs: nat, hash: V.Hasher, id: FileVersion, w: World, step: Step, rest: seq<Step>)
    requires cs > 0 && Enabled(cs, w.h, step)
    ensures var w' := Next(cs, hash, id, w, step);
            && (Legal(cs, hash, id, w, [step] + rest) <==> Legal(cs, hash, id, w', rest))
            && (Legal(cs, hash, id, w', rest) ==>
                  && Exec(cs, hash, id, w, [step] + rest) == Exec(cs, hash, id, w', rest)
                  && (RunCollides(cs, hash, id, w, [step] + rest) <==>
                        Collides(cs, hash, w.st, w.h, step) || RunCollides(cs, hash, id, w', rest)))
  {
    hide Next, Enabled, Collides;
    assert ([step] + rest)[1..] == rest;
  }

  // ---- a write over several chunks ----------------------------------------------------------

  /** The piece of a write that falls into its first chunk. */
  function PieceLen(cs: nat, off: nat, w: seq<Byte>): (n: nat)
    requires cs > 0 && w != []
    ensures 0 < n <= |w|
  {
    ChunkOfByte(cs, off, ChunkOf(cs, off));
    Min(|w|, Start(cs, ChunkOf(cs, off)) + cs - off)
  }

  function Piece(cs: nat, off: nat, w: seq<Byte>): (op: Op)
    requires cs > 0 && w != []
    ensures op.Write?
  {
    ChunkOfByte(cs, off, ChunkOf(cs, off));
    Write(ChunkOf(cs, off), off - Start(cs, ChunkOf(cs, off)), w[..PieceLen(cs, off, w)])
  }

  /** applyWriteThrough: one WriteThrough for each chunk the write meets. */
  function Pieces(cs: nat, off: nat, w: seq<Byte>): seq<Step>
    requires cs > 0
    decreases |w|
  {
    if w == [] then [] else [Do(Piece(cs, off, w))] + Pieces(cs, off + PieceLen(cs, off, w), w[PieceLen(cs, off, w)..])
  }

  /** The loop over the touched sub-blocks. */
  function Checks(s: nat, last: nat): seq<Step>
    decreases last + 1 - s
  {
    if s > last then [] else [Check(s)] + Checks(s + 1, last)
  }

  /** The last piece is one whose edges a check covers, in the state it is applied to. */
  ghost predicate LastChecked(cs: nat, hash: V.Hasher, id: FileVersion, w: World, off: nat, data: seq<Byte>)
    requires cs > 0 && data != []
    decreases |data|
  {
    var n := PieceLen(cs, off, data);
    if n == |data| then V.Checked(cs, w.st, w.h, Piece(cs, off, data))
    else Enabled(cs, w.h, Do(Piece(cs, off, data))) &&
         LastChecked(cs, hash, id, Next(cs, hash, id, w, Do(Piece(cs, off, data))), off + n, data[n..])
  }

  /** A sub-block newly under doubt is marked, and backed so far that its check finds it. */
  ghost predicate Pending(w: World, before: set<nat>, s: nat, last: nat, checked: bool) {
    && (forall u :: u in w.doubt && u !in before ==> w.st.Some? && u in w.st.value.subs && u <= last)
    && (forall u :: u in w.doubt && u !in before && (u < last || checked) ==>
          s <= u && u * SUB + V.UnitLen(|w.h|, u) <= w.st.value.cur)
  }

  lemma {:induction false} ExecConcat(cs: nat, hash: V.Hasher, id: FileVersion, w: World, a: seq<Step>, b: seq<Step>)
    requires cs > 0 && Legal(cs, hash, id, w, a) && Legal(cs, hash, id, Exec(cs, hash, id, w, a), b)
    ensures Legal(cs, hash, id, w, a + b)
    ensures Exec(cs, hash, id, w, a + b) == Exec(cs, hash, id, Exec(cs, hash, id, w, a), b)
    ensures RunCollides(cs, hash, id, w, a + b) <==>
              RunCollides(cs, hash, id, w, a) || RunCollides(cs, hash, id, Exec(cs, hash, id, w, a), b)
    decreases |a|
  {
    hide Next, Enabled, Collides;
    if a == [] {
      assert a + b == b;
    } else {
      assert (a + b)[1..] == a[1..] + b;
      ExecConcat(cs, hash, id, Next(cs, hash, id, w, a[0]), a[1..], b);
    }
  }

  // the checks

  lemma UnitReady(cs: nat, w: World, s: nat)
    requires IsChunkSize(cs) && Trusted(cs, w) && s * SUB < |w.h|
    requires w.st.Some? && s in w.st.value.subs && s * SUB + V.UnitLen(|w.h|, s) <= w.st.value.cur
    ensures V.UnitOf(cs, w.st, ChunkOfUnit(cs, s), |w.h|, s).Some?
  {
    hide Start, ChunkOf, Present, InSpan;
    var idx, n := ChunkOfUnit(cs, s), V.UnitLen(|w.h|, s);
    ChunkOfByte(cs, s * SUB, idx);
    StartAligned(cs, idx);
    V.UnitSpan(s, n);
    var idea: seq<Byte> :| Believes(cs, w.st, idea, w.h, w.doubt);
  }

  lemma UnitInItsChunk(cs: nat, s: nat)
    requires IsChunkSize(cs)
    ensures s in SubsOf(cs, ChunkOfUnit(cs, s))
  {
    hide ChunkOf, FirstSub, LastSub;
    assert SubOf(s * SUB) == s;
    ChunkSubs(cs, ChunkOfUnit(cs, s), s * SUB);
  }

  /** One check: the doubt it finds is cleared, or goes with its chunk. */
  lemma CheckSettles(cs: nat, hash: V.Hasher, id: FileVersion, w: World, before: set<nat>, s: nat, last: nat,
                     checked: bool)
    requires IsChunkSize(cs) && Trusted(cs, w) && s <= last && s * SUB < |w.h| && Pending(w, before, s, last, checked)
    ensures Pending(Next(cs, hash, id, w, Check(s)), before, s + 1, last, checked)
  {
    hide Trusted, V.UnitOf, V.Theirs, SubsOf, ChunkOfUnit, V.UnitLen;
    var w' := Next(cs, hash, id, w, Check(s));
    UnitInItsChunk(cs, s);
    if s in w.doubt && s !in before && (s < last || checked) {
      UnitReady(cs, w, s);
    }
  }

  lemma {:induction false} ChecksSettle(cs: nat, hash: V.Hasher, id: FileVersion, w: World, before: set<nat>, s: nat,
                                        last: nat, checked: bool)
    requires IsChunkSize(cs) && id.writable && Trusted(cs, w) && last * SUB < |w.h|
               && Pending(w, before, s, last, checked)
    requires s <= last + 1
    ensures Legal(cs, hash, id, w, Checks(s, last))
    ensures var w' := Exec(cs, hash, id, w, Checks(s, last));
            || RunCollides(cs, hash, id, w, Checks(s, last))
            || (&& w'.h == w.h && Trusted(cs, w') && Pending(w', before, last + 1, last, checked))
    decreases last + 1 - s
  {
    hide Trusted, Pending, Next, Collides, Legal, Exec, RunCollides;
    if s > last {
      NoSteps(cs, hash, id, w);
    } else {
      assert Enabled(cs, w.h, Check(s)) by { MulLe(s, last, SUB); }
      SameHost(cs, hash, id, w, s);
      FirstStep(cs, hash, id, w, Check(s), Checks(s + 1, last));
      CheckSettles(cs, hash, id, w, before, s, last, checked);
      if !Collides(cs, hash, w.st, w.h, Check(s)) {
        NextTrusted(cs, hash, id, w, Check(s));
        ChecksSettle(cs, hash, id, Next(cs, hash, id, w, Check(s)), before, s + 1, last, checked);
      } else {
        ChecksLegal(cs, hash, id, Next(cs, hash, id, w, Check(s)), s + 1, last);
      }
    }
  }

  lemma NoSteps(cs: nat, hash: V.Hasher, id: FileVersion, w: World)
    requires cs > 0
    ensures Legal(cs, hash, id, w, []) && Exec(cs, hash, id, w, []) == w && !RunCollides(cs, hash, id, w, [])
  {
  }

  lemma SameHost(cs: nat, hash: V.Hasher, id: FileVersion, w: World, s: nat)
    requires cs > 0 && Enabled(cs, w.h, Check(s))
    ensures Next(cs, hash, id, w, Check(s)).h == w.h
  {
  }

  lemma {:induction false} ChecksLegal(cs: nat, hash: V.Hasher, id: FileVersion, w: World, s: nat, last: nat)
    requires cs > 0 && (s <= last ==> last * SUB < |w.h|)
    ensures Legal(cs, hash, id, w, Checks(s, last))
    decreases last + 1 - s
  {
    hide Next, Legal;
    if s > last {
      NoSteps(cs, hash, id, w);
    } else {
      assert Enabled(cs, w.h, Check(s)) by { MulLe(s, last, SUB); }
      SameHost(cs, hash, id, w, s);
      ChecksLegal(cs, hash, id, Next(cs, hash, id, w, Check(s)), s + 1, last);
      FirstStep(cs, hash, id, w, Check(s), Checks(s + 1, last));
    }
  }

  // the pieces

  /** A write through adds marks and never lowers the recorded size. */
  lemma WriteGrows(cs: nat, st: State, id: FileVersion, h: seq<Byte>, idx: nat, chunkOff: nat, w: seq<Byte>)
    requires cs > 0 && st.Some?
    ensures var st' := C.Apply(cs, st, id, h, Write(idx, chunkOff, w));
            st'.Some? && st.value.subs <= st'.value.subs && st.value.cur <= st'.value.cur
  {
    hide Start, WriteAt, Touches, ChunkLen, SubSpan;
  }

  /** Writing in two pieces is writing at once. */
  lemma WriteInTwo(h: seq<Byte>, off: nat, w: seq<Byte>, n: nat)
    requires 0 < n < |w|
    ensures WriteAt(WriteAt(h, off, w[..n]), off + n, w[n..]) == WriteAt(h, off, w)
  {
    hide WriteAt;
    var a, b := WriteAt(WriteAt(h, off, w[..n]), off + n, w[n..]), WriteAt(h, off, w);
    forall i | 0 <= i < |a| ensures At(a, i) == At(b, i) {
    }
    SameBytes(a, b);
  }

  lemma PieceIs(cs: nat, h: seq<Byte>, off: nat, data: seq<Byte>)
    requires IsChunkSize(cs) && data != []
    ensures var (op, n) := (Piece(cs, off, data), PieceLen(cs, off, data));
            && WellPosed(cs, h, op) && Start(cs, op.idx) + op.chunkOff == off && op.w == data[..n]
            && (n < |data| ==> (off + n) % SUB == 0)
  {
    hide Start, ChunkOf;
    ChunkOfByte(cs, off, ChunkOf(cs, off));
    StartAligned(cs, ChunkOf(cs, off));
  }

  /** What one piece puts under doubt. */
  lemma PiecePends(cs: nat, hash: V.Hasher, id: FileVersion, w: World, idx: nat, chunkOff: nat, data: seq<Byte>)
    requires IsChunkSize(cs) && Trusted(cs, w) && WellPosed(cs, w.h, Write(idx, chunkOff, data))
    ensures var op := Write(idx, chunkOff, data);
            var off := Start(cs, idx) + chunkOff;
            var w' := Next(cs, hash, id, w, Do(op));
            && w'.h == WriteAt(w.h, off, data)
            && Pending(w', w.doubt, SubOf(off), SubOf(off + |data| - 1), V.Checked(cs, w.st, w.h, op))
            && ((off + |data|) % SUB == 0 && w'.doubt != w.doubt ==> w'.st.Some? && off + |data| <= w'.st.value.cur)
            && ((off + |data|) % SUB == 0 ==> w'.doubt <= w.doubt + {SubOf(off)})
  {
    hide Start, WriteAt, C.PartialWrite, C.CoherentEntry, Present, SubOf, C.Written, V.EdgesChecked, V.UnitBacked,
         V.UnitLen, InSpan;
    var off := Start(cs, idx) + chunkOff;
    if C.PartialWrite(cs, w.st, w.h, idx, chunkOff, data) {
      var idea: seq<Byte> :| Believes(cs, w.st, idea, w.h, w.doubt);
      V.PartialSome(cs, w.st, w.h, idx, chunkOff, data);
      SameWrite(cs, w.st, id, idea, w.h, idx, chunkOff, data);
      V.PartialSize(cs, w.st.value, id, idea, idx, chunkOff, data);
      ByteInSpan(off, |data|, off);
      ByteInSpan(off, |data|, off + |data| - 1);
      V.MarkedUnit(cs, w.st.value, id, idea, idx, chunkOff, data, SubOf(off));
      V.MarkedUnit(cs, w.st.value, id, idea, idx, chunkOff, data, SubOf(off + |data| - 1));
      EdgeEnds(cs, w.st.value, |w.h|, off, |data|);
    }
  }

  /** How far a check of an unsafe edge reads. */
  lemma EdgeEnds(cs: nat, e: Entry, len: nat, off: nat, n: nat)
    requires cs > 0 && n > 0
    ensures SubOf(off) <= SubOf(off + n - 1)
    ensures forall u: nat :: u < SubOf(off + n - 1) ==> u * SUB + V.UnitLen(Max(len, off + n), u) <= off + n
    ensures V.EdgesChecked(cs, e, len, off, n) ==>
              forall u: nat :: u in UnsafeEdges(cs, e, len, off, n) && u == SubOf(off + n - 1) ==>
                u * SUB + V.UnitLen(Max(len, off + n), u) <= Max(e.cur, off + n)
  {
    hide Present;
  }

  /** After all the pieces: only the first and the last touched sub-block can have come under doubt, and a
      first one before the last is always backed far enough to be checked. */
  lemma {:induction false} PiecesPend(cs: nat, hash: V.Hasher, id: FileVersion, w: World, off: nat, data: seq<Byte>)
    requires IsChunkSize(cs) && id.writable && Trusted(cs, w) && data != []
    ensures Legal(cs, hash, id, w, Pieces(cs, off, data)) && !RunCollides(cs, hash, id, w, Pieces(cs, off, data))
    ensures var w' := Exec(cs, hash, id, w, Pieces(cs, off, data));
            && Trusted(cs, w') && w'.h == WriteAt(w.h, off, data)
            && Pending(w', w.doubt, SubOf(off), SubOf(off + |data| - 1), LastChecked(cs, hash, id, w, off, data))
            && Grown(w.st, w'.st)
    decreases |data|
  {
    hide Trusted, Pending, Next, Legal, Exec, RunCollides, SubOf, WriteAt, Piece, PieceLen, Grown, V.Checked, Start;
    var op, n := Piece(cs, off, data), PieceLen(cs, off, data);
    PieceIs(cs, w.h, off, data);
    var w1 := Next(cs, hash, id, w, Do(op));
    PiecePends(cs, hash, id, w, op.idx, op.chunkOff, op.w);
    NextTrusted(cs, hash, id, w, Do(op));
    PieceGrows(cs, hash, id, w, op.idx, op.chunkOff, op.w);
    FirstStep(cs, hash, id, w, Do(op), Pieces(cs, off + n, data[n..]));
    if n == |data| {
      assert data[..n] == data && data[n..] == [];
      NoSteps(cs, hash, id, w1);
    } else {
      PiecesPend(cs, hash, id, w1, off + n, data[n..]);
      WriteInTwo(w.h, off, data, n);
      var w' := Exec(cs, hash, id, w1, Pieces(cs, off + n, data[n..]));
      GrownTwice(w.st, w1.st, w'.st);
      PendWeaker(w1, w.doubt, SubOf(off), SubOf(off + n - 1), V.Checked(cs, w.st, w.h, op));
      PendTogether(w, w1, w', off, n, |data|, LastChecked(cs, hash, id, w1, off + n, data[n..]));
    }
  }

  lemma PendWeaker(w: World, before: set<nat>, s: nat, last: nat, checked: bool)
    requires Pending(w, before, s, last, checked)
    ensures Pending(w, before, s, last, false)
  {
    hide V.UnitLen;
  }

  /** Marks are added and the recorded size does not fall. */
  ghost predicate Grown(st: State, st': State) {
    st.Some? ==> st'.Some? && st.value.subs <= st'.value.subs && st.value.cur <= st'.value.cur
  }

  lemma GrownTwice(a: State, b: State, c: State)
    requires Grown(a, b) && Grown(b, c)
    ensures Grown(a, c)
  {
  }

  lemma PieceGrows(cs: nat, hash: V.Hasher, id: FileVersion, w: World, idx: nat, chunkOff: nat, data: seq<Byte>)
    requires cs > 0 && WellPosed(cs, w.h, Write(idx, chunkOff, data))
    ensures Grown(w.st, Next(cs, hash, id, w, Do(Write(idx, chunkOff, data))).st)
  {
    hide C.Apply, NextDoubt;
    if w.st.Some? { WriteGrows(cs, w.st, id, w.h, idx, chunkOff, data); }
  }

  /** The doubt of the first piece and of the others. */
  lemma PendTogether(w: World, w1: World, w': World, off: nat, n: nat, len: nat, checked: bool)
    requires 0 < n < len && (off + n) % SUB == 0 && Grown(w1.st, w'.st)
    requires Pending(w1, w.doubt, SubOf(off), SubOf(off + n - 1), false) && w1.doubt <= w.doubt + {SubOf(off)}
    requires w1.doubt != w.doubt ==> w1.st.Some? && off + n <= w1.st.value.cur
    requires Pending(w', w1.doubt, SubOf(off + n), SubOf(off + len - 1), checked)
    ensures Pending(w', w.doubt, SubOf(off), SubOf(off + len - 1), checked)
  {
    BeforeBoundary(off, n, len);
    hide SubOf;
  }

  lemma BeforeBoundary(off: nat, n: nat, len: nat)
    requires 0 < n < len && (off + n) % SUB == 0
    ensures SubOf(off) < SubOf(off + n) <= SubOf(off + len - 1)
    ensures forall len': nat :: SubOf(off) * SUB + V.UnitLen(len', SubOf(off)) <= off + n
  {
  }

  /** A write over any number of chunks, checked after all its pieces: up to collisions it brings nothing under
      doubt but its last sub-block, and not that one either when the check covers its edges. */
  lemma SpanSettles(cs: nat, hash: V.Hasher, id: FileVersion, w: World, off: nat, data: seq<Byte>)
    requires IsChunkSize(cs) && id.writable && Trusted(cs, w) && data != []
    ensures var (first, last) := (SubOf(off), SubOf(off + |data| - 1));
            var steps := Pieces(cs, off, data) + Checks(first, last);
            && Legal(cs, hash, id, w, steps)
            && (RunCollides(cs, hash, id, w, steps) ||
                var w' := Exec(cs, hash, id, w, steps);
                && Trusted(cs, w') && w'.h == WriteAt(w.h, off, data)
                && w'.doubt - w.doubt <= (if LastChecked(cs, hash, id, w, off, data) then {} else {last}))
  {
    hide Trusted, Pending, Legal, Exec, RunCollides, SubOf, WriteAt, LastChecked, Pieces, Checks;
    var first, last, checked := SubOf(off), SubOf(off + |data| - 1), LastChecked(cs, hash, id, w, off, data);
    PiecesPend(cs, hash, id, w, off, data);
    var mid := Exec(cs, hash, id, w, Pieces(cs, off, data));
    SpanBounds(off, |data|);
    ChecksSettle(cs, hash, id, mid, w.doubt, first, last, checked);
    ExecConcat(cs, hash, id, w, Pieces(cs, off, data), Checks(first, last));
    var w' := Exec(cs, hash, id, mid, Checks(first, last));
    if !RunCollides(cs, hash, id, mid, Checks(first, last)) {
      AllSettled(w', w.doubt, last, checked);
    }
  }

  lemma SpanBounds(off: nat, n: nat)
    requires n > 0
    ensures SubOf(off) <= SubOf(off + n - 1) && SubOf(off + n - 1) * SUB < off + n
  {
  }

  lemma AllSettled(w: World, before: set<nat>, last: nat, checked: bool)
    requires Pending(w, before, last + 1, last, checked)
    ensures w.doubt - before <= if checked then {} else {last}
  {
    hide V.UnitLen;
  }

  // ---- a batch at fsync ---------------------------------------------------------------------

  /** The sub-block is in the file, marked and backed to its end. */
  ghost predicate Backed(w: World, u: nat) {
    u * SUB < |w.h| && w.st.Some? && u in w.st.value.subs && u * SUB + V.UnitLen(|w.h|, u) <= w.st.value.cur
  }

  /** The doubts that checking units leaves: those it does not name, and those not backed. */
  ghost function Unsettled(w: World, units: seq<nat>): set<nat> {
    set u | u in w.doubt && !(u in units && Backed(w, u))
  }

  function ChecksOf(units: seq<nat>): seq<Step> {
    if units == [] then [] else [Check(units[0])] + ChecksOf(units[1..])
  }

  lemma CheckLeaves(cs: nat, hash: V.Hasher, id: FileVersion, w: World, s: nat, u: nat)
    requires IsChunkSize(cs) && Trusted(cs, w) && s * SUB < |w.h| && u in Next(cs, hash, id, w, Check(s)).doubt
    ensures u in w.doubt && (Backed(w, u) ==> u != s && Backed(Next(cs, hash, id, w, Check(s)), u))
  {
    hide Trusted, V.UnitOf, V.Theirs, SubsOf, ChunkOfUnit, V.UnitLen;
    UnitInItsChunk(cs, s);
    if u == s && Backed(w, s) { UnitReady(cs, w, s); }
  }

  /** FSync: checking sub-blocks in any order clears every doubt among them that is backed, or a collision has
      happened. */
  lemma {:induction false} BatchSettles(cs: nat, hash: V.Hasher, id: FileVersion, w: World, units: seq<nat>)
    requires IsChunkSize(cs) && id.writable && Trusted(cs, w) && forall u :: u in units ==> u * SUB < |w.h|
    ensures Legal(cs, hash, id, w, ChecksOf(units))
    ensures var w' := Exec(cs, hash, id, w, ChecksOf(units));
            || RunCollides(cs, hash, id, w, ChecksOf(units))
            || (Trusted(cs, w') && w'.h == w.h && w'.doubt <= Unsettled(w, units))
    decreases |units|
  {
    hide Trusted, Backed, Next, Collides, Legal, Exec, RunCollides;
    if units == [] {
      NoSteps(cs, hash, id, w);
    } else {
      var s := units[0];
      assert s in units && units == [s] + units[1..];
      assert forall u :: u in units[1..] ==> u in units;
      var w1 := Next(cs, hash, id, w, Check(s));
      SameHost(cs, hash, id, w, s);
      FirstStep(cs, hash, id, w, Check(s), ChecksOf(units[1..]));
      forall u | u in Unsettled(w1, units[1..]) ensures u in Unsettled(w, units) {
        CheckLeaves(cs, hash, id, w, s, u);
      }
      if Collides(cs, hash, w.st, w.h, Check(s)) {
        BatchLegal(cs, hash, id, w1, units[1..]);
      } else {
        NextTrusted(cs, hash, id, w, Check(s));
        BatchSettles(cs, hash, id, w1, units[1..]);
      }
    }
  }

  lemma {:induction false} BatchLegal(cs: nat, hash: V.Hasher, id: FileVersion, w: World, units: seq<nat>)
    requires cs > 0 && forall u :: u in units ==> u * SUB < |w.h|
    ensures Legal(cs, hash, id, w, ChecksOf(units))
    decreases |units|
  {
    hide Next, Legal;
    if units == [] {
      NoSteps(cs, hash, id, w);
    } else {
      assert units[0] in units && forall u :: u in units[1..] ==> u in units;
      SameHost(cs, hash, id, w, units[0]);
      BatchLegal(cs, hash, id, Next(cs, hash, id, w, Check(units[0])), units[1..]);
      FirstStep(cs, hash, id, w, Check(units[0]), ChecksOf(units[1..]));
    }
  }

  /** With no doubt left every read is true. */
  lemma NoDoubtReadsTrue(cs: nat, w: World)
    requires IsChunkSize(cs) && Trusted(cs, w) && w.doubt == {}
    ensures C.ReadsTrue(cs, w.st, w.h)
  {
    hide C.CoherentEntry, C.ReadsTrue;
    var idea: seq<Byte> :| Believes(cs, w.st, idea, w.h, w.doubt);
    SameBytes(idea, w.h);
    C.CoherentReadsTrue(cs, w.st, w.h);
  }
}
