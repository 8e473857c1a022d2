/** Crash safety of DiskStore's fills (pkg/blockcache/diskstore.go: putChunk, PutSub, loadOrFresh,
    writeData, writeIndex).

    A fill truncates, writes the bytes, syncs, writes a temporary index and renames it over the old
    one.  It may stop at any step, by an error or by a crash.  Until a sync, a crash may leave any
    byte-wise mix of every image the file has had since the last one.  The rename is atomic, but the
    directory is not synced, so a crash may bring back any earlier index, or none.
    In every reachable state, and after every crash, what the index says is present reads back
    whole, as the origin's bytes.
 */
module CrashSafety {
  import opened Bytes
  import opened Options
  import opened Bitmaps
  import DiskModel
  import opened Caller

  /** The parts of the sidecar index that presence depends on. */
  datatype Index = Index(cur: nat, chunks: set<nat>, subs: set<nat>)

  datatype Job =
    | Whole(idx: nat)                          // putChunk
    | Ranged(idx: nat, subOff: nat, n: nat)    // PutSub

  /** Where the process is inside a fill; `next` is the index it will write, before marking. */
  datatype Pc =
    | Idle
    | Removed(job: Job)
    | Ready(job: Job, next: Index)
    | Written(job: Job, next: Index)
    | Synced(job: Job, next: Index)
    | TempWritten(job: Job, next: Index)

  /** past: the images of the backing file since the last sync, oldest first, never empty.
      index: None when there is no index or only a stale one.
      older: the indexes renamed over since the last crash. */
  datatype State = State(past: seq<seq<Byte>>, index: Option<Index>, older: set<Index>, pc: Pc)

  datatype Step =
    | Begin(job: Job)
    | Truncate                  // the fresh entry gets its backing
    | WriteSome(m: seq<Byte>)   // part of the write has reached the file
    | WriteAll
    | Sync
    | WriteTemp
    | Rename
    | Fail                      // an error ends the fill
    | Crash(m: seq<Byte>, keep: Option<Index>)

  function Off(cs: nat, job: Job): nat {
    match job
    case Whole(idx) => Start(cs, idx)
    case Ranged(idx, subOff, _) => Start(cs, idx) + subOff
  }

  function Data(cs: nat, f: seq<Byte>, job: Job): seq<Byte> {
    match job
    case Whole(idx) => Origin(f, Start(cs, idx), cs)
    case Ranged(idx, subOff, n) => Origin(f, Start(cs, idx) + subOff, n)
  }

  /** The bytes to fill are inside the file, and aligned as the block protocol aligns them. */
  predicate WellPosedJob(cs: nat, f: seq<Byte>, job: Job) {
    match job
    case Whole(idx) => Start(cs, idx) < |f|
    case Ranged(idx, subOff, n) => WellPosed(cs, f, FillSub(idx, subOff, n)) && n > 0
  }

  ghost function Marked(cs: nat, x: Index, job: Job): Index {
    match job
    case Whole(idx) => x.(chunks := x.chunks + {idx}, subs := x.subs + DiskModel.SubsOf(cs, idx))
    case Ranged(idx, subOff, n) =>
      var span := SubSpan(Start(cs, idx) + subOff, n);
      x.(subs := x.subs + Range(span.0, span.1))
  }

  ghost predicate Present(cs: nat, x: Index, i: nat)
    requires cs > 0
  {
    DiskModel.Present(cs, DiskModel.Entry([], x.cur, 0, x.chunks, x.subs, []), i)
  }

  function Now(s: State): seq<Byte>
    requires s.past != []
  {
    s.past[|s.past| - 1]
  }

  /** The indexes that may be found on disk. */
  function Known(s: State): set<Index> {
    s.older + if s.index.Some? then {s.index.value} else {}
  }

  /** m is made of bytes of the given images, and its length lies between theirs. */
  ghost predicate Torn(images: seq<seq<Byte>>, m: seq<Byte>) {
    && (exists s :: s in images && |s| <= |m|)
    && (exists s :: s in images && |m| <= |s|)
    && forall i: nat :: i < |m| ==> ByteFrom(images, i, m[i])
  }

  ghost predicate ByteFrom(images: seq<seq<Byte>>, i: nat, b: Byte) {
    exists s :: s in images && At(s, i) == b
  }

  ghost predicate Enabled(cs: nat, f: seq<Byte>, s: State, step: Step)
    requires s.past != []
  {
    match step
    case Begin(job) => s.pc.Idle? && WellPosedJob(cs, f, job)
    case Truncate => s.pc.Removed?
    case WriteSome(m) => s.pc.Ready? && Torn([Now(s), WriteAt(Now(s), Off(cs, s.pc.job), Data(cs, f, s.pc.job))], m)
    case WriteAll => s.pc.Ready?
    case Sync => s.pc.Written?
    case WriteTemp => s.pc.Synced?
    case Rename => s.pc.TempWritten?
    case Fail => !s.pc.Idle?
    case Crash(m, keep) => Torn(s.past, m) && (keep.None? || keep.value in Known(s))
  }

  /** roSize is the id's size for a read-only entry, whose fresh backing is the whole file; 0 for a
      writable entry. */
  ghost function Next(cs: nat, f: seq<Byte>, roSize: nat, s: State, step: Step): State
    requires s.past != [] && Enabled(cs, f, s, step)
  {
    match step
    case Begin(job) =>
      var need := Off(cs, job) + |Data(cs, f, job)|;
      (match s.index
       case None => State(s.past + [[]], None, s.older, Removed(job))
       case Some(x) =>
         if x.cur < need
         then s.(past := s.past + [Resized(Now(s), need)], pc := Ready(job, x.(cur := need)))
         else s.(pc := Ready(job, x)))
    case Truncate =>
      var backing := Max(roSize, Off(cs, s.pc.job) + |Data(cs, f, s.pc.job)|);
      s.(past := s.past + [Zeros(backing)], pc := Ready(s.pc.job, Index(backing, {}, {})))
    case WriteSome(m) => s.(past := s.past + [m])
    case WriteAll =>
      s.(past := s.past + [WriteAt(Now(s), Off(cs, s.pc.job), Data(cs, f, s.pc.job))],
         pc := Written(s.pc.job, s.pc.next))
    case Sync => s.(past := [Now(s)], pc := Synced(s.pc.job, s.pc.next))
    case WriteTemp => s.(pc := TempWritten(s.pc.job, s.pc.next))
    case Rename => s.(index := Some(Marked(cs, s.pc.next, s.pc.job)), older := Known(s), pc := Idle)
    case Fail => s.(pc := Idle)
    case Crash(m, keep) => State([m], keep, {}, Idle)
  }

  ghost predicate Legal(cs: nat, f: seq<Byte>, roSize: nat, s: State, steps: seq<Step>)
    decreases |steps|
  {
    s.past != [] &&
    (steps == [] ||
     (Enabled(cs, f, s, steps[0]) && Legal(cs, f, roSize, Next(cs, f, roSize, s, steps[0]), steps[1..])))
  }

  ghost function Exec(cs: nat, f: seq<Byte>, roSize: nat, s: State, steps: seq<Step>): State
    requires Legal(cs, f, roSize, s, steps)
    decreases |steps|
  {
    if steps == [] then s else Exec(cs, f, roSize, Next(cs, f, roSize, s, steps[0]), steps[1..])
  }

  // ---- the invariant ------------------------------------------------------------------------

  /** The index is right about an image: it reaches the recorded size, and what is present there is
      the origin's. */
  ghost predicate Right(cs: nat, f: seq<Byte>, x: Index, image: seq<Byte>)
    requires cs > 0
  {
    && x.cur <= |image|
    && forall i: nat :: Present(cs, x, i) ==> At(image, i) == At(f, i)
  }

  /** Everything present lies below the recorded size, as far as the file has it. */
  ghost predicate Backed(cs: nat, f: seq<Byte>, x: Index)
    requires cs > 0
  {
    x.cur <= |f| && forall i: nat :: Present(cs, x, i) && i < |f| ==> i < x.cur
  }

  /** The index is right about every image the data file may turn out to be. */
  ghost predicate KnownOK(cs: nat, f: seq<Byte>, past: seq<seq<Byte>>, x: Index)
    requires cs > 0
  {
    Backed(cs, f, x) && forall image :: image in past ==> Right(cs, f, x, image)
  }

  ghost predicate ImagesOK(cs: nat, f: seq<Byte>, s: State)
    requires cs > 0
  {
    && s.past != []
    && (forall image :: image in s.past ==> |image| <= |f|)
    && (forall x :: x in Known(s) ==> KnownOK(cs, f, s.past, x))
    && (forall x :: x in s.older ==> s.index.Some? && x.cur <= s.index.value.cur)
  }

  /** The index a running fill will write agrees with the one on disk but for the size. */
  ghost predicate Pending(cs: nat, f: seq<Byte>, s: State, job: Job, next: Index)
    requires cs > 0 && s.past != []
  {
    && WellPosedJob(cs, f, job)
    && Off(cs, job) + |Data(cs, f, job)| <= next.cur <= |Now(s)|
    && (match s.index
        case None => next.chunks == {} && next.subs == {}
        case Some(x) => next.chunks == x.chunks && next.subs == x.subs && x.cur <= next.cur)
  }

  ghost predicate PcOK(cs: nat, f: seq<Byte>, s: State)
    requires cs > 0 && s.past != []
  {
    match s.pc
    case Idle => true
    case Removed(job) => WellPosedJob(cs, f, job) && s.index.None?
    case Ready(job, next) => Pending(cs, f, s, job, next)
    case Written(job, next) => Pending(cs, f, s, job, next) && Filled(cs, f, job, Now(s))
    case Synced(job, next) => Pending(cs, f, s, job, next) && Filled(cs, f, job, Now(s)) && |s.past| == 1
    case TempWritten(job, next) => Pending(cs, f, s, job, next) && Filled(cs, f, job, Now(s)) && |s.past| == 1
  }

  ghost predicate Filled(cs: nat, f: seq<Byte>, job: Job, image: seq<Byte>) {
    forall i: nat :: Off(cs, job) <= i < Off(cs, job) + |Data(cs, f, job)| ==> At(image, i) == At(f, i)
  }

  ghost predicate Inv(cs: nat, f: seq<Byte>, s: State)
    requires cs > 0
  {
    s.past != [] && ImagesOK(cs, f, s) && PcOK(cs, f, s)
  }

  // ---- every step keeps it ------------------------------------------------------------------

  lemma DataIs(cs: nat, f: seq<Byte>, job: Job)
    requires WellPosedJob(cs, f, job) && cs > 0
    ensures Data(cs, f, job) != []
    ensures Off(cs, job) + |Data(cs, f, job)| <= |f|
    ensures forall i: nat :: Off(cs, job) <= i < Off(cs, job) + |Data(cs, f, job)| ==>
              At(f, i) == Data(cs, f, job)[i - Off(cs, job)]
  {
    hide Start;
  }

  /** Writing the origin's bytes leaves every right image right. */
  lemma WriteKeepsRight(cs: nat, f: seq<Byte>, x: Index, image: seq<Byte>, job: Job)
    requires cs > 0 && WellPosedJob(cs, f, job) && |image| <= |f| && Right(cs, f, x, image)
    ensures var after := WriteAt(image, Off(cs, job), Data(cs, f, job));
            |image| <= |after| <= |f| && Right(cs, f, x, after) && Filled(cs, f, job, after)
  {
    hide Present, Off, Data, WriteAt;
    DataIs(cs, f, job);
  }

  lemma TornKeepsRight(cs: nat, f: seq<Byte>, x: Index, images: seq<seq<Byte>>, m: seq<Byte>)
    requires cs > 0 && Torn(images, m)
    requires forall image :: image in images ==> |image| <= |f| && Right(cs, f, x, image)
    requires Backed(cs, f, x)
    ensures |m| <= |f| && Right(cs, f, x, m)
  {
    hide Present;
    forall i: nat | Present(cs, x, i) ensures At(m, i) == At(f, i) {
      if i < |m| {
        assert ByteFrom(images, i, m[i]);
        var image :| image in images && At(image, i) == m[i];
        assert Right(cs, f, x, image);
      }
    }
  }

  lemma TornShorter(images: seq<seq<Byte>>, m: seq<Byte>, bound: nat)
    requires Torn(images, m) && forall image :: image in images ==> |image| <= bound
    ensures |m| <= bound
  {
  }

  /** A byte marked by the fill is covered by it, or past the end of the file. */
  lemma MarkedPresence(cs: nat, f: seq<Byte>, x: Index, job: Job, i: nat)
    requires IsChunkSize(cs) && WellPosedJob(cs, f, job)
    requires Present(cs, Marked(cs, x, job), i) && !Present(cs, x, i)
    ensures Off(cs, job) <= i
    ensures i < Off(cs, job) + |Data(cs, f, job)| || i >= |f|
  {
    hide Start, ChunkOf, SubOf, FirstSub, LastSub, SubSpan, InSpan;
    match job
    case Whole(idx) =>
      ChunkSubs(cs, idx, i);
      ChunkOfByte(cs, i, idx);
    case Ranged(idx, subOff, n) =>
      StartAligned(cs, idx);
      RangeIsSpan(Start(cs, idx) + subOff, n, SubOf(i));
      AlignedSpan(Start(cs, idx) + subOff, n, i);
  }

  lemma RangeIsSpan(off: nat, n: nat, s: nat)
    ensures s in Range(SubSpan(off, n).0, SubSpan(off, n).1) <==> InSpan(off, n, s)
  {
  }

  lemma MarkKeepsRight(cs: nat, f: seq<Byte>, x: Index, job: Job, image: seq<Byte>)
    requires IsChunkSize(cs) && WellPosedJob(cs, f, job) && |image| <= |f|
    requires Right(cs, f, x, image) && Backed(cs, f, x) && Filled(cs, f, job, image)
    requires Off(cs, job) + |Data(cs, f, job)| <= x.cur
    ensures Right(cs, f, Marked(cs, x, job), image) && Backed(cs, f, Marked(cs, x, job))
  {
    hide Present, Off, Data;
    var r := Marked(cs, x, job);
    assert r.cur == x.cur;
    forall i: nat | Present(cs, r, i)
      ensures At(image, i) == At(f, i) && (i < |f| ==> i < x.cur)
    {
      if !Present(cs, x, i) { MarkedPresence(cs, f, x, job, i); }
    }
  }

  /** Presence and the bytes below the old size survive a change of size. */
  lemma SameBits(cs: nat, f: seq<Byte>, x: Index, y: Index, image: seq<Byte>)
    requires cs > 0 && Right(cs, f, x, image) && Backed(cs, f, x)
    requires y.chunks == x.chunks && y.subs == x.subs && x.cur <= y.cur <= |image| <= |f|
    ensures Right(cs, f, y, image) && Backed(cs, f, y)
  {
    hide ChunkOf, SubOf;
    assert forall i: nat :: Present(cs, y, i) <==> Present(cs, x, i);
  }

  /** One more image, about which every known index is right. */
  lemma AddImage(cs: nat, f: seq<Byte>, s: State, image: seq<Byte>, s': State)
    requires cs > 0 && ImagesOK(cs, f, s) && |image| <= |f|
    requires forall x :: x in Known(s) ==> Right(cs, f, x, image)
    requires s'.past == s.past + [image] && s'.index == s.index && s'.older == s.older
    ensures ImagesOK(cs, f, s')
  {
    hide Right, Backed;
    assert forall i :: i in s'.past ==> i in s.past || i == image;
    forall x | x in Known(s') ensures KnownOK(cs, f, s'.past, x) {
      assert KnownOK(cs, f, s.past, x);
    }
  }

  lemma KnownIsRight(cs: nat, f: seq<Byte>, s: State, x: Index)
    requires cs > 0 && ImagesOK(cs, f, s) && x in Known(s)
    ensures Right(cs, f, x, Now(s)) && Backed(cs, f, x)
    ensures s.index.Some? && x.cur <= s.index.value.cur
  {
    hide Right, Backed;
    assert KnownOK(cs, f, s.past, x) && Now(s) in s.past;
  }

  /** Growing the file, or cutting zeros off it, leaves a right image right. */
  lemma ResizeKeepsRight(cs: nat, f: seq<Byte>, x: Index, image: seq<Byte>, need: nat)
    requires cs > 0 && Right(cs, f, x, image) && Backed(cs, f, x) && x.cur <= need <= |f|
    ensures Right(cs, f, x, Resized(image, need))
  {
    hide Present, Resized;
    forall i: nat | Present(cs, x, i) ensures At(Resized(image, need), i) == At(f, i) {
      assert At(image, i) == At(f, i);
    }
  }

  lemma BeginKeeps(cs: nat, f: seq<Byte>, s: State, job: Job)
    requires cs > 0 && Inv(cs, f, s) && s.pc.Idle? && WellPosedJob(cs, f, job)
    ensures Inv(cs, f, Next(cs, f, 0, s, Begin(job)))
  {
    hide Off, Data, WellPosedJob, Right, Backed, Resized, ImagesOK;
    DataIs(cs, f, job);
    var need := Off(cs, job) + |Data(cs, f, job)|;
    var s' := Next(cs, f, 0, s, Begin(job));
    if s.index.None? {
      NoneKnown(cs, f, s);
      AddImage(cs, f, s, [], s');
    } else if s.index.value.cur < need {
      forall x | x in Known(s) ensures Right(cs, f, x, Resized(Now(s), need)) {
        KnownIsRight(cs, f, s, x);
        ResizeKeepsRight(cs, f, x, Now(s), need);
      }
      AddImage(cs, f, s, Resized(Now(s), need), s');
    } else {
      SamePast(cs, f, s, s');
      KnownIsRight(cs, f, s, s.index.value);
      RightReaches(cs, f, s.index.value, Now(s));
    }
  }

  lemma RightReaches(cs: nat, f: seq<Byte>, x: Index, image: seq<Byte>)
    requires cs > 0 && Right(cs, f, x, image)
    ensures x.cur <= |image|
  {
  }

  lemma NoneKnown(cs: nat, f: seq<Byte>, s: State)
    requires cs > 0 && ImagesOK(cs, f, s) && s.index.None?
    ensures Known(s) == {}
  {
    hide KnownOK;
    assert s.older == {};
  }

  /** Steps that touch neither the data file nor the index. */
  lemma SamePast(cs: nat, f: seq<Byte>, s: State, s': State)
    requires cs > 0 && ImagesOK(cs, f, s)
    requires s'.past == s.past && s'.index == s.index && s'.older == s.older
    ensures ImagesOK(cs, f, s')
  {
  }

  lemma WriteKeeps(cs: nat, f: seq<Byte>, s: State)
    requires cs > 0 && Inv(cs, f, s) && s.pc.Ready?
    ensures Inv(cs, f, Next(cs, f, 0, s, WriteAll))
  {
    hide Off, Data, WellPosedJob, Right, Filled, Backed, WriteAt, ImagesOK;
    LastInBounds(cs, f, s);
    var after := WriteAt(Now(s), Off(cs, s.pc.job), Data(cs, f, s.pc.job));
    EmptyRight(cs, f, Now(s));
    WriteKeepsRight(cs, f, Index(0, {}, {}), Now(s), s.pc.job);
    forall x | x in Known(s) ensures Right(cs, f, x, after) {
      KnownIsRight(cs, f, s, x);
      WriteKeepsRight(cs, f, x, Now(s), s.pc.job);
    }
    AddImage(cs, f, s, after, Next(cs, f, 0, s, WriteAll));
  }

  lemma LastInBounds(cs: nat, f: seq<Byte>, s: State)
    requires cs > 0 && ImagesOK(cs, f, s)
    ensures |Now(s)| <= |f|
  {
    hide KnownOK;
    assert Now(s) in s.past;
  }

  lemma EmptyRight(cs: nat, f: seq<Byte>, image: seq<Byte>)
    requires cs > 0
    ensures Right(cs, f, Index(0, {}, {}), image) && Backed(cs, f, Index(0, {}, {}))
  {
  }

  lemma WriteSomeKeeps(cs: nat, f: seq<Byte>, s: State, m: seq<Byte>)
    requires cs > 0 && Inv(cs, f, s) && Enabled(cs, f, s, WriteSome(m))
    ensures Inv(cs, f, Next(cs, f, 0, s, WriteSome(m)))
  {
    hide Off, Data, WellPosedJob, Right, Filled, Backed, WriteAt, Torn, ImagesOK;
    LastInBounds(cs, f, s);
    var after := WriteAt(Now(s), Off(cs, s.pc.job), Data(cs, f, s.pc.job));
    EmptyRight(cs, f, Now(s));
    WriteKeepsRight(cs, f, Index(0, {}, {}), Now(s), s.pc.job);
    TornShorter([Now(s), after], m, |f|);
    TornLonger([Now(s), after], m, |Now(s)|);
    forall x | x in Known(s) ensures Right(cs, f, x, m) {
      KnownIsRight(cs, f, s, x);
      WriteKeepsRight(cs, f, x, Now(s), s.pc.job);
      TornKeepsRight(cs, f, x, [Now(s), after], m);
    }
    AddImage(cs, f, s, m, Next(cs, f, 0, s, WriteSome(m)));
  }

  lemma TornLonger(images: seq<seq<Byte>>, m: seq<Byte>, bound: nat)
    requires Torn(images, m) && forall image :: image in images ==> bound <= |image|
    ensures bound <= |m|
  {
  }

  /** Whatever mix of images and whichever known index a crash leaves, they agree. */
  lemma CrashKeeps(cs: nat, f: seq<Byte>, s: State, m: seq<Byte>, keep: Option<Index>)
    requires cs > 0 && Inv(cs, f, s) && Enabled(cs, f, s, Crash(m, keep))
    ensures Inv(cs, f, Next(cs, f, 0, s, Crash(m, keep)))
  {
    hide Right, Backed, Torn;
    TornShorter(s.past, m, |f|);
    if keep.Some? {
      assert KnownOK(cs, f, s.past, keep.value);
      TornKeepsRight(cs, f, keep.value, s.past, m);
      assert KnownOK(cs, f, [m], keep.value);
    }
  }

  lemma RenameKeeps(cs: nat, f: seq<Byte>, s: State)
    requires IsChunkSize(cs) && Inv(cs, f, s) && s.pc.TempWritten?
    ensures Inv(cs, f, Next(cs, f, 0, s, Rename))
  {
    hide Right, Backed, Filled, Marked, Off, Data, WellPosedJob;
    var image, job, next := Now(s), s.pc.job, s.pc.next;
    assert s.past == [image];
    var s' := Next(cs, f, 0, s, Rename);
    if s.index.Some? { KnownIsRight(cs, f, s, s.index.value); }
    var x := if s.index.Some? then s.index.value else Index(0, {}, {});
    EmptyRight(cs, f, image);
    SameBits(cs, f, x, next, image);
    MarkKeepsRight(cs, f, next, job, image);
    MarkedSize(cs, next, job);
    assert KnownOK(cs, f, s'.past, s'.index.value);
    forall y | y in s'.older ensures s'.index.Some? && y.cur <= s'.index.value.cur {
      KnownIsRight(cs, f, s, y);
    }
  }

  lemma MarkedSize(cs: nat, x: Index, job: Job)
    ensures Marked(cs, x, job).cur == x.cur
  {
  }

  lemma TruncateKeeps(cs: nat, f: seq<Byte>, roSize: nat, s: State)
    requires cs > 0 && Inv(cs, f, s) && s.pc.Removed? && roSize <= |f|
    ensures Inv(cs, f, Next(cs, f, roSize, s, Truncate))
  {
    hide Off, Data, WellPosedJob, Right, Backed, ImagesOK;
    DataIs(cs, f, s.pc.job);
    NoneKnown(cs, f, s);
    var backing := Max(roSize, Off(cs, s.pc.job) + |Data(cs, f, s.pc.job)|);
    AddImage(cs, f, s, Zeros(backing), Next(cs, f, roSize, s, Truncate));
  }

  lemma StepKeeps(cs: nat, f: seq<Byte>, roSize: nat, s: State, step: Step)
    requires IsChunkSize(cs) && roSize <= |f| && Inv(cs, f, s) && Enabled(cs, f, s, step)
    ensures Inv(cs, f, Next(cs, f, roSize, s, step))
  {
    hide ImagesOK, Pending, Filled, Marked, Torn, WriteAt, WellPosedJob;
    match step
    case Begin(job) => BeginKeeps(cs, f, s, job);
    case Truncate => TruncateKeeps(cs, f, roSize, s);
    case WriteSome(m) => WriteSomeKeeps(cs, f, s, m);
    case WriteAll => WriteKeeps(cs, f, s);
    case Sync => SyncKeeps(cs, f, s);
    case WriteTemp => WriteTempKeeps(cs, f, s);
    case Rename => RenameKeeps(cs, f, s);
    case Fail => FailKeeps(cs, f, s);
    case Crash(m, keep) => CrashKeeps(cs, f, s, m, keep);
  }

  lemma SyncKeeps(cs: nat, f: seq<Byte>, s: State)
    requires cs > 0 && Inv(cs, f, s) && s.pc.Written?
    ensures Inv(cs, f, Next(cs, f, 0, s, Sync))
  {
    hide Right, Backed, Filled, Off, Data, WellPosedJob;
    var s' := Next(cs, f, 0, s, Sync);
    assert s'.past == [Now(s)] && Now(s) in s.past;
    forall x | x in Known(s') ensures KnownOK(cs, f, s'.past, x) {
      assert KnownOK(cs, f, s.past, x);
    }
  }

  lemma WriteTempKeeps(cs: nat, f: seq<Byte>, s: State)
    requires cs > 0 && Inv(cs, f, s) && s.pc.Synced?
    ensures Inv(cs, f, Next(cs, f, 0, s, WriteTemp))
  {
    hide Right, Backed, Filled, Off, Data, WellPosedJob;
  }

  lemma FailKeeps(cs: nat, f: seq<Byte>, s: State)
    requires cs > 0 && Inv(cs, f, s) && !s.pc.Idle?
    ensures Inv(cs, f, Next(cs, f, 0, s, Fail))
  {
    hide Right, Backed;
  }

  lemma {:induction false} ExecKeeps(cs: nat, f: seq<Byte>, roSize: nat, s: State, steps: seq<Step>)
    requires IsChunkSize(cs) && roSize <= |f| && Inv(cs, f, s) && Legal(cs, f, roSize, s, steps)
    ensures Inv(cs, f, Exec(cs, f, roSize, s, steps))
    decreases |steps|
  {
    hide Inv, Enabled, Next;
    if steps != [] {
      StepKeeps(cs, f, roSize, s, steps[0]);
      ExecKeeps(cs, f, roSize, Next(cs, f, roSize, s, steps[0]), steps[1..]);
    }
  }

  // ---- what it means for a reader -----------------------------------------------------------

  /** No data file and no index. */
  const NOTHING := State([[]], None, {}, Idle)

  /** After any steps, crashes included, every range the index calls present is served whole and
      holds the origin's bytes. */
  lemma PresentReadsBack(cs: nat, f: seq<Byte>, roSize: nat, steps: seq<Step>, off: nat, n: nat)
    requires IsChunkSize(cs) && roSize <= |f| && Legal(cs, f, roSize, NOTHING, steps)
    ensures var s := Exec(cs, f, roSize, NOTHING, steps);
            && s.past != []
            && (s.index.Some? && off + n <= |f|
                && (forall i: nat :: off <= i < off + n ==> Present(cs, s.index.value, i)) ==>
                  DiskModel.ReadAt(Now(s), off, n) == Some(Origin(f, off, n)))
  {
    hide Present, Exec, Legal, Inv;
    assert Inv(cs, f, NOTHING) by { NothingOK(cs, f); }
    ExecKeeps(cs, f, roSize, NOTHING, steps);
    SoundReadsBack(cs, f, Exec(cs, f, roSize, NOTHING, steps), off, n);
  }

  lemma NothingOK(cs: nat, f: seq<Byte>)
    requires cs > 0
    ensures Inv(cs, f, NOTHING)
  {
  }

  lemma SoundReadsBack(cs: nat, f: seq<Byte>, s: State, off: nat, n: nat)
    requires cs > 0 && Inv(cs, f, s)
    ensures s.past != []
    ensures s.index.Some? && off + n <= |f|
            && (forall i: nat :: off <= i < off + n ==> Present(cs, s.index.value, i)) ==>
              DiskModel.ReadAt(Now(s), off, n) == Some(Origin(f, off, n))
  {
    hide Present;
    if s.index.Some? && 0 < n && off + n <= |f|
      && forall i: nat :: off <= i < off + n ==> Present(cs, s.index.value, i)
    {
      var x, image := s.index.value, Now(s);
      KnownIsRight(cs, f, s, x);
      assert Present(cs, x, off + n - 1);
      forall k | 0 <= k < n ensures At(image[off..off + n], k) == At(Origin(f, off, n), k) {
        assert Present(cs, x, off + k);
        assert At(image, off + k) == At(f, off + k);
      }
      SameBytes(image[off..off + n], Origin(f, off, n));
    }
  }

  // ---- what a fill has stored stays ---------------------------------------------------------

  /** Every crash among the steps finds the index it died with. */
  ghost predicate KeepsIndex(cs: nat, f: seq<Byte>, roSize: nat, s: State, steps: seq<Step>)
    requires Legal(cs, f, roSize, s, steps)
    decreases |steps|
  {
    steps == [] ||
    (&& (steps[0].Crash? ==> steps[0].keep == s.index)
     && KeepsIndex(cs, f, roSize, Next(cs, f, roSize, s, steps[0]), steps[1..]))
  }

  /** No other step, and no failure, takes anything away from the index. */
  lemma StepKeepsPresent(cs: nat, f: seq<Byte>, roSize: nat, s: State, step: Step, i: nat)
    requires cs > 0 && Inv(cs, f, s) && Enabled(cs, f, s, step) && (step.Crash? ==> step.keep == s.index)
    requires s.index.Some? && Present(cs, s.index.value, i)
    ensures var s' := Next(cs, f, roSize, s, step); s'.index.Some? && Present(cs, s'.index.value, i)
  {
    hide ImagesOK, Filled, Off, Data, WellPosedJob, SubOf, ChunkOf, DiskModel.SubsOf, SubSpan, Torn, WriteAt, Resized;
  }

  lemma {:induction false} StepsKeepPresent(cs: nat, f: seq<Byte>, roSize: nat, s: State, steps: seq<Step>, i: nat)
    requires IsChunkSize(cs) && roSize <= |f| && Inv(cs, f, s) && Legal(cs, f, roSize, s, steps)
    requires KeepsIndex(cs, f, roSize, s, steps) && s.index.Some? && Present(cs, s.index.value, i)
    ensures var s' := Exec(cs, f, roSize, s, steps); s'.index.Some? && Present(cs, s'.index.value, i)
    decreases |steps|
  {
    hide Inv, Enabled, Next, Present;
    if steps != [] {
      StepKeeps(cs, f, roSize, s, steps[0]);
      StepKeepsPresent(cs, f, roSize, s, steps[0], i);
      StepsKeepPresent(cs, f, roSize, Next(cs, f, roSize, s, steps[0]), steps[1..], i);
    }
  }

  /** The index that a fill leaves calls the fill's bytes present. */
  lemma RenamedIsPresent(cs: nat, f: seq<Byte>, x: Index, job: Job, i: nat)
    requires IsChunkSize(cs) && WellPosedJob(cs, f, job)
    requires Off(cs, job) <= i < Off(cs, job) + |Data(cs, f, job)|
    ensures Present(cs, Marked(cs, x, job), i)
  {
    hide Start, ChunkOf, SubOf, FirstSub, LastSub, SubSpan, InSpan;
    match job
    case Whole(idx) => ChunkOfByte(cs, i, idx);
    case Ranged(idx, subOff, n) =>
      ByteInSpan(Start(cs, idx) + subOff, n, i);
      RangeIsSpan(Start(cs, idx) + subOff, n, SubOf(i));
  }

  /** Once a fill has renamed its index, its bytes are served: through any later fills, finished or failed,
      and any crash that does not bring an earlier index back. */
  lemma FilledStaysServed(cs: nat, f: seq<Byte>, roSize: nat, before: seq<Step>, after: seq<Step>)
    requires IsChunkSize(cs) && roSize <= |f| && Legal(cs, f, roSize, NOTHING, before)
    requires var s := Exec(cs, f, roSize, NOTHING, before); s.past != [] && s.pc.TempWritten?
    requires var s := Next(cs, f, roSize, Exec(cs, f, roSize, NOTHING, before), Rename);
             Legal(cs, f, roSize, s, after) && KeepsIndex(cs, f, roSize, s, after)
    ensures var job := Exec(cs, f, roSize, NOTHING, before).pc.job;
            var s := Exec(cs, f, roSize, Next(cs, f, roSize, Exec(cs, f, roSize, NOTHING, before), Rename), after);
            && s.past != []
            && DiskModel.ReadAt(Now(s), Off(cs, job), |Data(cs, f, job)|) == Some(Data(cs, f, job))
  {
    hide Legal, Exec, KeepsIndex, Inv, Present, Marked, Off, Data, WellPosedJob;
    NothingOK(cs, f);
    ExecKeeps(cs, f, roSize, NOTHING, before);
    var s0 := Exec(cs, f, roSize, NOTHING, before);
    StepKeeps(cs, f, roSize, s0, Rename);
    var s1 := Next(cs, f, roSize, s0, Rename);
    var (job, off, n) := (s0.pc.job, Off(cs, s0.pc.job), |Data(cs, f, s0.pc.job)|);
    ExecKeeps(cs, f, roSize, s1, after);
    var s := Exec(cs, f, roSize, s1, after);
    JobWellPosed(cs, f, s0);
    DataIs(cs, f, job);
    RenamedIsPresent(cs, f, s0.pc.next, job, off);
    StepsKeepPresent(cs, f, roSize, s1, after, off);
    forall i: nat | off <= i < off + n ensures Present(cs, s.index.value, i) {
      RenamedIsPresent(cs, f, s0.pc.next, job, i);
      StepsKeepPresent(cs, f, roSize, s1, after, i);
    }
    SoundReadsBack(cs, f, s, off, n);
    DataIsOrigin(cs, f, job);
  }

  lemma JobWellPosed(cs: nat, f: seq<Byte>, s: State)
    requires cs > 0 && Inv(cs, f, s) && s.pc.TempWritten?
    ensures WellPosedJob(cs, f, s.pc.job)
  {
    hide ImagesOK, Filled;
  }

  lemma DataIsOrigin(cs: nat, f: seq<Byte>, job: Job)
    requires WellPosedJob(cs, f, job) && cs > 0
    ensures Data(cs, f, job) == Origin(f, Off(cs, job), |Data(cs, f, job)|)
  {
    hide Start;
  }

  // ---- the steps of an uninterrupted fill are DiskStore's fill ------------------------------

  /** The state a quiet entry is in. */
  ghost predicate Quiet(st: DiskModel.State, s: State) {
    && s.pc.Idle?
    && match st
       case None => s.past != [] && s.index.None?
       case Some(e) => s.past == [e.data] && s.index == Some(Index(e.cur, e.chunks, e.subs))
  }

  function Uninterrupted(st: DiskModel.State, job: Job): seq<Step> {
    if st.None? then [Begin(job), Truncate, WriteAll, Sync, WriteTemp, Rename]
    else [Begin(job), WriteAll, Sync, WriteTemp, Rename]
  }

  ghost function Filling(cs: nat, f: seq<Byte>, st: DiskModel.State, id: DiskModel.FileVersion,
                         job: Job): DiskModel.Entry
    requires cs > 0
  {
    match job
    case Whole(idx) => DiskModel.PutChunk(cs, st, id, idx, Data(cs, f, job), 0)
    case Ranged(idx, subOff, _) => DiskModel.PutSub(cs, st, id, idx, subOff, Data(cs, f, job))
  }

  /** DiskStore's fill, taken apart the way the steps are. */
  lemma FillParts(cs: nat, f: seq<Byte>, id: DiskModel.FileVersion, st: DiskModel.State, job: Job)
    requires cs > 0 && WellPosedJob(cs, f, job)
    ensures var e := DiskModel.Load(cs, st, id, Off(cs, job) + |Data(cs, f, job)|);
            var r := Filling(cs, f, st, id, job);
            && r.data == WriteAt(e.data, Off(cs, job), Data(cs, f, job))
            && Index(r.cur, r.chunks, r.subs) == Marked(cs, Index(e.cur, e.chunks, e.subs), job)
  {
    hide WriteAt, DiskModel.SubsOf, DiskModel.Load, Origin, Start, SubSpan, WellPosedJob;
    DataLength(cs, f, job);
  }

  lemma UninterruptedIsFill(cs: nat, f: seq<Byte>, id: DiskModel.FileVersion, st: DiskModel.State, s: State, job: Job)
    requires cs > 0 && Quiet(st, s) && WellPosedJob(cs, f, job)
    ensures var roSize := if id.writable then 0 else id.size;
            var steps := Uninterrupted(st, job);
            Legal(cs, f, roSize, s, steps) && Quiet(Some(Filling(cs, f, st, id, job)), Exec(cs, f, roSize, s, steps))
  {
    hide WellPosedJob, WriteAt, Origin, Start, Filling, Marked, Off, Data, Zeros, Resized;
    var roSize := if id.writable then 0 else id.size;
    var steps := Uninterrupted(st, job);
    FillParts(cs, f, id, st, job);
    var e := DiskModel.Load(cs, st, id, Off(cs, job) + |Data(cs, f, job)|);
    var s1 := Next(cs, f, roSize, s, Begin(job));
    if st.None? {
      var s2 := Next(cs, f, roSize, s1, Truncate);
      assert Now(s2) == e.data && s2.pc == Ready(job, Index(e.cur, e.chunks, e.subs));
      Tail(cs, f, roSize, s2);
      assert steps[1..] == [Truncate, WriteAll, Sync, WriteTemp, Rename];
      assert steps[1..][1..] == [WriteAll, Sync, WriteTemp, Rename];
    } else {
      assert Now(s1) == e.data && s1.pc == Ready(job, Index(e.cur, e.chunks, e.subs));
      Tail(cs, f, roSize, s1);
      assert steps[1..] == [WriteAll, Sync, WriteTemp, Rename];
    }
  }

  lemma DataLength(cs: nat, f: seq<Byte>, job: Job)
    requires WellPosedJob(cs, f, job) && cs > 0
    ensures job.Ranged? ==> |Data(cs, f, job)| == job.n
  {
  }

  lemma Tail(cs: nat, f: seq<Byte>, roSize: nat, s: State)
    requires s.past != [] && s.pc.Ready?
    ensures var steps := [WriteAll, Sync, WriteTemp, Rename];
            && Legal(cs, f, roSize, s, steps)
            && Exec(cs, f, roSize, s, steps) ==
                 State([WriteAt(Now(s), Off(cs, s.pc.job), Data(cs, f, s.pc.job))],
                       Some(Marked(cs, s.pc.next, s.pc.job)), Known(s), Idle)
  {
    hide WriteAt, Marked;
    var a := Next(cs, f, roSize, s, WriteAll);
    var b := Next(cs, f, roSize, a, Sync);
    var c := Next(cs, f, roSize, b, WriteTemp);
    var d := Next(cs, f, roSize, c, Rename);
    var steps := [WriteAll, Sync, WriteTemp, Rename];
    assert steps[1..] == [Sync, WriteTemp, Rename];
    assert steps[1..][1..] == [WriteTemp, Rename];
    assert [WriteTemp, Rename][1..] == [Rename];
    assert [Rename][1..] == [];
    assert Legal(cs, f, roSize, c, [Rename]) && Exec(cs, f, roSize, c, [Rename]) == d;
    assert Legal(cs, f, roSize, b, [WriteTemp, Rename]) && Exec(cs, f, roSize, b, [WriteTemp, Rename]) == d;
    assert Legal(cs, f, roSize, a, [Sync, WriteTemp, Rename]) && Exec(cs, f, roSize, a, [Sync, WriteTemp, Rename]) == d;
  }
}
