/** Write-ahead records of 9P mounts (pkg/caretaker/caretaker.go: runMountStream; pkg/activity/activity.go:
    Recorder.Begin, Activity.End and write).

    Each mount goroutine writes and syncs a begin record, mounts, serves until told to stop, unmounts
    and writes the end record.  Many run at once among other, unsynced records, and the process may
    die between any two steps, losing any unsynced tail of the log while mounts outlive it.  Writes,
    syncs and unmounts may fail, and the code carries on regardless.
 */
module MountRecords {

  type Id = nat   // an activity id; one mount each

  datatype Record = Begin(id: Id) | End(id: Id) | Other

  datatype Pc =
    | Writing       // about to append the begin record
    | Syncing       // appended, not yet synced
    | Mounting      // rec.Begin has returned
    | Failed        // the mount syscall failed; about to write the end
    | Serving       // mount live until the context ends
    | Unmounted     // Unmount9P has returned; about to write the end
    | Finished

  /** synced: how many records are certainly on disk.  mounts: kernel mounts that exist.
      missing: ids whose begin failed to be written, or was lost in a crash.  unsynced: ids whose begin
      was written but no sync has succeeded since.  stuck: ids whose unmount failed. */
  datatype State = State(
    log: seq<Record>,
    synced: nat,
    mounts: set<Id>,
    threads: map<Id, Pc>,
    missing: set<Id>,
    unsynced: set<Id>,
    stuck: set<Id>,
    used: set<Id>)

  datatype Step =
    | Spawn(id: Id)
    | Append(id: Id, ok: bool)
    | Sync(id: Id, ok: bool)
    | Mount(id: Id, ok: bool)
    | EndFailed(id: Id, ok: bool)
    | Unmount(id: Id, gone: bool)
    | EndServed(id: Id, ok: bool)
    | Elsewhere                     // another goroutine appends a record of its own, unsynced
    | Crash(kept: nat)              // the process dies; the log keeps at least what was synced

  predicate At(s: State, id: Id, pc: Pc) {
    id in s.threads && s.threads[id] == pc
  }

  predicate Enabled(s: State, step: Step) {
    match step
    case Spawn(id) => id !in s.used
    case Append(id, _) => At(s, id, Writing)
    case Sync(id, _) => At(s, id, Syncing)
    case Mount(id, _) => At(s, id, Mounting)
    case EndFailed(id, _) => At(s, id, Failed)
    case Unmount(id, _) => At(s, id, Serving)
    case EndServed(id, _) => At(s, id, Unmounted)
    case Elsewhere => true
    case Crash(kept) => s.synced <= kept <= |s.log|
  }

  function Move(s: State, id: Id, pc: Pc): State {
    s.(threads := s.threads[id := pc])
  }

  function Appended(s: State, r: Record, ok: bool): State {
    if ok then s.(log := s.log + [r]) else s
  }

  function Next(s: State, step: Step): State
    requires Enabled(s, step)
  {
    match step
    case Spawn(id) => Move(s, id, Writing).(used := s.used + {id})
    case Append(id, ok) =>
      var t := Move(Appended(s, Begin(id), ok), id, if ok then Syncing else Mounting);
      if ok then t.(unsynced := s.unsynced + {id}) else t.(missing := s.missing + {id})
    case Sync(id, ok) =>
      var t := Move(s, id, Mounting);
      if ok then t.(synced := |s.log|, unsynced := {}) else t
    case Mount(id, ok) =>
      if ok then Move(s, id, Serving).(mounts := s.mounts + {id}) else Move(s, id, Failed)
    case EndFailed(id, ok) => Move(Appended(s, End(id), ok), id, Finished)
    case Unmount(id, gone) =>
      var t := Move(s, id, Unmounted);
      if gone then t.(mounts := s.mounts - {id}) else t.(stuck := s.stuck + {id})
    case EndServed(id, ok) => Move(Appended(s, End(id), ok), id, Finished)
    case Elsewhere => s.(log := s.log + [Other])
    case Crash(kept) =>
      var lost := set id | id in s.unsynced && Begin(id) !in s.log[..kept];
      s.(log := s.log[..kept], threads := map[], missing := s.missing + lost, unsynced := s.unsynced - lost)
  }

  // ---- the invariant ------------------------------------------------------------------------

  predicate HasEnd(s: State, id: Id) {
    End(id) in s.log
  }

  predicate DurableBegin(s: State, id: Id) {
    s.synced <= |s.log| && Begin(id) in s.log[..s.synced]
  }

  /** Where the begin of an id is: nowhere, in the log, or certainly on disk. */
  predicate RecordOK(s: State, id: Id) {
    if id in s.missing then id !in s.unsynced && Begin(id) !in s.log
    else if id in s.unsynced then Begin(id) in s.log && !DurableBegin(s, id)
    else DurableBegin(s, id)
  }

  /** The begin of a running mount is settled once Begin has returned. */
  predicate ThreadOK(s: State, id: Id)
    requires id in s.threads
  {
    && id in s.used
    && match s.threads[id]
       case Writing =>
         !HasEnd(s, id) && id !in s.mounts && Begin(id) !in s.log && id !in s.missing && id !in s.unsynced
       case Syncing => !HasEnd(s, id) && id !in s.mounts && RecordOK(s, id)
       case Mounting => !HasEnd(s, id) && id !in s.mounts && RecordOK(s, id)
       case Failed => id !in s.mounts
       case Serving => !HasEnd(s, id) && RecordOK(s, id)
       case Unmounted => id in s.mounts ==> id in s.stuck
       case Finished => id in s.mounts ==> id in s.stuck
  }

  /** The begin of a mount that exists is where the sets say, and it has no end unless its unmount failed. */
  predicate MountOK(s: State, id: Id) {
    id in s.used && RecordOK(s, id) && (id in s.stuck || !HasEnd(s, id))
  }

  ghost predicate Inv(s: State) {
    && s.synced <= |s.log|
    && (forall id :: id in s.threads ==> ThreadOK(s, id))
    && (forall id :: id in s.mounts ==> MountOK(s, id))
    && (forall id :: Begin(id) in s.log || End(id) in s.log ==> id in s.used)
    && s.missing <= s.used && s.unsynced <= s.used
  }

  /** Appending a record that is not its own leaves an id's records alone. */
  lemma AppendOther(s: State, r: Record, id: Id)
    requires s.synced <= |s.log| && r != Begin(id)
    ensures var t := s.(log := s.log + [r]);
            && (RecordOK(s, id) ==> RecordOK(t, id))
            && (Begin(id) in t.log <==> Begin(id) in s.log)
            && (HasEnd(t, id) <==> HasEnd(s, id) || r == End(id))
  {
    assert (s.log + [r])[..s.synced] == s.log[..s.synced];
  }

  /** RecordOK looks at the log and the two sets only. */
  lemma SameRecord(s: State, t: State, id: Id)
    requires t.log == s.log && t.synced == s.synced && RecordOK(s, id)
    requires (id in t.missing <==> id in s.missing) && (id in t.unsynced <==> id in s.unsynced)
    ensures RecordOK(t, id)
  {
  }

  lemma AppendBegin(s: State, id: Id)
    requires Inv(s) && At(s, id, Writing)
    ensures Inv(Next(s, Append(id, true)))
  {
    hide RecordOK;
    var u := s.(log := s.log + [Begin(id)]);
    var t := Next(s, Append(id, true));
    assert ThreadOK(s, id);
    NewBegin(s, id, t);
    forall j | j in t.threads ensures ThreadOK(t, j) {
      if j != id {
        assert ThreadOK(s, j);
        AppendOther(s, Begin(id), j);
        if RecordOK(u, j) { SameRecord(u, t, j); }
      }
    }
    forall j | j in t.mounts ensures MountOK(t, j) {
      assert MountOK(s, j) && j != id;
      AppendOther(s, Begin(id), j);
      SameRecord(u, t, j);
    }
  }

  lemma NewBegin(s: State, id: Id, t: State)
    requires s.synced <= |s.log| && Begin(id) !in s.log && id !in s.missing
    requires t.log == s.log + [Begin(id)] && t.synced == s.synced && t.missing == s.missing && id in t.unsynced
    ensures RecordOK(t, id) && (HasEnd(t, id) <==> HasEnd(s, id))
  {
    assert t.log[..t.synced] == s.log[..s.synced];
    assert Begin(id) == t.log[|s.log|];
  }

  lemma AppendEnd(s: State, id: Id)
    requires Inv(s) && (At(s, id, Failed) || At(s, id, Unmounted))
    ensures Inv(Move(s.(log := s.log + [End(id)]), id, Finished))
  {
    hide RecordOK;
    var u := s.(log := s.log + [End(id)]);
    var t := Move(u, id, Finished);
    assert ThreadOK(s, id);
    forall j | j in t.threads ensures ThreadOK(t, j) {
      if j != id {
        assert ThreadOK(s, j);
        AppendOther(s, End(id), j);
        if RecordOK(u, j) { SameRecord(u, t, j); }
      }
    }
    forall j | j in t.mounts ensures MountOK(t, j) {
      assert MountOK(s, j);
      AppendOther(s, End(id), j);
      SameRecord(u, t, j);
    }
  }

  lemma StepKeeps(s: State, step: Step)
    requires Inv(s) && Enabled(s, step)
    ensures Inv(Next(s, step))
  {
    hide Inv;
    match step
    case Append(id, ok) => if ok { AppendBegin(s, id); } else { LostBegin(s, id); }
    case EndFailed(id, ok) => if ok { AppendEnd(s, id); } else { LocalKeeps(s, step); }
    case EndServed(id, ok) => if ok { AppendEnd(s, id); } else { LocalKeeps(s, step); }
    case Sync(id, ok) => if ok { SyncKeeps(s, id); } else { LocalKeeps(s, step); }
    case Elsewhere => ElsewhereKeeps(s);
    case Crash(kept) => CrashKeeps(s, kept);
    case Spawn(_) => LocalKeeps(s, step);
    case Mount(_, _) => LocalKeeps(s, step);
    case Unmount(_, _) => LocalKeeps(s, step);
  }

  /** Steps that leave the log and the fate of every record alone. */
  lemma LocalKeeps(s: State, step: Step)
    requires Inv(s) && Enabled(s, step) && !step.Crash?
    requires var t := Next(s, step);
             t.log == s.log && t.synced == s.synced && t.missing == s.missing && t.unsynced == s.unsynced
    ensures Inv(Next(s, step))
  {
    hide RecordOK;
    var t := Next(s, step);
    forall id | id in t.threads ensures ThreadOK(t, id) {
      if id in s.threads { assert ThreadOK(s, id); }
      if id in s.mounts { assert MountOK(s, id); }
      if RecordOK(s, id) { SameRecord(s, t, id); }
    }
    forall id | id in t.mounts ensures MountOK(t, id) {
      if id in s.mounts { assert MountOK(s, id); }
      if id in s.threads { assert ThreadOK(s, id); }
      if RecordOK(s, id) { SameRecord(s, t, id); }
    }
  }

  /** The write of the begin fails. */
  lemma LostBegin(s: State, id: Id)
    requires Inv(s) && At(s, id, Writing)
    ensures Inv(Next(s, Append(id, false)))
  {
    hide RecordOK;
    var t := Next(s, Append(id, false));
    assert ThreadOK(s, id);
    assert RecordOK(t, id) by { MissingOK(t, id); }
    forall j | j in t.threads ensures ThreadOK(t, j) {
      if j != id {
        assert ThreadOK(s, j);
        if RecordOK(s, j) { SameRecord(s, t, j); }
      }
    }
    forall j | j in t.mounts ensures MountOK(t, j) {
      assert MountOK(s, j);
      SameRecord(s, t, j);
    }
  }

  lemma MissingOK(s: State, id: Id)
    requires id in s.missing && id !in s.unsynced && Begin(id) !in s.log
    ensures RecordOK(s, id)
  {
  }

  lemma SyncKeeps(s: State, id: Id)
    requires Inv(s) && At(s, id, Syncing)
    ensures Inv(Next(s, Sync(id, true)))
  {
    hide RecordOK;
    var t := Next(s, Sync(id, true));
    forall j | j in t.threads ensures ThreadOK(t, j) {
      assert ThreadOK(s, j);
      if RecordOK(s, j) { SyncedRecord(s, t, j); }
    }
    forall j | j in t.mounts ensures MountOK(t, j) {
      assert MountOK(s, j);
      SyncedRecord(s, t, j);
    }
  }

  /** A successful sync covers every record written before it. */
  lemma SyncedRecord(s: State, t: State, id: Id)
    requires RecordOK(s, id) && s.synced <= |s.log|
    requires t.log == s.log && t.synced == |s.log| && t.missing == s.missing && t.unsynced == {}
    ensures RecordOK(t, id)
  {
    assert t.log[..t.synced] == s.log;
  }

  lemma ElsewhereKeeps(s: State)
    requires Inv(s)
    ensures Inv(Next(s, Elsewhere))
  {
    hide RecordOK;
    var t := Next(s, Elsewhere);
    forall j | j in t.threads ensures ThreadOK(t, j) {
      assert ThreadOK(s, j);
      AppendOther(s, Other, j);
    }
    forall j | j in t.mounts ensures MountOK(t, j) {
      assert MountOK(s, j);
      AppendOther(s, Other, j);
    }
  }

  lemma CrashKeeps(s: State, kept: nat)
    requires Inv(s) && s.synced <= kept <= |s.log|
    ensures Inv(Next(s, Crash(kept)))
  {
    hide RecordOK;
    var t := Next(s, Crash(kept));
    assert forall x :: x in t.log ==> x in s.log;
    forall j | j in t.mounts ensures MountOK(t, j) {
      assert MountOK(s, j);
      CrashedRecord(s, kept, j);
    }
  }

  /** A crash loses only what was not synced. */
  lemma CrashedRecord(s: State, kept: nat, id: Id)
    requires RecordOK(s, id) && s.synced <= kept <= |s.log|
    ensures RecordOK(Next(s, Crash(kept)), id)
  {
    assert s.log[..kept][..s.synced] == s.log[..s.synced];
  }

  // ---- whole runs ---------------------------------------------------------------------------

  const INITIAL := State([], 0, {}, map[], {}, {}, {}, {})

  ghost predicate Legal(s: State, steps: seq<Step>)
    decreases |steps|
  {
    steps == [] || (Enabled(s, steps[0]) && Legal(Next(s, steps[0]), steps[1..]))
  }

  ghost function Exec(s: State, steps: seq<Step>): State
    requires Legal(s, steps)
    decreases |steps|
  {
    if steps == [] then s else Exec(Next(s, steps[0]), steps[1..])
  }

  lemma {:induction false} ExecKeeps(s: State, steps: seq<Step>)
    requires Inv(s) && Legal(s, steps)
    ensures Inv(Exec(s, steps))
    decreases |steps|
  {
    hide Inv, Enabled, Next;
    if steps != [] {
      StepKeeps(s, steps[0]);
      ExecKeeps(Next(s, steps[0]), steps[1..]);
    }
  }

  /** At every point of every run, crashes included: the begin of an existing mount is in every log a crash
      can leave if and only if its write did not fail, no crash lost it and a sync has succeeded since;
      and the mount has no end on record unless its unmount failed. */
  lemma MountsAreRecorded(steps: seq<Step>, id: Id)
    requires Legal(INITIAL, steps) && id in Exec(INITIAL, steps).mounts
    ensures var s := Exec(INITIAL, steps);
            && ((forall kept :: s.synced <= kept <= |s.log| ==> Begin(id) in s.log[..kept]) <==>
                  id !in s.missing && id !in s.unsynced)
            && (id !in s.stuck ==> End(id) !in s.log)
  {
    hide Legal, Exec;
    assert Inv(INITIAL);
    ExecKeeps(INITIAL, steps);
    var s := Exec(INITIAL, steps);
    assert MountOK(s, id);
    forall kept | s.synced <= kept <= |s.log| ensures s.log[..s.synced] <= s.log[..kept] {
    }
  }

  /** With writes and syncs that succeed, that is always: once the mount syscall is made, its begin is on
      disk. */
  lemma SyncedBeforeMount(s: State, id: Id)
    requires Inv(s) && At(s, id, Syncing) && id !in s.missing
    ensures var t := Next(s, Sync(id, true));
            At(t, id, Mounting) && id !in t.missing && id !in t.unsynced && DurableBegin(t, id)
  {
    SyncKeeps(s, id);
    assert ThreadOK(Next(s, Sync(id, true)), id);
  }

  // ---- by what has happened -----------------------------------------------------------------

  /** What past steps have made of an id, said by the steps alone. */
  ghost predicate ToldBy(past: seq<Step>, s: State, id: Id) {
    && (id in s.mounts <==> Mount(id, true) in past && Unmount(id, true) !in past)
    && (AllWell(past, id) && (Mount(id, true) in past || Mount(id, false) in past || At(s, id, Mounting)) ==>
          DurableBegin(s, id))
    && (AllWell(past, id) && At(s, id, Syncing) ==> Begin(id) in s.log)
    && (Append(id, false) in past ==> Begin(id) !in s.log)
    && (End(id) in s.log ==> Mount(id, false) in past || Unmount(id, true) in past || Unmount(id, false) in past)
    && (NoCrash(past) && (EndFailed(id, true) in past || EndServed(id, true) in past) ==> End(id) in s.log)
  }

  predicate NoCrash(past: seq<Step>) {
    forall x :: x in past ==> !x.Crash?
  }

  /** Neither the write nor the sync of the begin has failed. */
  predicate AllWell(past: seq<Step>, id: Id) {
    Append(id, false) !in past && Sync(id, false) !in past
  }

  /** How far the thread of an id has come. */
  ghost predicate PcToldBy(past: seq<Step>, s: State, id: Id) {
    && (id !in s.used || At(s, id, Writing) ==> Append(id, true) !in past && Append(id, false) !in past)
    && (id !in s.used || At(s, id, Writing) || At(s, id, Syncing) || At(s, id, Mounting) ==>
          Mount(id, true) !in past && Mount(id, false) !in past)
    && (id !in s.used || (id in s.threads && !At(s, id, Unmounted) && !At(s, id, Finished)) ==>
          Unmount(id, true) !in past && Unmount(id, false) !in past)
    && (At(s, id, Failed) ==> Mount(id, false) in past)
    && (At(s, id, Serving) ==> Mount(id, true) in past)
    && (At(s, id, Unmounted) ==> Unmount(id, true) in past || Unmount(id, false) in past)
    && (id in s.threads ==> id in s.used)
    && s.synced <= |s.log|
    && (Begin(id) in s.log || End(id) in s.log ==> id in s.used)
    && (At(s, id, Writing) ==> Begin(id) !in s.log)
  }

  lemma SaidBefore(past: seq<Step>, step: Step)
    ensures forall x :: x in past + [step] <==> x in past || x == step
  {
  }

  /** What is in the log after a step. */
  lemma LogStep(s: State, step: Step, id: Id)
    requires Enabled(s, step) && s.synced <= |s.log|
    ensures var t := Next(s, step);
            && t.synced <= |t.log|
            && (DurableBegin(s, id) ==> DurableBegin(t, id))
            && (Begin(id) in t.log ==> Begin(id) in s.log || step == Append(id, true))
            && (End(id) in t.log ==> End(id) in s.log || step == EndFailed(id, true) || step == EndServed(id, true))
            && (step == Append(id, true) ==> Begin(id) in t.log)
            && (step == EndFailed(id, true) || step == EndServed(id, true) ==> End(id) in t.log)
            && (!step.Crash? && Begin(id) in s.log ==> Begin(id) in t.log)
            && (!step.Crash? && End(id) in s.log ==> End(id) in t.log)
            && (step.Sync? && step.ok && Begin(id) in s.log ==> DurableBegin(t, id))
  {
    var t := Next(s, step);
    if step.Crash? {
      assert t.log[..t.synced] == s.log[..s.synced];
      assert forall x :: x in s.log[..step.kept] ==> x in s.log;
    } else if step == Append(id, true) {
      assert t.log[|s.log|] == Begin(id);
    } else if step == EndFailed(id, true) || step == EndServed(id, true) {
      assert t.log[|s.log|] == End(id);
    }
    if !(step.Sync? && step.ok) && s.log <= t.log { assert t.log[..s.synced] == s.log[..s.synced]; }
    if step.Sync? && step.ok {
      assert t.log[..t.synced] == s.log;
      assert forall x :: x in s.log[..s.synced] ==> x in s.log;
    }
  }

  /** Where a step takes the thread of an id. */
  lemma ThreadStep(s: State, step: Step, id: Id)
    requires Enabled(s, step) && (id in s.threads ==> id in s.used)
    ensures var t := Next(s, step);
            && (id in t.used <==> id in s.used || step == Spawn(id))
            && (At(t, id, Writing) ==> (At(s, id, Writing) && (step.Append? ==> step.id != id)) || step == Spawn(id))
            && (At(t, id, Syncing) ==> At(s, id, Syncing) || step == Append(id, true))
            && (At(t, id, Mounting) ==> (At(s, id, Mounting) && (step.Mount? ==> step.id != id))
                                        || step == Append(id, false) || (step.Sync? && step.id == id))
            && (At(t, id, Failed) ==> At(s, id, Failed) || step == Mount(id, false))
            && (At(t, id, Serving) ==> (At(s, id, Serving) && (step.Unmount? ==> step.id != id))
                                       || step == Mount(id, true))
            && (At(t, id, Unmounted) ==> At(s, id, Unmounted) || (step.Unmount? && step.id == id))
            && (id in t.threads ==> !step.Crash? && (id in s.threads || step == Spawn(id)))
            && (At(s, id, Finished) && id in t.threads ==> At(t, id, Finished))
            && (At(s, id, Unmounted) && id in t.threads ==> At(t, id, Unmounted) || At(t, id, Finished))
  {
  }

  lemma PcStep(past: seq<Step>, s: State, step: Step, id: Id)
    requires PcToldBy(past, s, id) && Enabled(s, step)
    ensures PcToldBy(past + [step], Next(s, step), id)
  {
    hide Next;
    SaidBefore(past, step);
    ThreadStep(s, step, id);
    LogStep(s, step, id);
  }

  lemma MountStep(s: State, step: Step, id: Id)
    requires Enabled(s, step)
    ensures id in Next(s, step).mounts <==> (id in s.mounts && step != Unmount(id, true)) || step == Mount(id, true)
  {
  }

  lemma ToldStep(past: seq<Step>, s: State, step: Step, id: Id)
    requires ToldBy(past, s, id) && PcToldBy(past, s, id) && Enabled(s, step)
    ensures ToldBy(past + [step], Next(s, step), id)
  {
    hide DurableBegin, Next;
    SaidBefore(past, step);
    ThreadStep(s, step, id);
    MountStep(s, step, id);
    LogStep(s, step, id);
  }

  lemma {:induction false} RunTold(past: seq<Step>, s: State, steps: seq<Step>, id: Id)
    requires ToldBy(past, s, id) && PcToldBy(past, s, id) && Legal(s, steps)
    ensures ToldBy(past + steps, Exec(s, steps), id)
    decreases |steps|
  {
    hide ToldBy, PcToldBy, Enabled, Next;
    if steps == [] {
      assert past + steps == past;
    } else {
      ToldStep(past, s, steps[0], id);
      PcStep(past, s, steps[0], id);
      RunTold(past + [steps[0]], Next(s, steps[0]), steps[1..], id);
      assert past + [steps[0]] + steps[1..] == past + steps;
    }
  }

  /** Over every run, by the steps alone: a mount exists exactly when it was made and not undone; unless the
      write or the sync of its begin failed, that record was on disk before the mount was tried and is
      there for good; a begin that failed to be written is not in the log; an end is in the log only after
      a failed mount or an unmount, and then, unless its write failed or a crash came, it is. */
  lemma RecordedByTheSteps(steps: seq<Step>, id: Id)
    requires Legal(INITIAL, steps)
    ensures var s := Exec(INITIAL, steps);
            && (id in s.mounts <==> Mount(id, true) in steps && Unmount(id, true) !in steps)
            && ((Mount(id, true) in steps || Mount(id, false) in steps)
                && Append(id, false) !in steps && Sync(id, false) !in steps ==>
                  forall kept :: s.synced <= kept <= |s.log| ==> Begin(id) in s.log[..kept])
            && (Append(id, false) in steps ==> Begin(id) !in s.log)
            && (End(id) in s.log ==>
                  Mount(id, false) in steps || Unmount(id, true) in steps || Unmount(id, false) in steps)
            && (NoCrash(steps) && (EndFailed(id, true) in steps || EndServed(id, true) in steps) ==> End(id) in s.log)
  {
    hide Legal, Exec;
    RunTold([], INITIAL, steps, id);
    assert [] + steps == steps;
    var s := Exec(INITIAL, steps);
    forall kept | s.synced <= kept <= |s.log| ensures DurableBegin(s, id) ==> Begin(id) in s.log[..kept] {
      if DurableBegin(s, id) {
        var k :| 0 <= k < s.synced && s.log[..s.synced][k] == Begin(id);
        assert s.log[..kept][k] == Begin(id);
      }
    }
  }

  // ---- when it does not hold ----------------------------------------------------------------

  lemma {:induction false} Snoc(s: State, steps: seq<Step>, step: Step)
    requires Legal(s, steps) && Enabled(Exec(s, steps), step)
    ensures Legal(s, steps + [step]) && Exec(s, steps + [step]) == Next(Exec(s, steps), step)
    decreases |steps|
  {
    hide Enabled, Next;
    if steps == [] {
      assert [step][1..] == [];
    } else {
      assert (steps + [step])[1..] == steps[1..] + [step];
      Snoc(Next(s, steps[0]), steps[1..], step);
    }
  }

  /** The first proviso is needed: a failed write of the begin leaves a mount the log knows nothing of. */
  lemma FailedWriteHidesMount(id: Id) returns (steps: seq<Step>)
    ensures Legal(INITIAL, steps) && id in Exec(INITIAL, steps).mounts && Exec(INITIAL, steps).log == []
  {
    hide Legal, Exec;
    steps := Launch(id, false);
    Snoc(INITIAL, steps, Mount(id, true));
    steps := steps + [Mount(id, true)];
  }

  /** So is the second: a failed unmount leaves a mount that the log says has ended. */
  lemma FailedUnmountLeavesMount(id: Id) returns (steps: seq<Step>)
    ensures Legal(INITIAL, steps) && id in Exec(INITIAL, steps).mounts && End(id) in Exec(INITIAL, steps).log
  {
    hide Legal, Exec;
    steps := Launch(id, true);
    Snoc(INITIAL, steps, Mount(id, true));
    steps := steps + [Mount(id, true)];
    Snoc(INITIAL, steps, Unmount(id, false));
    steps := steps + [Unmount(id, false)];
    Snoc(INITIAL, steps, EndServed(id, true));
    steps := steps + [EndServed(id, true)];
  }

  /** A first thread up to the mount syscall, with or without its record written. */
  lemma Launch(id: Id, recorded: bool) returns (steps: seq<Step>)
    ensures Legal(INITIAL, steps)
    ensures Exec(INITIAL, steps) ==
              if recorded then State([Begin(id)], 1, {}, map[id := Mounting], {}, {}, {}, {id})
              else State([], 0, {}, map[id := Mounting], {id}, {}, {}, {id})
  {
    steps := [];
    assert Legal(INITIAL, steps) && Exec(INITIAL, steps) == INITIAL;
    hide Legal, Exec;
    Snoc(INITIAL, steps, Spawn(id));
    steps := steps + [Spawn(id)];
    Snoc(INITIAL, steps, Append(id, recorded));
    steps := steps + [Append(id, recorded)];
    if recorded {
      Snoc(INITIAL, steps, Sync(id, true));
      steps := steps + [Sync(id, true)];
    }
  }
}
