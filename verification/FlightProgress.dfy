/** More about concurrent readers of one Cache (pkg/blockcache/blockcache.go: ReadAt, chunk): they are never
    stuck, a chunk that was stored is found again, and only a failing fetch makes a read fall short.
 */
module FlightProgress {
  import opened Bytes
  import opened Options
  import opened Caller
  import opened SharedFlights

  // ---- no reader is stuck -------------------------------------------------------------------

  /** The flight has a leader that is still at work on it. */
  ghost predicate Led(s: State, flight: FlightId) {
    flight in s.leaders && Leads(s, s.leaders[flight], flight)
  }

  predicate Leads(s: State, t: Tid, flight: FlightId) {
    t in s.readers && Leading(s.readers[t].pc) && s.readers[t].pc.flight == flight
  }

  ghost predicate WaitOK(s: State, t: Tid)
    requires t in s.readers
  {
    s.readers[t].pc.Wait? ==> s.readers[t].pc.flight in s.results || Led(s, s.readers[t].pc.flight)
  }

  /** A flight that is still fetching lacks something. */
  ghost predicate FetchOK(w: World, s: State, t: Tid)
    requires w.cs > 0 && t in s.readers
  {
    s.readers[t].pc.Fetch? ==> |s.readers[t].pc.buf| < LenOf(w, KeyOf(w, s.readers[t]))
  }

  ghost predicate Alive(w: World, s: State)
    requires w.cs > 0
  {
    && (forall k :: k in s.flights ==> Led(s, s.flights[k]))
    && (forall t :: t in s.readers ==> WaitOK(s, t) && FetchOK(w, s, t))
  }

  // what a step does to a reader and to the tables

  /** A step changes no reader but its own, and not what that was asked for. */
  lemma ReadersStep(w: World, s: State, step: Step)
    requires w.cs > 0 && Enabled(w, s, step)
    ensures var s' := Next(w, s, step);
            && (step.Lose? ==> s'.readers == s.readers)
            && (!step.Lose? ==> step.t in s'.readers && s'.readers == s.readers[step.t := s'.readers[step.t]])
            && (step.Spawn? ==>
                  step.t !in s.readers && Asked(s', step.t, step.file, step.off, step.want))
            && (!step.Lose? && !step.Spawn? ==>
                  && step.t in s.readers
                  && Asked(s', step.t, s.readers[step.t].file, s.readers[step.t].off, s.readers[step.t].want))
  {
    hide ChunkOf, LenOf, Origin, Start;
  }

  lemma OtherReader(w: World, s: State, step: Step, t: Tid)
    requires w.cs > 0 && Enabled(w, s, step) && t in s.readers && (step.Lose? || step.t != t)
    ensures t in Next(w, s, step).readers && Next(w, s, step).readers[t] == s.readers[t]
  {
    hide Next, Asked;
    ReadersStep(w, s, step);
  }

  lemma OwnStep(w: World, s: State, step: Step)
    requires w.cs > 0 && Enabled(w, s, step) && !step.Lose? && !step.Spawn?
    ensures step.t in s.readers && step.t in Next(w, s, step).readers
    ensures var (pc, pc') := (s.readers[step.t].pc, Next(w, s, step).readers[step.t].pc);
            && (Leading(pc) && !step.Leave? ==> Leading(pc') && pc'.flight == pc.flight)
            && (pc'.Wait? ==> step.Join?)
            && (pc'.Fetch? ==> step.FetchSome? || (step.Miss? && pc.Recheck?))
  {
    hide ChunkOf, LenOf, Origin, Start;
  }

  /** The key is registered before and after the step, for the same flight. */
  ghost predicate StaysRegistered(w: World, s: State, step: Step, k: Key)
    requires w.cs > 0 && Enabled(w, s, step)
  {
    && k in s.flights && k in Next(w, s, step).flights && Next(w, s, step).flights[k] == s.flights[k]
    && (step.Leave? ==> k != KeyOf(w, s.readers[step.t]))
  }

  lemma TableStep(w: World, s: State, step: Step)
    requires w.cs > 0 && TablesOK(w, s) && Enabled(w, s, step)
    ensures var s' := Next(w, s, step);
            && (forall f :: f in s.leaders ==> f in s'.leaders && s'.leaders[f] == s.leaders[f])
            && (forall f :: f in s.results ==> f in s'.results)
            && (step.Leave? ==> s.readers[step.t].pc.flight in s'.results)
            && (forall k :: k in s'.flights ==>
                  StaysRegistered(w, s, step, k) || (step.Lead? && s'.flights[k] == step.flight))
  {
    hide ChunkOf, Chunk, OutcomeOK, LenOf, Origin, Copied, Start;
  }

  /** A flight keeps its leader through any step but the one that publishes its result. */
  lemma LedStep(w: World, s: State, step: Step, flight: FlightId)
    requires w.cs > 0 && TablesOK(w, s) && Enabled(w, s, step) && Led(s, flight)
    ensures var s' := Next(w, s, step);
            Led(s', flight) || (step.Leave? && s.readers[step.t].pc.flight == flight && flight in s'.results)
  {
    hide TablesOK, Next;
    TableStep(w, s, step);
    var t := s.leaders[flight];
    if step.Lose? || step.t != t {
      OtherReader(w, s, step, t);
    } else if !step.Spawn? {
      OwnStep(w, s, step);
    }
  }

  lemma NewLeader(w: World, s: State, t: Tid, flight: FlightId)
    requires w.cs > 0 && Enabled(w, s, Lead(t, flight))
    ensures Led(Next(w, s, Lead(t, flight)), flight)
  {
    hide ChunkOf;
  }

  lemma FlightsStep(w: World, s: State, step: Step, k: Key)
    requires w.cs > 0 && Inv(w, s) && Alive(w, s) && Enabled(w, s, step) && k in Next(w, s, step).flights
    ensures Led(Next(w, s, step), Next(w, s, step).flights[k])
  {
    hide Next, Inv, TablesOK, PcOK, OutOK, Led, WaitOK, FetchOK;
    FromInv(w, s, if step.Leave? then step.t else 0);
    TableStep(w, s, step);
    if StaysRegistered(w, s, step, k) {
      LedStep(w, s, step, s.flights[k]);
      if step.Leave? { OwnFlight(w, s, step.t, k); }
    } else {
      NewLeader(w, s, step.t, step.flight);
    }
  }

  /** A leader's flight is registered under its own key only. */
  lemma OwnFlight(w: World, s: State, t: Tid, k: Key)
    requires w.cs > 0 && Inv(w, s) && t in s.readers && Leading(s.readers[t].pc) && k in s.flights
    requires k != KeyOf(w, s.readers[t])
    ensures s.flights[k] != s.readers[t].pc.flight
  {
    hide ChunkOf, OutOK, OutcomeOK, FetchedOK, Chunk;
    FromInv(w, s, t);
  }

  lemma WaitStep(w: World, s: State, step: Step, t: Tid)
    requires w.cs > 0 && Inv(w, s) && Alive(w, s) && Enabled(w, s, step) && t in Next(w, s, step).readers
    ensures WaitOK(Next(w, s, step), t)
  {
    hide Inv, TablesOK, PcOK, OutOK, Led, FetchOK, ChunkOf, LenOf, Origin, Copied, Start;
    var s' := Next(w, s, step);
    if s'.readers[t].pc.Wait? {
      var flight := s'.readers[t].pc.flight;
      FromInv(w, s, t);
      TableStep(w, s, step);
      WaitedFor(w, s, step, t);
      if flight !in s.results { LedStep(w, s, step, flight); }
    }
  }

  /** A reader waits for a flight it waited for before, or has just joined. */
  lemma WaitedFor(w: World, s: State, step: Step, t: Tid)
    requires w.cs > 0 && Alive(w, s) && Enabled(w, s, step) && t in Next(w, s, step).readers
    requires Next(w, s, step).readers[t].pc.Wait?
    ensures var flight := Next(w, s, step).readers[t].pc.flight; flight in s.results || Led(s, flight)
  {
    hide Led, FetchOK, Next;
    if !step.Spawn? { NotNew(w, s, step, t); }
    if step.Lose? || step.t != t {
      if step.Spawn? { SpawnOnly(w, s, step, t); }
      OtherReader(w, s, step, t);
      assert WaitOK(s, t);
    } else if step.Spawn? {
      SpawnedNotWaiting(w, s, step);
    } else {
      OwnStep(w, s, step);
      JoinWaits(w, s, t);
    }
  }

  lemma SpawnOnly(w: World, s: State, step: Step, t: Tid)
    requires w.cs > 0 && Enabled(w, s, step) && step.Spawn? && t != step.t && t in Next(w, s, step).readers
    ensures t in s.readers
  {
    hide Next, Asked;
    ReadersStep(w, s, step);
  }

  lemma SpawnedNotWaiting(w: World, s: State, step: Step)
    requires w.cs > 0 && Enabled(w, s, step) && step.Spawn?
    ensures step.t in Next(w, s, step).readers && !Next(w, s, step).readers[step.t].pc.Wait?
  {
    hide ChunkOf;
  }

  lemma JoinWaits(w: World, s: State, t: Tid)
    requires w.cs > 0 && Enabled(w, s, Join(t))
    ensures var s' := Next(w, s, Join(t));
            t in s'.readers && s'.readers[t].pc == Wait(s.flights[KeyOf(w, s.readers[t])])
  {
    hide ChunkOf;
  }

  lemma FetchStep(w: World, s: State, step: Step, t: Tid)
    requires w.cs > 0 && Inv(w, s) && Enabled(w, s, step)
    requires t in Next(w, s, step).readers && (t in s.readers ==> FetchOK(w, s, t))
    ensures FetchOK(w, Next(w, s, step), t)
  {
    hide Inv, Next, KeyOf, LenOf;
    if !step.Spawn? { NotNew(w, s, step, t); }
    if t in s.readers && (step.Lose? || step.t != t) {
      OtherReader(w, s, step, t);
    } else if step.FetchSome? {
      FetchedMore(w, s, t, step.n);
    } else if step.Miss? {
      MissFetches(w, s, t);
    } else if step.Spawn? {
      NewReader(w, s, step, t);
    } else {
      OwnStep(w, s, step);
    }
  }

  lemma NotNew(w: World, s: State, step: Step, t: Tid)
    requires w.cs > 0 && Enabled(w, s, step) && !step.Spawn? && t in Next(w, s, step).readers
    ensures t in s.readers
  {
    hide Next, Asked;
    ReadersStep(w, s, step);
  }

  lemma MissFetches(w: World, s: State, t: Tid)
    requires w.cs > 0 && Inv(w, s) && Enabled(w, s, Miss(t))
    ensures FetchOK(w, Next(w, s, Miss(t)), t)
  {
    hide ChunkOf, TablesOK, PcOK, OutOK, LenOf;
    FromInv(w, s, t);
    EmptyFetched(w, s, t);
  }

  lemma NewReader(w: World, s: State, step: Step, t: Tid)
    requires w.cs > 0 && Enabled(w, s, step) && step.Spawn? && t in Next(w, s, step).readers && t !in s.readers
    ensures FetchOK(w, Next(w, s, step), t)
  {
    hide ChunkOf, LenOf;
  }

  lemma FetchedMore(w: World, s: State, t: Tid, n: nat)
    requires w.cs > 0 && Inv(w, s) && Enabled(w, s, FetchSome(t, n))
    ensures FetchOK(w, Next(w, s, FetchSome(t, n)), t)
  {
    hide ChunkOf, OutOK, TablesOK, LenOf, Origin;
    FromInv(w, s, t);
    FetchExtends(w, KeyOf(w, s.readers[t]), s.readers[t].pc.buf, n);
  }

  lemma StepAlive(w: World, s: State, step: Step)
    requires w.cs > 0 && Inv(w, s) && Alive(w, s) && Enabled(w, s, step)
    ensures Alive(w, Next(w, s, step))
  {
    hide Inv, Next, Led, FetchOK, WaitOK;
    var s' := Next(w, s, step);
    forall k | k in s'.flights ensures Led(s', s'.flights[k]) {
      FlightsStep(w, s, step, k);
    }
    forall t | t in s'.readers ensures WaitOK(s', t) && FetchOK(w, s', t) {
      if t in s.readers { assert WaitOK(s, t) && FetchOK(w, s, t); }
      WaitStep(w, s, step, t);
      FetchStep(w, s, step, t);
    }
  }

  lemma {:induction false} ExecAlive(w: World, s: State, steps: seq<Step>)
    requires w.cs > 0 && Inv(w, s) && Alive(w, s) && Legal(w, s, steps)
    ensures Alive(w, Exec(w, s, steps))
    decreases |steps|
  {
    hide Inv, Alive, Enabled, Next;
    if steps != [] {
      StepKeeps(w, s, steps[0]);
      StepAlive(w, s, steps[0]);
      ExecAlive(w, Next(w, s, steps[0]), steps[1..]);
    }
  }

  /** What the reader does next, if it can. */
  ghost function NextOf(w: World, s: State, t: Tid, flight: FlightId): Step
    requires w.cs > 0 && t in s.readers
  {
    match s.readers[t].pc
    case Look => Miss(t)
    case Enter => if KeyOf(w, s.readers[t]) in s.flights then Join(t) else Lead(t, flight)
    case Wait(_) => Wake(t)
    case Recheck(_) => Miss(t)
    case Fetch(_, _) => FetchSome(t, 1)
    case Put(_, _) => Store(t, true)
    case Publish(_, _) => Leave(t)
    case Have(_) => Copy(t)
    case Done(_, _) => Lose(Key(0, 0))
  }

  /** Over every interleaving, a reader that is not done can take a step of its own, or waits for a flight
      whose leader can. */
  lemma NoReaderIsStuck(w: World, steps: seq<Step>, t: Tid, flight: FlightId)
    requires w.cs > 0 && Legal(w, INITIAL, steps)
    requires var s := Exec(w, INITIAL, steps);
             t in s.readers && !s.readers[t].pc.Done? && flight !in s.keys
    ensures var s := Exec(w, INITIAL, steps);
            || Enabled(w, s, NextOf(w, s, t, flight))
            || (&& s.readers[t].pc.Wait? && s.readers[t].pc.flight in s.leaders
                && var u := s.leaders[s.readers[t].pc.flight];
                   u in s.readers && !s.readers[u].pc.Done? && Enabled(w, s, NextOf(w, s, u, flight)))
  {
    hide Exec, Legal, Inv, NextOf, Enabled, FetchOK;
    NothingYet(w);
    ExecKeeps(w, INITIAL, steps);
    ExecAlive(w, INITIAL, steps);
    var s := Exec(w, INITIAL, steps);
    assert WaitOK(s, t) && FetchOK(w, s, t);
    if s.readers[t].pc.Wait? && s.readers[t].pc.flight !in s.results {
      var u := s.leaders[s.readers[t].pc.flight];
      assert FetchOK(w, s, u);
      CanMove(w, s, u, flight);
    } else {
      CanMove(w, s, t, flight);
    }
  }

  lemma NothingYet(w: World)
    requires w.cs > 0
    ensures Inv(w, INITIAL) && Alive(w, INITIAL)
  {
  }

  lemma CanMove(w: World, s: State, t: Tid, flight: FlightId)
    requires w.cs > 0 && t in s.readers && !s.readers[t].pc.Done? && flight !in s.keys && FetchOK(w, s, t)
    requires s.readers[t].pc.Wait? ==> s.readers[t].pc.flight in s.results
    ensures Enabled(w, s, NextOf(w, s, t, flight))
  {
    hide ChunkOf, LenOf;
  }

  // ---- a stored chunk is found again --------------------------------------------------------

  lemma {:induction false} StoredStays(w: World, s: State, steps: seq<Step>, k: Key)
    requires w.cs > 0 && Legal(w, s, steps) && k in s.store && Lose(k) !in steps
    ensures k in Exec(w, s, steps).store
    decreases |steps|
  {
    hide Enabled, Next;
    if steps != [] {
      assert steps[0] in steps;
      StoreStep(w, s, steps[0], k);
      StoredStays(w, Next(w, s, steps[0]), steps[1..], k);
    }
  }

  lemma StoreStep(w: World, s: State, step: Step, k: Key)
    requires w.cs > 0 && Enabled(w, s, step) && k in s.store && step != Lose(k)
    ensures k in Next(w, s, step).store
  {
    hide ChunkOf, LenOf, Origin, Start, Copied;
  }

  /** Once a leader has stored a chunk, and until the store loses it, every reader that looks for that chunk,
      before or inside a flight, can take it from the store. */
  lemma StoredIsFound(w: World, before: seq<Step>, t: Tid, after: seq<Step>, u: Tid)
    requires w.cs > 0 && Legal(w, INITIAL, before) && Enabled(w, Exec(w, INITIAL, before), Store(t, true))
    requires var s := Next(w, Exec(w, INITIAL, before), Store(t, true));
             Legal(w, s, after) && Lose(KeyOf(w, Exec(w, INITIAL, before).readers[t])) !in after
    requires var s := Exec(w, Next(w, Exec(w, INITIAL, before), Store(t, true)), after);
             && u in s.readers && (s.readers[u].pc.Look? || s.readers[u].pc.Recheck?)
             && KeyOf(w, s.readers[u]) == KeyOf(w, Exec(w, INITIAL, before).readers[t])
    ensures Enabled(w, Exec(w, Next(w, Exec(w, INITIAL, before), Store(t, true)), after), Hit(u))
  {
    hide Exec, Legal, Inv;
    NothingYet(w);
    ExecKeeps(w, INITIAL, before);
    var s0 := Exec(w, INITIAL, before);
    var k := KeyOf(w, s0.readers[t]);
    StepKeeps(w, s0, Store(t, true));
    var s1 := Next(w, s0, Store(t, true));
    assert k in s1.store;
    ExecKeeps(w, s1, after);
    StoredStays(w, s1, after, k);
    ChunkInStore(w, Exec(w, s1, after), k);
  }

  lemma ChunkInStore(w: World, s: State, k: Key)
    requires w.cs > 0 && Inv(w, s) && k in s.store
    ensures |s.store[k]| == LenOf(w, k)
  {
    hide PcOK, OutOK, Start;
  }

  // ---- every reader gets what it asked for --------------------------------------------------

  predicate NoFailure(steps: seq<Step>) {
    forall i :: 0 <= i < |steps| ==> !steps[i].FetchEnds?
  }

  function Reliable(w: World): World {
    w.(canFail := false)
  }

  lemma SameStep(w: World, s: State, step: Step)
    requires w.cs > 0 && Enabled(w, s, step) && !step.FetchEnds?
    ensures Enabled(Reliable(w), s, step) && Next(Reliable(w), s, step) == Next(w, s, step)
  {
    hide ChunkOf, Start, Origin;
  }

  /** A run in which no fetch fails is a run over an origin that does not fail. */
  lemma {:induction false} SameRun(w: World, s: State, steps: seq<Step>)
    requires w.cs > 0 && Legal(w, s, steps) && NoFailure(steps)
    ensures Legal(Reliable(w), s, steps) && Exec(Reliable(w), s, steps) == Exec(w, s, steps)
    decreases |steps|
  {
    hide Enabled, Next;
    if steps != [] {
      SameStep(w, s, steps[0]);
      SameRun(w, Next(w, s, steps[0]), steps[1..]);
    }
  }

  predicate Asked(s: State, t: Tid, file: FileNo, off: nat, want: nat) {
    t in s.readers && s.readers[t].file == file && s.readers[t].off == off && s.readers[t].want == want
  }

  lemma AskedStep(w: World, s: State, step: Step, t: Tid, file: FileNo, off: nat, want: nat)
    requires w.cs > 0 && Enabled(w, s, step) && (Asked(s, t, file, off, want) || step == Spawn(t, file, off, want))
    ensures Asked(Next(w, s, step), t, file, off, want)
  {
    hide Next;
    ReadersStep(w, s, step);
  }

  lemma {:induction false} AskedStays(w: World, s: State, steps: seq<Step>, t: Tid, file: FileNo, off: nat, want: nat)
    requires w.cs > 0 && Legal(w, s, steps)
    requires Asked(s, t, file, off, want) || Spawn(t, file, off, want) in steps
    ensures Asked(Exec(w, s, steps), t, file, off, want)
    decreases |steps|
  {
    hide Enabled, Next, Asked;
    if steps != [] {
      if Asked(s, t, file, off, want) || steps[0] == Spawn(t, file, off, want) {
        AskedStep(w, s, steps[0], t, file, off, want);
      } else {
        assert Spawn(t, file, off, want) in steps[1..];
      }
      AskedStays(w, Next(w, s, steps[0]), steps[1..], t, file, off, want);
    }
  }

  /** The call itself: whatever the other readers and the store do, a ReadAt that has returned, in a run in
      which no fetch failed, has returned exactly the origin's bytes of the range it was given, and end of
      file exactly when that passes the end. */
  lemma ReadReturnsTheRange(w: World, steps: seq<Step>, t: Tid, file: FileNo, off: nat, want: nat)
    requires w.cs > 0 && Legal(w, INITIAL, steps) && NoFailure(steps) && Spawn(t, file, off, want) in steps
    ensures var s := Exec(w, INITIAL, steps);
            && t in s.readers
            && (s.readers[t].pc.Done? ==>
                  && s.readers[t].out == Origin(w.origin(file), off, want)
                  && (s.readers[t].pc.eof <==> want > 0 && off + want > |w.origin(file)|)
                  && !s.readers[t].pc.failed)
  {
    hide Exec, Legal, PcOK, TablesOK, Origin;
    SameRun(w, INITIAL, steps);
    AskedStays(w, INITIAL, steps, t, file, off, want);
    NothingYet(Reliable(w));
    ExecKeeps(Reliable(w), INITIAL, steps);
    FromInv(Reliable(w), Exec(w, INITIAL, steps), t);
  }

  // ---- what a read reports ------------------------------------------------------------------

  /** A failed read has nothing, one at the end of file has all there is, and any other has something. */
  ghost predicate ReportOK(w: World, r: Reader) {
    r.pc.Done? ==>
      && (r.pc.failed ==> r.out == [] && !r.pc.eof)
      && (r.pc.eof ==> r.off + |r.out| >= Size(w, r.file) && |r.out| < r.want)
      && (r.want > 0 && !r.pc.eof && !r.pc.failed ==> r.out != [])
  }

  lemma StepReports(w: World, s: State, step: Step, t: Tid)
    requires w.cs > 0 && Inv(w, s) && Enabled(w, s, step) && t in Next(w, s, step).readers
    requires t in s.readers ==> ReportOK(w, s.readers[t])
    ensures ReportOK(w, Next(w, s, step).readers[t])
  {
    hide Inv, Next, ChunkOf;
    if !step.Spawn? { NotNew(w, s, step, t); }
    if t in s.readers && (step.Lose? || step.t != t) {
      OtherReader(w, s, step, t);
    } else if step.Copy? {
      CopyReports(w, s, t);
    } else if step.Spawn? {
      NewReports(w, s, step, t);
    } else {
      OwnNotDone(w, s, step);
    }
  }

  lemma CopyReports(w: World, s: State, t: Tid)
    requires w.cs > 0 && Inv(w, s) && Enabled(w, s, Copy(t))
    ensures ReportOK(w, Next(w, s, Copy(t)).readers[t])
  {
    hide ChunkOf, Start, Chunk, TablesOK, Origin;
    FromInv(w, s, t);
    var r := s.readers[t];
    if r.pc.res.Got? {
      CopyExtends(w, r, r.pc.res.data);
      CopyGrows(w, r, r.pc.res.data);
    }
  }

  /** A copied chunk brings at least a byte. */
  lemma CopyGrows(w: World, r: Reader, data: seq<Byte>)
    requires w.cs > 0 && OutOK(w, r) && !r.pc.Done? && data == Chunk(w, KeyOf(w, r))
    ensures var c := Copied(w, r, data);
            && c.off == r.off && c.want == r.want && c.file == r.file && |c.out| > |r.out|
            && (c.pc.Done? ==> !c.pc.failed && Pos(c) == End(w, c) && (c.pc.eof <==> |c.out| < c.want))
  {
    hide Start, ChunkOf, Origin;
    ChunkOfByte(w.cs, Pos(r), ChunkOf(w.cs, Pos(r)));
  }

  lemma NewReports(w: World, s: State, step: Step, t: Tid)
    requires w.cs > 0 && Enabled(w, s, step) && step.Spawn? && t !in s.readers && t in Next(w, s, step).readers
    ensures ReportOK(w, Next(w, s, step).readers[t])
  {
    hide ChunkOf;
  }

  lemma OwnNotDone(w: World, s: State, step: Step)
    requires w.cs > 0 && Enabled(w, s, step) && !step.Lose? && !step.Spawn? && !step.Copy?
    ensures step.t in Next(w, s, step).readers && !Next(w, s, step).readers[step.t].pc.Done?
  {
    hide ChunkOf, LenOf, Origin, Start;
  }

  lemma {:induction false} RunReports(w: World, s: State, steps: seq<Step>, t: Tid)
    requires w.cs > 0 && Inv(w, s) && Legal(w, s, steps) && t in Exec(w, s, steps).readers
    requires t in s.readers ==> ReportOK(w, s.readers[t])
    ensures ReportOK(w, Exec(w, s, steps).readers[t])
    decreases |steps|
  {
    hide Inv, Enabled, Next, ReportOK;
    if steps != [] {
      StepKeeps(w, s, steps[0]);
      if t in Next(w, s, steps[0]).readers { StepReports(w, s, steps[0], t); }
      RunReports(w, Next(w, s, steps[0]), steps[1..], t);
    }
  }

  /** Whatever fails, a read that has returned says so truly: an error only with nothing, end of file only
      with everything up to the end, and otherwise at least a byte of those asked for. */
  lemma ReportsAreTrue(w: World, steps: seq<Step>, t: Tid)
    requires w.cs > 0 && Legal(w, INITIAL, steps) && t in Exec(w, INITIAL, steps).readers
    ensures var r := Exec(w, INITIAL, steps).readers[t];
            r.pc.Done? ==>
              && (r.pc.failed ==> r.out == [] && !r.pc.eof)
              && (r.pc.eof ==> r.off + |r.out| >= Size(w, r.file) && |r.out| < r.want)
              && (r.want > 0 && !r.pc.eof && !r.pc.failed ==> r.out != [])
  {
    hide Exec, Legal, Inv;
    NothingYet(w);
    RunReports(w, INITIAL, steps, t);
  }
}
