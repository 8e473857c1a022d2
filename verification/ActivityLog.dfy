/** The flight recorder's begin/end log across process incarnations (pkg/activity/activity.go).

    Every activity is a begin record and, if it finished or was dealt with, an end record sharing its
    id.  Instances come and go, any number at a time; a crashed one leaves begins without ends, and a
    later one resolves them.  Recovery converges, and it never rewrites history: whether an instance
    exited cleanly is decided by who wrote the end of its lifetime.
 */
module ActivityLog {
  import opened Decimals

  datatype Kind = Server | Caretaker | Mount9P | Build | Deploy | Service
  datatype Phase = BeginPhase | EndPhase
  datatype Status = NoStatus | Ok | Error | Recovered

  datatype Event = Event(instance: string, kind: Kind, phase: Phase, id: string, target: string, status: Status)

  predicate IsBegin(e: Event) { e.phase.BeginPhase? }
  predicate IsEnd(e: Event) { e.phase.EndPhase? }
  predicate IsLifetime(e: Event) { e.kind.Server? || e.kind.Caretaker? }

  // ---- activity ids -------------------------------------------------------------------------

  /** Sprintf("%s-%d", instance, seq). */
  function ActivityID(instance: string, n: nat): string {
    instance + "-" + Decimal(n)
  }

  /** The last dash of an id ends the instance name. */
  lemma LastDash(instance: string, n: nat)
    ensures var id := ActivityID(instance, n);
            && |instance| < |id| && id[|instance|] == '-' && id[..|instance|] == instance
            && id[|instance| + 1..] == Decimal(n)
            && forall k :: |instance| < k < |id| ==> id[k] != '-'
  {
    var id, d := ActivityID(instance, n), Decimal(n);
    assert id[|instance| + 1..] == d;
    forall k | |instance| < k < |id| ensures id[k] != '-' {
      assert id[k] == d[k - |instance| - 1];
    }
  }

  /** Ids of different activities differ, whatever the instance names look like. */
  lemma ActivityIDInjective(i: string, m: nat, j: string, n: nat)
    requires ActivityID(i, m) == ActivityID(j, n)
    ensures i == j && m == n
  {
    hide ActivityID;
    LastDash(i, m);
    LastDash(j, n);
    DecimalInjective(m, n);
  }

  // ---- reading the log ----------------------------------------------------------------------

  predicate Ended(log: seq<Event>, id: string) {
    exists i :: 0 <= i < |log| && IsEnd(log[i]) && log[i].id == id
  }

  /** The begins of a prefix that nothing in the whole log ends, in order. */
  ghost function OpenIn(log: seq<Event>, upto: nat): seq<Event>
    requires upto <= |log|
  {
    if upto == 0 then []
    else OpenIn(log, upto - 1) + (if IsBegin(log[upto - 1])
        && !Ended(log, log[upto - 1].id) then [log[upto - 1]] else [])
  }

  ghost function Unfinished(log: seq<Event>): seq<Event> {
    OpenIn(log, |log|)
  }

  method UnfinishedFrom(log: seq<Event>) returns (out: seq<Event>)
    ensures out == Unfinished(log)
  {
    var ended: set<string> := {};
    for i := 0 to |log|
      invariant forall id :: id in ended <==> exists k :: 0 <= k < i && IsEnd(log[k]) && log[k].id == id
    {
      if IsEnd(log[i]) {
        ended := ended + {log[i].id};
      }
    }
    out := [];
    for i := 0 to |log|
      invariant out == OpenIn(log, i)
    {
      if IsBegin(log[i]) && log[i].id !in ended {
        out := out + [log[i]];
      }
    }
  }

  lemma {:induction false} OpenInMember(log: seq<Event>, upto: nat, e: Event)
    requires upto <= |log|
    ensures e in OpenIn(log, upto) <==> e in log[..upto] && IsBegin(e) && !Ended(log, e.id)
    decreases upto
  {
    if upto > 0 {
      OpenInMember(log, upto - 1, e);
      assert log[..upto] == log[..upto - 1] + [log[upto - 1]];
    }
  }

  /** Membership in the unfinished set, without the order. */
  lemma UnfinishedMember(log: seq<Event>, e: Event)
    ensures e in Unfinished(log) <==> e in log && IsBegin(e) && !Ended(log, e.id)
  {
    OpenInMember(log, |log|, e);
    assert log[..|log|] == log;
  }

  /** The unfinished records are exactly the begins whose id no record ends, each once, as the log has them:
      at lists their places, in increasing order. */
  lemma {:induction false} UnfinishedInOrder(log: seq<Event>, upto: nat) returns (at: seq<nat>)
    requires upto <= |log|
    ensures Places(log, OpenIn(log, upto), at, upto)
    ensures forall i: nat :: i in at <==> i < upto && log[i].phase == BeginPhase && !Ended(log, log[i].id)
    decreases upto
  {
    hide Ended, OpenIn, Places;
    OpenInStep(log, upto);
    if upto == 0 {
      at := [];
      NoPlaces(log);
    } else {
      var last := upto - 1;
      var init := UnfinishedInOrder(log, last);
      MorePlaces(log, OpenIn(log, last), init, last);
      at := if IsBegin(log[last]) && !Ended(log, log[last].id) then init + [last] else init;
      assert forall i: nat :: i in init + [last] <==> i in init || i == last;
    }
  }

  lemma OpenInStep(log: seq<Event>, upto: nat)
    requires upto <= |log|
    ensures upto == 0 ==> OpenIn(log, upto) == []
    ensures upto > 0 ==>
              OpenIn(log, upto) ==
                if IsBegin(log[upto - 1]) && !Ended(log, log[upto - 1].id)
                then OpenIn(log, upto - 1) + [log[upto - 1]] else OpenIn(log, upto - 1)
  {
    hide Ended;
  }

  lemma NoPlaces(log: seq<Event>)
    ensures Places(log, [], [], 0)
  {
  }

  lemma MorePlaces(log: seq<Event>, es: seq<Event>, at: seq<nat>, last: nat)
    requires last < |log| && Places(log, es, at, last)
    ensures Places(log, es, at, last + 1) && Places(log, es + [log[last]], at + [last], last + 1)
  {
  }

  /** at lists, in increasing order, places of the log below upto where the records of es are. */
  predicate Places(log: seq<Event>, es: seq<Event>, at: seq<nat>, upto: nat)
    requires upto <= |log|
  {
    && |at| == |es|
    && (forall k :: 0 <= k < |at| ==> at[k] < upto && es[k] == log[at[k]])
    && (forall j, k :: 0 <= j < k < |at| ==> at[j] < at[k])
  }

  /** The first lifetime the instance has begun, as a server or as a caretaker. */
  ghost predicate FirstLifetime(log: seq<Event>, instance: string, b: nat) {
    && b < |log| && StartsLife(log[b], instance)
    && forall k :: 0 <= k < b ==> !StartsLife(log[k], instance)
  }

  predicate StartsLife(e: Event, instance: string) {
    e.phase == BeginPhase && e.instance == instance && (e.kind == Server || e.kind == Caretaker)
  }

  /** The first record that ends the id. */
  ghost predicate FirstEnd(log: seq<Event>, id: string, e: nat) {
    && e < |log| && log[e].phase == EndPhase && log[e].id == id
    && forall k :: 0 <= k < e ==> !(log[k].phase == EndPhase && log[k].id == id)
  }

  /** The first index from i on that begins a lifetime of the instance, or the length. */
  ghost function LifetimeFrom(log: seq<Event>, instance: string, i: nat): (r: nat)
    requires i <= |log|
    ensures i <= r <= |log|
    ensures r < |log| ==> BeginsLifetime(log[r], instance)
    ensures forall k :: i <= k < r ==> !BeginsLifetime(log[k], instance)
    decreases |log| - i
  {
    if i == |log| || BeginsLifetime(log[i], instance) then i else LifetimeFrom(log, instance, i + 1)
  }

  predicate BeginsLifetime(e: Event, instance: string) {
    IsBegin(e) && e.instance == instance && IsLifetime(e)
  }

  ghost function EndFrom(log: seq<Event>, id: string, i: nat): (r: nat)
    requires i <= |log|
    ensures i <= r <= |log|
    ensures r < |log| ==> IsEnd(log[r]) && log[r].id == id
    ensures forall k :: i <= k < r ==> !(IsEnd(log[k]) && log[k].id == id)
    decreases |log| - i
  {
    if i == |log| || (IsEnd(log[i]) && log[i].id == id) then i else EndFrom(log, id, i + 1)
  }

  /** The first loop finds the first lifetime, and the second its first end. */
  lemma LifetimeIsFirst(log: seq<Event>, instance: string, b: nat)
    ensures FirstLifetime(log, instance, b) <==> b == LifetimeFrom(log, instance, 0) < |log|
  {
    hide LifetimeFrom;
    var r := LifetimeFrom(log, instance, 0);
    assert r < |log| ==> BeginsLifetime(log[r], instance);
    if FirstLifetime(log, instance, b) { assert BeginsLifetime(log[b], instance); }
  }

  lemma EndIsFirst(log: seq<Event>, id: string, e: nat)
    ensures FirstEnd(log, id, e) <==> e == EndFrom(log, id, 0) < |log|
  {
    hide EndFrom;
    var r := EndFrom(log, id, 0);
    assert r < |log| ==> IsEnd(log[r]) && log[r].id == id;
    if FirstEnd(log, id, e) { assert IsEnd(log[e]) && log[e].id == id; }
  }

  lemma CleanExitIs(log: seq<Event>, instance: string)
    ensures (exists b: nat :: FirstLifetime(log, instance, b)) <==> LifetimeFrom(log, instance, 0) < |log|
    ensures SaysClean(log, instance) <==>
              var b := LifetimeFrom(log, instance, 0);
              b < |log| &&
              var e := EndFrom(log, log[b].id, 0);
              e < |log| && log[e].status != Recovered
    ensures ClosedItself(log, instance) <==>
              var b := LifetimeFrom(log, instance, 0);
              b < |log| &&
              var e := EndFrom(log, log[b].id, 0);
              e < |log| && log[e].instance == instance
  {
    hide LifetimeFrom, EndFrom, FirstLifetime, FirstEnd;
    var b := LifetimeFrom(log, instance, 0);
    forall c: nat ensures FirstLifetime(log, instance, c) <==> c == b < |log| { LifetimeIsFirst(log, instance, c); }
    if b < |log| {
      var e := EndFrom(log, log[b].id, 0);
      forall c: nat ensures FirstEnd(log, log[b].id, c) <==> c == e < |log| { EndIsFirst(log, log[b].id, c); }
      assert FirstLifetime(log, instance, b);
      assert e < |log| ==> FirstEnd(log, log[b].id, e);
    }
  }

  /** The first end of the instance's first lifetime is not a recovery. */
  ghost predicate SaysClean(log: seq<Event>, instance: string) {
    exists b: nat, e: nat ::
      FirstLifetime(log, instance, b) && FirstEnd(log, log[b].id, e) && log[e].status != Recovered
  }

  /** The instance itself wrote it. */
  ghost predicate ClosedItself(log: seq<Event>, instance: string) {
    exists b: nat, e: nat ::
      FirstLifetime(log, instance, b) && FirstEnd(log, log[b].id, e) && log[e].instance == instance
  }

  method CleanExit(log: seq<Event>, instance: string) returns (known: bool, clean: bool)
    ensures known <==> exists b: nat :: FirstLifetime(log, instance, b)
    ensures clean <==> SaysClean(log, instance)
  {
    hide FirstLifetime, FirstEnd, SaysClean;
    CleanExitIs(log, instance);
    var lifetime := "";
    known := false;
    for i := 0 to |log|
      invariant !known
      invariant LifetimeFrom(log, instance, 0) == LifetimeFrom(log, instance, i)
    {
      if BeginsLifetime(log[i], instance) {
        lifetime, known := log[i].id, true;
        break;
      }
    }
    if !known {
      return false, false;
    }
    for i := 0 to |log|
      invariant EndFrom(log, lifetime, 0) == EndFrom(log, lifetime, i)
    {
      if IsEnd(log[i]) && log[i].id == lifetime {
        return true, !log[i].status.Recovered?;
      }
    }
    return true, false;
  }

  // ---- writing it ---------------------------------------------------------------------------

  class Stream {
    var events: seq<Event>

    constructor ()
      ensures events == []
    {
      events := [];
    }
  }

  class Recorder {
    const instance: string
    const stream: Stream
    var counter: nat    // seq

    constructor (instance: string, stream: Stream)
      ensures this.instance == instance && this.stream == stream && counter == 0
    {
      this.instance, this.stream, counter := instance, stream, 0;
    }

    method Write(e: Event)
      modifies stream
      ensures stream.events == old(stream.events) + [e.(instance := instance)]
    {
      stream.events := stream.events + [e.(instance := instance)];
    }

    method Begin(k: Kind, target: string) returns (a: Activity)
      modifies this, stream
      ensures counter == old(counter) + 1
      ensures stream.events == old(stream.events) +
                [Event(instance, k, BeginPhase, ActivityID(instance, counter), target, NoStatus)]
      ensures fresh(a) && a.rec == this && a.id == ActivityID(instance, counter) && a.kind == k
              && a.target == target && !a.ended
    {
      counter := counter + 1;
      a := new Activity(this, ActivityID(instance, counter), k, target);
      Write(Event("", k, BeginPhase, a.id, target, NoStatus));
    }

    /** Close an activity begun by another incarnation, keeping its id but not its provenance. */
    method Resolve(b: Event, status: Status)
      modifies stream
      ensures stream.events == old(stream.events) + [Resolution(instance, b).(status := status)]
    {
      Write(Event("", b.kind, EndPhase, b.id, b.target, status));
    }

    /** What a restarted process does with everything its predecessors left open. */
    method ResolveAll(found: seq<Event>)
      modifies stream
      ensures stream.events == old(stream.events) + Resolutions(instance, found)
    {
      for i := 0 to |found|
        invariant stream.events == old(stream.events) + Resolutions(instance, found[..i])
      {
        Resolve(found[i], Recovered);
        assert found[..i + 1] == found[..i] + [found[i]];
        ResolutionsAppend(instance, found[..i], found[i]);
      }
      assert found[..|found|] == found;
    }
  }

  class Activity {
    const rec: Recorder
    const id: string
    const kind: Kind
    const target: string
    var ended: bool

    constructor (rec: Recorder, id: string, kind: Kind, target: string)
      ensures this.rec == rec && this.id == id && this.kind == kind && this.target == target && !ended
    {
      this.rec, this.id, this.kind, this.target, ended := rec, id, kind, target, false;
    }

    /** Idempotent: only the first End writes. */
    method End(failed: bool)
      modifies this, rec.stream
      ensures ended
      ensures rec.stream.events == old(rec.stream.events) +
                (if old(ended) then []
                 else [Event(rec.instance, kind, EndPhase, id, target, if failed then Error else Ok)])
    {
      if ended {
        return;
      }
      ended := true;
      rec.Write(Event("", kind, EndPhase, id, target, if failed then Error else Ok));
    }
  }

  function Resolution(instance: string, b: Event): Event {
    Event(instance, b.kind, EndPhase, b.id, b.target, Recovered)
  }

  function Resolutions(instance: string, bs: seq<Event>): (r: seq<Event>)
    ensures |r| == |bs| && forall i :: 0 <= i < |bs| ==> r[i] == Resolution(instance, bs[i])
  {
    if bs == [] then [] else [Resolution(instance, bs[0])] + Resolutions(instance, bs[1..])
  }

  lemma ResolutionsAppend(instance: string, bs: seq<Event>, b: Event)
    ensures Resolutions(instance, bs + [b]) == Resolutions(instance, bs) + [Resolution(instance, b)]
  {
  }

  /** Recovery converges: resolving everything unfinished leaves nothing unfinished. */
  lemma ResolvingConverges(log: seq<Event>, instance: string)
    ensures Unfinished(log + Resolutions(instance, Unfinished(log))) == []
  {
    var after := log + Resolutions(instance, Unfinished(log));
    if Unfinished(after) != [] {
      var e := Unfinished(after)[0];
      UnfinishedMember(after, e);
      ResolvedEnded(log, instance, e);
    }
  }

  /** Every begin of the log is ended once everything unfinished has been resolved. */
  lemma ResolvedEnded(log: seq<Event>, instance: string, e: Event)
    requires e in log + Resolutions(instance, Unfinished(log)) && IsBegin(e)
    ensures Ended(log + Resolutions(instance, Unfinished(log)), e.id)
  {
    var bs := Unfinished(log);
    var after := log + Resolutions(instance, bs);
    var i :| 0 <= i < |after| && after[i] == e;
    assert i < |log|;
    UnfinishedMember(log, e);
    if Ended(log, e.id) {
      var k :| 0 <= k < |log| && IsEnd(log[k]) && log[k].id == e.id;
      assert after[k] == log[k];
    } else {
      var k :| 0 <= k < |bs| && bs[k] == e;
      assert IsEnd(after[|log| + k]) && after[|log| + k].id == e.id;
    }
  }

  // ---- every run of every incarnation -------------------------------------------------------

  /** counters: the activities each instance has begun; its keys are the instances so far. */
  datatype State = State(log: seq<Event>, counters: map<string, nat>, ended: set<string>)

  datatype Step =
    | Boot(instance: string)
    | BeginOne(instance: string, kind: Kind, target: string)
    | EndOne(instance: string, n: nat, at: nat, failed: bool)   // End of the handle whose begin is at index at
    | ResolveOne(instance: string, at: nat)                     // of the begin at index at

  predicate Enabled(s: State, step: Step) {
    match step
    case Boot(instance) => instance !in s.counters
    case BeginOne(instance, _, _) => instance in s.counters
    case EndOne(instance, n, at, _) =>
      && instance in s.counters && at < |s.log| && IsBegin(s.log[at]) && s.log[at].instance == instance
      && s.log[at].id == ActivityID(instance, n) && s.log[at].id !in s.ended
    case ResolveOne(instance, at) =>
      && instance in s.counters && at < |s.log| && IsBegin(s.log[at]) && s.log[at].instance != instance
  }

  function Next(s: State, step: Step): State
    requires Enabled(s, step)
  {
    match step
    case Boot(instance) => s.(counters := s.counters[instance := 0])
    case BeginOne(instance, kind, target) =>
      var n := s.counters[instance] + 1;
      s.(counters := s.counters[instance := n],
         log := s.log + [Event(instance, kind, BeginPhase, ActivityID(instance, n), target, NoStatus)])
    case EndOne(instance, _, at, failed) =>
      var b := s.log[at];
      s.(ended := s.ended + {b.id},
         log := s.log + [Event(instance, b.kind, EndPhase, b.id, b.target, if failed then Error else Ok)])
    case ResolveOne(instance, at) => s.(log := s.log + [Resolution(instance, s.log[at])])
  }

  /** A begin carries an id its own instance has issued. */
  ghost predicate BeginOK(s: State, e: Event) {
    e.instance in s.counters && exists n: nat :: IssuedAs(s, e, n)
  }

  ghost predicate IssuedAs(s: State, e: Event, n: nat) {
    e.instance in s.counters && 1 <= n <= s.counters[e.instance] && e.id == ActivityID(e.instance, n)
  }

  /** An end record closes some begin, about the same thing, and says recovered exactly when another
      instance wrote it. */
  ghost predicate EndOK(log: seq<Event>, e: Event) {
    exists i :: 0 <= i < |log| && Closes(log[i], e)
  }

  predicate Closes(b: Event, e: Event) {
    && IsBegin(b) && b.id == e.id && b.kind == e.kind && b.target == e.target
    && (e.status.Recovered? <==> e.instance != b.instance)
  }

  predicate SameBegin(a: Event, b: Event) {
    IsBegin(a) && IsBegin(b) && a.id == b.id
  }

  ghost predicate Inv(s: State) {
    && (forall i :: 0 <= i < |s.log| && IsBegin(s.log[i]) ==> BeginOK(s, s.log[i]))
    && (forall i :: 0 <= i < |s.log| && IsEnd(s.log[i]) ==> EndOK(s.log, s.log[i]))
    && (forall i, j :: 0 <= i < |s.log| && 0 <= j < |s.log| && SameBegin(s.log[i], s.log[j]) ==> i == j)
  }

  lemma StepKeeps(s: State, step: Step)
    requires Inv(s) && Enabled(s, step)
    ensures Inv(Next(s, step))
  {
    hide ActivityID;
    var s' := Next(s, step);
    forall i | 0 <= i < |s'.log| && IsBegin(s'.log[i]) ensures BeginOK(s', s'.log[i]) {
      if i < |s.log| {
        assert BeginOK(s, s.log[i]);
        var n: nat :| IssuedAs(s, s.log[i], n);
        assert IssuedAs(s', s.log[i], n);
      } else {
        assert IssuedAs(s', s'.log[i], s'.counters[step.instance]);
      }
    }
    forall i | 0 <= i < |s'.log| && IsEnd(s'.log[i]) ensures EndOK(s'.log, s'.log[i]) {
      if i < |s.log| {
        assert EndOK(s.log, s.log[i]);
        var k :| 0 <= k < |s.log| && Closes(s.log[k], s.log[i]);
        assert s'.log[k] == s.log[k];
      } else {
        assert Closes(s'.log[step.at], s'.log[i]);
      }
    }
    if step.BeginOne? {
      NewIdIsNew(s, step.instance);
    }
  }

  lemma NewIdIsNew(s: State, instance: string)
    requires Inv(s) && instance in s.counters
    ensures forall i :: 0 <= i < |s.log| && IsBegin(s.log[i]) ==>
              s.log[i].id != ActivityID(instance, s.counters[instance] + 1)
  {
    hide ActivityID;
    forall i | 0 <= i < |s.log| && IsBegin(s.log[i])
      ensures s.log[i].id != ActivityID(instance, s.counters[instance] + 1)
    {
      assert BeginOK(s, s.log[i]);
      var n: nat :| IssuedAs(s, s.log[i], n);
      if s.log[i].id == ActivityID(instance, s.counters[instance] + 1) {
        ActivityIDInjective(s.log[i].instance, n, instance, s.counters[instance] + 1);
      }
    }
  }

  const EMPTY := State([], map[], {})

  ghost predicate Legal(s: State, steps: seq<Step>)
    decreases |steps|
  {
    steps == [] || (Enabled(s, steps[0]) && Legal(Next(s, steps[0]), steps[1..]))
  }

  ghost function Exec(s: State, steps: seq<Step>): State
    requires Legal(s, steps)
    decreases |steps|
  {
    if steps == [] then s else Exec(Next(s, steps[0]), steps[1..])
  }

  lemma {:induction false} ExecKeeps(s: State, steps: seq<Step>)
    requires Inv(s) && Legal(s, steps)
    ensures Inv(Exec(s, steps))
    decreases |steps|
  {
    hide Inv, Enabled, Next;
    if steps != [] {
      StepKeeps(s, steps[0]);
      ExecKeeps(Next(s, steps[0]), steps[1..]);
    }
  }

  /** After any run: an instance is reported clean exactly when it closed its own lifetime first.  So a
      lifetime closed only by others is never clean, and a recoverer gains nothing from the ends it
      writes for others. */
  lemma CleanMeansOwnEnd(steps: seq<Step>, instance: string)
    requires Legal(EMPTY, steps)
    ensures var log := Exec(EMPTY, steps).log;
            SaysClean(log, instance) <==> ClosedItself(log, instance)
  {
    hide LifetimeFrom, EndFrom, SaysClean, ClosedItself, Legal, Exec;
    assert Inv(EMPTY);
    ExecKeeps(EMPTY, steps);
    var s := Exec(EMPTY, steps);
    var log := s.log;
    CleanExitIs(log, instance);
    var b := LifetimeFrom(log, instance, 0);
    if b < |log| {
      var e := EndFrom(log, log[b].id, 0);
      if e < |log| {
        assert EndOK(log, log[e]);
        var k :| 0 <= k < |log| && Closes(log[k], log[e]);
        assert k == b;
      }
    }
  }

  // ---- what is unfinished, by the steps -----------------------------------------------------

  /** The begins, by their places, that the steps have ended or resolved. */
  function DealtWith(steps: seq<Step>): set<nat> {
    if steps == [] then {}
    else (if steps[0].EndOne? || steps[0].ResolveOne? then {steps[0].at} else {}) + DealtWith(steps[1..])
  }

  /** The log only grows; a begin gets an end exactly by a step that ends or resolves it. */
  lemma StepEnds(s: State, step: Step, i: nat)
    requires Inv(s) && Enabled(s, step) && i < |s.log| && IsBegin(s.log[i])
    ensures var s' := Next(s, step);
            && s.log <= s'.log
            && (Ended(s'.log, s.log[i].id) <==>
                  Ended(s.log, s.log[i].id) || ((step.EndOne? || step.ResolveOne?) && step.at == i))
  {
    hide ActivityID, BeginOK, EndOK;
    var s' := Next(s, step);
    if Ended(s.log, s.log[i].id) {
      var k :| 0 <= k < |s.log| && IsEnd(s.log[k]) && s.log[k].id == s.log[i].id;
      assert s'.log[k] == s.log[k];
    }
    if (step.EndOne? || step.ResolveOne?) && step.at == i { assert IsEnd(s'.log[|s.log|]); }
    if Ended(s'.log, s.log[i].id) && !Ended(s.log, s.log[i].id) {
      var k :| 0 <= k < |s'.log| && IsEnd(s'.log[k]) && s'.log[k].id == s.log[i].id;
      assert k == |s.log|;
      assert SameBegin(s.log[step.at], s.log[i]);
    }
  }

  lemma {:induction false} StepsEnd(s: State, steps: seq<Step>, i: nat)
    requires Inv(s) && Legal(s, steps) && i < |s.log| && IsBegin(s.log[i])
    ensures var s' := Exec(s, steps);
            && s.log <= s'.log
            && (Ended(s'.log, s.log[i].id) <==> Ended(s.log, s.log[i].id) || i in DealtWith(steps))
    decreases |steps|
  {
    hide Inv, Enabled, Next, Ended;
    if steps != [] {
      StepKeeps(s, steps[0]);
      StepEnds(s, steps[0], i);
      StepsEnd(Next(s, steps[0]), steps[1..], i);
    }
  }

  lemma EndedWasBegun(s: State, id: string)
    requires Inv(s)
    ensures Ended(s.log, id) ==> exists i :: 0 <= i < |s.log| && IsBegin(s.log[i]) && s.log[i].id == id
  {
    hide BeginOK;
    if Ended(s.log, id) {
      var k :| 0 <= k < |s.log| && IsEnd(s.log[k]) && s.log[k].id == id;
      assert EndOK(s.log, s.log[k]);
    }
  }

  /** Nothing ends before it has begun. */
  lemma NewBeginIsOpen(s: State, step: Step)
    requires Inv(s) && Enabled(s, step) && step.BeginOne?
    ensures var s' := Next(s, step);
            |s'.log| == |s.log| + 1 && IsBegin(s'.log[|s.log|]) && !Ended(s'.log, s'.log[|s.log|].id)
  {
    hide ActivityID, Inv;
    NewIdIsNew(s, step.instance);
    EndedWasBegun(s, ActivityID(step.instance, s.counters[step.instance] + 1));
    assert forall k :: 0 <= k < |s.log| ==> Next(s, step).log[k] == s.log[k];
  }

  /** After any run, the begin that a step wrote is unfinished if and only if no later step has ended or
      resolved it. */
  lemma UnfinishedByTheSteps(before: seq<Step>, step: Step, after: seq<Step>)
    requires Legal(EMPTY, before) && Enabled(Exec(EMPTY, before), step) && step.BeginOne?
    requires Legal(Next(Exec(EMPTY, before), step), after)
    ensures var at, s := |Exec(EMPTY, before).log|, Exec(Next(Exec(EMPTY, before), step), after);
            && at < |s.log| && s.log[at].instance == step.instance && s.log[at].kind == step.kind
            && s.log[at].target == step.target
            && (s.log[at] in Unfinished(s.log) <==> at !in DealtWith(after))
  {
    hide Legal, Exec, DealtWith, ActivityID, Ended;
    assert Inv(EMPTY);
    ExecKeeps(EMPTY, before);
    var s0 := Exec(EMPTY, before);
    var s1 := Next(s0, step);
    StepKeeps(s0, step);
    NewBeginIsOpen(s0, step);
    StepsEnd(s1, after, |s0.log|);
    var s := Exec(s1, after);
    UnfinishedMember(s.log, s.log[|s0.log|]);
  }

  lemma {:induction false} LogGrows(s: State, steps: seq<Step>)
    requires Legal(s, steps)
    ensures s.log <= Exec(s, steps).log
    decreases |steps|
  {
    hide ActivityID;
    if steps != [] {
      assert s.log <= Next(s, steps[0]).log;
      LogGrows(Next(s, steps[0]), steps[1..]);
    }
  }

  /** What a step that ends an activity has written, for good: who ended what, and how it went. */
  lemma EndsSayHow(before: seq<Step>, step: Step, after: seq<Step>)
    requires Legal(EMPTY, before) && Enabled(Exec(EMPTY, before), step) && (step.EndOne? || step.ResolveOne?)
    requires Legal(Next(Exec(EMPTY, before), step), after)
    ensures var at, log := |Exec(EMPTY, before).log|, Exec(Next(Exec(EMPTY, before), step), after).log;
            && step.at < at < |log| && log[at].phase == EndPhase && log[at].instance == step.instance
            && log[at].id == log[step.at].id && log[at].kind == log[step.at].kind
            && log[at].target == log[step.at].target
            && log[at].status == if step.ResolveOne? then Recovered else if step.failed then Error else Ok
  {
    hide Legal, Exec;
    LogGrows(Next(Exec(EMPTY, before), step), after);
  }
}
