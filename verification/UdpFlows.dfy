/** The UDP reach flow table (pkg/caretaker/hub.go: runUDPReach), as a state machine.

    One receiver, one reply reader per stream, the idle collector and the shutdown goroutine share a
    map from source address to flow under a mutex.  Each step below is one critical section or one
    action outside it, and the steps of all threads interleave in any order.
 */
module UdpFlows {
  import opened Options

  type Src = string
  type Flow = nat        // identity of a *udpFlow; it owns one stream
  type Time = int

  datatype Thread = Receiver | Replier(flow: Flow) | Collector | Shutdown

  datatype RecvPc =
    | Receiving
    | Sending(flow: Flow, key: Src)   // table updated, mutex released, writing the datagram
    | RecvClosing(flow: Flow)     // the write failed and the flow is out of the table

  datatype ReplyPc =
    | Reading
    | Delivered                   // a reply was sent; liveness not yet refreshed
    | ReplyClosing                // the read failed and the flow is out of the table
    | Exited

  /** A reply reader and the source address it captured when it was started. */
  datatype Reader = Reader(key: Src, pc: ReplyPc)

  datatype State = State(
    flows: map<Src, Flow>,          // the shared table
    source: map<Flow, Src>,         // every stream ever opened, and for whom
    last: map<Flow, Time>,
    closed: set<Flow>,
    removedBy: map<Flow, Thread>,   // who took the flow out of the table
    recv: RecvPc,
    repliers: map<Flow, Reader>,
    replies: seq<(Flow, Src)>)      // datagrams sent back: from which stream, to whom

  datatype Step =
    | Datagram(src: Src, now: Time, newFlow: Flow, ok: bool)   // receiver's critical section; ok: hub.OpenTo succeeded
    | SendOk
    | SendFails                                               // receiver removes the flow it was using, if still there
    | RecvCloses
    | Reply(flow: Flow)                                       // a datagram came back and was delivered
    | ReplyLost(flow: Flow)                                   // delivering it failed: the reader just returns
    | Refresh(flow: Flow, now: Time)
    | ReadFails(flow: Flow)                                   // reader removes its flow, if still there
    | ReplyCloses(flow: Flow)
    | Collect(now: Time, idle: nat)
    | CloseAll

  predicate Enabled(s: State, step: Step) {
    match step
    case Datagram(src, now, newFlow, ok) => s.recv.Receiving? && newFlow !in s.source
    case SendOk => s.recv.Sending?
    case SendFails => s.recv.Sending?
    case RecvCloses => s.recv.RecvClosing?
    case Reply(f) => f in s.repliers && s.repliers[f].pc.Reading?
    case ReplyLost(f) => f in s.repliers && s.repliers[f].pc.Reading?
    case Refresh(f, now) => f in s.repliers && s.repliers[f].pc.Delivered?
    case ReadFails(f) => f in s.repliers && s.repliers[f].pc.Reading?
    case ReplyCloses(f) => f in s.repliers && s.repliers[f].pc.ReplyClosing?
    case Collect(_, _) => true
    case CloseAll => true
  }

  /** delete(flows, key) guarded by flows[key] == f. */
  function TakenOut(s: State, f: Flow, key: Src, who: Thread): State {
    if key in s.flows && s.flows[key] == f
    then s.(flows := s.flows - {key}, removedBy := s.removedBy[f := who])
    else s
  }

  /** Flows the collector finds idle. */
  function IdleFlows(s: State, now: Time, idle: nat): set<Src> {
    set k | k in s.flows && s.flows[k] in s.last && now - s.last[s.flows[k]] > idle
  }

  /** Close and delete the table entries under the given keys. */
  function Swept(s: State, keys: set<Src>, who: Thread): State {
    var gone := set k | k in keys && k in s.flows :: s.flows[k];
    s.(flows := s.flows - keys, closed := s.closed + gone,
       removedBy := s.removedBy + (map f | f in gone :: who))
  }

  /** A new stream for a source, with its reply reader. */
  function Opened(s: State, src: Src, f: Flow, now: Time): State {
    s.(flows := s.flows[src := f], source := s.source[f := src], last := s.last[f := now],
       repliers := s.repliers[f := Reader(src, Reading)], recv := Sending(f, src))
  }

  function ReaderAt(s: State, f: Flow, pc: ReplyPc): map<Flow, Reader>
    requires f in s.repliers
  {
    s.repliers[f := s.repliers[f].(pc := pc)]
  }

  function Next(s: State, step: Step): State
    requires Enabled(s, step)
  {
    match step
    case Datagram(src, now, newFlow, ok) =>
      if src in s.flows then
        s.(last := s.last[s.flows[src] := now], recv := Sending(s.flows[src], src))
      else if !ok then s
      else Opened(s, src, newFlow, now)
    case SendOk => s.(recv := Receiving)
    case SendFails => TakenOut(s, s.recv.flow, s.recv.key, Receiver).(recv := RecvClosing(s.recv.flow))
    case RecvCloses => s.(closed := s.closed + {s.recv.flow}, recv := Receiving)
    case Reply(f) => s.(replies := s.replies + [(f, s.repliers[f].key)], repliers := ReaderAt(s, f, Delivered))
    case ReplyLost(f) => s.(repliers := ReaderAt(s, f, Exited))
    case Refresh(f, now) =>
      var key := s.repliers[f].key;
      var current := key in s.flows && s.flows[key] == f;
      s.(last := if current then s.last[f := now] else s.last, repliers := ReaderAt(s, f, Reading))
    case ReadFails(f) => TakenOut(s, f, s.repliers[f].key, Replier(f)).(repliers := ReaderAt(s, f, ReplyClosing))
    case ReplyCloses(f) => s.(closed := s.closed + {f}, repliers := ReaderAt(s, f, Exited))
    case Collect(now, idle) => Swept(s, IdleFlows(s, now, idle), Collector)
    case CloseAll => Swept(s, s.flows.Keys, Shutdown)
  }

  // ---- the invariant ------------------------------------------------------------------------

  /** Is the thread about to close the stream? */
  predicate AboutToClose(s: State, t: Thread, f: Flow) {
    match t
    case Receiver => s.recv == RecvClosing(f)
    case Replier(g) => g == f && f in s.repliers && s.repliers[f].pc.ReplyClosing?
    case Collector => false
    case Shutdown => false
  }

  /** The table entry under a key is a flow opened for that key, with an open stream. */
  predicate EntryOK(s: State, k: Src)
    requires k in s.flows
  {
    var f := s.flows[k];
    f in s.source && s.source[f] == k && f !in s.closed && f in s.last
  }

  /** Every stream is in the table, closed, or about to be closed by the thread that removed it. */
  predicate Accounted(s: State, f: Flow)
    requires f in s.source
  {
    || (s.source[f] in s.flows && s.flows[s.source[f]] == f)
    || f in s.closed
    || (f in s.removedBy && AboutToClose(s, s.removedBy[f], f))
  }

  ghost predicate TableOK(s: State) {
    (forall k :: k in s.flows ==> EntryOK(s, k)) && s.closed <= s.source.Keys
  }

  ghost predicate AllAccounted(s: State) {
    forall f :: f in s.source ==> Accounted(s, f)
  }

  /** Threads hold the keys their flows were opened for; a thread about to close has taken its flow out. */
  ghost predicate ThreadsOK(s: State) {
    && (!s.recv.Receiving? ==> s.recv.flow in s.source)
    && (s.recv.Sending? ==> s.source[s.recv.flow] == s.recv.key)
    && (s.recv.RecvClosing? ==> Removed(s, s.recv.flow))
    && (forall f :: f in s.repliers ==> f in s.source && s.source[f] == s.repliers[f].key)
    && (forall f :: f in s.repliers && s.repliers[f].pc.ReplyClosing? ==> Removed(s, f))
  }

  ghost predicate RepliesOK(s: State) {
    forall i :: 0 <= i < |s.replies| ==> s.replies[i].0 in s.source && s.source[s.replies[i].0] == s.replies[i].1
  }

  ghost predicate Inv(s: State) {
    TableOK(s) && AllAccounted(s) && ThreadsOK(s) && RepliesOK(s)
  }

  /** A flow out of the table stays out. */
  predicate Removed(s: State, f: Flow) {
    f in s.source && !(s.source[f] in s.flows && s.flows[s.source[f]] == f)
  }

  lemma KnownSourceKeeps(s: State, step: Step)
    requires Inv(s) && step.Datagram? && Enabled(s, step) && step.src in s.flows
    ensures Inv(Next(s, step))
  {
    hide Enabled, Next;
    var s' := s.(last := s.last[s.flows[step.src] := step.now], recv := Sending(s.flows[step.src], step.src));
    KnownSourceNext(s, step);
    assert EntryOK(s, step.src);
    forall f | f in s'.source ensures Accounted(s', f) { assert Accounted(s, f); }
    forall k | k in s'.flows ensures EntryOK(s', k) { assert EntryOK(s, k); }
  }

  lemma KnownSourceNext(s: State, step: Step)
    requires step.Datagram? && Enabled(s, step) && step.src in s.flows
    ensures var f := s.flows[step.src];
            Next(s, step) == s.(last := s.last[f := step.now], recv := Sending(f, step.src))
    ensures s.recv.Receiving?
  {
  }

  lemma NewSourceKeeps(s: State, step: Step)
    requires Inv(s) && step.Datagram? && Enabled(s, step) && step.src !in s.flows
    ensures Inv(Next(s, step))
  {
    hide Enabled, Next, Opened, TableOK, AllAccounted, ThreadsOK, RepliesOK;
    NewSourceNext(s, step);
    if step.ok {
      OpenedTable(s, step.src, step.newFlow, step.now);
      OpenedThreads(s, step.src, step.newFlow, step.now);
    }
  }

  lemma OpenedTable(s: State, src: Src, f: Flow, now: Time)
    requires TableOK(s) && AllAccounted(s) && src !in s.flows && f !in s.source && s.recv.Receiving?
    ensures TableOK(Opened(s, src, f, now)) && AllAccounted(Opened(s, src, f, now))
  {
    var s' := Opened(s, src, f, now);
    forall g | g in s'.source ensures Accounted(s', g) {
      if g in s.source { assert Accounted(s, g); }
    }
    forall k | k in s'.flows ensures EntryOK(s', k) {
      if k in s.flows { assert EntryOK(s, k); }
    }
  }

  lemma OpenedThreads(s: State, src: Src, f: Flow, now: Time)
    requires TableOK(s) && ThreadsOK(s) && RepliesOK(s) && src !in s.flows && f !in s.source && s.recv.Receiving?
    ensures ThreadsOK(Opened(s, src, f, now)) && RepliesOK(Opened(s, src, f, now))
  {
  }

  lemma NewSourceNext(s: State, step: Step)
    requires step.Datagram? && Enabled(s, step) && step.src !in s.flows
    ensures Next(s, step) == if step.ok then Opened(s, step.src, step.newFlow, step.now) else s
    ensures step.newFlow !in s.source && s.recv.Receiving?
  {
  }

  lemma TakenOutKeeps(s: State, f: Flow, who: Thread, s': State)
    requires Inv(s) && f in s.source
    requires s' == TakenOut(s, f, s.source[f], who).(recv := s'.recv, repliers := s'.repliers)
    requires AboutToClose(s', who, f)
    requires s'.repliers.Keys == s.repliers.Keys
    requires forall g :: g in s.repliers ==> s'.repliers[g].key == s.repliers[g].key
    requires s'.recv.Sending? ==> s'.recv == s.recv
    requires forall g :: g != f && g in s.source ==> forall t :: AboutToClose(s, t, g) ==> AboutToClose(s', t, g)
    requires f in s.removedBy && AboutToClose(s, s.removedBy[f], f) ==> AboutToClose(s', s.removedBy[f], f)
    requires !s'.recv.Receiving? ==> s'.recv.flow in s.source
    requires s'.recv.RecvClosing? ==> s'.recv.flow == f || s.recv == s'.recv
    requires forall g :: g in s'.repliers && s'.repliers[g].pc.ReplyClosing? ==>
               g == f || s.repliers[g].pc.ReplyClosing?
    ensures Inv(s')
  {
    forall g | g in s'.source ensures Accounted(s', g) {
      assert Accounted(s, g);
    }
    forall k | k in s'.flows ensures EntryOK(s', k) {
      assert EntryOK(s, k);
    }
    assert Removed(s', f) by {
      if s.source[f] in s.flows { assert EntryOK(s, s.source[f]); }
    }
    forall g | Removed(s, g) ensures Removed(s', g) {
    }
  }

  lemma SendFailsKeeps(s: State)
    requires Inv(s) && s.recv.Sending?
    ensures Inv(Next(s, SendFails))
  {
    var f := s.recv.flow;
    TakenOutKeeps(s, f, Receiver, Next(s, SendFails));
  }

  lemma ReadFailsKeeps(s: State, f: Flow)
    requires Inv(s) && Enabled(s, ReadFails(f))
    ensures Inv(Next(s, ReadFails(f)))
  {
    TakenOutKeeps(s, f, Replier(f), Next(s, ReadFails(f)));
  }

  lemma SweptKeeps(s: State, keys: set<Src>, who: Thread)
    requires Inv(s)
    ensures Inv(Swept(s, keys, who))
  {
    var s' := Swept(s, keys, who);
    forall f | f in s'.source ensures Accounted(s', f) {
      assert Accounted(s, f);
    }
    forall k | k in s'.flows ensures EntryOK(s', k) {
      assert EntryOK(s, k);
      forall k' | k' in keys && k' in s.flows ensures s.flows[k'] != s.flows[k] {
        assert EntryOK(s, k');
      }
    }
    forall k | k in s.flows ensures s.flows[k] in s.source {
      assert EntryOK(s, k);
    }
    forall g | Removed(s, g) ensures Removed(s', g) {
    }
  }

  lemma ClosingKeeps(s: State, step: Step)
    requires Inv(s) && (step.RecvCloses? || step.ReplyCloses?) && Enabled(s, step)
    ensures Inv(Next(s, step))
  {
    var s' := Next(s, step);
    forall f | f in s'.source ensures Accounted(s', f) {
      assert Accounted(s, f);
    }
    forall k | k in s'.flows ensures EntryOK(s', k) {
      assert EntryOK(s, k);
    }
    forall g | Removed(s, g) ensures Removed(s', g) {
    }
  }

  lemma QuietKeeps(s: State, step: Step)
    requires Inv(s) && (step.SendOk? || step.Reply? || step.ReplyLost? || step.Refresh?) && Enabled(s, step)
    ensures Inv(Next(s, step))
  {
    var s' := Next(s, step);
    forall f | f in s'.source ensures Accounted(s', f) {
      assert Accounted(s, f);
    }
    forall k | k in s'.flows ensures EntryOK(s', k) {
      assert EntryOK(s, k);
    }
    forall g | Removed(s, g) ensures Removed(s', g) {
    }
  }

  lemma StepKeeps(s: State, step: Step)
    requires Inv(s) && Enabled(s, step)
    ensures Inv(Next(s, step))
  {
    hide Inv;
    match step
    case Datagram(src, _, _, _) => if src in s.flows { KnownSourceKeeps(s, step); } else { NewSourceKeeps(s, step); }
    case SendFails => SendFailsKeeps(s);
    case ReadFails(f) => ReadFailsKeeps(s, f);
    case Collect(now, idle) => SweptKeeps(s, IdleFlows(s, now, idle), Collector);
    case CloseAll => SweptKeeps(s, s.flows.Keys, Shutdown);
    case RecvCloses => ClosingKeeps(s, step);
    case ReplyCloses(_) => ClosingKeeps(s, step);
    case SendOk => QuietKeeps(s, step);
    case Reply(_) => QuietKeeps(s, step);
    case ReplyLost(_) => QuietKeeps(s, step);
    case Refresh(_, _) => QuietKeeps(s, step);
  }

  // ---- whole runs ---------------------------------------------------------------------------

  const INITIAL := State(map[], map[], map[], {}, map[], Receiving, map[], [])

  ghost predicate Legal(s: State, steps: seq<Step>)
    decreases |steps|
  {
    steps == [] || (Enabled(s, steps[0]) && Legal(Next(s, steps[0]), steps[1..]))
  }

  ghost function Exec(s: State, steps: seq<Step>): State
    requires Legal(s, steps)
    decreases |steps|
  {
    if steps == [] then s else Exec(Next(s, steps[0]), steps[1..])
  }

  lemma {:induction false} ExecKeeps(s: State, steps: seq<Step>)
    requires Inv(s) && Legal(s, steps)
    ensures Inv(Exec(s, steps))
    decreases |steps|
  {
    hide Inv, Enabled, Next;
    if steps != [] {
      StepKeeps(s, steps[0]);
      ExecKeeps(Next(s, steps[0]), steps[1..]);
    }
  }

  /** The flow a thread tears down on an error of its own. */
  function TornDown(s: State, step: Step): set<Flow>
    requires Enabled(s, step)
  {
    match step
    case SendFails => {s.recv.flow}
    case ReadFails(f) => {f}
    case _ => {}
  }

  /** In every reachable state: no stream is lost track of, no two sources share a stream, the table
      holds only open streams, and every reply went to the source its stream was opened for. */
  lemma ReachableFlows(steps: seq<Step>, f: Flow, k: Src, k': Src, i: nat)
    requires Legal(INITIAL, steps)
    ensures var s := Exec(INITIAL, steps);
            && (f in s.source ==> Accounted(s, f))
            && (k in s.flows ==> s.flows[k] !in s.closed && s.flows[k] in s.source && s.source[s.flows[k]] == k)
            && (k in s.flows && k' in s.flows && s.flows[k] == s.flows[k'] ==> k == k')
            && (i < |s.replies| ==> s.replies[i].0 in s.source && s.source[s.replies[i].0] == s.replies[i].1)
  {
    ExecKeeps(INITIAL, steps);
    var s := Exec(INITIAL, steps);
    assert k in s.flows ==> EntryOK(s, k);
    assert k' in s.flows ==> EntryOK(s, k');
  }

  /** One step evicts a flow only by its own teardown or a sweep, the collector's only when the flow has been
      quiet longer than the limit. */
  lemma StepEvicts(s: State, step: Step, k: Src)
    requires Inv(s) && Enabled(s, step) && k in s.flows
    ensures var s' := Next(s, step);
            || (k in s'.flows && s'.flows[k] == s.flows[k])
            || Evicts(s, step, k)
  {
    assert EntryOK(s, k);
  }

  /** The step is the teardown of this very flow, an idle sweep that finds it idle, or shutdown. */
  predicate Evicts(s: State, step: Step, k: Src)
    requires Enabled(s, step) && k in s.flows
  {
    || s.flows[k] in TornDown(s, step)
    || (step.Collect? && k in IdleFlows(s, step.now, step.idle))
    || step.CloseAll?
  }

  /** None of the steps evicts the flow that k has when it is taken. */
  ghost predicate Spared(s: State, steps: seq<Step>, k: Src)
    requires Legal(s, steps)
    decreases |steps|
  {
    steps == [] ||
    (&& k in s.flows && !Evicts(s, steps[0], k) && Spared(Next(s, steps[0]), steps[1..], k))
  }

  /** Teardown never evicts a newer flow: through any steps of any threads, a flow stays in the table until
      its own teardown, a sweep that finds it idle, or shutdown.  In particular the teardown of an older
      flow of the same source, however late, leaves it alone. */
  lemma {:induction false} FlowStays(s: State, steps: seq<Step>, k: Src)
    requires Inv(s) && Legal(s, steps) && k in s.flows && Spared(s, steps, k)
    ensures k in Exec(s, steps).flows && Exec(s, steps).flows[k] == s.flows[k]
    decreases |steps|
  {
    hide Inv, Enabled, Next, Evicts;
    if steps != [] {
      StepKeeps(s, steps[0]);
      StepEvicts(s, steps[0], k);
      FlowStays(Next(s, steps[0]), steps[1..], k);
    }
  }

  lemma {:induction false} ExecConcat(s: State, a: seq<Step>, b: seq<Step>)
    requires Legal(s, a) && Legal(Exec(s, a), b)
    ensures Legal(s, a + b) && Exec(s, a + b) == Exec(Exec(s, a), b)
    decreases |a|
  {
    hide Enabled, Next;
    if a == [] {
      assert a + b == b;
    } else {
      assert (a + b)[1..] == a[1..] + b;
      ExecConcat(Next(s, a[0]), a[1..], b);
    }
  }

  /** The same from the start: whatever has happened, and whatever else happens. */
  lemma EvictionIsJustified(before: seq<Step>, after: seq<Step>, k: Src)
    requires Legal(INITIAL, before) && Legal(Exec(INITIAL, before), after)
    requires k in Exec(INITIAL, before).flows && Spared(Exec(INITIAL, before), after, k)
    ensures Legal(INITIAL, before + after)
    ensures var end := Exec(INITIAL, before + after);
            k in end.flows && end.flows[k] == Exec(INITIAL, before).flows[k]
  {
    hide Legal, Exec, Spared;
    assert Inv(INITIAL);
    ExecKeeps(INITIAL, before);
    FlowStays(Exec(INITIAL, before), after, k);
    ExecConcat(INITIAL, before, after);
  }

  // ---- idle means quiet in both directions --------------------------------------------------

  /** The step is traffic of the flow that k then has: a datagram from k, or a reply delivered to k. */
  predicate Traffic(s: State, step: Step, k: Src)
    requires Enabled(s, step)
  {
    || (step.Datagram? && step.src == k && (k in s.flows || step.ok))
    || (step.Refresh? && k in s.flows && s.flows[k] == step.flow)
  }

  function HeardNext(s: State, step: Step, k: Src, h: Option<Time>): Option<Time>
    requires Enabled(s, step)
  {
    if Traffic(s, step, k) then Some(step.now) else h
  }

  /** When k was last heard of, by the times in the steps; h is when it was before. */
  ghost function Heard(s: State, steps: seq<Step>, k: Src, h: Option<Time>): Option<Time>
    requires Legal(s, steps)
    decreases |steps|
  {
    if steps == [] then h
    else Heard(Next(s, steps[0]), steps[1..], k, HeardNext(s, steps[0], k, h))
  }

  ghost predicate RecordsLast(s: State, k: Src, h: Option<Time>) {
    k in s.flows ==> s.flows[k] in s.last && h == Some(s.last[s.flows[k]])
  }

  lemma StepRecords(s: State, step: Step, k: Src, h: Option<Time>)
    requires Inv(s) && Enabled(s, step) && RecordsLast(s, k, h)
    ensures RecordsLast(Next(s, step), k, HeardNext(s, step, k, h))
  {
    hide AllAccounted, RepliesOK;
    if k in s.flows { assert EntryOK(s, k); }
    if step.Datagram? && step.src in s.flows { assert EntryOK(s, step.src); }
  }

  lemma {:induction false} RunRecords(s: State, steps: seq<Step>, k: Src, h: Option<Time>)
    requires Inv(s) && Legal(s, steps) && RecordsLast(s, k, h)
    ensures RecordsLast(Exec(s, steps), k, Heard(s, steps, k, h))
    decreases |steps|
  {
    hide Inv, Enabled, Next, HeardNext, RecordsLast;
    if steps != [] {
      StepKeeps(s, steps[0]);
      StepRecords(s, steps[0], k, h);
      RunRecords(Next(s, steps[0]), steps[1..], k, HeardNext(s, steps[0], k, h));
    }
  }

  /** The collector takes a flow if and only if neither a datagram nor a delivered reply of it happened
      within the limit. */
  lemma CollectsExactlyIdle(steps: seq<Step>, k: Src, now: Time, idle: nat)
    requires Legal(INITIAL, steps) && k in Exec(INITIAL, steps).flows
    ensures var s, heard := Exec(INITIAL, steps), Heard(INITIAL, steps, k, None);
            heard.Some? && (k in Next(s, Collect(now, idle)).flows <==> now - heard.value <= idle)
  {
    hide Legal, Exec, Heard;
    assert Inv(INITIAL);
    RunRecords(INITIAL, steps, k, None);
  }

  /** No collection counts back to before t, and the clock does not run backwards. */
  predicate Within(steps: seq<Step>, t: Time) {
    forall i :: 0 <= i < |steps| ==>
      && (steps[i].Collect? ==> steps[i].now - t <= steps[i].idle)
      && (steps[i].Datagram? || steps[i].Refresh? ==> steps[i].now >= t)
  }

  /** Neither shutdown nor an error of the flow's own threads. */
  ghost predicate Undisturbed(s: State, steps: seq<Step>, k: Src)
    requires Legal(s, steps)
    decreases |steps|
  {
    steps == [] ||
    (&& !steps[0].CloseAll? && (k in s.flows ==> s.flows[k] !in TornDown(s, steps[0]))
     && Undisturbed(Next(s, steps[0]), steps[1..], k))
  }

  lemma {:induction false} RecentStays(s: State, steps: seq<Step>, k: Src, t: Time, h: Time)
    requires Inv(s) && Legal(s, steps) && k in s.flows && RecordsLast(s, k, Some(h)) && h >= t
    requires Within(steps, t) && Undisturbed(s, steps, k)
    ensures k in Exec(s, steps).flows && Exec(s, steps).flows[k] == s.flows[k]
    decreases |steps|
  {
    hide Inv, Enabled, Next;
    if steps != [] {
      StepKeeps(s, steps[0]);
      StepEvicts(s, steps[0], k);
      StepRecords(s, steps[0], k, Some(h));
      assert Within(steps[1..], t);
      RecentStays(Next(s, steps[0]), steps[1..], k, t, if Traffic(s, steps[0], k) then steps[0].now else h);
    }
  }

  /** A busy flow is spared: once a datagram from k, or a reply delivered to k, has happened at time t, no
      collection that looks back no further than t takes the flow, whatever else happens. */
  lemma BusyFlowIsSpared(before: seq<Step>, step: Step, after: seq<Step>, k: Src)
    requires Legal(INITIAL, before) && Enabled(Exec(INITIAL, before), step)
    requires Traffic(Exec(INITIAL, before), step, k) && Within(after, step.now)
    requires var s := Next(Exec(INITIAL, before), step); Legal(s, after) && Undisturbed(s, after, k)
    ensures var s := Next(Exec(INITIAL, before), step);
            k in s.flows && k in Exec(s, after).flows && Exec(s, after).flows[k] == s.flows[k]
  {
    hide Legal, Exec, Undisturbed, Within;
    assert Inv(INITIAL);
    ExecKeeps(INITIAL, before);
    var s0 := Exec(INITIAL, before);
    var s := Next(s0, step);
    StepKeeps(s0, step);
    assert k in s.flows;
    assert EntryOK(s, k);
    RunRecords(INITIAL, before, k, None);
    StepRecords(s0, step, k, Heard(INITIAL, before, k, None));
    RecentStays(s, after, k, step.now, step.now);
  }

  lemma StaysDelivered(s: State, step: Step, f: Flow)
    requires Inv(s) && Enabled(s, step) && f in s.repliers && s.repliers[f].pc.Delivered?
    requires !(step.Refresh? && step.flow == f)
    ensures f in Next(s, step).repliers && Next(s, step).repliers[f].pc.Delivered?
  {
    hide TableOK, AllAccounted, RepliesOK;
  }

  lemma {:induction false} StaysUnrecorded(s: State, steps: seq<Step>, f: Flow)
    requires Inv(s) && Legal(s, steps) && f in s.repliers && s.repliers[f].pc.Delivered?
    requires forall i :: 0 <= i < |steps| ==> !(steps[i].Refresh? && steps[i].flow == f)
    ensures f in Exec(s, steps).repliers && Exec(s, steps).repliers[f].pc.Delivered?
    decreases |steps|
  {
    hide Inv, Next, Enabled;
    if steps != [] {
      StaysDelivered(s, steps[0], f);
      StepKeeps(s, steps[0]);
      StaysUnrecorded(Next(s, steps[0]), steps[1..], f);
    }
  }

  /** A reader that has delivered a reply records it before it reads, or fails, again. */
  lemma RefreshComesFirst(before: seq<Step>, f: Flow, after: seq<Step>)
    requires Legal(INITIAL, before) && Enabled(Exec(INITIAL, before), Reply(f))
    requires Legal(Next(Exec(INITIAL, before), Reply(f)), after)
    requires forall i :: 0 <= i < |after| ==> !(after[i].Refresh? && after[i].flow == f)
    ensures var s := Exec(Next(Exec(INITIAL, before), Reply(f)), after);
            !Enabled(s, Reply(f)) && !Enabled(s, ReplyLost(f)) && !Enabled(s, ReadFails(f))
  {
    hide Legal, Exec;
    assert Inv(INITIAL);
    ExecKeeps(INITIAL, before);
    StepKeeps(Exec(INITIAL, before), Reply(f));
    StaysUnrecorded(Next(Exec(INITIAL, before), Reply(f)), after, f);
  }

  // ---- where datagrams go -------------------------------------------------------------------

  /** A datagram is written to the flow of its own source, the one it has or else a new one, unless a new
      one cannot be opened. */
  lemma DatagramGoesToItsFlow(steps: seq<Step>, step: Step)
    requires Legal(INITIAL, steps) && step.Datagram? && Enabled(Exec(INITIAL, steps), step)
    ensures var s, s' := Exec(INITIAL, steps), Next(Exec(INITIAL, steps), step);
            if step.src !in s.flows && !step.ok then s' == s
            else
              && step.src in s'.flows && s'.recv == Sending(s'.flows[step.src], step.src)
              && s'.flows[step.src] in s'.source && s'.source[s'.flows[step.src]] == step.src
              && (if step.src in s.flows then s'.flows == s.flows && s'.source == s.source
                  else s'.flows[step.src] !in s.source)
  {
    hide Legal, Exec;
    assert Inv(INITIAL);
    ExecKeeps(INITIAL, steps);
    var s := Exec(INITIAL, steps);
    if step.src in s.flows { assert EntryOK(s, step.src); }
  }

  /** The replies delivered, by the steps. */
  function RepliesIn(steps: seq<Step>): seq<Flow> {
    if steps == [] then [] else (if steps[0].Reply? then [steps[0].flow] else []) + RepliesIn(steps[1..])
  }

  lemma StepReplies(s: State, step: Step)
    requires Enabled(s, step)
    ensures var s' := Next(s, step);
            if step.Reply? then |s'.replies| == |s.replies| + 1 && s'.replies[|s.replies|].0 == step.flow
                                && s'.replies[..|s.replies|] == s.replies
            else s'.replies == s.replies
  {
  }

  lemma {:induction false} RepliesGrow(s: State, steps: seq<Step>)
    requires Legal(s, steps)
    ensures var s' := Exec(s, steps);
            && |s'.replies| == |s.replies| + |RepliesIn(steps)|
            && (forall i :: 0 <= i < |s.replies| ==> s'.replies[i] == s.replies[i])
            && (forall i :: 0 <= i < |RepliesIn(steps)| ==> s'.replies[|s.replies| + i].0 == RepliesIn(steps)[i])
    decreases |steps|
  {
    hide Enabled, Next;
    if steps != [] {
      StepReplies(s, steps[0]);
      RepliesGrow(Next(s, steps[0]), steps[1..]);
    }
  }

  /** Every reply is delivered once and in order, to the source its stream was opened for. */
  lemma RepliesReachTheirSource(steps: seq<Step>, i: nat)
    requires Legal(INITIAL, steps)
    ensures var s := Exec(INITIAL, steps);
            && |s.replies| == |RepliesIn(steps)|
            && (i < |s.replies| ==>
                  && s.replies[i].0 == RepliesIn(steps)[i]
                  && s.replies[i].0 in s.source && s.replies[i].1 == s.source[s.replies[i].0])
  {
    hide Legal, Exec, RepliesIn;
    RepliesGrow(INITIAL, steps);
    ReachableFlows(steps, 0, "", "", i);
  }

  /** Shutdown leaves no flow, and every stream ever opened closed or about to be. */
  lemma ShutdownClosesAll(steps: seq<Step>, f: Flow)
    requires Legal(INITIAL, steps)
    ensures var s := Next(Exec(INITIAL, steps), CloseAll);
            && s.flows == map[]
            && (f in s.source ==> f in s.closed || (f in s.removedBy && AboutToClose(s, s.removedBy[f], f)))
  {
    hide Legal, Exec;
    assert Inv(INITIAL);
    ExecKeeps(INITIAL, steps);
    StepKeeps(Exec(INITIAL, steps), CloseAll);
  }
}
