/** Concurrent readers of one Cache (pkg/blockcache/blockcache.go: ReadAt, chunk), as a state machine.

    Each reader loops over the chunks of its range.  For a chunk it looks in the store, and on a miss
    enters the singleflight group: the first one in leads the flight, looks again, fetches piece by
    piece, stores and publishes; the others wait for its result.  Readers' steps interleave in any
    order, the store may lose chunks at any time, and puts may fail.
 */
module SharedFlights {
  import opened Bytes
  import opened Options
  import opened Caller

  type Tid = nat
  type FlightId = nat
  type FileNo = nat

  datatype Key = Key(file: FileNo, idx: nat)

  datatype Outcome = Got(data: seq<Byte>) | Failed

  datatype Pc =
    | Look                                        // first storeGet
    | Enter                                       // about to call sf.Do
    | Wait(flight: FlightId)                      // joined another reader's flight
    | Recheck(flight: FlightId)                   // leading: second storeGet
    | Fetch(flight: FlightId, buf: seq<Byte>)     // leading: inside fillFull
    | Put(flight: FlightId, buf: seq<Byte>)       // leading: about to store
    | Publish(flight: FlightId, res: Outcome)     // leading: about to leave the group
    | Have(res: Outcome)                          // sf.Do, or the first storeGet, has returned
    | Done(eof: bool, failed: bool)

  /** One ReadAt call: want bytes at off of a file, out copied so far. */
  datatype Reader = Reader(file: FileNo, off: nat, want: nat, out: seq<Byte>, pc: Pc)

  /** flights: the keys in the group; ids and results of flights are kept for waiters. */
  datatype State = State(
    store: map<Key, seq<Byte>>,
    flights: map<Key, FlightId>,
    leaders: map<FlightId, Tid>,
    keys: map<FlightId, Key>,
    results: map<FlightId, Outcome>,
    readers: map<Tid, Reader>)

  /** What the machine runs over: the chunk size, the origin's files, and whether fetches can fail. */
  datatype World = World(cs: nat, origin: FileNo -> seq<Byte>, canFail: bool)

  datatype Step =
    | Spawn(t: Tid, file: FileNo, off: nat, want: nat)
    | Hit(t: Tid)                    // a storeGet finds the chunk
    | Miss(t: Tid)                   // a storeGet does not, or errs
    | Lead(t: Tid, flight: FlightId) // sf.Do finds no flight for the key
    | Join(t: Tid)                   // sf.Do finds one
    | FetchSome(t: Tid, n: nat)      // one origin read
    | FetchEnds(t: Tid)              // the origin ends early or fails
    | Store(t: Tid, kept: bool)      // best-effort Put
    | Leave(t: Tid)                  // publish the result and leave the group
    | Wake(t: Tid)                   // a waiter receives the result
    | Copy(t: Tid)                   // copy into the caller's buffer, next chunk or return
    | Lose(key: Key)                 // the store loses a chunk

  function Size(w: World, file: FileNo): nat {
    |w.origin(file)|
  }

  function Pos(r: Reader): nat {
    r.off + |r.out|
  }

  function End(w: World, r: Reader): nat {
    Min(r.off + r.want, Size(w, r.file))
  }

  function KeyOf(w: World, r: Reader): Key
    requires w.cs > 0
  {
    Key(r.file, ChunkOf(w.cs, Pos(r)))
  }

  function LenOf(w: World, k: Key): nat {
    ChunkLen(w.cs, k.idx, Size(w, k.file))
  }

  /** The origin's bytes of a chunk. */
  function Chunk(w: World, k: Key): seq<Byte> {
    Origin(w.origin(k.file), Start(w.cs, k.idx), LenOf(w, k))
  }

  function SetPc(s: State, t: Tid, pc: Pc): State
    requires t in s.readers
  {
    s.(readers := s.readers[t := s.readers[t].(pc := pc)])
  }

  predicate Leading(pc: Pc) {
    pc.Recheck? || pc.Fetch? || pc.Put? || pc.Publish?
  }

  ghost predicate Enabled(w: World, s: State, step: Step)
    requires w.cs > 0
  {
    match step
    case Spawn(t, _, _, _) => t !in s.readers
    case Hit(t) =>
      && t in s.readers && (s.readers[t].pc.Look? || s.readers[t].pc.Recheck?)
      && KeyOf(w, s.readers[t]) in s.store && |s.store[KeyOf(w, s.readers[t])]| == LenOf(w, KeyOf(w, s.readers[t]))
    case Miss(t) => t in s.readers && (s.readers[t].pc.Look? || s.readers[t].pc.Recheck?)
    case Lead(t, flight) =>
      t in s.readers && s.readers[t].pc.Enter? && KeyOf(w, s.readers[t]) !in s.flights && flight !in s.keys
    case Join(t) => t in s.readers && s.readers[t].pc.Enter? && KeyOf(w, s.readers[t]) in s.flights
    case FetchSome(t, n) =>
      && t in s.readers && s.readers[t].pc.Fetch? && n > 0
      && |s.readers[t].pc.buf| + n <= LenOf(w, KeyOf(w, s.readers[t]))
    case FetchEnds(t) => t in s.readers && s.readers[t].pc.Fetch? && w.canFail
    case Store(t, _) => t in s.readers && s.readers[t].pc.Put?
    case Leave(t) => t in s.readers && s.readers[t].pc.Publish?
    case Wake(t) => t in s.readers && s.readers[t].pc.Wait? && s.readers[t].pc.flight in s.results
    case Copy(t) => t in s.readers && s.readers[t].pc.Have?
    case Lose(_) => true
  }

  /** After a fetch: done when the chunk is full, else keep looping. */
  function AfterFetch(w: World, k: Key, flight: FlightId, buf: seq<Byte>): Pc {
    if |buf| == LenOf(w, k) then Put(flight, buf) else Fetch(flight, buf)
  }

  /** The reader after copying a chunk out. */
  function Copied(w: World, r: Reader, data: seq<Byte>): Reader
    requires w.cs > 0
  {
    var inChunk := Pos(r) - Start(w.cs, ChunkOf(w.cs, Pos(r)));
    if 0 <= inChunk < |data| && Pos(r) < End(w, r) then
      var n := Min(End(w, r) - Pos(r), |data| - inChunk);
      var out := r.out + data[inChunk..inChunk + n];
      Reader(r.file, r.off, r.want, out,
             if r.off + |out| < End(w, r) then Look else Done(|out| < r.want, false))
    else
      r.(pc := Done(|r.out| < r.want, false))
  }

  function Next(w: World, s: State, step: Step): State
    requires w.cs > 0 && Enabled(w, s, step)
  {
    match step
    case Spawn(t, file, off, want) =>
      var pc := if want == 0 then Done(false, false)
                else if off >= Size(w, file) then Done(true, false)
                else Look;
      s.(readers := s.readers[t := Reader(file, off, want, [], pc)])
    case Hit(t) =>
      var r := s.readers[t];
      var res := Got(s.store[KeyOf(w, r)]);
      SetPc(s, t, if r.pc.Look? then Have(res) else Publish(r.pc.flight, res))
    case Miss(t) =>
      var r := s.readers[t];
      SetPc(s, t, if r.pc.Look? then Enter else AfterFetch(w, KeyOf(w, r), r.pc.flight, []))
    case Lead(t, flight) =>
      var k := KeyOf(w, s.readers[t]);
      SetPc(s, t, Recheck(flight))
        .(flights := s.flights[k := flight], leaders := s.leaders[flight := t], keys := s.keys[flight := k])
    case Join(t) => SetPc(s, t, Wait(s.flights[KeyOf(w, s.readers[t])]))
    case FetchSome(t, n) =>
      var r := s.readers[t];
      var k := KeyOf(w, r);
      var piece := Origin(w.origin(k.file), Start(w.cs, k.idx) + |r.pc.buf|, n);
      SetPc(s, t, AfterFetch(w, k, r.pc.flight, r.pc.buf + piece))
    case FetchEnds(t) => SetPc(s, t, Publish(s.readers[t].pc.flight, Failed))
    case Store(t, kept) =>
      var r := s.readers[t];
      var p := SetPc(s, t, Publish(r.pc.flight, Got(r.pc.buf)));
      if kept then p.(store := s.store[KeyOf(w, r) := r.pc.buf]) else p
    case Leave(t) =>
      var r := s.readers[t];
      SetPc(s, t, Have(r.pc.res))
        .(flights := s.flights - {KeyOf(w, r)}, results := s.results[r.pc.flight := r.pc.res])
    case Wake(t) => SetPc(s, t, Have(s.results[s.readers[t].pc.flight]))
    case Copy(t) =>
      var r := s.readers[t];
      (match r.pc.res
       case Got(data) => s.(readers := s.readers[t := Copied(w, r, data)])
       case Failed => SetPc(s, t, Done(false, r.out == [])))
    case Lose(key) => s.(store := s.store - {key})
  }

  // ---- the invariant ------------------------------------------------------------------------

  ghost predicate OutcomeOK(w: World, k: Key, res: Outcome) {
    match res
    case Got(data) => data == Chunk(w, k)
    case Failed => w.canFail
  }

  /** A leader holds the flight registered under its key. */
  ghost predicate LeadsOK(w: World, s: State, t: Tid, flight: FlightId)
    requires w.cs > 0 && t in s.readers
  {
    && KeyOf(w, s.readers[t]) in s.flights && s.flights[KeyOf(w, s.readers[t])] == flight
    && flight in s.leaders && s.leaders[flight] == t
  }

  ghost predicate FetchedOK(w: World, k: Key, buf: seq<Byte>) {
    && |buf| <= LenOf(w, k)
    && buf == Origin(w.origin(k.file), Start(w.cs, k.idx), |buf|)
  }

  ghost predicate PcOK(w: World, s: State, t: Tid)
    requires w.cs > 0 && t in s.readers
  {
    var r := s.readers[t];
    var k := KeyOf(w, r);
    match r.pc
    case Look => true
    case Enter => true
    case Wait(flight) => flight in s.keys && s.keys[flight] == k
    case Recheck(flight) => LeadsOK(w, s, t, flight)
    case Fetch(flight, buf) => LeadsOK(w, s, t, flight) && FetchedOK(w, k, buf)
    case Put(flight, buf) => LeadsOK(w, s, t, flight) && buf == Chunk(w, k)
    case Publish(flight, res) => LeadsOK(w, s, t, flight) && OutcomeOK(w, k, res)
    case Have(res) => OutcomeOK(w, k, res)
    case Done(eof, failed) => true
  }

  /** What the reader has is the origin's, and it is finished only when the range is. */
  ghost predicate OutOK(w: World, r: Reader) {
    && r.out == Origin(w.origin(r.file), r.off, |r.out|)
    && |r.out| <= r.want
    && (!r.pc.Done? ==> Pos(r) < End(w, r))
    && (r.pc.Done? && !w.canFail ==>
          && r.out == Origin(w.origin(r.file), r.off, r.want)
          && (r.pc.eof <==> r.want > 0 && r.off + r.want > Size(w, r.file))
          && !r.pc.failed)
  }

  ghost predicate TablesOK(w: World, s: State) {
    && (forall k :: k in s.flights ==> s.flights[k] in s.keys && s.keys[s.flights[k]] == k)
    && (forall k :: k in s.store ==> s.store[k] == Chunk(w, k))
    && (forall flight :: flight in s.results ==> flight in s.keys && OutcomeOK(w, s.keys[flight], s.results[flight]))
    && (forall flight :: flight in s.leaders ==> flight in s.keys)
  }

  ghost predicate Inv(w: World, s: State)
    requires w.cs > 0
  {
    && TablesOK(w, s)
    && forall t :: t in s.readers ==> PcOK(w, s, t) && OutOK(w, s.readers[t])
  }

  /** At most one reader is fetching, or about to, for any chunk of any file. */
  lemma OneFetchPerChunk(w: World, s: State, t: Tid, u: Tid)
    requires w.cs > 0 && Inv(w, s)
    requires t in s.readers && Leading(s.readers[t].pc)
    requires u in s.readers && Leading(s.readers[u].pc)
    requires KeyOf(w, s.readers[t]) == KeyOf(w, s.readers[u])
    ensures t == u
  {
    assert PcOK(w, s, t) && PcOK(w, s, u);
  }

  // ---- every step keeps it ------------------------------------------------------------------

  /** Extending a fetched prefix by an honest piece. */
  lemma FetchExtends(w: World, k: Key, buf: seq<Byte>, n: nat)
    requires FetchedOK(w, k, buf) && |buf| + n <= LenOf(w, k)
    ensures FetchedOK(w, k, buf + Origin(w.origin(k.file), Start(w.cs, k.idx) + |buf|, n))
    ensures |Origin(w.origin(k.file), Start(w.cs, k.idx) + |buf|, n)| == n
  {
    hide Start;
    var f, off := w.origin(k.file), Start(w.cs, k.idx);
    var piece := Origin(f, off + |buf|, n);
    assert off + LenOf(w, k) <= |f| || LenOf(w, k) == 0;
    SameBytes(buf + piece, Origin(f, off, |buf + piece|));
  }

  lemma OriginSlice(f: seq<Byte>, start: nat, len: nat, from: nat, n: nat)
    requires start + len <= |f| && from + n <= len
    ensures Origin(f, start, len)[from..from + n] == Origin(f, start + from, n)
  {
    if n > 0 {
      hide Origin;
      var a, b := Origin(f, start, len)[from..from + n], Origin(f, start + from, n);
      forall k | 0 <= k < n ensures At(a, k) == At(b, k) {
        assert At(f, start + from + k) == Origin(f, start, len)[from + k];
      }
      SameBytes(a, b);
    }
  }

  lemma OriginAppend(f: seq<Byte>, off: nat, a: nat, b: nat)
    requires off + a + b <= |f|
    ensures Origin(f, off, a) + Origin(f, off + a, b) == Origin(f, off, a + b)
  {
    hide Origin;
    var x, y := Origin(f, off, a) + Origin(f, off + a, b), Origin(f, off, a + b);
    forall k | 0 <= k < a + b ensures At(x, k) == At(y, k) {
      assert At(f, off + k) == y[k];
      assert k < a ==> At(f, off + k) == Origin(f, off, a)[k];
      assert k >= a ==> At(f, off + k) == Origin(f, off + a, b)[k - a];
    }
    SameBytes(x, y);
  }

  lemma OriginShort(f: seq<Byte>, off: nat, n: nat)
    requires off <= |f| <= off + n
    ensures Origin(f, off, n) == Origin(f, off, |f| - off)
  {
  }

  /** Copying a chunk out extends the prefix, and ends the loop only at the end of the range. */
  lemma CopyExtends(w: World, r: Reader, data: seq<Byte>)
    requires w.cs > 0 && OutOK(w, r) && !r.pc.Done? && data == Chunk(w, KeyOf(w, r))
    ensures OutOK(w, Copied(w, r, data))
    ensures Copied(w, r, data).pc.Look? || Copied(w, r, data).pc.Done?
  {
    hide Start, ChunkOf, Origin, At;
    var f, pos := w.origin(r.file), Pos(r);
    var idx := ChunkOf(w.cs, pos);
    ChunkOfByte(w.cs, pos, idx);
    var inChunk := pos - Start(w.cs, idx);
    var n := Min(End(w, r) - pos, |data| - inChunk);
    OriginSlice(f, Start(w.cs, idx), |data|, inChunk, n);
    OriginAppend(f, r.off, |r.out|, n);
    if pos + n == |f| {
      OriginShort(f, r.off, r.want);
    }
  }

  /** A reader whose own fields and flight stay the same keeps its part of the invariant. */
  lemma OthersKeep(w: World, s: State, s': State, t: Tid)
    requires w.cs > 0 && Inv(w, s) && t in s.readers && t in s'.readers && s'.readers[t] == s.readers[t]
    requires forall flight :: flight in s.keys ==> flight in s'.keys && s'.keys[flight] == s.keys[flight]
    requires forall flight :: flight in s.leaders ==> flight in s'.leaders && s'.leaders[flight] == s.leaders[flight]
    requires Leading(s.readers[t].pc) ==>
               KeyOf(w, s.readers[t]) in s'.flights
                   && s'.flights[KeyOf(w, s.readers[t])] == s.flights[KeyOf(w, s.readers[t])]
    ensures PcOK(w, s', t) && OutOK(w, s'.readers[t])
  {
    hide OutOK, OutcomeOK, FetchedOK, ChunkOf;
    assert PcOK(w, s, t) && OutOK(w, s.readers[t]);
  }

  lemma FromInv(w: World, s: State, t: Tid)
    requires w.cs > 0 && Inv(w, s)
    ensures TablesOK(w, s)
    ensures t in s.readers ==> PcOK(w, s, t) && OutOK(w, s.readers[t])
  {
  }

  /** The tables are the same, but the store may differ as long as it holds the origin's chunks. */
  ghost predicate SameFlights(w: World, s: State, s': State) {
    && s'.flights == s.flights && s'.leaders == s.leaders && s'.keys == s.keys && s'.results == s.results
    && (s'.store == s.store || forall k :: k in s'.store ==> s'.store[k] == Chunk(w, k))
  }

  lemma TablesKeep(w: World, s: State, s': State)
    requires TablesOK(w, s) && SameFlights(w, s, s')
    ensures TablesOK(w, s')
  {
    hide OutcomeOK, Chunk;
  }

  /** A step that changes one reader and nothing the others depend on. */
  lemma OneReader(w: World, s: State, s': State, t: Tid)
    requires w.cs > 0 && Inv(w, s)
    requires t in s'.readers && s'.readers == s.readers[t := s'.readers[t]]
    requires SameFlights(w, s, s')
    requires PcOK(w, s', t) && OutOK(w, s'.readers[t])
    ensures Inv(w, s')
  {
    hide OutOK, PcOK, TablesOK, ChunkOf, Chunk;
    TablesKeep(w, s, s');
    forall u | u in s'.readers ensures PcOK(w, s', u) && OutOK(w, s'.readers[u]) {
      if u != t {
        LeaderRegistered(w, s, u);
        OthersKeep(w, s, s', u);
      }
    }
  }

  lemma LeaderRegistered(w: World, s: State, t: Tid)
    requires w.cs > 0 && Inv(w, s) && t in s.readers
    ensures Leading(s.readers[t].pc) ==> KeyOf(w, s.readers[t]) in s.flights
  {
    hide OutOK, OutcomeOK, FetchedOK, ChunkOf, TablesOK;
    assert PcOK(w, s, t);
  }

  lemma SpawnKeeps(w: World, s: State, t: Tid, file: FileNo, off: nat, want: nat)
    requires w.cs > 0 && Inv(w, s) && t !in s.readers
    ensures Inv(w, Next(w, s, Spawn(t, file, off, want)))
  {
    hide ChunkOf, Inv;
    OneReader(w, s, Next(w, s, Spawn(t, file, off, want)), t);
  }

  /** OutOK looks at the pc only to see whether the reader is finished. */
  lemma SameOut(w: World, r: Reader, pc: Pc)
    requires OutOK(w, r) && !r.pc.Done? && !pc.Done?
    ensures OutOK(w, r.(pc := pc))
  {
    hide Origin;
  }

  /** A step of one running reader to another running pc, leaving the tables alone. */
  lemma Moves(w: World, s: State, t: Tid, pc: Pc)
    requires w.cs > 0 && Inv(w, s) && t in s.readers && !s.readers[t].pc.Done? && !pc.Done?
    requires PcOK(w, SetPc(s, t, pc), t)
    ensures Inv(w, SetPc(s, t, pc))
  {
    hide Inv, PcOK, OutOK;
    FromInv(w, s, t);
    SameOut(w, s.readers[t], pc);
    OneReader(w, s, SetPc(s, t, pc), t);
  }

  lemma HitKeeps(w: World, s: State, t: Tid)
    requires w.cs > 0 && Inv(w, s) && Enabled(w, s, Hit(t))
    ensures Inv(w, Next(w, s, Hit(t)))
  {
    hide ChunkOf, Chunk, Inv, OutOK;
    FromInv(w, s, t);
    var r := s.readers[t];
    var res := Got(s.store[KeyOf(w, r)]);
    Moves(w, s, t, if r.pc.Look? then Have(res) else Publish(r.pc.flight, res));
  }

  lemma MissKeeps(w: World, s: State, t: Tid)
    requires w.cs > 0 && Inv(w, s) && Enabled(w, s, Miss(t))
    ensures Inv(w, Next(w, s, Miss(t)))
  {
    hide ChunkOf, Chunk, Inv, OutOK, FetchedOK, LenOf;
    FromInv(w, s, t);
    EmptyFetched(w, s, t);
    var r := s.readers[t];
    Moves(w, s, t, if r.pc.Look? then Enter else Fetch(r.pc.flight, []));
  }

  /** A running reader's chunk is not empty, so a flight starts by fetching. */
  lemma EmptyFetched(w: World, s: State, t: Tid)
    requires w.cs > 0 && t in s.readers && OutOK(w, s.readers[t]) && !s.readers[t].pc.Done?
    ensures FetchedOK(w, KeyOf(w, s.readers[t]), [])
    ensures LenOf(w, KeyOf(w, s.readers[t])) > 0
  {
    hide ChunkOf, Start;
    ChunkOfByte(w.cs, Pos(s.readers[t]), ChunkOf(w.cs, Pos(s.readers[t])));
  }

  lemma JoinKeeps(w: World, s: State, t: Tid)
    requires w.cs > 0 && Inv(w, s) && Enabled(w, s, Join(t))
    ensures Inv(w, Next(w, s, Join(t)))
  {
    hide ChunkOf, Inv, OutOK, OutcomeOK, Chunk;
    FromInv(w, s, t);
    Moves(w, s, t, Wait(s.flights[KeyOf(w, s.readers[t])]));
  }

  lemma FetchEndsKeeps(w: World, s: State, t: Tid)
    requires w.cs > 0 && Inv(w, s) && Enabled(w, s, FetchEnds(t))
    ensures Inv(w, Next(w, s, FetchEnds(t)))
  {
    hide ChunkOf, Inv, OutOK, FetchedOK, Chunk, TablesOK;
    FromInv(w, s, t);
    Moves(w, s, t, Publish(s.readers[t].pc.flight, Failed));
  }

  lemma WakeKeeps(w: World, s: State, t: Tid)
    requires w.cs > 0 && Inv(w, s) && Enabled(w, s, Wake(t))
    ensures Inv(w, Next(w, s, Wake(t)))
  {
    hide ChunkOf, Inv, OutOK, OutcomeOK, Chunk;
    FromInv(w, s, t);
    Moves(w, s, t, Have(s.results[s.readers[t].pc.flight]));
  }

  lemma FetchKeeps(w: World, s: State, t: Tid, n: nat)
    requires w.cs > 0 && Inv(w, s) && Enabled(w, s, FetchSome(t, n))
    ensures Inv(w, Next(w, s, FetchSome(t, n)))
  {
    hide ChunkOf, Inv, OutOK, LenOf, TablesOK, Origin;
    FromInv(w, s, t);
    var r := s.readers[t];
    var k := KeyOf(w, r);
    FetchExtends(w, k, r.pc.buf, n);
    var buf := r.pc.buf + Origin(w.origin(k.file), Start(w.cs, k.idx) + |r.pc.buf|, n);
    Moves(w, s, t, AfterFetch(w, k, r.pc.flight, buf));
  }

  lemma StoreKeeps(w: World, s: State, t: Tid, kept: bool)
    requires w.cs > 0 && Inv(w, s) && Enabled(w, s, Store(t, kept))
    ensures Inv(w, Next(w, s, Store(t, kept)))
  {
    hide ChunkOf, Chunk, Inv, OutOK;
    FromInv(w, s, t);
    SameOut(w, s.readers[t], Publish(s.readers[t].pc.flight, Got(s.readers[t].pc.buf)));
    OneReader(w, s, Next(w, s, Store(t, kept)), t);
  }

  lemma CopyKeeps(w: World, s: State, t: Tid)
    requires w.cs > 0 && Inv(w, s) && Enabled(w, s, Copy(t))
    ensures Inv(w, Next(w, s, Copy(t)))
  {
    hide ChunkOf, Copied, Inv, Chunk, TablesOK, Origin;
    FromInv(w, s, t);
    if s.readers[t].pc.res.Got? {
      CopyExtends(w, s.readers[t], s.readers[t].pc.res.data);
    }
    OneReader(w, s, Next(w, s, Copy(t)), t);
  }

  lemma LeadTables(w: World, s: State, t: Tid, flight: FlightId)
    requires w.cs > 0 && Inv(w, s) && Enabled(w, s, Lead(t, flight))
    ensures TablesOK(w, Next(w, s, Lead(t, flight)))
  {
    hide ChunkOf, OutOK, OutcomeOK, Chunk, FetchedOK;
  }

  lemma LeadKeeps(w: World, s: State, t: Tid, flight: FlightId)
    requires w.cs > 0 && Inv(w, s) && Enabled(w, s, Lead(t, flight))
    ensures Inv(w, Next(w, s, Lead(t, flight)))
  {
    hide ChunkOf, OutOK, OutcomeOK, Chunk, FetchedOK, TablesOK;
    var s' := Next(w, s, Lead(t, flight));
    LeadTables(w, s, t, flight);
    forall u | u in s'.readers ensures PcOK(w, s', u) && OutOK(w, s'.readers[u]) {
      FromInv(w, s, u);
      if u != t {
        LeaderRegistered(w, s, u);
        OthersKeep(w, s, s', u);
      } else {
        SameOut(w, s.readers[t], Recheck(flight));
      }
    }
  }

  /** Leaving the group frees the key; no other reader was leading it. */
  lemma LeaveKeeps(w: World, s: State, t: Tid)
    requires w.cs > 0 && Inv(w, s) && Enabled(w, s, Leave(t))
    ensures Inv(w, Next(w, s, Leave(t)))
  {
    hide ChunkOf, OutOK, OutcomeOK, Chunk, FetchedOK;
    var s' := Next(w, s, Leave(t));
    FromInv(w, s, t);
    assert TablesOK(w, s');
    forall u | u in s'.readers ensures PcOK(w, s', u) && OutOK(w, s'.readers[u]) {
      FromInv(w, s, u);
      if u != t {
        LeaderRegistered(w, s, u);
        if Leading(s.readers[u].pc) && KeyOf(w, s.readers[u]) == KeyOf(w, s.readers[t]) {
          OneFetchPerChunk(w, s, t, u);
        }
        OthersKeep(w, s, s', u);
      } else {
        SameOut(w, s.readers[t], Have(s.readers[t].pc.res));
      }
    }
  }

  lemma LoseKeeps(w: World, s: State, key: Key)
    requires w.cs > 0 && Inv(w, s)
    ensures Inv(w, Next(w, s, Lose(key)))
  {
    hide ChunkOf, OutOK, Chunk, OutcomeOK;
    var s' := Next(w, s, Lose(key));
    forall u | u in s'.readers ensures PcOK(w, s', u) && OutOK(w, s'.readers[u]) {
      LeaderRegistered(w, s, u);
      OthersKeep(w, s, s', u);
    }
  }

  lemma StepKeeps(w: World, s: State, step: Step)
    requires w.cs > 0 && Inv(w, s) && Enabled(w, s, step)
    ensures Inv(w, Next(w, s, step))
  {
    hide Inv, Next;
    match step
    case Spawn(t, file, off, want) => SpawnKeeps(w, s, t, file, off, want);
    case Lead(t, flight) => LeadKeeps(w, s, t, flight);
    case FetchSome(t, n) => FetchKeeps(w, s, t, n);
    case Store(t, kept) => StoreKeeps(w, s, t, kept);
    case Leave(t) => LeaveKeeps(w, s, t);
    case Copy(t) => CopyKeeps(w, s, t);
    case Lose(key) => LoseKeeps(w, s, key);
    case Hit(t) => HitKeeps(w, s, t);
    case Miss(t) => MissKeeps(w, s, t);
    case Join(t) => JoinKeeps(w, s, t);
    case FetchEnds(t) => FetchEndsKeeps(w, s, t);
    case Wake(t) => WakeKeeps(w, s, t);
  }

  // ---- whole runs ---------------------------------------------------------------------------

  const INITIAL := State(map[], map[], map[], map[], map[], map[])

  ghost predicate Legal(w: World, s: State, steps: seq<Step>)
    requires w.cs > 0
    decreases |steps|
  {
    steps == [] || (Enabled(w, s, steps[0]) && Legal(w, Next(w, s, steps[0]), steps[1..]))
  }

  ghost function Exec(w: World, s: State, steps: seq<Step>): State
    requires w.cs > 0 && Legal(w, s, steps)
    decreases |steps|
  {
    if steps == [] then s else Exec(w, Next(w, s, steps[0]), steps[1..])
  }

  lemma {:induction false} ExecKeeps(w: World, s: State, steps: seq<Step>)
    requires w.cs > 0 && Inv(w, s) && Legal(w, s, steps)
    ensures Inv(w, Exec(w, s, steps))
    decreases |steps|
  {
    hide Inv, Enabled, Next;
    if steps != [] {
      StepKeeps(w, s, steps[0]);
      ExecKeeps(w, Next(w, s, steps[0]), steps[1..]);
    }
  }

  /** Cache transparency over every interleaving: what a reader has is a prefix of the origin's bytes;
      a finished reader of an origin that does not fail has all of them, and saw end of file exactly
      when it asked past the end; and no chunk is being fetched twice. */
  lemma Transparent(w: World, steps: seq<Step>, t: Tid, u: Tid)
    requires w.cs > 0 && Legal(w, INITIAL, steps)
    requires t in Exec(w, INITIAL, steps).readers && u in Exec(w, INITIAL, steps).readers
    ensures var s := Exec(w, INITIAL, steps);
            var r := s.readers[t];
            && r.out == Origin(w.origin(r.file), r.off, |r.out|)
            && (r.pc.Done? && !w.canFail ==>
                  && r.out == Origin(w.origin(r.file), r.off, r.want)
                  && (r.pc.eof <==> r.want > 0 && r.off + r.want > Size(w, r.file)))
            && (Leading(r.pc) && Leading(s.readers[u].pc) && KeyOf(w, r) == KeyOf(w, s.readers[u]) ==> t == u)
  {
    hide Exec, Legal, ChunkOf;
    assert Inv(w, INITIAL);
    ExecKeeps(w, INITIAL, steps);
    var s := Exec(w, INITIAL, steps);
    assert OutOK(w, s.readers[t]);
    if Leading(s.readers[t].pc) && Leading(s.readers[u].pc) && KeyOf(w, s.readers[t]) == KeyOf(w, s.readers[u]) {
      OneFetchPerChunk(w, s, t, u);
    }
  }
}
