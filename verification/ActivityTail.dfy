/** Following the flight recorder as it is written (pkg/activity/tail.go).

    A Tailer polls the directory and returns what was appended since its last poll.  Writers append
    bytes at any time, so the end of a file may be half a record, and a stream may be rotated aside
    between polls.  Over every schedule, what has been emitted from a file is exactly the records of
    its prefix up to the last newline the tailer saw there.
 */
module ActivityTail {
  import opened Bytes
  import opened Options
  import opened Sequences
  import StableSorts

  const NL: Byte := 10

  /** One decoded line; blank and undecodable lines decode to nothing. */
  type Event = nat
  type Parser = seq<Byte> -> Option<Event>

  // ---- lines and records --------------------------------------------------------------------

  /** The index of the first newline, or the length when there is none. */
  function FirstNewline(b: seq<Byte>): (i: nat)
    ensures i <= |b| && (i < |b| ==> b[i] == NL)
    ensures forall k :: 0 <= k < i ==> b[k] != NL
  {
    if b == [] || b[0] == NL then 0 else 1 + FirstNewline(b[1..])
  }

  /** How much of b is whole lines: one past the last newline. */
  function CompleteLen(b: seq<Byte>): (n: nat)
    ensures n <= |b| && (n > 0 ==> b[n - 1] == NL)
    ensures forall k :: n <= k < |b| ==> b[k] != NL
  {
    if b == [] then 0
    else if b[|b| - 1] == NL then |b|
    else CompleteLen(b[..|b| - 1])
  }

  /** The records of the newline-terminated lines of b, in order. */
  function Records(parse: Parser, b: seq<Byte>): seq<Event>
    decreases |b|
  {
    var i := FirstNewline(b);
    if i == |b| then []
    else Record(parse, b[..i]) + Records(parse, b[i + 1..])
  }

  function Record(parse: Parser, line: seq<Byte>): seq<Event> {
    match parse(line)
    case Some(e) => [e]
    case None => []
  }

  lemma DecodeLine(parse: Parser, out: seq<Event>, b: seq<Byte>)
    requires FirstNewline(b) < |b|
    ensures var i := FirstNewline(b);
            out + Records(parse, b) ==
              (match parse(b[..i]) case Some(e) => out + [e] case None => out) + Records(parse, b[i + 1..])
  {
    hide FirstNewline;
    var i := FirstNewline(b);
    var line, rest := Record(parse, b[..i]), Records(parse, b[i + 1..]);
    assert Records(parse, b) == line + rest;
    Assoc(out, line, rest);
    assert out + [] == out;
  }

  lemma LastLine(parse: Parser, b: seq<Byte>)
    ensures FirstNewline(b) == |b| ==> Records(parse, b) == []
  {
    hide FirstNewline;
  }

  lemma Split(b: seq<Byte>, off: nat, n: nat)
    requires off + n <= |b|
    ensures b[..off] + b[off..off + n] == b[..off + n]
    ensures off + n == |b| ==> b[..off] + b[off..] == b && b[off..off + n] == b[off..]
  {
  }

  ghost predicate Whole(b: seq<Byte>) {
    b == [] || b[|b| - 1] == NL
  }

  lemma RecordsStep(parse: Parser, b: seq<Byte>)
    requires FirstNewline(b) < |b|
    ensures var i := FirstNewline(b);
            Records(parse, b) == Record(parse, b[..i]) + Records(parse, b[i + 1..])
  {
    hide FirstNewline, Record;
  }

  /** Records of whole lines followed by more are the records of both parts. */
  lemma {:induction false} RecordsConcat(parse: Parser, a: seq<Byte>, b: seq<Byte>)
    requires Whole(a)
    ensures Records(parse, a + b) == Records(parse, a) + Records(parse, b)
    decreases |a|
  {
    hide FirstNewline, Records, Record;
    if a == [] {
      NoNewline(parse, []);
      assert a + b == b;
    } else {
      var i := FirstNewline(a);
      assert i < |a| by { assert a[|a| - 1] == NL; }
      FirstNewlineConcat(a, b);
      var line, rest := a[..i], a[i + 1..];
      assert (a + b)[..i] == line && (a + b)[i + 1..] == rest + b;
      RecordsStep(parse, a);
      RecordsStep(parse, a + b);
      RecordsConcat(parse, rest, b);
      Assoc(Record(parse, line), Records(parse, rest), Records(parse, b));
    }
  }

  lemma FirstNewlineConcat(a: seq<Byte>, b: seq<Byte>)
    requires FirstNewline(a) < |a|
    ensures FirstNewline(a + b) == FirstNewline(a)
  {
    var i, j := FirstNewline(a), FirstNewline(a + b);
    assert (a + b)[i] == NL;
    if j < i { assert (a + b)[j] == a[j]; }
  }

  /** The last newline of a suffix that starts at a line is the last newline of the whole. */
  lemma CompleteLenSuffix(b: seq<Byte>, off: nat)
    requires off <= |b| && Whole(b[..off])
    ensures off + CompleteLen(b[off..]) == CompleteLen(b)
  {
    hide CompleteLen;
    var n, m := off + CompleteLen(b[off..]), CompleteLen(b);
    assert n > off ==> b[n - 1] == b[off..][n - 1 - off];
    assert n == off && off > 0 ==> b[n - 1] == b[..off][off - 1];
    assert n <= m;
    assert m > off ==> b[off..][m - 1 - off] == b[m - 1];
  }

  /** One line is one record, if it decodes. */
  lemma OneRecord(parse: Parser, line: seq<Byte>)
    requires NL !in line
    ensures Records(parse, line + [NL]) == if parse(line).Some? then [parse(line).value] else []
  {
    var b := line + [NL];
    assert FirstNewline(b) == |line| && b[..|line|] == line && b[|line| + 1..] == [] by {
      assert b[|line|] == NL;
    }
    NoNewline(parse, []);
  }

  // ---- one file, one poll -------------------------------------------------------------------

  type Ident = nat   // what os.SameFile compares

  datatype TailFile = TailFile(info: Ident, off: nat)

  /** Where reading resumes: at the remembered offset, or from the start when the name is new, points
      at another file, or the file shrank. */
  function Resume(tf: Option<TailFile>, ident: Ident, size: nat): nat {
    if tf.None? || tf.value.info != ident || size < tf.value.off then 0 else tf.value.off
  }

  function Advanced(tf: Option<TailFile>, ident: Ident, b: seq<Byte>): TailFile {
    var off := Resume(tf, ident, |b|);
    TailFile(ident, off + CompleteLen(b[off..]))
  }

  function Fresh(parse: Parser, tf: Option<TailFile>, ident: Ident, b: seq<Byte>): seq<Event> {
    var off := Resume(tf, ident, |b|);
    Records(parse, b[off..off + CompleteLen(b[off..])])
  }

  datatype Path = Live(name: string) | Retained(name: string)   // x.ndjson and x.ndjson.1

  datatype File = File(ident: Ident, bytes: seq<Byte>)

  function Lookup(files: map<Path, TailFile>, p: Path): Option<TailFile> {
    if p in files then Some(files[p]) else None
  }

  /** The streams one round reads: live ones, and the retained generation on the first round only. */
  predicate Scanned(p: Path, first: bool) {
    p.Live? || first
  }

  type Clock = Event -> int   // an event's timestamp

  /** What a round reads, stream after stream. */
  ghost function Gathered(parse: Parser, files: map<Path, TailFile>, first: bool, dir: map<Path, File>,
                          listing: seq<Path>): seq<Event>
    requires forall p :: p in listing ==> p in dir
  {
    if listing == [] then []
    else
      var p := listing[|listing| - 1];
      Gathered(parse, files, first, dir, listing[..|listing| - 1]) +
      (if Scanned(p, first) then Fresh(parse, Lookup(files, p), dir[p].ident, dir[p].bytes) else [])
  }

  class Tailer {
    const parse: Parser
    const ts: Clock
    var files: map<Path, TailFile>
    var started: bool

    constructor (parse: Parser, ts: Clock)
      ensures files == map[] && !started && this.parse == parse && this.ts == ts
    {
      this.parse, this.ts := parse, ts;
      files, started := map[], false;
    }

    /** bytes.LastIndexByte(b, '\n') + 1. */
    method LastNewlineEnd(b: seq<Byte>) returns (n: nat)
      ensures n == CompleteLen(b)
    {
      n := |b|;
      while n > 0 && b[n - 1] != NL
        invariant n <= |b|
        invariant forall k :: n <= k < |b| ==> b[k] != NL
      {
        n := n - 1;
      }
    }

    /** Split into lines and decode each; a line that does not decode is skipped. */
    method Decode(b: seq<Byte>) returns (out: seq<Event>)
      ensures out == Records(parse, b)
    {
      hide FirstNewline, Records;
      out := [];
      var rest := b;
      LastLine(parse, b);
      while FirstNewline(rest) < |rest|
        invariant Records(parse, b) == out + Records(parse, rest)
        invariant FirstNewline(rest) == |rest| ==> Records(parse, rest) == []
        decreases |rest|
      {
        var i := FirstNewline(rest);
        DecodeLine(parse, out, rest);
        match parse(rest[..i]) {
          case Some(e) => out := out + [e];
          case None =>
        }
        rest := rest[i + 1..];
        LastLine(parse, rest);
      }
    }

    method ReadNew(p: Path, file: File) returns (out: seq<Event>)
      modifies this`files
      ensures files == old(files)[p := Advanced(Lookup(old(files), p), file.ident, file.bytes)]
      ensures out == Fresh(parse, Lookup(old(files), p), file.ident, file.bytes)
    {
      hide Records, CompleteLen;
      var off := if p in files then files[p].off else 0;
      if p in files && (files[p].info != file.ident || |file.bytes| < off) {
        off := 0;
      }
      var b := file.bytes[off..];
      var n := LastNewlineEnd(b);
      files := files[p := TailFile(file.ident, off + n)];
      assert b[..n] == file.bytes[off..off + n];
      out := Decode(b[..n]);
    }

    /** One round over a directory listing: the new records of the scanned streams, oldest first. */
    method Next(dir: map<Path, File>, listing: seq<Path>) returns (out: seq<Event>)
      requires forall p :: p in listing <==> p in dir
      requires forall i, j :: 0 <= i < j < |listing| ==> listing[i] != listing[j]
      modifies this
      ensures started
      ensures files == map p | p in dir && Scanned(p, !old(started)) ::
                         Advanced(Lookup(old(files), p), dir[p].ident, dir[p].bytes)
      ensures out == StableSorts.StableSort(ts, Gathered(parse, old(files), !old(started), dir, listing))
    {
      hide Advanced, Fresh, Scanned, StableSorts.StableSort;
      var first := !started;
      started := true;
      ghost var was := files;
      out := ReadAll(dir, listing, first);
      files := map p | p in files && p in dir && Scanned(p, first) :: files[p];  // drop vanished streams
      forall p | p in dir && Scanned(p, first)
        ensures p in files && files[p] == Advanced(Lookup(was, p), dir[p].ident, dir[p].bytes)
      {
        var k :| 0 <= k < |listing| && listing[k] == p;
      }
      out := StableSorts.StableSort(ts, out);
    }

    method ReadAll(dir: map<Path, File>, listing: seq<Path>, first: bool) returns (out: seq<Event>)
      requires forall p :: p in listing ==> p in dir
      requires forall i, j :: 0 <= i < j < |listing| ==> listing[i] != listing[j]
      modifies this`files
      ensures ReadUpTo(old(files), files, first, dir, listing, |listing|)
      ensures out == Gathered(parse, old(files), first, dir, listing)
    {
      hide Advanced, Fresh, Scanned, ReadUpTo, Gathered;
      out := [];
      NothingRead(parse, files, first, dir, listing);
      for i := 0 to |listing|
        invariant ReadUpTo(old(files), files, first, dir, listing, i)
        invariant out == Gathered(parse, old(files), first, dir, listing[..i])
      {
        var p := listing[i];
        ReadOneMore(parse, old(files), files, first, dir, listing, i);
        if Scanned(p, first) {
          var evs := ReadNew(p, dir[p]);
          out := out + evs;
        } else {
          assert out + [] == out;
        }
      }
      assert listing[..|listing|] == listing;
    }
  }

  /** The tailer's memory once the first i streams of a listing have been read. */
  ghost predicate ReadUpTo(was: map<Path, TailFile>, files: map<Path, TailFile>, first: bool, dir: map<Path, File>,
                           listing: seq<Path>, i: nat)
    requires i <= |listing| && forall p :: p in listing ==> p in dir
  {
    forall k :: 0 <= k < |listing| ==>
      Lookup(files, listing[k]) ==
        if k < i && Scanned(listing[k], first)
        then Some(Advanced(Lookup(was, listing[k]), dir[listing[k]].ident, dir[listing[k]].bytes))
        else Lookup(was, listing[k])
  }

  lemma NothingRead(parse: Parser, files: map<Path, TailFile>, first: bool, dir: map<Path, File>, listing: seq<Path>)
    requires forall p :: p in listing ==> p in dir
    ensures ReadUpTo(files, files, first, dir, listing, 0) && Gathered(parse, files, first, dir, listing[..0]) == []
  {
  }

  /** Reading one more stream. */
  lemma ReadOneMore(parse: Parser, was: map<Path, TailFile>, files: map<Path, TailFile>, first: bool,
                    dir: map<Path, File>, listing: seq<Path>, i: nat)
    requires i < |listing| && forall p :: p in listing ==> p in dir
    requires forall i, j :: 0 <= i < j < |listing| ==> listing[i] != listing[j]
    requires ReadUpTo(was, files, first, dir, listing, i)
    ensures Lookup(files, listing[i]) == Lookup(was, listing[i])
    ensures var (p, f) := (listing[i], dir[listing[i]]);
            && Gathered(parse, was, first, dir, listing[..i + 1]) ==
                 Gathered(parse, was, first, dir, listing[..i])
                 + (if Scanned(p, first) then Fresh(parse, Lookup(was, p), f.ident, f.bytes) else [])
            && ReadUpTo(was,
                        if Scanned(p, first) then files[p := Advanced(Lookup(was, p), f.ident, f.bytes)] else files,
                        first, dir, listing, i + 1)
  {
    hide Advanced, Fresh, Scanned, Gathered, ReadUpTo;
    GatherOneMore(parse, was, first, dir, listing, i);
    MarkOneMore(was, files, first, dir, listing, i);
  }

  lemma GatherOneMore(parse: Parser, was: map<Path, TailFile>, first: bool, dir: map<Path, File>, listing: seq<Path>,
                      i: nat)
    requires i < |listing| && forall p :: p in listing ==> p in dir
    ensures var (p, f) := (listing[i], dir[listing[i]]);
            Gathered(parse, was, first, dir, listing[..i + 1]) ==
              Gathered(parse, was, first, dir, listing[..i])
              + (if Scanned(p, first) then Fresh(parse, Lookup(was, p), f.ident, f.bytes) else [])
  {
    hide Fresh, Scanned, Lookup;
    assert listing[..i + 1][..i] == listing[..i] && listing[..i + 1][i] == listing[i];
  }

  lemma MarkOneMore(was: map<Path, TailFile>, files: map<Path, TailFile>, first: bool, dir: map<Path, File>,
                    listing: seq<Path>, i: nat)
    requires i < |listing| && forall p :: p in listing ==> p in dir
    requires forall i, j :: 0 <= i < j < |listing| ==> listing[i] != listing[j]
    requires ReadUpTo(was, files, first, dir, listing, i)
    ensures Lookup(files, listing[i]) == Lookup(was, listing[i])
    ensures var (p, f) := (listing[i], dir[listing[i]]);
            ReadUpTo(was,
                     if Scanned(p, first) then files[p := Advanced(Lookup(was, p), f.ident, f.bytes)] else files,
                     first, dir, listing, i + 1)
  {
    hide Advanced, Scanned;
  }

  // ---- every schedule of appends, rotations and polls ---------------------------------------

  /** dir and content are the directory; files and started the tailer's memory; polled and log record,
      per file, how far it has been read and what was emitted from it. */
  datatype World = World(
    dir: map<Path, Ident>,
    content: map<Ident, seq<Byte>>,
    files: map<Path, TailFile>,
    started: bool,
    polled: map<Ident, nat>,
    log: map<Ident, seq<Event>>)

  datatype Step =
    | Create(name: string, ident: Ident)         // a writer opens a stream that is not there
    | Append(ident: Ident, data: seq<Byte>)      // any bytes, half lines included, to any file a writer holds
    | Rotate(name: string)                       // the live file becomes the retained one
    | Poll

  predicate Enabled(w: World, step: Step) {
    match step
    case Create(name, ident) => Live(name) !in w.dir && ident !in w.content
    case Append(g, _) => g in w.content
    case Rotate(name) => Live(name) in w.dir
    case Poll => true
  }

  /** The path a file has been read under in this round. */
  ghost predicate ReadAs(w: World, p: Path, g: Ident) {
    p in w.dir && Scanned(p, !w.started) && w.dir[p] == g && g in w.content
  }

  ghost function ReadPath(w: World, g: Ident): (r: Option<Path>)
    ensures r.Some? ==> ReadAs(w, r.value, g)
    ensures r.None? ==> forall p :: !ReadAs(w, p, g)
  {
    if exists p :: ReadAs(w, p, g) then (var p :| ReadAs(w, p, g); Some(p)) else None
  }

  ghost function NewOffset(w: World, g: Ident): nat
    requires g in w.content
  {
    match ReadPath(w, g)
    case Some(p) => Advanced(Lookup(w.files, p), g, w.content[g]).off
    case None => OffsetOf(w, g)
  }

  ghost function NewEvents(parse: Parser, w: World, g: Ident): seq<Event>
    requires g in w.content
  {
    match ReadPath(w, g)
    case Some(p) => Fresh(parse, Lookup(w.files, p), g, w.content[g])
    case None => []
  }

  ghost function Polled(parse: Parser, w: World): World {
    w.(started := true,
       files := map p | p in w.dir && Scanned(p, !w.started) && w.dir[p] in w.content ::
                  Advanced(Lookup(w.files, p), w.dir[p], w.content[w.dir[p]]),
       polled := map g | g in w.content :: NewOffset(w, g),
       log := map g | g in w.content :: LogOf(w, g) + NewEvents(parse, w, g))
  }

  function OffsetOf(w: World, g: Ident): nat {
    if g in w.polled then w.polled[g] else 0
  }

  function LogOf(w: World, g: Ident): seq<Event> {
    if g in w.log then w.log[g] else []
  }

  ghost function Next(parse: Parser, w: World, step: Step): World
    requires Enabled(w, step)
  {
    match step
    case Create(name, ident) => w.(dir := w.dir[Live(name) := ident], content := w.content[ident := []])
    case Append(g, data) => w.(content := w.content[g := w.content[g] + data])
    case Rotate(name) => w.(dir := (w.dir - {Live(name)})[Retained(name) := w.dir[Live(name)]])
    case Poll => Polled(parse, w)
  }

  /** What has been emitted from g is exactly the records of its first OffsetOf bytes, whole lines. */
  ghost predicate FileOK(parse: Parser, w: World, g: Ident)
    requires g in w.content
  {
    && OffsetOf(w, g) <= |w.content[g]|
    && Whole(w.content[g][..OffsetOf(w, g)])
    && LogOf(w, g) == Records(parse, w.content[g][..OffsetOf(w, g)])
  }

  /** The tailer's memory of a scanned path is right about the file there. */
  ghost predicate PathOK(w: World, p: Path)
    requires p in w.dir
  {
    && w.dir[p] in w.content
    && (Scanned(p, !w.started) ==>
          OffsetOf(w, w.dir[p]) ==
            (if p in w.files && w.files[p].info == w.dir[p] then w.files[p].off else 0))
  }

  ghost predicate FilesOK(parse: Parser, w: World) {
    && (forall g :: g in w.content ==> FileOK(parse, w, g))
    && (forall g :: g in w.polled || g in w.log ==> g in w.content)
  }

  ghost predicate PathsOK(w: World) {
    && (forall p :: p in w.dir ==> PathOK(w, p))
    && (forall p, q :: p in w.dir && q in w.dir && w.dir[p] == w.dir[q] ==> p == q)
    && (forall p :: p in w.files ==> w.files[p].info in w.content)
    && (!w.started ==> w.files == map[] && w.polled == map[])
  }

  ghost predicate Inv(parse: Parser, w: World) {
    FilesOK(parse, w) && PathsOK(w)
  }

  lemma CreateKeeps(parse: Parser, w: World, name: string, ident: Ident)
    requires Inv(parse, w) && Enabled(w, Create(name, ident))
    ensures Inv(parse, Next(parse, w, Create(name, ident)))
  {
    hide FilesOK, PathsOK;
    CreateFiles(parse, w, name, ident);
    CreatePaths(parse, w, name, ident);
  }

  lemma CreateFiles(parse: Parser, w: World, name: string, ident: Ident)
    requires FilesOK(parse, w) && Enabled(w, Create(name, ident))
    ensures FilesOK(parse, Next(parse, w, Create(name, ident)))
  {
    hide Records;
    var w' := Next(parse, w, Create(name, ident));
    forall g | g in w'.content ensures FileOK(parse, w', g) {
      if g in w.content { assert FileOK(parse, w, g); } else { NoNewline(parse, []); }
    }
  }

  lemma CreatePaths(parse: Parser, w: World, name: string, ident: Ident)
    requires PathsOK(w) && FilesOK(parse, w) && Enabled(w, Create(name, ident))
    ensures PathsOK(Next(parse, w, Create(name, ident)))
  {
    hide FileOK;
    var w' := Next(parse, w, Create(name, ident));
    forall p | p in w'.dir ensures PathOK(w', p) {
      if p in w.dir { assert PathOK(w, p); }
    }
    forall p | p in w.dir ensures w.dir[p] != ident { assert PathOK(w, p); }
  }

  lemma AppendKeeps(parse: Parser, w: World, ident: Ident, data: seq<Byte>)
    requires Inv(parse, w) && Enabled(w, Append(ident, data))
    ensures Inv(parse, Next(parse, w, Append(ident, data)))
  {
    hide Records;
    var w' := Next(parse, w, Append(ident, data));
    forall g | g in w'.content ensures FileOK(parse, w', g) {
      assert FileOK(parse, w, g);
      PrefixStays(w.content[g], data, OffsetOf(w, g));
    }
    forall p | p in w'.dir ensures PathOK(w', p) {
      assert PathOK(w, p);
    }
  }

  lemma PrefixStays(b: seq<Byte>, data: seq<Byte>, n: nat)
    requires n <= |b|
    ensures (b + data)[..n] == b[..n]
  {
  }

  lemma RotateKeeps(parse: Parser, w: World, name: string)
    requires Inv(parse, w) && Enabled(w, Rotate(name))
    ensures Inv(parse, Next(parse, w, Rotate(name)))
  {
    hide FilesOK, PathsOK;
    RotateFiles(parse, w, name);
    RotatePaths(parse, w, name);
  }

  lemma RotateFiles(parse: Parser, w: World, name: string)
    requires FilesOK(parse, w) && Enabled(w, Rotate(name))
    ensures FilesOK(parse, Next(parse, w, Rotate(name)))
  {
    hide Records;
    var w' := Next(parse, w, Rotate(name));
    forall g | g in w'.content ensures FileOK(parse, w', g) {
      assert FileOK(parse, w, g);
    }
  }

  lemma RotatePaths(parse: Parser, w: World, name: string)
    requires PathsOK(w) && Enabled(w, Rotate(name))
    ensures PathsOK(Next(parse, w, Rotate(name)))
  {
    var w' := Next(parse, w, Rotate(name));
    forall p | p in w'.dir ensures PathOK(w', p) {
      if p == Retained(name) { assert PathOK(w, Live(name)); } else { assert PathOK(w, p); }
    }
  }

  /** Reading from where reading stopped adds exactly the records not yet emitted. */
  lemma ReadOn(parse: Parser, b: seq<Byte>, off: nat)
    requires off <= |b| && Whole(b[..off])
    ensures off + CompleteLen(b[off..]) == CompleteLen(b)
    ensures Records(parse, b[..off]) + Records(parse, b[off..off + CompleteLen(b[off..])])
         == Records(parse, b[..CompleteLen(b)])
  {
    hide Records, CompleteLen, Whole;
    CompleteLenSuffix(b, off);
    var n := CompleteLen(b[off..]);
    RecordsConcat(parse, b[..off], b[off..off + n]);
    Split(b, off, n);
  }

  /** A scanned file is read from exactly where it was left. */
  lemma PollReads(parse: Parser, w: World, p: Path)
    requires Inv(parse, w) && p in w.dir && Scanned(p, !w.started)
    ensures w.dir[p] in w.content
    ensures var g := w.dir[p];
            var b := w.content[g];
            && Advanced(Lookup(w.files, p), g, b) == TailFile(g, CompleteLen(b))
            && LogOf(w, g) + Fresh(parse, Lookup(w.files, p), g, b) == Records(parse, b[..CompleteLen(b)])
  {
    hide Records, CompleteLen, Whole;
    assert PathOK(w, p);
    var g := w.dir[p];
    assert FileOK(parse, w, g);
    assert Resume(Lookup(w.files, p), g, |w.content[g]|) == OffsetOf(w, g);
    ReadOn(parse, w.content[g], OffsetOf(w, g));
  }

  /** The effect of a poll on one file. */
  lemma PollFile(parse: Parser, w: World, g: Ident)
    requires Inv(parse, w) && g in w.content
    ensures var w' := Polled(parse, w);
            && g in w'.polled && g in w'.log
            && (if ReadPath(w, g).Some? then CaughtUp(parse, w', g)
                else OffsetOf(w', g) == OffsetOf(w, g) && LogOf(w', g) == LogOf(w, g))
  {
    hide Records, CompleteLen, Advanced, Fresh, Scanned, FileOK, PathOK, ReadPath;
    if ReadPath(w, g).Some? {
      PollReads(parse, w, ReadPath(w, g).value);
    }
  }

  lemma CaughtUpOK(parse: Parser, w: World, g: Ident)
    requires CaughtUp(parse, w, g)
    ensures FileOK(parse, w, g)
  {
    hide Records;
  }

  lemma PollKeeps(parse: Parser, w: World)
    requires Inv(parse, w)
    ensures Inv(parse, Polled(parse, w))
    ensures forall p :: p in w.dir && Scanned(p, !w.started) ==> CaughtUp(parse, Polled(parse, w), w.dir[p])
  {
    hide FileOK, PathOK, Polled, CaughtUp, ReadAs, Scanned, ReadPath;
    var w' := Polled(parse, w);
    PolledShape(parse, w);
    forall g | g in w'.content ensures FileOK(parse, w', g) {
      PollFileOK(parse, w, g);
    }
    forall p | p in w'.dir
      ensures PathOK(w', p)
      ensures Scanned(p, !w.started) ==> CaughtUp(parse, w', w.dir[p])
    {
      PollPath(parse, w, p);
    }
  }

  lemma PolledShape(parse: Parser, w: World)
    requires forall p :: p in w.dir ==> PathOK(w, p)
    ensures var w' := Polled(parse, w);
            && w'.content == w.content && w'.dir == w.dir && w'.started
            && w'.polled.Keys == w.content.Keys && w'.log.Keys == w.content.Keys
            && forall p :: p in w'.files ==> w'.files[p].info in w.content
  {
    hide Fresh, CompleteLen, Resume;
  }

  lemma PollFileOK(parse: Parser, w: World, g: Ident)
    requires Inv(parse, w) && g in w.content
    ensures g in Polled(parse, w).content && FileOK(parse, Polled(parse, w), g)
  {
    hide Records, CompleteLen, Polled, CaughtUp, ReadPath;
    assert FileOK(parse, w, g);
    PolledShape(parse, w);
    PollFile(parse, w, g);
    if ReadPath(w, g).Some? { CaughtUpOK(parse, Polled(parse, w), g); }
  }

  lemma PollPath(parse: Parser, w: World, p: Path)
    requires Inv(parse, w) && p in w.dir
    ensures PathOK(Polled(parse, w), p)
    ensures Scanned(p, !w.started) ==> CaughtUp(parse, Polled(parse, w), w.dir[p])
  {
    hide Records, CompleteLen;
    assert PathOK(w, p);
    if Scanned(p, !w.started) {
      assert ReadAs(w, p, w.dir[p]);
      PollFile(parse, w, w.dir[p]);
      PollReads(parse, w, p);
    }
  }

  /** The directory as a round finds it. */
  ghost function Found(w: World): map<Path, File>
    requires forall p :: p in w.dir ==> w.dir[p] in w.content
  {
    map p | p in w.dir :: File(w.dir[p], w.content[w.dir[p]])
  }

  /** The new events of the scanned files of a listing, file after file. */
  ghost function Emitted(parse: Parser, w: World, listing: seq<Path>): seq<Event>
    requires forall p :: p in listing ==> p in w.dir && w.dir[p] in w.content
  {
    if listing == [] then []
    else
      var p := listing[|listing| - 1];
      Emitted(parse, w, listing[..|listing| - 1]) +
      (if Scanned(p, !w.started) then NewEvents(parse, w, w.dir[p]) else [])
  }

  lemma FilesExist(parse: Parser, w: World)
    requires Inv(parse, w)
    ensures forall p :: p in w.dir ==> w.dir[p] in w.content
  {
    hide FileOK;
    forall p | p in w.dir ensures w.dir[p] in w.content { assert PathOK(w, p); }
  }

  /** A file is read under one path only. */
  lemma ReadUnder(parse: Parser, w: World, p: Path)
    requires Inv(parse, w) && p in w.dir && Scanned(p, !w.started)
    ensures w.dir[p] in w.content && ReadPath(w, w.dir[p]) == Some(p)
  {
    hide FileOK, ReadPath;
    assert PathOK(w, p);
    assert ReadAs(w, p, w.dir[p]);
  }

  lemma StreamEvents(parse: Parser, w: World, p: Path)
    requires Inv(parse, w) && p in w.dir && Scanned(p, !w.started)
    requires forall p :: p in w.dir ==> w.dir[p] in w.content
    ensures Fresh(parse, Lookup(w.files, p), Found(w)[p].ident, Found(w)[p].bytes) == NewEvents(parse, w, w.dir[p])
  {
    hide Inv, Fresh, ReadPath, Scanned;
    ReadUnder(parse, w, p);
  }

  lemma NextFiles(parse: Parser, w: World)
    requires forall p :: p in w.dir ==> w.dir[p] in w.content
    ensures (map p | p in Found(w) && Scanned(p, !w.started) ::
               Advanced(Lookup(w.files, p), Found(w)[p].ident, Found(w)[p].bytes)) == Polled(parse, w).files
  {
    hide Advanced, Scanned, NewEvents, NewOffset, Lookup;
  }

  lemma {:induction false} GatheredIsEmitted(parse: Parser, w: World, listing: seq<Path>)
    requires Inv(parse, w) && (forall p :: p in w.dir ==> w.dir[p] in w.content)
    requires forall p :: p in listing ==> p in w.dir
    ensures Gathered(parse, w.files, !w.started, Found(w), listing) == Emitted(parse, w, listing)
    decreases |listing|
  {
    hide Inv, Fresh, NewEvents, Scanned;
    if listing != [] {
      var p := listing[|listing| - 1];
      GatheredIsEmitted(parse, w, listing[..|listing| - 1]);
      if Scanned(p, !w.started) { StreamEvents(parse, w, p); }
    }
  }

  /** Tailer.Next over the directory is the Poll of the schedule: it leaves the memory that step leaves, and
      gathers, stream after stream, the events that step adds to each file's log. */
  lemma NextIsPoll(parse: Parser, w: World, listing: seq<Path>)
    requires Inv(parse, w) && forall p :: p in listing ==> p in w.dir
    ensures forall p :: p in w.dir ==> w.dir[p] in w.content
    ensures (map p | p in Found(w) && Scanned(p, !w.started) ::
               Advanced(Lookup(w.files, p), Found(w)[p].ident, Found(w)[p].bytes)) == Polled(parse, w).files
    ensures Gathered(parse, w.files, !w.started, Found(w), listing) == Emitted(parse, w, listing)
    ensures forall g :: g in w.content ==> LogOf(Polled(parse, w), g) == LogOf(w, g) + NewEvents(parse, w, g)
  {
    hide Inv, Advanced, Gathered, Emitted, Scanned, NewEvents, Found, Lookup;
    FilesExist(parse, w);
    NextFiles(parse, w);
    GatheredIsEmitted(parse, w, listing);
  }

  /** Every complete record of g has been emitted, once. */
  ghost predicate CaughtUp(parse: Parser, w: World, g: Ident) {
    && g in w.content
    && OffsetOf(w, g) == CompleteLen(w.content[g])
    && LogOf(w, g) == Records(parse, w.content[g][..CompleteLen(w.content[g])])
  }

  lemma StepKeeps(parse: Parser, w: World, step: Step)
    requires Inv(parse, w) && Enabled(w, step)
    ensures Inv(parse, Next(parse, w, step))
  {
    hide Inv, Polled;
    match step
    case Create(name, ident) => CreateKeeps(parse, w, name, ident);
    case Append(ident, data) => AppendKeeps(parse, w, ident, data);
    case Rotate(name) => RotateKeeps(parse, w, name);
    case Poll => PollKeeps(parse, w);
  }

  const EMPTY := World(map[], map[], map[], false, map[], map[])

  ghost predicate Legal(parse: Parser, w: World, steps: seq<Step>)
    decreases |steps|
  {
    steps == [] || (Enabled(w, steps[0]) && Legal(parse, Next(parse, w, steps[0]), steps[1..]))
  }

  ghost function Exec(parse: Parser, w: World, steps: seq<Step>): World
    requires Legal(parse, w, steps)
    decreases |steps|
  {
    if steps == [] then w else Exec(parse, Next(parse, w, steps[0]), steps[1..])
  }

  lemma {:induction false} ExecKeeps(parse: Parser, w: World, steps: seq<Step>)
    requires Inv(parse, w) && Legal(parse, w, steps)
    ensures Inv(parse, Exec(parse, w, steps))
    decreases |steps|
  {
    hide Inv, Enabled, Next;
    if steps != [] {
      StepKeeps(parse, w, steps[0]);
      ExecKeeps(parse, Next(parse, w, steps[0]), steps[1..]);
    }
  }

  // ---- what a follower can rely on ----------------------------------------------------------

  /** A poll follows g: g is some stream's live file, or its retained one when nothing was polled before. */
  ghost predicate Followed(w: World, g: Ident) {
    || (exists name :: Live(name) in w.dir && w.dir[Live(name)] == g)
    || (!w.started && exists name :: Retained(name) in w.dir && w.dir[Retained(name)] == g)
  }

  lemma FollowedIsRead(parse: Parser, w: World, g: Ident)
    requires Inv(parse, w)
    ensures Followed(w, g) <==> exists p :: ReadAs(w, p, g)
  {
    hide FileOK;
    if name :| Live(name) in w.dir && w.dir[Live(name)] == g {
      assert PathOK(w, Live(name));
      assert ReadAs(w, Live(name), g);
    }
    if !w.started {
      if name :| Retained(name) in w.dir && w.dir[Retained(name)] == g {
        assert PathOK(w, Retained(name));
        assert ReadAs(w, Retained(name), g);
      }
    }
    if p :| ReadAs(w, p, g) {
      match p
      case Live(name) => assert Live(name) in w.dir;
      case Retained(name) => assert Retained(name) in w.dir;
    }
  }

  lemma {:induction false} StartedByPoll(parse: Parser, w: World, steps: seq<Step>)
    requires Legal(parse, w, steps)
    ensures Exec(parse, w, steps).started <==> w.started || Poll in steps
    decreases |steps|
  {
    hide Enabled;
    if steps != [] {
      StartedByPoll(parse, Next(parse, w, steps[0]), steps[1..]);
      assert Poll in steps <==> steps[0] == Poll || Poll in steps[1..];
    }
  }

  /** After any schedule: what was emitted from a file is the records of a prefix of whole lines, each
      once and in order.  Another poll then emits the rest of every live file's complete records (and
      of the retained generation, if it is the first poll), and nothing from any other file. */
  lemma TailingIsExact(parse: Parser, steps: seq<Step>, g: Ident)
    requires Legal(parse, EMPTY, steps) && g in Exec(parse, EMPTY, steps).content
    ensures var w := Exec(parse, EMPTY, steps);
            var w' := Next(parse, w, Poll);
            && OffsetOf(w, g) <= |w.content[g]|
            && LogOf(w, g) == Records(parse, w.content[g][..OffsetOf(w, g)])
            && (w.started <==> Poll in steps)
            && (if Followed(w, g)
                then LogOf(w', g) == Records(parse, w.content[g][..CompleteLen(w.content[g])])
                else LogOf(w', g) == LogOf(w, g))
  {
    hide Exec, Legal, Records, CompleteLen, Polled, ReadPath, Followed, PathOK;
    assert Inv(parse, EMPTY);
    ExecKeeps(parse, EMPTY, steps);
    StartedByPoll(parse, EMPTY, steps);
    var w := Exec(parse, EMPTY, steps);
    assert FileOK(parse, w, g);
    FollowedIsRead(parse, w, g);
    PollFile(parse, w, g);
    PolledShape(parse, w);
  }

  lemma {:induction false} ExecConcat(parse: Parser, w: World, a: seq<Step>, b: seq<Step>)
    requires Legal(parse, w, a + b)
    ensures Legal(parse, w, a) && Legal(parse, Exec(parse, w, a), b)
    ensures Exec(parse, w, a + b) == Exec(parse, Exec(parse, w, a), b)
    decreases |a|
  {
    hide Enabled, Next;
    if a == [] {
      assert a + b == b;
    } else {
      assert (a + b)[1..] == a[1..] + b;
      ExecConcat(parse, Next(parse, w, a[0]), a[1..], b);
    }
  }

  /** No poll among the steps follows g. */
  ghost predicate NeverFollowed(parse: Parser, w: World, steps: seq<Step>, g: Ident)
    requires Legal(parse, w, steps)
    decreases |steps|
  {
    steps == [] ||
    ((steps[0].Poll? ==> !Followed(w, g)) && NeverFollowed(parse, Next(parse, w, steps[0]), steps[1..], g))
  }

  /** Emitted is only added to, and only by polls that scan the file; the file itself only grows. */
  lemma StepAddsTo(parse: Parser, w: World, step: Step, g: Ident)
    requires Inv(parse, w) && Enabled(w, step) && g in w.content
    ensures var w' := Next(parse, w, step);
            && g in w'.content && w.content[g] <= w'.content[g] && LogOf(w, g) <= LogOf(w', g)
            && ((step.Poll? ==> !Followed(w, g)) ==> LogOf(w', g) == LogOf(w, g))
  {
    hide Fresh, Advanced, ReadAs, Inv, Followed;
    FollowedIsRead(parse, w, g);
  }

  lemma {:induction false} StepsAddTo(parse: Parser, w: World, steps: seq<Step>, g: Ident)
    requires Inv(parse, w) && Legal(parse, w, steps) && g in w.content
    ensures var w' := Exec(parse, w, steps);
            && g in w'.content && w.content[g] <= w'.content[g] && LogOf(w, g) <= LogOf(w', g)
            && (NeverFollowed(parse, w, steps, g) ==> LogOf(w', g) == LogOf(w, g))
    decreases |steps|
  {
    hide Inv, Enabled, Next, Followed, LogOf;
    if steps != [] {
      StepKeeps(parse, w, steps[0]);
      StepAddsTo(parse, w, steps[0], g);
      StepsAddTo(parse, Next(parse, w, steps[0]), steps[1..], g);
    }
  }

  /** What a follower misses: everything complete in a file at a poll that scans it is emitted, for good, and
      when no later poll scans it nothing more is.  So the records skipped are those finished after the
      last poll that scans their file, be it before its rotation or by a writer that still holds it. */
  lemma OnlyLateRecordsSkipped(parse: Parser, before: seq<Step>, after: seq<Step>, g: Ident)
    requires Legal(parse, EMPTY, before + ([Poll] + after))
    requires Legal(parse, EMPTY, before) && Followed(Exec(parse, EMPTY, before), g)
    ensures g in Exec(parse, EMPTY, before).content
    ensures var seen := Exec(parse, EMPTY, before).content[g];
            var end := Exec(parse, EMPTY, before + ([Poll] + after));
            && g in end.content && seen <= end.content[g]
            && Records(parse, seen[..CompleteLen(seen)]) <= LogOf(end, g)
            && Legal(parse, Next(parse, Exec(parse, EMPTY, before), Poll), after)
            && (NeverFollowed(parse, Next(parse, Exec(parse, EMPTY, before), Poll), after, g) ==>
                  LogOf(end, g) == Records(parse, seen[..CompleteLen(seen)]))
  {
    hide Records, CompleteLen, Polled, Followed, NeverFollowed, Inv;
    var w := Exec(parse, EMPTY, before);
    assert Inv(parse, EMPTY) by { EmptyOK(parse); }
    ExecKeeps(parse, EMPTY, before);
    FollowedIsRead(parse, w, g);
    assert g in w.content by { var p :| ReadAs(w, p, g); }
    ExecConcat(parse, EMPTY, before, [Poll] + after);
    assert ([Poll] + after)[1..] == after;
    var w1 := Next(parse, w, Poll);
    TailingIsExact(parse, before, g);
    StepKeeps(parse, w, Poll);
    StepAddsTo(parse, w, Poll, g);
    StepsAddTo(parse, w1, after, g);
  }

  lemma EmptyOK(parse: Parser)
    ensures Inv(parse, EMPTY)
  {
  }

  /** The file g, rewritten in place. */
  function Rewritten(w: World, g: Ident, b: seq<Byte>): World {
    w.(content := w.content[g := b])
  }

  lemma RewrittenIsRead(parse: Parser, w: World, name: string, b: seq<Byte>)
    requires Inv(parse, w) && Live(name) in w.dir
    ensures var g := w.dir[Live(name)];
            ReadPath(Rewritten(w, g, b), g) == Some(Live(name))
  {
    hide FileOK, PathOK, ReadPath;
    var p, g := Live(name), w.dir[Live(name)];
    var v := Rewritten(w, g, b);
    assert ReadAs(v, p, g);
  }

  lemma ResumesAt(parse: Parser, w: World, name: string, b: seq<Byte>)
    requires Inv(parse, w) && Live(name) in w.dir
    ensures var (g, off) := (w.dir[Live(name)], OffsetOf(w, w.dir[Live(name)]));
            Resume(Lookup(w.files, Live(name)), g, |b|) == if |b| < off then 0 else off
  {
    hide FileOK;
    assert PathOK(w, Live(name));
  }

  lemma PollAdds(parse: Parser, w: World, g: Ident, p: Path)
    requires g in w.content && ReadPath(w, g) == Some(p)
    ensures LogOf(Polled(parse, w), g) == LogOf(w, g) + Fresh(parse, Lookup(w.files, p), g, w.content[g])
  {
    hide Fresh, Advanced, ReadPath, Lookup;
  }

  lemma FreshFrom(parse: Parser, tf: Option<TailFile>, g: Ident, b: seq<Byte>)
    ensures forall off: nat :: Resume(tf, g, |b|) == (if |b| < off then 0 else off) ==>
              Fresh(parse, tf, g, b) == ReadFrom(parse, off, b)
  {
    hide Records, CompleteLen;
    assert b[0..] == b;
  }

  /** The records read of a file of which off bytes were read before: from the start if it has shrunk. */
  function ReadFrom(parse: Parser, off: nat, b: seq<Byte>): seq<Event> {
    if |b| < off then Records(parse, b[..CompleteLen(b)])
    else Records(parse, b[off..off + CompleteLen(b[off..])])
  }

  /** A live file that has been rewritten in place is read from its start if it is now shorter than what was
      read of it, and on from there otherwise. */
  lemma RewrittenFileRestarts(parse: Parser, steps: seq<Step>, name: string, b: seq<Byte>)
    requires Legal(parse, EMPTY, steps) && Live(name) in Exec(parse, EMPTY, steps).dir
    ensures var w := Exec(parse, EMPTY, steps);
            var g := w.dir[Live(name)];
            LogOf(Next(parse, Rewritten(w, g, b), Poll), g) == LogOf(w, g) + ReadFrom(parse, OffsetOf(w, g), b)
  {
    hide Exec, Legal, Inv, ReadPath, Resume, Polled, Fresh, Lookup, OffsetOf, ReadFrom;
    EmptyOK(parse);
    ExecKeeps(parse, EMPTY, steps);
    var w := Exec(parse, EMPTY, steps);
    var g := w.dir[Live(name)];
    RewrittenIsRead(parse, w, name, b);
    PollAdds(parse, Rewritten(w, g, b), g, Live(name));
    ResumesAt(parse, w, name, b);
    FreshFrom(parse, Lookup(w.files, Live(name)), g, b);
  }

  // ---- against batch reading ----------------------------------------------------------------

  /** strings.Split on newlines. */
  function Lines(b: seq<Byte>): (r: seq<seq<Byte>>)
    decreases |b|
  {
    var i := FirstNewline(b);
    if i == |b| then [b] else [b[..i]] + Lines(b[i + 1..])
  }

  ghost function DecodeAll(parse: Parser, lines: seq<seq<Byte>>): seq<Event> {
    if lines == [] then [] else Record(parse, lines[0]) + DecodeAll(parse, lines[1..])
  }

  /** readFile: every line of the file, the last one too. */
  method Batch(parse: Parser, b: seq<Byte>) returns (out: seq<Event>)
    ensures out == Records(parse, b[..CompleteLen(b)]) + Record(parse, b[CompleteLen(b)..])
  {
    var lines := Lines(b);
    out := [];
    for i := 0 to |lines|
      invariant DecodeAll(parse, lines) == out + DecodeAll(parse, lines[i..])
    {
      hide FirstNewline, Lines;
      assert lines[i..][1..] == lines[i + 1..];
      Assoc(out, Record(parse, lines[i]), DecodeAll(parse, lines[i + 1..]));
      match parse(lines[i]) {
        case Some(e) => out := out + [e];
        case None => assert out + [] == out;
      }
    }
    BatchAgrees(parse, b);
  }

  /** Tailing and batch reading agree but for the unfinished last line; blank lines decode to nothing. */
  lemma BatchAgrees(parse: Parser, b: seq<Byte>)
    ensures DecodeAll(parse, Lines(b)) == Records(parse, b[..CompleteLen(b)]) + Record(parse, b[CompleteLen(b)..])
    ensures Whole(b) && parse([]).None? ==> DecodeAll(parse, Lines(b)) == Records(parse, b[..CompleteLen(b)])
  {
    hide Lines, Records, DecodeAll;
    LinesAreRecords(parse, b);
    OnlyWholeLines(parse, b, CompleteLen(b));
  }

  lemma DecodeStep(parse: Parser, line: seq<Byte>, lines: seq<seq<Byte>>)
    ensures DecodeAll(parse, [line] + lines) == Record(parse, line) + DecodeAll(parse, lines)
  {
    assert ([line] + lines)[1..] == lines;
  }

  lemma {:induction false} LinesAreRecords(parse: Parser, b: seq<Byte>)
    ensures DecodeAll(parse, Lines(b)) == Records(parse, b) + Record(parse, b[CompleteLen(b)..])
    decreases |b|
  {
    hide CompleteLen, FirstNewline, Lines, Records, DecodeAll, Record;
    var i := FirstNewline(b);
    if i == |b| {
      OnlyLine(parse, b);
    } else {
      LinesStep(b);
      RecordsStep(parse, b);
      assert b[..i + 1][i] == NL;
      var line, rest := b[..i], b[i + 1..];
      LinesAreRecords(parse, rest);
      CompleteLenSuffix(b, i + 1);
      var n := CompleteLen(rest);
      assert b[i + 1 + n..] == rest[n..];
      DecodeStep(parse, line, Lines(rest));
      Assoc(Record(parse, line), Records(parse, rest), Record(parse, rest[n..]));
    }
  }

  lemma LinesStep(b: seq<Byte>)
    requires FirstNewline(b) < |b|
    ensures var i := FirstNewline(b); Lines(b) == [b[..i]] + Lines(b[i + 1..])
  {
    hide FirstNewline;
  }

  lemma OnlyLine(parse: Parser, b: seq<Byte>)
    requires FirstNewline(b) == |b|
    ensures DecodeAll(parse, Lines(b)) == Records(parse, b) + Record(parse, b[CompleteLen(b)..])
  {
    NoNewline(parse, b);
    DecodeStep(parse, b, []);
    assert [b] + [] == [b] && b[0..] == b;
  }

  lemma OnlyWholeLines(parse: Parser, b: seq<Byte>, n: nat)
    requires n <= |b| && Whole(b[..n]) && forall k :: n <= k < |b| ==> b[k] != NL
    ensures Records(parse, b) == Records(parse, b[..n])
  {
    hide Records, FirstNewline;
    Split(b, n, |b| - n);
    var tail := b[n..];
    RecordsConcat(parse, b[..n], tail);
    NoNewline(parse, tail);
  }

  lemma NoNewline(parse: Parser, b: seq<Byte>)
    requires forall k :: 0 <= k < |b| ==> b[k] != NL
    ensures Records(parse, b) == []
  {
    assert FirstNewline(b) == |b|;
  }
}
