/** DiskStore's entry as a value (pkg/blockcache/diskstore.go): the backing bytes, the recorded
    size, and the presence bits as sets.  Each operation is given here in its simple form, over
    sets and zero-extended bytes; class DiskStore is proved to compute these.
 */
module DiskModel {
  import opened Bytes
  import opened Options
  import opened Bitmaps

  /** What an id contributes besides the key that selects the entry. */
  datatype FileVersion = FileVersion(size: nat, mtimeNs: int, writable: bool)

  datatype Entry = Entry(
    data: seq<Byte>,      // backing file
    cur: nat,             // CurSize
    width: nat,           // bytes in the chunk bitmap
    chunks: set<nat>,     // chunk bits
    subs: set<nat>,       // absolute sub-block bits
    hashes: seq<Hash>)

  type State = Option<Entry>  // None: no index, or a stale one

  function ZeroHashes(n: nat): (r: seq<Hash>)
    ensures |r| == n
  {
    seq(n, _ => UNKNOWN_HASH)
  }

  function GrowHashes(hs: seq<Hash>, idx: nat): (r: seq<Hash>)
    ensures |r| == Max(|hs|, idx + 1)
    ensures hs <= r
  {
    if |hs| <= idx then hs + ZeroHashes(idx + 1 - |hs|) else hs
  }

  function SetHash(hs: seq<Hash>, idx: nat, h: Hash): seq<Hash> {
    if idx < |hs| then hs[idx := h] else hs
  }

  ghost function SubsOf(cs: nat, idx: nat): set<nat> {
    Range(FirstSub(cs, idx), LastSub(cs, idx))
  }

  /** A byte is present when its sub-block bit or its chunk bit is set. */
  ghost predicate Present(cs: nat, e: Entry, i: nat)
    requires cs > 0
  {
    SubOf(i) in e.subs || ChunkOf(cs, i) in e.chunks
  }

  // ---- reads --------------------------------------------------------------------------------

  /** Reading the backing file fails when it is too short. */
  function ReadAt(data: seq<Byte>, off: nat, n: nat): Option<seq<Byte>> {
    if n == 0 then Some([])
    else if off + n <= |data| then Some(data[off..off + n])
    else None
  }

  ghost predicate SubsPresent(cs: nat, e: Entry, off: nat, n: nat)
    requires cs > 0
  {
    forall s: nat :: InSpan(off, n, s) ==> s in e.subs || ChunkOf(cs, s * SUB) in e.chunks
  }

  ghost function Get(cs: nat, st: State, idx: nat, n: nat): Option<seq<Byte>> {
    if st.Some? && idx in st.value.chunks then ReadAt(st.value.data, Start(cs, idx), n) else None
  }

  ghost function GetSub(cs: nat, st: State, idx: nat, subOff: nat, n: nat): Option<seq<Byte>>
    requires cs > 0
  {
    if st.Some? && SubsPresent(cs, st.value, Start(cs, idx) + subOff, n)
    then ReadAt(st.value.data, Start(cs, idx) + subOff, n)
    else None
  }

  /** The bytes HashRange hashes, when it reports the range present. */
  ghost function HashedRange(cs: nat, st: State, idx: nat, off: int, length: int): Option<seq<Byte>> {
    if st.None? || off < 0 || length < 0 then None
    else
      var e := st.value;
      if !(forall s: nat :: InSpan(Start(cs, idx) + off, length, s) ==> s in e.subs || idx in e.chunks) then None
      else if off + length > cs || off + length > e.cur - Start(cs, idx) then None
      else ReadAt(e.data, Start(cs, idx) + off, length)
  }

  // ---- writes -------------------------------------------------------------------------------

  function Fresh(cs: nat, backing: nat): Entry
    requires cs > 0
  {
    var n := NumChunks(backing, cs);
    Entry(Zeros(backing), backing, (n + 7) / 8, {}, {}, ZeroHashes(n))
  }

  /** loadOrFresh: the entry, backed to at least minBacking bytes. */
  function Load(cs: nat, st: State, id: FileVersion, minBacking: nat): Entry
    requires cs > 0
  {
    match st
    case None => Fresh(cs, if id.writable then minBacking else Max(id.size, minBacking))
    case Some(e) =>
      if e.cur < minBacking then e.(cur := minBacking, data := Resized(e.data, minBacking)) else e
  }

  function Grown(e: Entry, idx: nat): Entry {
    e.(width := Max(e.width, idx / 8 + 1), hashes := GrowHashes(e.hashes, idx))
  }

  ghost function MarkChunk(cs: nat, e: Entry, idx: nat, h: Hash): Entry {
    var g := Grown(e, idx);
    g.(chunks := g.chunks + {idx}, subs := g.subs + SubsOf(cs, idx), hashes := SetHash(g.hashes, idx, h))
  }

  ghost function ClearChunk(cs: nat, e: Entry, idx: nat): Entry {
    e.(chunks := e.chunks - {idx}, subs := e.subs - SubsOf(cs, idx),
       hashes := SetHash(e.hashes, idx, UNKNOWN_HASH))
  }

  ghost function PutChunk(cs: nat, st: State, id: FileVersion, idx: nat, w: seq<Byte>, h: Hash): Entry
    requires cs > 0
  {
    var e := Load(cs, st, id, Start(cs, idx) + |w|);
    MarkChunk(cs, e.(data := WriteAt(e.data, Start(cs, idx), w)), idx, h)
  }

  ghost function MarkSpan(e: Entry, off: nat, n: nat): Entry {
    var span := SubSpan(off, n);
    e.(subs := e.subs + Range(span.0, span.1))
  }

  ghost function PutSub(cs: nat, st: State, id: FileVersion, idx: nat, subOff: nat, w: seq<Byte>): Entry
    requires cs > 0
  {
    var off := Start(cs, idx) + subOff;
    var e := Load(cs, st, id, off + |w|);
    MarkSpan(e.(data := WriteAt(e.data, off, w)), off, |w|)
  }

  /** Does a write to [off, off + n) of chunk idx meet anything cached? */
  ghost predicate Touches(st: State, idx: nat, off: nat, n: nat) {
    st.Some? && (idx in st.value.chunks || exists s: nat :: InSpan(off, n, s) && s in st.value.subs)
  }

  /** A write inside a chunk that is at least partly cached: splice, and mark what was touched. */
  ghost function Spliced(cs: nat, st: State, id: FileVersion, idx: nat, off: nat, w: seq<Byte>): Entry
    requires cs > 0
  {
    var e := Load(cs, st, id, off + |w|);
    var m := MarkSpan(Grown(e.(data := WriteAt(e.data, off, w)), idx), off, |w|);
    m.(hashes := SetHash(m.hashes, idx, UNKNOWN_HASH))
  }

  ghost function WriteThrough(cs: nat, st: State, id: FileVersion, idx: nat, chunkOff: nat, w: seq<Byte>,
                              chunkLen: nat): State
    requires cs > 0
  {
    if chunkOff == 0 && |w| == chunkLen then Some(PutChunk(cs, st, id, idx, w, UNKNOWN_HASH))
    else if !Touches(st, idx, Start(cs, idx) + chunkOff, |w|) then st
    else Some(Spliced(cs, st, id, idx, Start(cs, idx) + chunkOff, w))
  }

  /** WriteChunk fails when the chunk is present but the backing file is too short to hold it. */
  ghost predicate WriteChunkFails(cs: nat, st: State, id: FileVersion, idx: nat, chunkOff: nat, w: seq<Byte>,
                                  chunkLen: nat)
    requires cs > 0
  {
    && !(chunkOff == 0 && |w| == chunkLen)
    && st.Some? && idx in st.value.chunks
    && ReadAt(Load(cs, st, id, Start(cs, idx) + chunkOff + |w|).data, Start(cs, idx), chunkLen).None?
  }

  /** Keep the chunk when the merged bytes hash to what the caller says, else forget it. */
  ghost function Settled(cs: nat, e: Entry, idx: nat, agrees: bool, callerHash: Hash): Entry {
    if agrees then MarkChunk(cs, Grown(e, idx), idx, callerHash) else ClearChunk(cs, Grown(e, idx), idx)
  }

  ghost function WriteChunk(cs: nat, hash: seq<Byte> -> Hash, st: State, id: FileVersion, idx: nat, chunkOff: nat,
                            w: seq<Byte>, chunkLen: nat, callerHash: Hash): State
    requires cs > 0
    requires chunkOff <= chunkLen
    requires !WriteChunkFails(cs, st, id, idx, chunkOff, w, chunkLen)
  {
    if chunkOff == 0 && |w| == chunkLen then Some(PutChunk(cs, st, id, idx, w, callerHash))
    else if st.None? || idx !in st.value.chunks then st
    else
      var e := Load(cs, st, id, Start(cs, idx) + chunkOff + |w|);
      var merged := Merge(ReadAt(e.data, Start(cs, idx), chunkLen).value, chunkOff, w);
      Some(Settled(cs, e.(data := WriteAt(e.data, Start(cs, idx) + chunkOff, w)), idx,
                   hash(merged) == callerHash, callerHash))
  }

  ghost function Dropped(cs: nat, st: State, idx: nat): State {
    if st.Some? then Some(ClearChunk(cs, st.value, idx)) else st
  }

  /** Clear every chunk in [lo, hi). */
  ghost function ClearChunks(cs: nat, e: Entry, lo: nat, hi: nat): Entry
    decreases hi - lo
  {
    if lo >= hi then e else ClearChunk(cs, ClearChunks(cs, e, lo, hi - 1), hi - 1)
  }

  /** Record the new size, cut the arrays to it and truncate the backing. */
  ghost function CutTo(cs: nat, e: Entry, newSize: nat): Entry
    requires cs > 0
  {
    var n := NumChunks(newSize, cs);
    var width := Min(e.width, (n + 7) / 8);
    Entry(Resized(e.data, newSize), newSize, width, (set c | c in e.chunks && c < 8 * width), e.subs,
          e.hashes[..Min(|e.hashes|, n)])
  }

  ghost function ResizedEntry(cs: nat, st: State, newSize: nat): Entry
    requires cs > 0
  {
    match st
    case None => Fresh(cs, newSize)
    case Some(e) =>
      var d := ClearChunks(cs, e, ChunkOf(cs, newSize), 8 * e.width);
      CutTo(cs, if e.cur > 0 then ClearChunk(cs, d, ChunkOf(cs, e.cur - 1)) else d, newSize)
  }
}
