/** MemStore's entry as a value (pkg/blockcache/memstore.go).

    Each operation is given in its simple, out-of-place form: contents are built by zero-filled
    overlay, and a partial chunk's presence is a set of sub-blocks.  Class MemStore is proved to
    compute these with its in-place splices over spare capacity.
 */
module MemModel {
  import opened Bytes
  import opened Options
  import opened Bitmaps

  datatype Entry = Entry(
    cur: nat,                      // curSize
    chunks: map<nat, seq<Byte>>,
    partial: map<nat, set<nat>>,   // present: sub-blocks of the partially cached chunks
    hashes: map<nat, Hash>)

  type State = Option<Entry>  // None: no entry for the key

  const EMPTY := Entry(0, map[], map[], map[])

  function SubsPerChunk(cs: nat): nat {
    (cs + SUB - 1) / SUB
  }

  /** Bits available in a chunk's bitmap. */
  function BitCapacity(cs: nat): nat {
    64 * BmWords(SubsPerChunk(cs))
  }

  function Loaded(st: State): Entry {
    if st.Some? then st.value else EMPTY
  }

  // ---- reads --------------------------------------------------------------------------------

  /** Byte j of chunk idx is cached: the chunk is whole, or its sub-block is marked. */
  predicate Present(e: Entry, idx: nat, j: nat) {
    idx in e.chunks && (idx in e.partial ==> SubOf(j) in e.partial[idx])
  }

  ghost predicate RangePresent(e: Entry, idx: nat, off: nat, n: nat) {
    idx in e.chunks && (idx in e.partial ==> forall s: nat :: InSpan(off, n, s) ==> s in e.partial[idx])
  }

  /** Whole-chunk read: a partially cached chunk is a miss; a short chunk fills only its length. */
  function Get(st: State, idx: nat, n: nat): Option<seq<Byte>> {
    if st.None? || idx !in st.value.chunks || idx in st.value.partial then None
    else Some(st.value.chunks[idx][..Min(n, |st.value.chunks[idx]|)])
  }

  ghost function GetSub(st: State, idx: nat, subOff: nat, n: nat): Option<seq<Byte>> {
    if st.Some? && RangePresent(st.value, idx, subOff, n) && subOff + n <= |st.value.chunks[idx]|
    then Some(st.value.chunks[idx][subOff..subOff + n])
    else None
  }

  /** The bytes HashRange hashes, when it reports the range present. */
  ghost function HashedRange(st: State, idx: nat, off: int, length: int): Option<seq<Byte>> {
    if off < 0 || length < 0 then None else GetSub(st, idx, off, length)
  }

  // ---- writes -------------------------------------------------------------------------------

  function PutWhole(cs: nat, st: State, idx: nat, w: seq<Byte>, h: Hash): Entry {
    var e := Loaded(st);
    e.(chunks := e.chunks[idx := w], partial := e.partial - {idx}, hashes := e.hashes[idx := h],
       cur := Max(e.cur, Start(cs, idx) + |w|))
  }

  lemma SpanRange(off: nat, n: nat)
    ensures forall s: nat :: InSpan(off, n, s) <==> s in Range(SubSpan(off, n).0, SubSpan(off, n).1)
  {
    hide Range, SubSpan;
  }

  ghost function SpanBits(cs: nat, off: nat, n: nat): set<nat> {
    set s | s in Range(SubSpan(off, n).0, SubSpan(off, n).1) && s < BitCapacity(cs)
  }

  function ContentsOr(m: map<nat, seq<Byte>>, idx: nat): seq<Byte> {
    if idx in m then m[idx] else []
  }

  function BitsOr(m: map<nat, set<nat>>, idx: nat): set<nat> {
    if idx in m then m[idx] else {}
  }

  ghost function PutSub(cs: nat, st: State, idx: nat, subOff: nat, w: seq<Byte>): Entry {
    var e := Loaded(st);
    var wasFull := idx in e.chunks && idx !in e.partial;
    e.(chunks := e.chunks[idx := Overlay(ContentsOr(e.chunks, idx), subOff, w)],
       partial := if wasFull then e.partial else e.partial[idx := BitsOr(e.partial, idx) + SpanBits(cs, subOff, |w|)],
       cur := Max(e.cur, subOff + |w|))
  }

  /** A write inside a cached chunk: overlay, and mark what was touched of a partial chunk. */
  ghost function Spliced(cs: nat, e: Entry, idx: nat, off: nat, w: seq<Byte>): Entry
    requires idx in e.chunks
  {
    e.(chunks := e.chunks[idx := Overlay(e.chunks[idx], off, w)],
       partial := if idx in e.partial then e.partial[idx := e.partial[idx] + SpanBits(cs, off, |w|)] else e.partial,
       hashes := e.hashes[idx := UNKNOWN_HASH],
       cur := Max(e.cur, Start(cs, idx) + off + |w|))
  }

  ghost function WriteThrough(cs: nat, st: State, idx: nat, chunkOff: nat, w: seq<Byte>, chunkLen: nat): State {
    if chunkOff == 0 && |w| == chunkLen then Some(PutWhole(cs, st, idx, w, UNKNOWN_HASH))
    else if st.None? || idx !in st.value.chunks then st
    else Some(Spliced(cs, st.value, idx, chunkOff, w))
  }

  /** A mismatch forgets the chunk and its hash; a partial chunk's bitmap is left behind. */
  function WriteChunk(cs: nat, hash: seq<Byte> -> Hash, st: State, idx: nat, chunkOff: nat, w: seq<Byte>,
                      chunkLen: nat, callerHash: Hash): State
    requires chunkOff <= chunkLen || st.None? || idx !in st.value.chunks
  {
    if chunkOff == 0 && |w| == chunkLen then Some(PutWhole(cs, st, idx, w, callerHash))
    else if st.None? || idx !in st.value.chunks then st
    else
      var e := st.value.(cur := Max(st.value.cur, Start(cs, idx) + chunkOff + |w|));
      var merged := Merge(Resized(e.chunks[idx], chunkLen), chunkOff, w);
      if hash(merged) == callerHash
      then Some(e.(chunks := e.chunks[idx := merged], hashes := e.hashes[idx := callerHash]))
      else Some(e.(chunks := e.chunks - {idx}, hashes := e.hashes - {idx}))
  }

  function Without(e: Entry, gone: set<nat>): Entry {
    e.(chunks := e.chunks - gone, partial := e.partial - gone, hashes := e.hashes - gone)
  }

  function Dropped(st: State, idx: nat): State {
    if st.Some? then Some(Without(st.value, {idx})) else st
  }

  function Straddle(cs: nat, cur: nat): set<nat>
    requires cs > 0
  {
    if cur > 0 then {ChunkOf(cs, cur - 1)} else {}
  }

  function ResizedEntry(cs: nat, st: State, newSize: nat): Entry
    requires cs > 0
  {
    var e := Loaded(st);
    var beyond := set i | i in e.chunks && i >= ChunkOf(cs, newSize);
    Without(e, beyond + Straddle(cs, e.cur)).(cur := newSize)
  }
}
