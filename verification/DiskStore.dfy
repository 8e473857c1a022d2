/** The on-disk store (pkg/blockcache/diskstore.go), one entry of it: the backing file and the
    sidecar index stored under one key, used under that key's lock.

    The index holds raw byte bitmaps; `Abs` reads it as a DiskModel entry, and every method is
    proved to compute the DiskModel operation.  Results are functions of the entry alone, so they
    never depend on what a pooled scratch buffer held.
 */
module DiskStores {
  import opened Bytes
  import opened Options
  import opened Bitmaps
  import opened DiskModel

  datatype DiskIndex = DiskIndex(
    size: nat,
    mtimeNs: int,
    writable: bool,
    curSize: nat,
    chunkSize: nat,
    bitmap: ByteMap,
    subBitmap: ByteMap,
    hashes: seq<Hash>)

  class DiskStore {
    const chunkSize: nat
    const hash: seq<Byte> -> Hash
    var data: Option<seq<Byte>>      // <key>.data
    var index: Option<DiskIndex>     // <key>.idx
    var pool: array<Byte>            // the scratch buffer waiting for reuse, contents arbitrary

    predicate Matches(di: DiskIndex, id: FileVersion) {
      && di.chunkSize == chunkSize && di.writable == id.writable
      && (id.writable || (di.size == id.size && di.mtimeNs == id.mtimeNs))
    }

    /** Everything matches looks at, and the recorded size. */
    predicate SameHeader(a: DiskIndex, b: DiskIndex) {
      && a.size == b.size && a.mtimeNs == b.mtimeNs && a.writable == b.writable
      && a.chunkSize == b.chunkSize && a.curSize == b.curSize
    }

    ghost predicate Valid()
      reads this
    {
      chunkSize > 0 && (index.Some? ==> data.Some?)
    }

    ghost function View(di: DiskIndex, bytes: seq<Byte>): Entry {
      Entry(bytes, di.curSize, |di.bitmap|, Bits(di.bitmap), Bits(di.subBitmap), di.hashes)
    }

    /** The entry id sees. */
    ghost function Abs(id: FileVersion): State
      requires Valid()
      reads this
    {
      if index.Some? && Matches(index.value, id) then Some(View(index.value, data.value)) else None
    }

    constructor (chunkSize: nat, hash: seq<Byte> -> Hash)
      requires chunkSize > 0
      ensures Valid() && this.chunkSize == chunkSize && this.hash == hash
      ensures forall id :: Abs(id) == None
      ensures fresh(pool)
    {
      this.chunkSize, this.hash := chunkSize, hash;
      data, index := None, None;
      pool := new Byte[0];
    }

    // ---- reads ------------------------------------------------------------------------------

    method Get(id: FileVersion, idx: nat, n: nat) returns (r: Option<seq<Byte>>)
      requires Valid()
      ensures r == DiskModel.Get(chunkSize, Abs(id), idx, n)
    {
      if index.None? || !Matches(index.value, id) || !BitSet(index.value.bitmap, idx) {
        return None;
      }
      r := ReadAt(data.value, Start(chunkSize, idx), n);
    }

    method GetSub(id: FileVersion, idx: nat, subOff: nat, n: nat) returns (r: Option<seq<Byte>>)
      requires Valid()
      ensures r == DiskModel.GetSub(chunkSize, Abs(id), idx, subOff, n)
    {
      if index.None? || !Matches(index.value, id) {
        return None;
      }
      var di, off := index.value, Start(chunkSize, idx) + subOff;
      var (first, last) := SubSpan(off, n);
      var s := first;
      while s <= last
        invariant first <= s <= last + 1
        invariant forall t: nat :: first <= t < s ==>
                    t in Bits(di.subBitmap) || ChunkOf(chunkSize, t * SUB) in Bits(di.bitmap)
      {
        if !BitSet(di.subBitmap, s) && !BitSet(di.bitmap, ChunkOf(chunkSize, s * SUB)) {
          return None;
        }
        s := s + 1;
      }
      r := ReadAt(data.value, off, n);
    }

    method ChunkHash(id: FileVersion, idx: nat) returns (r: Option<Hash>)
      requires Valid()
      ensures r == match Abs(id)
                   case None => None
                   case Some(e) =>
                     if idx !in e.chunks then None
                     else Some(if idx < |e.hashes| then e.hashes[idx] else UNKNOWN_HASH)
    {
      if index.None? || !Matches(index.value, id) || !BitSet(index.value.bitmap, idx) {
        return None;
      }
      var hs := index.value.hashes;
      r := Some(if idx < |hs| then hs[idx] else UNKNOWN_HASH);
    }

    /** A pooled buffer of at least n bytes, whatever it last held, or a new one. */
    method GetScratch(n: nat) returns (b: array<Byte>)
      ensures b.Length >= n
      ensures b == pool || fresh(b)
    {
      var available: bool := *;  // the pool may have been emptied at any time
      if available && pool.Length >= n {
        return pool;
      }
      b := new Byte[Max(n, chunkSize)](_ => 0);
    }

    /** readData: fill the first n bytes of b, or report failure. */
    method ReadData(off: nat, b: array<Byte>, n: nat) returns (ok: bool)
      requires Valid() && data.Some? && n <= b.Length
      modifies b
      ensures ok <==> ReadAt(data.value, off, n).Some?
      ensures ok ==> b[..n] == ReadAt(data.value, off, n).value
    {
      ok := n == 0 || off + n <= |data.value|;
      if ok {
        var bytes := data.value;
        forall k | 0 <= k < n {
          b[k] := bytes[off + k];
        }
      }
    }

    method HashRange(id: FileVersion, idx: nat, off: int, length: int) returns (r: Option<Hash>)
      requires Valid()
      modifies this`pool, pool
      ensures Valid() && data == old(data) && index == old(index)
      ensures pool == old(pool) || fresh(pool)
      ensures var range := HashedRange(chunkSize, Abs(id), idx, off, length);
              r == if range.Some? then Some(hash(range.value)) else None
    {
      if index.None? || !Matches(index.value, id) || off < 0 || length < 0 {
        return None;
      }
      var di := index.value;
      var (first, last) := SubSpan(Start(chunkSize, idx) + off, length);
      var s := first;
      while s <= last
        invariant first <= s <= last + 1
        invariant forall t: nat :: first <= t < s ==> t in Bits(di.subBitmap) || idx in Bits(di.bitmap)
      {
        if !BitSet(di.subBitmap, s) && !BitSet(di.bitmap, idx) {
          return None;
        }
        s := s + 1;
      }
      var rest := di.curSize - Start(chunkSize, idx);
      var validLen := if rest < chunkSize then rest else chunkSize;
      if off + length > validLen {
        return None;
      }
      var buf := GetScratch(length);
      var ok := ReadData(Start(chunkSize, idx) + off, buf, length);
      r := if ok then Some(hash(buf[..length])) else None;
      pool := buf;
    }

    // ---- writes -----------------------------------------------------------------------------

    method FreshIndex(id: FileVersion, backing: nat) returns (di: DiskIndex)
      requires Valid()
      ensures Matches(di, id)
      ensures View(di, Zeros(backing)) == Fresh(chunkSize, backing)
    {
      var n := NumChunks(backing, chunkSize);
      di := DiskIndex(if id.writable then 0 else id.size, if id.writable then 0 else id.mtimeNs, id.writable,
                      backing, chunkSize, Blank((n + 7) / 8), [], ZeroHashes(n));
    }

    /** loadOrFresh: changes the backing file only; the caller writes the returned index. */
    method LoadOrFresh(id: FileVersion, minBacking: nat) returns (di: DiskIndex)
      requires Valid()
      modifies this`data, this`index
      ensures Valid() && data.Some? && Matches(di, id)
      ensures View(di, data.value) == Load(chunkSize, old(Abs(id)), id, minBacking)
      ensures old(Abs(id)).Some? ==> index == old(index)
      ensures old(Abs(id)).None? ==> index == None
    {
      if index.None? || !Matches(index.value, id) {
        data, index := None, None;
        var backing := if id.writable then minBacking else Max(id.size, minBacking);
        di := FreshIndex(id, backing);
        data := Some(Zeros(backing));
      } else {
        di := index.value;
        if di.curSize < minBacking {
          di := di.(curSize := minBacking);
          data := Some(Resized(data.value, minBacking));
        }
      }
    }

    /** diskIndex.grow. */
    method Grow(di: DiskIndex, idx: nat, ghost bytes: seq<Byte>) returns (r: DiskIndex)
      ensures View(r, bytes) == Grown(View(di, bytes), idx)
      ensures SameHeader(di, r)
    {
      r := di.(bitmap := GrowTo(di.bitmap, idx), hashes := GrowHashes(di.hashes, idx));
    }

    /** setHash(idx, 0). */
    method ForgetHash(di: DiskIndex, idx: nat, ghost bytes: seq<Byte>) returns (r: DiskIndex)
      ensures View(r, bytes) == View(di, bytes).(hashes := SetHash(di.hashes, idx, UNKNOWN_HASH))
      ensures SameHeader(di, r)
    {
      r := di.(hashes := SetHash(di.hashes, idx, UNKNOWN_HASH));
    }

    /** grow, setBit, setChunkSubBits and setHash in a row. */
    method Mark(di: DiskIndex, idx: nat, h: Hash, ghost bytes: seq<Byte>) returns (r: DiskIndex)
      requires Valid()
      ensures View(r, bytes) == MarkChunk(chunkSize, View(di, bytes), idx, h)
      ensures SameHeader(di, r)
    {
      var first, last := FirstSub(chunkSize, idx), LastSub(chunkSize, idx);
      assert last >= 0 by { MulLe(1, idx + 1, chunkSize); }
      var bitmap := SetBit(GrowTo(di.bitmap, idx), idx);
      var subs := SetBitRange(GrowTo(di.subBitmap, last), first, last);
      r := di.(bitmap := bitmap, subBitmap := subs, hashes := SetHash(GrowHashes(di.hashes, idx), idx, h));
    }

    method Unmark(di: DiskIndex, idx: nat, ghost bytes: seq<Byte>) returns (r: DiskIndex)
      requires Valid()
      ensures View(r, bytes) == ClearChunk(chunkSize, View(di, bytes), idx)
      ensures SameHeader(di, r)
    {
      var subs := ClearBitRange(di.subBitmap, FirstSub(chunkSize, idx), LastSub(chunkSize, idx));
      r := di.(bitmap := ClearBit(di.bitmap, idx), subBitmap := subs, hashes := SetHash(di.hashes, idx, UNKNOWN_HASH));
    }

    /** The loop that sets the sub-block bits of a written range. */
    method MarkRange(di: DiskIndex, off: nat, n: nat, ghost bytes: seq<Byte>) returns (r: DiskIndex)
      requires Valid()
      ensures View(r, bytes) == MarkSpan(View(di, bytes), off, n)
      ensures SameHeader(di, r)
    {
      var (first, last) := SubSpan(off, n);
      var subs := SetBitRange(GrowTo(di.subBitmap, last), first, last);
      r := di.(subBitmap := subs);
    }

    method PutHashed(id: FileVersion, idx: nat, w: seq<Byte>, h: Hash)
      requires Valid()
      modifies this`data, this`index
      ensures Valid()
      ensures Abs(id) == Some(PutChunk(chunkSize, old(Abs(id)), id, idx, w, h))
    {
      hide Bits, Load, WriteAt, MarkChunk;
      var di := LoadOrFresh(id, Start(chunkSize, idx) + |w|);
      data := Some(WriteAt(data.value, Start(chunkSize, idx), w));
      di := Mark(di, idx, h, data.value);
      index := Some(di);
    }

    method Put(id: FileVersion, idx: nat, w: seq<Byte>)
      requires Valid()
      modifies this`data, this`index
      ensures Valid()
      ensures Abs(id) == Some(PutChunk(chunkSize, old(Abs(id)), id, idx, w, hash(w)))
    {
      PutHashed(id, idx, w, hash(w));
    }

    method PutSub(id: FileVersion, idx: nat, subOff: nat, w: seq<Byte>)
      requires Valid()
      modifies this`data, this`index
      ensures Valid()
      ensures Abs(id) == Some(DiskModel.PutSub(chunkSize, old(Abs(id)), id, idx, subOff, w))
    {
      hide Bits, Load, WriteAt, MarkSpan;
      var off := Start(chunkSize, idx) + subOff;
      var di := LoadOrFresh(id, off + |w|);
      data := Some(WriteAt(data.value, off, w));
      di := MarkRange(di, off, |w|, data.value);
      index := Some(di);
    }

    method WriteThrough(id: FileVersion, idx: nat, chunkOff: nat, w: seq<Byte>, chunkLen: nat)
      requires Valid()
      modifies this`data, this`index
      ensures Valid()
      ensures Abs(id) == DiskModel.WriteThrough(chunkSize, old(Abs(id)), id, idx, chunkOff, w, chunkLen)
    {
      hide Spliced, PutChunk, Touches, Bits;
      var off := Start(chunkSize, idx) + chunkOff;
      var cached := CachedAt(id, idx, off, |w|);
      if chunkOff == 0 && |w| == chunkLen {
        PutHashed(id, idx, w, UNKNOWN_HASH);
        return;
      }
      if !cached {
        return;
      }
      Splice(id, idx, off, w);
    }

    /** Write only the touched bytes in place: no read back, no hash. */
    method Splice(id: FileVersion, idx: nat, off: nat, w: seq<Byte>)
      requires Valid()
      modifies this`data, this`index
      ensures Valid()
      ensures Abs(id) == Some(Spliced(chunkSize, old(Abs(id)), id, idx, off, w))
    {
      hide Bits, Load, WriteAt, MarkSpan, Grown, SetHash;
      var di := LoadOrFresh(id, off + |w|);
      data := Some(WriteAt(data.value, off, w));
      di := Grow(di, idx, data.value);
      di := MarkRange(di, off, |w|, data.value);
      di := ForgetHash(di, idx, data.value);
      index := Some(di);
    }

    /** WriteThrough's scan for anything cached under the write. */
    method CachedAt(id: FileVersion, idx: nat, off: nat, n: nat) returns (cached: bool)
      requires Valid()
      ensures cached <==> Touches(Abs(id), idx, off, n)
    {
      if index.None? || !Matches(index.value, id) {
        return false;
      }
      var di := index.value;
      if BitSet(di.bitmap, idx) {
        return true;
      }
      var (first, last) := SubSpan(off, n);
      var s := first;
      while s <= last
        invariant first <= s <= last + 1
        invariant forall t: nat :: first <= t < s ==> t !in Bits(di.subBitmap)
      {
        if BitSet(di.subBitmap, s) {
          assert s in Bits(di.subBitmap);
          return true;
        }
        s := s + 1;
      }
      cached := false;
    }

    /** A partial write to a present chunk is read back, merged and checked against the caller's
        hash.  It fails, leaving the index as it was, when the backing is too short to read. */
    method WriteChunk(id: FileVersion, idx: nat, chunkOff: nat, w: seq<Byte>, chunkLen: nat, callerHash: Hash)
      returns (ok: bool)
      requires Valid() && chunkOff <= chunkLen
      modifies this, pool
      ensures Valid()
      ensures ok <==> !WriteChunkFails(chunkSize, old(Abs(id)), id, idx, chunkOff, w, chunkLen)
      ensures ok ==> Abs(id) == DiskModel.WriteChunk(chunkSize, hash, old(Abs(id)), id, idx, chunkOff, w, chunkLen,
                callerHash)
      ensures !ok ==> index == old(index)
    {
      var present := index.Some? && Matches(index.value, id) && BitSet(index.value.bitmap, idx);
      if chunkOff == 0 && |w| == chunkLen {
        PutHashed(id, idx, w, callerHash);
        return true;
      }
      if !present {
        return true;
      }
      ok := Rewrite(id, idx, chunkOff, w, chunkLen, callerHash);
    }

    /** Read, modify, verify: the partial write to a present chunk. */
    method Rewrite(id: FileVersion, idx: nat, chunkOff: nat, w: seq<Byte>, chunkLen: nat, callerHash: Hash)
      returns (ok: bool)
      requires Valid() && chunkOff <= chunkLen
      requires Abs(id).Some? && idx in Abs(id).value.chunks && !(chunkOff == 0 && |w| == chunkLen)
      modifies this, pool
      ensures Valid()
      ensures ok <==> !WriteChunkFails(chunkSize, old(Abs(id)), id, idx, chunkOff, w, chunkLen)
      ensures ok ==> Abs(id) == DiskModel.WriteChunk(chunkSize, hash, old(Abs(id)), id, idx, chunkOff, w, chunkLen,
                callerHash)
      ensures !ok ==> index == old(index)
    {
      hide Load, Settled, Bits, Merge, WriteAt;
      var di := LoadOrFresh(id, Start(chunkSize, idx) + chunkOff + |w|);
      var h;
      h, ok := MergedHash(Start(chunkSize, idx), chunkLen, chunkOff, w);
      if ok {
        data := Some(WriteAt(data.value, Start(chunkSize, idx) + chunkOff, w));
        di := Settle(di, idx, h == callerHash, callerHash, data.value);
        index := Some(di);
      }
    }

    method Settle(di: DiskIndex, idx: nat, agrees: bool, callerHash: Hash,
                  ghost bytes: seq<Byte>) returns (r: DiskIndex)
      requires Valid()
      ensures View(r, bytes) == Settled(chunkSize, View(di, bytes), idx, agrees, callerHash)
      ensures SameHeader(di, r)
    {
      r := Grow(di, idx, bytes);
      if agrees {
        r := Mark(r, idx, callerHash, bytes);
      } else {
        r := Unmark(r, idx, bytes);
      }
    }

    /** Read a chunk into scratch, copy w over it and hash the result. */
    method MergedHash(off: nat, chunkLen: nat, chunkOff: nat, w: seq<Byte>) returns (h: Hash, ok: bool)
      requires Valid() && data.Some? && chunkOff <= chunkLen
      modifies this`pool, pool
      ensures pool == old(pool) || fresh(pool)
      ensures ok <==> ReadAt(data.value, off, chunkLen).Some?
      ensures ok ==> h == hash(Merge(ReadAt(data.value, off, chunkLen).value, chunkOff, w))
    {
      h := UNKNOWN_HASH;
      var cur := GetScratch(chunkLen);
      ok := ReadData(off, cur, chunkLen);
      if ok {
        ghost var was := cur[..chunkLen];
        var n := Min(|w|, chunkLen - chunkOff);
        forall k | 0 <= k < n {
          cur[chunkOff + k] := w[k];
        }
        assert cur[..chunkLen] == Merge(was, chunkOff, w);
        h := hash(cur[..chunkLen]);
      }
      pool := cur;
    }

    method Drop(id: FileVersion, idx: nat)
      requires Valid()
      modifies this`index
      ensures Valid()
      ensures Abs(id) == Dropped(chunkSize, old(Abs(id)), idx)
    {
      if index.None? || !Matches(index.value, id) {
        return;
      }
      var di := Unmark(index.value, idx, data.value);
      index := Some(di);
    }

    method Resize(id: FileVersion, newSize: nat)
      requires Valid()
      modifies this`data, this`index
      ensures Valid()
      ensures Abs(id) == Some(ResizedEntry(chunkSize, old(Abs(id)), newSize))
    {
      hide Bits, ClearChunk, ClearChunks, CutTo, Fresh, ChunkOf;
      if index.None? || !Matches(index.value, id) {
        var fr := FreshIndex(id, newSize);
        data, index := Some(Zeros(newSize)), Some(fr);
        return;
      }
      var di, bytes := index.value, data.value;
      di := DropFrom(di, ChunkOf(chunkSize, newSize), bytes);
      if di.curSize > 0 {
        di := Unmark(di, ChunkOf(chunkSize, di.curSize - 1), bytes);
      }
      di := Cut(di, newSize, bytes);
      data, index := Some(Resized(bytes, newSize)), Some(di);
    }

    /** Resize's loop clearing every chunk the bitmap has from the new boundary on. */
    method DropFrom(di: DiskIndex, from: nat, ghost bytes: seq<Byte>) returns (r: DiskIndex)
      requires Valid()
      ensures View(r, bytes) == ClearChunks(chunkSize, View(di, bytes), from, 8 * |di.bitmap|)
      ensures SameHeader(di, r)
    {
      hide Bits, ClearChunk;
      r := di;
      var i := from;
      while i < 8 * |di.bitmap|
        invariant from <= i && (i <= 8 * |di.bitmap| || i == from)
        invariant SameHeader(di, r)
        invariant View(r, bytes) == ClearChunks(chunkSize, View(di, bytes), from, i)
      {
        r := Unmark(r, i, bytes);
        i := i + 1;
      }
    }

    method Cut(di: DiskIndex, newSize: nat, ghost bytes: seq<Byte>) returns (r: DiskIndex)
      requires Valid()
      ensures View(r, Resized(bytes, newSize)) == CutTo(chunkSize, View(di, bytes), newSize)
      ensures forall id :: Matches(r, id) <==> Matches(di, id)
    {
      r := di.(curSize := newSize);
      var n := NumChunks(newSize, chunkSize);
      if (n + 7) / 8 < |r.bitmap| {
        r := r.(bitmap := Truncate(r.bitmap, (n + 7) / 8));
      }
      if n < |r.hashes| {
        r := r.(hashes := r.hashes[..n]);
      }
    }

    method Invalidate()
      requires Valid()
      modifies this`data, this`index
      ensures Valid() && forall id :: Abs(id) == None
    {
      data, index := None, None;
    }
  }
}
