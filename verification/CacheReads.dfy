/** Cache.ReadAt over the on-disk store and an origin (pkg/blockcache/blockcache.go).

    The sequential method follows the source: it serves chunks from the store, fills misses by
    looping over short fetches, and copies out.  Whatever store calls fail and however the origin
    dribbles, the bytes returned are the origin's; if the origin never fails, all of them.
 */
module CacheReads {
  import opened Bytes
  import opened Options
  import opened Caller
  import DiskModel
  import DiskStores
  import MemModel

  datatype Err = NoErr | Eof | NegativeOffset | OriginErr

  /** What one call of the Fetcher returned. */
  datatype Fetched = Fetched(data: seq<Byte>, err: Err)

  /** The k-th fetch, asked for n bytes at off. */
  type Fetcher = (nat, nat, nat) -> Fetched

  /** The origin never lies: a fetch returns at most what was asked for, from the right place. */
  ghost predicate Honest(fetch: Fetcher, f: seq<Byte>) {
    forall k: nat, off: nat, n: nat ::
      var r := fetch(k, off, n);
      |r.data| <= n && (r.data != [] ==> off + |r.data| <= |f|)
      && forall i :: 0 <= i < |r.data| ==> r.data[i] == At(f, off + i)
  }

  /** It also never gives up early: inside the file a fetch makes progress, and it reports end of
      file only on reaching it. */
  ghost predicate Complete(fetch: Fetcher, f: seq<Byte>) {
    forall k: nat, off: nat, n: nat :: n > 0 && off + n <= |f| ==>
      var r := fetch(k, off, n);
      r.data != [] && (r.err == NoErr || (r.err == Eof && off + |r.data| == |f|))
  }

  /** fillFull: loop until full, or until the origin ends or fails. */
  method FillFull(fetch: Fetcher, k: nat, base: nat, want: nat, ghost f: seq<Byte>)
    returns (buf: seq<Byte>, err: Err, k': nat)
    requires Honest(fetch, f)
    ensures |buf| <= want
    ensures buf != [] ==> buf == Origin(f, base, |buf|) && base + |buf| <= |f|
    ensures err == NoErr ==> |buf| == want
    ensures Complete(fetch, f) && base + want <= |f| ==> |buf| == want && (err == NoErr || err == Eof)
  {
    buf, err, k' := [], NoErr, k;
    while |buf| < want
      invariant |buf| <= want && err == NoErr
      invariant buf != [] ==> base + |buf| <= |f|
      invariant forall i :: 0 <= i < |buf| ==> buf[i] == At(f, base + i)
      decreases want - |buf|
    {
      var r := fetch(k', base + |buf|, want - |buf|);
      k' := k' + 1;
      buf := buf + r.data;
      if r.err != NoErr {
        err := r.err;
        break;
      }
      if r.data == [] {
        err := Eof;
        break;
      }
    }
    if buf != [] {
      SameBytes(buf, Origin(f, base, |buf|));
    }
  }

  // ---- what the stores keep for a read-only file --------------------------------------------

  /** A read-only entry is backed by the whole file, and every chunk it marks is the file's. */
  ghost predicate DiskServes(cs: nat, st: DiskModel.State, f: seq<Byte>)
    requires cs > 0
  {
    st.Some? ==>
      && st.value.cur == |st.value.data| == |f|
      && forall i: nat :: ChunkOf(cs, i) in st.value.chunks ==> At(st.value.data, i) == At(f, i)
  }

  lemma DiskGetsOrigin(cs: nat, st: DiskModel.State, f: seq<Byte>, idx: nat)
    requires cs > 0 && DiskServes(cs, st, f)
    ensures var n := ChunkLen(cs, idx, |f|);
            var hit := DiskModel.Get(cs, st, idx, n);
            n > 0 && hit.Some? ==> hit.value == Origin(f, Start(cs, idx), n)
  {
    hide Start, ChunkOf;
    var n := ChunkLen(cs, idx, |f|);
    var hit := DiskModel.Get(cs, st, idx, n);
    if n > 0 && hit.Some? {
      forall k | 0 <= k < n ensures At(hit.value, k) == At(Origin(f, Start(cs, idx), n), k) {
        ChunkOfByte(cs, Start(cs, idx) + k, idx);
        assert At(st.value.data, Start(cs, idx) + k) == At(f, Start(cs, idx) + k);
      }
      SameBytes(hit.value, Origin(f, Start(cs, idx), n));
    }
  }

  lemma DiskPutKeeps(cs: nat, st: DiskModel.State, id: DiskModel.FileVersion, f: seq<Byte>, idx: nat, h: Hash)
    requires cs > 0 && DiskServes(cs, st, f) && !id.writable && id.size == |f| && Start(cs, idx) <= |f|
    ensures var chunk := Origin(f, Start(cs, idx), ChunkLen(cs, idx, |f|));
            DiskServes(cs, Some(DiskModel.PutChunk(cs, st, id, idx, chunk, h)), f)
  {
    hide Start, ChunkOf, Origin, WriteAt, DiskModel.SubsOf, DiskModel.GrowHashes;
    var w := Origin(f, Start(cs, idx), ChunkLen(cs, idx, |f|));
    var e := DiskModel.PutChunk(cs, st, id, idx, w, h);
    forall i: nat | ChunkOf(cs, i) in e.chunks ensures At(e.data, i) == At(f, i) {
      ChunkOfByte(cs, i, idx);
      assert Start(cs, idx) <= i < Start(cs, idx) + |w| ==> At(f, i) == w[i - Start(cs, idx)];
    }
  }

  /** The store has the whole of chunk idx. */
  ghost predicate Has(cs: nat, st: DiskModel.State, f: seq<Byte>, idx: nat) {
    DiskModel.Get(cs, st, idx, ChunkLen(cs, idx, |f|)).Some?
  }

  /** It has every chunk that meets [off, end). */
  ghost predicate HasRange(cs: nat, st: DiskModel.State, f: seq<Byte>, off: nat, end: nat)
    requires cs > 0
  {
    forall pos: nat :: off <= pos < end && pos < |f| ==> Has(cs, st, f, ChunkOf(cs, pos))
  }

  /** What the store has of a range after one more chunk. */
  lemma HasMore(cs: nat, st: DiskModel.State, st': DiskModel.State, f: seq<Byte>, off: nat, pos: nat, n: nat)
    requires cs > 0 && HasRange(cs, st, f, off, pos)
    requires forall c: nat :: Has(cs, st, f, c) ==> Has(cs, st', f, c)
    requires Has(cs, st', f, ChunkOf(cs, pos)) && pos + n <= Start(cs, ChunkOf(cs, pos)) + cs
    ensures HasRange(cs, st', f, off, pos + n)
  {
    hide Has, ChunkOf, Start;
    var idx := ChunkOf(cs, pos);
    ChunkOfByte(cs, pos, idx);
    forall p: nat | off <= p < pos + n && p < |f| ensures Has(cs, st', f, ChunkOf(cs, p)) {
      if p >= pos { ChunkOfByte(cs, p, idx); }
    }
  }

  lemma HasToEnd(cs: nat, st: DiskModel.State, f: seq<Byte>, off: nat, end: nat, to: nat)
    requires cs > 0 && HasRange(cs, st, f, off, end) && (end == to || end == |f|)
    ensures HasRange(cs, st, f, off, to)
  {
    hide Has, ChunkOf;
  }

  lemma NoRange(cs: nat, st: DiskModel.State, f: seq<Byte>, off: int, want: nat)
    requires cs > 0
    ensures off >= 0 ==> HasRange(cs, st, f, off, off)
    ensures off >= 0 && (want == 0 || off >= |f|) ==> HasRange(cs, st, f, off, off + want)
  {
    hide Has, ChunkOf;
  }

  lemma HasChunk(cs: nat, st: DiskModel.State, st': DiskModel.State, f: seq<Byte>, off: nat, end: nat, pos: nat)
    requires cs > 0 && HasRange(cs, st, f, off, end) && off <= pos < end && pos < |f|
    requires forall c: nat :: Has(cs, st, f, c) ==> Has(cs, st', f, c)
    ensures Has(cs, st', f, ChunkOf(cs, pos))
  {
    hide Has, ChunkOf;
  }

  /** Storing a chunk adds it, and takes no other away. */
  lemma DiskPutAdds(cs: nat, st: DiskModel.State, id: DiskModel.FileVersion, f: seq<Byte>, idx: nat, h: Hash, c: nat)
    requires cs > 0 && DiskServes(cs, st, f) && !id.writable && id.size == |f| && Start(cs, idx) <= |f|
    ensures var chunk := Origin(f, Start(cs, idx), ChunkLen(cs, idx, |f|));
            var r := Some(DiskModel.PutChunk(cs, st, id, idx, chunk, h));
            c == idx || Has(cs, st, f, c) ==> Has(cs, r, f, c)
  {
    hide Start, Origin, WriteAt, DiskModel.SubsOf, DiskModel.GrowHashes;
  }

  /** The in-memory store keeps and serves the same: whole chunks of the file, or nothing. */
  ghost predicate MemServes(cs: nat, st: MemModel.State, f: seq<Byte>) {
    st.Some? ==> forall idx :: idx in st.value.chunks ==>
                   st.value.chunks[idx] == Origin(f, Start(cs, idx), ChunkLen(cs, idx, |f|))
  }

  lemma MemServesChunks(cs: nat, st: MemModel.State, f: seq<Byte>, idx: nat, h: Hash)
    requires MemServes(cs, st, f)
    ensures var n := ChunkLen(cs, idx, |f|);
            var w := Origin(f, Start(cs, idx), n);
            && (MemModel.Get(st, idx, n).Some? ==> MemModel.Get(st, idx, n).value == w)
            && MemServes(cs, Some(MemModel.PutWhole(cs, st, idx, w, h)), f)
  {
    hide Start, Origin;
    var w := Origin(f, Start(cs, idx), ChunkLen(cs, idx, |f|));
    assert w[..|w|] == w;
  }

  // ---- the cache ----------------------------------------------------------------------------

  class Cache {
    const chunkSize: nat
    const fetch: Fetcher
    const loses: nat -> bool           // does the k-th store operation fail?
    const store: DiskStores.DiskStore
    const id: DiskModel.FileVersion
    var fetches: nat
    var storeOps: nat

    /** The store keeps chunks of the origin or nothing. */
    ghost predicate Valid(f: seq<Byte>)
      reads this, store
    {
      && chunkSize > 0 && Honest(fetch, f)
      && store.Valid() && store.chunkSize == chunkSize
      && !id.writable && id.size == |f| && DiskServes(chunkSize, store.Abs(id), f)
    }

    constructor (chunkSize: nat, fetch: Fetcher, loses: nat -> bool, store: DiskStores.DiskStore,
                 id: DiskModel.FileVersion, ghost f: seq<Byte>)
      requires chunkSize > 0 && Honest(fetch, f)
      requires store.Valid() && store.chunkSize == chunkSize && !id.writable && id.size == |f|
      requires DiskServes(chunkSize, store.Abs(id), f)
      ensures Valid(f) && this.fetch == fetch && this.store == store
    {
      this.chunkSize, this.fetch, this.loses, this.store, this.id := chunkSize, fetch, loses, store, id;
      fetches, storeOps := 0, 0;
    }

    /** storeGet: a hit only when the chunk is present at its full length. */
    method StoreGet(idx: nat, chunkLen: nat, ghost f: seq<Byte>) returns (hit: Option<seq<Byte>>)
      requires Valid(f) && chunkLen == ChunkLen(chunkSize, idx, |f|) && chunkLen > 0
      modifies this`storeOps
      ensures Valid(f)
      ensures hit.Some? ==> hit.value == Origin(f, Start(chunkSize, idx), chunkLen) && |hit.value| == chunkLen
      ensures !loses(old(storeOps)) ==> (hit.Some? <==> Has(chunkSize, store.Abs(id), f, idx))
    {
      hide Start, Origin;
      var fails := loses(storeOps);
      storeOps := storeOps + 1;
      if fails {
        return None;
      }
      hit := store.Get(id, idx, chunkLen);
      DiskGetsOrigin(chunkSize, store.Abs(id), f, idx);
      if hit.Some? && |hit.value| != chunkLen {
        hit := None;
      }
    }

    /** No store operation fails. */
    ghost predicate Keeps() {
      forall k: nat :: !loses(k)
    }

    /** chunk: from the store, else fetched whole and stored as far as the store manages. */
    method Chunk(idx: nat, chunkLen: nat, ghost f: seq<Byte>) returns (data: seq<Byte>, err: Err)
      requires Valid(f) && chunkLen == ChunkLen(chunkSize, idx, |f|) && chunkLen > 0
      modifies this, store
      ensures Valid(f)
      ensures err == NoErr ==> data == Origin(f, Start(chunkSize, idx), chunkLen) && |data| == chunkLen
      ensures Complete(fetch, f) ==> err == NoErr
      ensures Keeps() && old(Has(chunkSize, store.Abs(id), f, idx)) ==> fetches == old(fetches)
      ensures Keeps() && err == NoErr ==> Has(chunkSize, store.Abs(id), f, idx)
      ensures forall c: nat :: old(Has(chunkSize, store.Abs(id), f, c)) ==> Has(chunkSize, store.Abs(id), f, c)
    {
      hide Start, Origin;
      var hit := StoreGet(idx, chunkLen, f);
      if hit.None? {
        hit := StoreGet(idx, chunkLen, f);  // again, inside the flight
      }
      if hit.Some? {
        return hit.value, NoErr;
      }
      var k;
      data, err, k := FillFull(fetch, fetches, Start(chunkSize, idx), chunkLen, f);
      fetches := k;
      if err != NoErr && !(err == Eof && |data| == chunkLen) {
        return [], err;
      }
      err := NoErr;
      var fails := loses(storeOps);
      storeOps := storeOps + 1;
      if !fails {
        ghost var st, h := store.Abs(id), store.hash(data);
        DiskPutKeeps(chunkSize, st, id, f, idx, h);
        forall c: nat
          ensures c == idx || Has(chunkSize, st, f, c) ==>
                    Has(chunkSize, Some(DiskModel.PutChunk(chunkSize, st, id, idx, data, h)), f, c)
        {
          DiskPutAdds(chunkSize, st, id, f, idx, h, c);
        }
        store.Put(id, idx, data);
      }
    }

    /** ReadAt of want bytes at off; the result is the filled part of the buffer. */
    method ReadAt(off: int, want: nat, ghost f: seq<Byte>, size: nat) returns (out: seq<Byte>, err: Err)
      requires Valid(f) && size == |f|
      modifies this, store
      ensures Valid(f)
      ensures off >= 0 ==> out == Origin(f, off, |out|)
      ensures |out| <= want && (out != [] ==> 0 <= off && off + |out| <= size)
      ensures off >= 0 && Complete(fetch, f) ==>
                out == Origin(f, off, want) && err == (if want > 0 && off + want > size then Eof else NoErr)
      ensures off < 0 && want > 0 ==> err == NegativeOffset
      ensures want > 0 && err == NoErr ==> out != []
      ensures err != NoErr && err != Eof ==> out == []
      ensures off >= 0 && Keeps() && Complete(fetch, f) ==> HasRange(chunkSize, store.Abs(id), f, off, off + want)
      ensures off >= 0 && Keeps() && old(HasRange(chunkSize, store.Abs(id), f, off, off + want)) ==>
                fetches == old(fetches)
    {
      hide HasRange, Has, Start, ChunkOf, Origin, Honest, Complete, DiskServes;
      out, err := [], NoErr;
      NoRange(chunkSize, store.Abs(id), f, off, want);
      if want == 0 {
        return;
      }
      if off < 0 {
        return [], NegativeOffset;
      }
      if off >= size {
        return [], Eof;
      }
      var end := Min(off + want, size);
      while off + |out| < end
        invariant Valid(f) && off + |out| <= end
        invariant forall i :: 0 <= i < |out| ==> out[i] == At(f, off + i)
        invariant forall c: nat :: old(Has(chunkSize, store.Abs(id), f, c)) ==> Has(chunkSize, store.Abs(id), f, c)
        invariant Keeps() ==> HasRange(chunkSize, store.Abs(id), f, off, off + |out|)
        invariant Keeps() && old(HasRange(chunkSize, store.Abs(id), f, off, off + want)) ==> fetches == old(fetches)
        decreases end - off - |out|
      {
        var pos := off + |out|;
        var idx := ChunkOf(chunkSize, pos);
        ChunkOfByte(chunkSize, pos, idx);
        ghost var st := store.Abs(id);
        if old(HasRange(chunkSize, store.Abs(id), f, off, off + want)) {
          HasChunk(chunkSize, old(store.Abs(id)), st, f, off, off + want, pos);
        }
        var chunkLen := ChunkLen(chunkSize, idx, size);
        var data, e := Chunk(idx, chunkLen, f);
        if e != NoErr {
          SameBytes(out, Origin(f, off, |out|));
          return out, if |out| > 0 then NoErr else e;
        }
        var inChunk := pos - Start(chunkSize, idx);
        var n := Min(end - pos, |data| - inChunk);
        var piece := data[inChunk..inChunk + n];
        forall i | 0 <= i < n ensures piece[i] == At(f, pos + i) {
          assert At(f, Start(chunkSize, idx) + (inChunk + i)) == data[inChunk + i];
        }
        out := out + piece;
        if Keeps() { HasMore(chunkSize, st, store.Abs(id), f, off, pos, n); }
      }
      assert Keeps() ==> HasRange(chunkSize, store.Abs(id), f, off, off + want) by {
        if Keeps() { HasToEnd(chunkSize, store.Abs(id), f, off, end, off + want); }
      }
      SameBytes(out, Origin(f, off, |out|));
      SameBytes(out, Origin(f, off, want));
      err := if |out| < want then Eof else NoErr;
    }
  }
}
