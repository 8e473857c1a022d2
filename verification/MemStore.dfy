/** The in-memory store (pkg/blockcache/memstore.go), one entry of it.

    A cached chunk is a slice of an array with spare capacity, and the bytes past its length are
    whatever earlier operations left there.  The in-place paths are proved to leave exactly what
    the out-of-place merge of MemModel builds.
 */
module MemStores {
  import opened Bytes
  import opened Options
  import opened Bitmaps
  import opened MemModel

  /** A slice header: the first len elements of arr; arr.Length is the capacity. */
  datatype Slice = Slice(arr: array<Byte>, len: nat)

  /** copy(a[off:], w), for a destination that holds it. */
  method CopyInto(a: array<Byte>, off: nat, w: seq<Byte>)
    requires off + |w| <= a.Length
    modifies a
    ensures forall k :: 0 <= k < a.Length ==> a[k] == if off <= k < off + |w| then w[k - off] else old(a[k])
  {
    forall k | 0 <= k < |w| {
      a[off + k] := w[k];
    }
  }

  /** clear(a[lo:hi]). */
  method ClearRange(a: array<Byte>, lo: nat, hi: nat)
    requires lo <= hi <= a.Length
    modifies a
    ensures forall k :: 0 <= k < a.Length ==> a[k] == if lo <= k < hi then 0 else old(a[k])
  {
    forall k | lo <= k < hi {
      a[k] := 0;
    }
  }

  /** A zeroed buffer of at least the chunk size, holding w. */
  method CloneChunk(chunkSize: nat, w: seq<Byte>) returns (s: Slice)
    ensures fresh(s.arr) && s.len == |w| <= s.arr.Length && chunkSize <= s.arr.Length && s.arr[..s.len] == w
  {
    var arr := new Byte[Max(chunkSize, |w|)](_ => 0);
    CopyInto(arr, 0, w);
    s := Slice(arr, |w|);
  }

  /** Pointwise account of an overlay. */
  lemma IsOverlay(was: seq<Byte>, off: nat, w: seq<Byte>, now: seq<Byte>)
    requires |now| == Max(|was|, off + |w|)
    requires forall k :: 0 <= k < |now| ==> now[k] == if off <= k < off + |w| then w[k - off] else At(was, k)
    ensures now == Overlay(was, off, w)
  {
    hide Overlay;
    forall k | 0 <= k < |now| ensures At(now, k) == At(Overlay(was, off, w), k) {
    }
    SameBytes(now, Overlay(was, off, w));
  }

  /** Make room up to need: reslice into spare capacity, clearing only the gap below off that
      becomes visible, or move to a new zeroed buffer.  Bytes from off on are left arbitrary. */
  method GrowSlice(s: Slice, chunkSize: nat, off: nat, need: nat) returns (t: Slice)
    requires s.len <= s.arr.Length && off <= need
    requires need <= s.arr.Length || (need <= chunkSize && s.len <= chunkSize)
    modifies s.arr
    ensures t.len == Max(s.len, need) <= t.arr.Length && (t.arr == s.arr || (fresh(t.arr) && chunkSize <= t.arr.Length))
    ensures forall k :: 0 <= k < s.len ==> t.arr[k] == old(s.arr[k])
    ensures forall k :: s.len <= k < off ==> t.arr[k] == 0
  {
    t := s;
    if s.len < need {
      if s.arr.Length >= need {
        t := Slice(s.arr, need);
        if off > s.len {
          ClearRange(s.arr, s.len, off);
        }
      } else {
        var nb := new Byte[chunkSize](_ => 0);
        CopyInto(nb, 0, s.arr[..s.len]);
        t := Slice(nb, need);
      }
    }
  }

  /** Grow s to hold [off, off + |w|) and lay w over it. */
  method SpliceSlice(s: Slice, chunkSize: nat, off: nat, w: seq<Byte>) returns (t: Slice)
    requires s.len <= s.arr.Length
    requires off + |w| <= s.arr.Length || (off + |w| <= chunkSize && s.len <= chunkSize)
    modifies s.arr
    ensures t.len == Max(s.len, off + |w|) <= t.arr.Length
    ensures t.arr == s.arr || (fresh(t.arr) && chunkSize <= t.arr.Length)
    ensures t.arr[..t.len] == Overlay(old(s.arr[..s.len]), off, w)
  {
    ghost var was := s.arr[..s.len];
    t := GrowSlice(s, chunkSize, off, off + |w|);
    CopyInto(t.arr, off, w);
    IsOverlay(was, off, w, t.arr[..t.len]);
  }

  /** Pointwise account of a merge at a given length. */
  lemma IsMerge(was: seq<Byte>, chunkLen: nat, off: nat, w: seq<Byte>, now: seq<Byte>)
    requires |now| == chunkLen && off <= chunkLen
    requires forall k :: 0 <= k < chunkLen ==> now[k] == if off <= k < off + |w| then w[k - off] else At(was, k)
    ensures now == Merge(Resized(was, chunkLen), off, w)
  {
    hide Merge, Resized;
    forall k | 0 <= k < chunkLen ensures now[k] == Merge(Resized(was, chunkLen), off, w)[k] {
      assert At(Resized(was, chunkLen), k) == Resized(was, chunkLen)[k];
    }
  }

  /** Bring s to exactly chunkLen bytes, in place or, without the room, in a new buffer. */
  method FitSlice(s: Slice, chunkSize: nat, chunkLen: nat, inPlace: bool) returns (t: Slice)
    requires s.len <= s.arr.Length && (if inPlace then chunkLen <= s.arr.Length else chunkLen <= chunkSize)
    modifies s.arr
    ensures t.len == chunkLen <= t.arr.Length && (t.arr == s.arr || (fresh(t.arr) && chunkSize <= t.arr.Length))
    ensures forall k :: 0 <= k < chunkLen ==> t.arr[k] == At(old(s.arr[..s.len]), k)
  {
    if inPlace {
      t := Slice(s.arr, chunkLen);
      if s.len < chunkLen {
        ClearRange(s.arr, s.len, chunkLen);
      }
    } else {
      var merged := new Byte[chunkSize](_ => 0);
      CopyInto(merged, 0, s.arr[..Min(s.len, chunkLen)]);
      t := Slice(merged, chunkLen);
    }
  }

  /** Rebuild a chunk at its new valid length with w laid over it, as far as it reaches. */
  method MergeSlice(s: Slice, chunkSize: nat, chunkLen: nat, off: nat, w: seq<Byte>) returns (t: Slice)
    requires s.len <= s.arr.Length && off <= chunkLen
    requires chunkLen <= chunkSize || (chunkLen <= s.arr.Length && off + |w| <= chunkLen)
    modifies s.arr
    ensures t.len == chunkLen <= t.arr.Length && (t.arr == s.arr || (fresh(t.arr) && chunkSize <= t.arr.Length))
    ensures t.arr[..t.len] == Merge(Resized(old(s.arr[..s.len]), chunkLen), off, w)
  {
    ghost var was := s.arr[..s.len];
    t := FitSlice(s, chunkSize, chunkLen, s.arr.Length >= chunkLen && off + |w| <= chunkLen);
    CopyInto(t.arr, off, w[..Min(|w|, chunkLen - off)]);
    IsMerge(was, chunkLen, off, w, t.arr[..chunkLen]);
  }

  lemma WithoutNone(e: Entry)
    ensures Without(e, {}) == e
  {
  }

  lemma WithoutTwice(e: Entry, a: set<nat>, b: set<nat>)
    ensures Without(Without(e, a), b) == Without(e, a + b)
  {
  }

  class MemStore {
    const chunkSize: nat
    const hash: seq<Byte> -> Hash
    var live: bool                      // the files map has this key
    var curSize: nat
    var chunks: map<nat, Slice>
    var present: map<nat, WordMap>
    var hashes: map<nat, Hash>
    ghost var contents: map<nat, seq<Byte>>   // what the slices hold
    ghost var bitsets: map<nat, set<nat>>     // what the bitmaps denote
    ghost var repr: set<array<Byte>>          // every buffer ever used

    /** Slices are in bounds with room for a chunk, no two chunks share a buffer, and each holds its
        contents; the chunks of except may be in the middle of being rewritten. */
    ghost predicate SlicesOK(except: set<nat>)
      reads this`chunks, this`contents, this`repr, repr
    {
      && chunks.Keys == contents.Keys
      && (forall i :: i in chunks ==> chunks[i].arr in repr)
      && (forall i :: i in chunks ==> chunks[i].len <= chunks[i].arr.Length && chunkSize <= chunks[i].arr.Length)
      && (forall i, j :: i in chunks && j in chunks && i != j ==> chunks[i].arr != chunks[j].arr)
      && (forall i :: i in chunks && i !in except ==> chunks[i].arr[..chunks[i].len] == contents[i])
    }

    /** Bitmaps have their full width and denote the partial chunks' sub-blocks. */
    ghost predicate BitsOK()
      reads this`present, this`bitsets
    {
      && present.Keys == bitsets.Keys
      && (forall i :: i in present ==> |present[i]| == BmWords(SubsPerChunk(chunkSize)))
      && (forall i :: i in present ==> WordBits(present[i]) == bitsets[i])
    }

    /** A buffer for the chunk can be brought to need bytes: Go panics on a length above the capacity. */
    ghost predicate Fits(idx: nat, need: nat)
      reads this`chunks
    {
      need <= chunkSize || (idx in chunks && need <= chunks[idx].arr.Length)
    }

    ghost predicate Valid()
      reads this, repr
    {
      && chunkSize > 0 && SlicesOK({}) && BitsOK()
      && (!live ==> Value() == EMPTY)
    }

    lemma Weaken(except: set<nat>)
      requires SlicesOK({})
      ensures SlicesOK(except)
    {
    }

    lemma KeysAgree()
      requires SlicesOK({}) && BitsOK()
      ensures chunks.Keys == contents.Keys && present.Keys == bitsets.Keys
    {
    }

    ghost function Value(): Entry
      reads this
    {
      Entry(curSize, contents, bitsets, hashes)
    }

    /** The entry as a value. */
    ghost function Abs(): State
      reads this
    {
      if live then Some(Value()) else None
    }

    constructor (chunkSize: nat, hash: seq<Byte> -> Hash)
      requires chunkSize > 0
      ensures Valid() && Abs() == None && repr == {} && this.chunkSize == chunkSize && this.hash == hash
    {
      this.chunkSize, this.hash := chunkSize, hash;
      live, curSize, chunks, present, hashes := false, 0, map[], map[], map[];
      contents, bitsets, repr := map[], map[], {};
    }

    // ---- reads ------------------------------------------------------------------------------

    method Get(idx: nat, n: nat) returns (r: Option<seq<Byte>>)
      requires Valid()
      ensures r == MemModel.Get(Abs(), idx, n)
    {
      if !live || idx !in chunks || idx in present {
        return None;
      }
      var s := chunks[idx];
      SliceOfSlice(s.arr[..], 0, s.len, 0, Min(n, s.len));
      r := Some(s.arr[..Min(n, s.len)]);
    }

    method IsRangePresent(idx: nat, off: nat, n: nat) returns (r: bool)
      requires Valid()
      ensures r <==> RangePresent(Value(), idx, off, n)
    {
      if idx !in chunks {
        return false;
      }
      if idx !in present {
        return true;
      }
      var (first, last) := SubSpan(off, n);
      r := BmRangeAllSet(present[idx], first, last);
      SpanRange(off, n);
    }

    method GetSub(idx: nat, subOff: nat, n: nat) returns (r: Option<seq<Byte>>)
      requires Valid()
      ensures r == MemModel.GetSub(Abs(), idx, subOff, n)
    {
      if !live || idx !in chunks {
        return None;
      }
      var s := chunks[idx];
      var there := IsRangePresent(idx, subOff, n);
      if !there || subOff + n > s.len {
        return None;
      }
      SliceOfSlice(s.arr[..], 0, s.len, subOff, subOff + n);
      r := Some(s.arr[subOff..subOff + n]);
    }

    method HashRange(idx: nat, off: int, length: int) returns (r: Option<Hash>)
      requires Valid()
      ensures var range := HashedRange(Abs(), idx, off, length);
              r == if range.Some? then Some(hash(range.value)) else None
    {
      if !live || idx !in chunks {
        return None;
      }
      var s := chunks[idx];
      if off < 0 || length < 0 || off + length > s.len {
        return None;
      }
      var there := IsRangePresent(idx, off, length);
      if !there {
        return None;
      }
      SliceOfSlice(s.arr[..], 0, s.len, off, off + length);
      r := Some(hash(s.arr[off..off + length]));
    }

    // ---- writes -----------------------------------------------------------------------------

    /** e.chunks[idx] = s, for a buffer no other chunk uses. */
    method Install(idx: nat, s: Slice)
      requires SlicesOK({idx})
      requires s.len <= s.arr.Length && chunkSize <= s.arr.Length
      requires s.arr !in repr || (idx in chunks && chunks[idx].arr == s.arr)
      modifies this`chunks, this`contents, this`repr
      ensures SlicesOK({}) && repr == old(repr) + {s.arr}
      ensures contents == old(contents)[idx := s.arr[..s.len]]
    {
      contents := contents[idx := s.arr[..s.len]];
      chunks := chunks[idx := s];
      repr := repr + {s.arr};
    }

    /** e.chunks[idx] = cloneChunk(w). */
    method InstallClone(idx: nat, w: seq<Byte>)
      requires SlicesOK({})
      modifies this`chunks, this`contents, this`repr
      ensures SlicesOK({}) && fresh(repr - old(repr))
      ensures contents == old(contents)[idx := w]
    {
      hide SlicesOK;
      var s := CloneChunk(chunkSize, w);
      assert s.arr !in repr;
      Weaken({idx});
      Install(idx, s);
    }

    /** Forget the chunks of gone: delete them from the chunk map. */
    method Evict(gone: set<nat>)
      requires SlicesOK(gone)
      modifies this`chunks, this`contents
      ensures SlicesOK({})
      ensures contents == old(contents) - gone
    {
      contents := contents - gone;
      chunks := chunks - gone;
    }

    /** Delete bitmaps. */
    method Unmark(gone: set<nat>)
      requires BitsOK()
      modifies this`present, this`bitsets
      ensures BitsOK() && bitsets == old(bitsets) - gone
    {
      bitsets := bitsets - gone;
      present := present - gone;
    }

    /** Set a range of bits of the chunk's bitmap, creating it when the chunk has none. */
    method MarkBits(idx: nat, off: nat, n: nat)
      requires BitsOK()
      modifies this`present, this`bitsets
      ensures BitsOK()
      ensures bitsets == old(bitsets)[idx := BitsOr(old(bitsets), idx) + SpanBits(chunkSize, off, n)]
    {
      hide Range, SubSpan, BmWords, SubsPerChunk, BmGet;
      var bm := if idx in present then present[idx] else BlankWords(BmWords(SubsPerChunk(chunkSize)));
      assert WordBits(bm) == BitsOr(bitsets, idx);
      var (first, last) := SubSpan(off, n);
      var marked := BmSetRange(bm, first, last);
      assert WordBits(marked) == WordBits(bm) + SpanBits(chunkSize, off, n);
      bitsets := bitsets[idx := WordBits(marked)];
      present := present[idx := marked];
    }

    method PutHashed(idx: nat, w: seq<Byte>, h: Hash)
      requires Valid()
      modifies this
      ensures Valid() && fresh(repr - old(repr))
      ensures Abs() == Some(PutWhole(chunkSize, old(Abs()), idx, w, h))
    {
      hide SlicesOK, BitsOK, Start;
      InstallClone(idx, w);
      live := true;
      Unmark({idx});
      hashes := hashes[idx := h];
      curSize := Max(curSize, Start(chunkSize, idx) + |w|);
    }

    method Put(idx: nat, w: seq<Byte>)
      requires Valid()
      modifies this
      ensures Valid() && fresh(repr - old(repr))
      ensures Abs() == Some(PutWhole(chunkSize, old(Abs()), idx, w, hash(w)))
    {
      PutHashed(idx, w, hash(w));
    }

    /** Splice into the chunk's own buffer, or into a new one when the chunk is absent. */
    method SpliceChunk(idx: nat, off: nat, w: seq<Byte>)
      requires SlicesOK({}) && Fits(idx, off + |w|)
      modifies this`chunks, this`contents, this`repr, repr
      ensures SlicesOK({}) && fresh(repr - old(repr))
      ensures contents == old(contents)[idx := Overlay(ContentsOr(old(contents), idx), off, w)]
    {
      hide Overlay, SlicesOK;
      var s := SplicedBuffer(idx, off, w);
      Install(idx, s);
    }

    method SplicedBuffer(idx: nat, off: nat, w: seq<Byte>) returns (s: Slice)
      requires SlicesOK({}) && Fits(idx, off + |w|)
      modifies repr
      ensures SlicesOK({idx}) && s.len <= s.arr.Length && chunkSize <= s.arr.Length
      ensures fresh(s.arr) || (idx in chunks && chunks[idx].arr == s.arr && s.arr in repr)
      ensures s.arr[..s.len] == Overlay(ContentsOr(contents, idx), off, w)
    {
      hide Overlay;
      if idx in chunks {
        s := SpliceSlice(chunks[idx], chunkSize, off, w);
      } else {
        var buf := new Byte[chunkSize](_ => 0);
        assert buf[..0] == [];
        s := SpliceSlice(Slice(buf, 0), chunkSize, off, w);
      }
    }

    method PutSub(idx: nat, subOff: nat, w: seq<Byte>)
      requires Valid() && Fits(idx, subOff + |w|)
      modifies this, repr
      ensures Valid() && fresh(repr - old(repr))
      ensures Abs() == Some(MemModel.PutSub(chunkSize, old(Abs()), idx, subOff, w))
    {
      hide Overlay, SpanBits, SlicesOK, BitsOK;
      KeysAgree();
      live := true;
      var wasFull := idx in chunks && idx !in present;
      SpliceChunk(idx, subOff, w);
      if !wasFull {
        MarkBits(idx, subOff, |w|);
      }
      curSize := Max(curSize, subOff + |w|);
    }

    method WriteThrough(idx: nat, chunkOff: nat, w: seq<Byte>, chunkLen: nat)
      requires Valid() && ((chunkOff == 0 && |w| == chunkLen) || idx !in chunks || Fits(idx, chunkOff + |w|))
      modifies this, repr
      ensures Valid() && fresh(repr - old(repr))
      ensures Abs() == MemModel.WriteThrough(chunkSize, old(Abs()), idx, chunkOff, w, chunkLen)
    {
      hide Overlay, SpanBits, PutWhole, Start, SlicesOK, BitsOK;
      KeysAgree();
      if chunkOff == 0 && |w| == chunkLen {
        PutHashed(idx, w, UNKNOWN_HASH);
        return;
      }
      if !live || idx !in chunks {
        return;
      }
      curSize := Max(curSize, Start(chunkSize, idx) + chunkOff + |w|);
      SpliceChunk(idx, chunkOff, w);
      hashes := hashes[idx := UNKNOWN_HASH];
      if idx in present {
        MarkBits(idx, chunkOff, |w|);
      }
    }

    /** The merge stays inside its buffer: in place, or in a new one of the chunk size. */
    ghost predicate Mergeable(idx: nat, chunkOff: nat, w: seq<Byte>, chunkLen: nat)
      requires idx in chunks
      reads this`chunks
    {
      && chunkOff <= chunkLen
      && (chunkLen <= chunkSize || (chunkLen <= chunks[idx].arr.Length && chunkOff + |w| <= chunkLen))
    }

    /** Merge, then keep the chunk if it hashes to what the caller says, else drop it. */
    method MergeChunk(idx: nat, chunkOff: nat, w: seq<Byte>, chunkLen: nat, callerHash: Hash) returns (agrees: bool)
      requires SlicesOK({}) && idx in chunks && Mergeable(idx, chunkOff, w, chunkLen)
      modifies this`chunks, this`contents, this`repr, repr
      ensures SlicesOK({}) && fresh(repr - old(repr))
      ensures var merged := Merge(Resized(old(contents)[idx], chunkLen), chunkOff, w);
              && agrees == (hash(merged) == callerHash)
              && contents == if agrees then old(contents)[idx := merged] else old(contents) - {idx}
    {
      hide Merge, Resized, SlicesOK;
      var s := MergedBuffer(idx, chunkOff, w, chunkLen);
      agrees := hash(s.arr[..s.len]) == callerHash;
      if agrees {
        Install(idx, s);
      } else {
        Evict({idx});
      }
    }

    method MergedBuffer(idx: nat, chunkOff: nat, w: seq<Byte>, chunkLen: nat) returns (s: Slice)
      requires SlicesOK({}) && idx in chunks && Mergeable(idx, chunkOff, w, chunkLen)
      modifies repr
      ensures SlicesOK({idx}) && s.len <= s.arr.Length && chunkSize <= s.arr.Length
      ensures fresh(s.arr) || (chunks[idx].arr == s.arr && s.arr in repr)
      ensures idx in contents && s.arr[..s.len] == Merge(Resized(contents[idx], chunkLen), chunkOff, w)
    {
      hide Merge, Resized;
      s := MergeSlice(chunks[idx], chunkSize, chunkLen, chunkOff, w);
    }

    method WriteChunk(idx: nat, chunkOff: nat, w: seq<Byte>, chunkLen: nat, callerHash: Hash)
      requires Valid()
      requires (chunkOff == 0 && |w| == chunkLen) || idx !in chunks || Mergeable(idx, chunkOff, w, chunkLen)
      modifies this, repr
      ensures Valid() && fresh(repr - old(repr))
      ensures Abs() == MemModel.WriteChunk(chunkSize, hash, old(Abs()), idx, chunkOff, w, chunkLen, callerHash)
    {
      hide Merge, Resized, PutWhole, Start, SlicesOK, BitsOK;
      KeysAgree();
      if chunkOff == 0 && |w| == chunkLen {
        PutHashed(idx, w, callerHash);
        return;
      }
      if !live || idx !in chunks {
        return;
      }
      curSize := Max(curSize, Start(chunkSize, idx) + chunkOff + |w|);
      var agrees := MergeChunk(idx, chunkOff, w, chunkLen, callerHash);
      hashes := if agrees then hashes[idx := callerHash] else hashes - {idx};
    }

    /** Forget the chunks of gone altogether. */
    method Forget(gone: set<nat>)
      requires SlicesOK({}) && BitsOK()
      modifies this`chunks, this`contents, this`present, this`bitsets, this`hashes
      ensures SlicesOK({}) && BitsOK()
      ensures Value() == Without(old(Value()), gone)
    {
      hide SlicesOK, BitsOK;
      Weaken(gone);
      Evict(gone);
      Unmark(gone);
      hashes := hashes - gone;
    }

    method Drop(idx: nat)
      requires Valid()
      modifies this
      ensures Valid() && repr == old(repr)
      ensures Abs() == Dropped(old(Abs()), idx)
    {
      if live {
        Forget({idx});
      }
    }

    /** Deletes while ranging over the chunks. */
    method Resize(newSize: nat)
      requires Valid()
      modifies this
      ensures Valid() && repr == old(repr)
      ensures Abs() == Some(ResizedEntry(chunkSize, old(Abs()), newSize))
    {
      hide ChunkOf, SlicesOK, BitsOK, Without;
      live := true;
      ghost var e := Value();
      var from := ChunkOf(chunkSize, newSize);
      var todo := chunks.Keys;
      KeysAgree();
      ghost var gone := {};
      WithoutNone(e);
      while todo != {}
        invariant SlicesOK({}) && BitsOK() && live && repr == old(repr)
        invariant todo <= e.chunks.Keys
        invariant forall i: nat :: i in gone <==> i in e.chunks && i !in todo && i >= from
        invariant Value() == Without(e, gone)
        decreases todo
      {
        var i :| i in todo;
        if i >= from {
          Forget({i});
          WithoutTwice(e, gone, {i});
          gone := gone + {i};
        }
        todo := todo - {i};
      }
      FinishResize(newSize, e, gone);
    }

    /** Drop the old last chunk and record the new size. */
    method FinishResize(newSize: nat, ghost e: Entry, ghost gone: set<nat>)
      requires SlicesOK({}) && BitsOK() && chunkSize > 0 && live
      requires Value() == Without(e, gone)
      requires forall i: nat :: i in gone <==> i in e.chunks && i >= ChunkOf(chunkSize, newSize)
      modifies this`chunks, this`contents, this`present, this`bitsets, this`hashes, this`curSize
      ensures SlicesOK({}) && BitsOK()
      ensures Value() == ResizedEntry(chunkSize, Some(e), newSize)
    {
      hide ChunkOf, SlicesOK, BitsOK;
      var straddle := Straddle(chunkSize, curSize);
      Forget(straddle);
      WithoutTwice(e, gone, straddle);
      assert gone == set i | i in e.chunks && i >= ChunkOf(chunkSize, newSize);
      curSize := newSize;
    }

    method Invalidate()
      requires Valid()
      modifies this
      ensures Valid() && Abs() == None
    {
      live, curSize, chunks, present, hashes := false, 0, map[], map[], map[];
      contents, bitsets := map[], map[];
    }
  }
}
