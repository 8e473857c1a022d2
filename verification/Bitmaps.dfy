/** Presence bitmaps (pkg/blockcache/diskstore.go and pkg/blockcache/blockcache.go).

    DiskStore keeps presence bits in byte bitmaps; MemStore keeps a chunk's sub-block bits in
    64-bit words.  Both denote plain sets of indices: every operation on the machine
    representation is the corresponding operation on the set of bit positions.
 */
module Bitmaps {

  type ByteMap = seq<bv8>
  type WordMap = seq<bv64>

  /** The indices of an inclusive range. */
  ghost function Range(first: nat, last: int): (r: set<nat>)
    ensures forall i: nat :: i in r <==> first <= i <= last
    decreases last - first
  {
    if last < first then {} else Range(first, last - 1) + {last}
  }

  // ---- byte bitmaps -------------------------------------------------------------------------

  function Mask8(k: nat): bv8
    requires k < 8
  {
    (1 as bv8) << (k as bv8)
  }

  predicate BitSet(bm: ByteMap, i: nat) {
    i / 8 < |bm| && bm[i / 8] & Mask8(i % 8) != 0
  }

  /** The set a byte bitmap denotes. */
  ghost function Bits(bm: ByteMap): (r: set<nat>)
    ensures forall i: nat :: i in r <==> BitSet(bm, i)
  {
    set i: nat | i < 8 * |bm| && BitSet(bm, i)
  }

  lemma Mask8Or(b: bv8, j: nat, k: nat)
    requires j < 8 && k < 8
    ensures (b | Mask8(j)) & Mask8(k) != 0 <==> j == k || b & Mask8(k) != 0
  {
  }

  lemma Mask8AndNot(b: bv8, j: nat, k: nat)
    requires j < 8 && k < 8
    ensures b & !Mask8(j) & Mask8(k) != 0 <==> j != k && b & Mask8(k) != 0
  {
  }

  /** Setting a bit adds exactly that index; the bitmap keeps its length. */
  function SetBit(bm: ByteMap, i: nat): (r: ByteMap)
    requires i / 8 < |bm|
    ensures |r| == |bm|
    ensures Bits(r) == Bits(bm) + {i}
  {
    var r := bm[i / 8 := bm[i / 8] | Mask8(i % 8)];
    assert forall k: nat :: BitSet(r, k) <==> k == i || BitSet(bm, k) by {
      forall k: nat ensures BitSet(r, k) <==> k == i || BitSet(bm, k) {
        if k / 8 == i / 8 { Mask8Or(bm[i / 8], i % 8, k % 8); }
      }
    }
    r
  }

  /** Clearing a bit removes exactly that index; an index past the bitmap is already clear. */
  function ClearBit(bm: ByteMap, i: nat): (r: ByteMap)
    ensures |r| == |bm|
    ensures Bits(r) == Bits(bm) - {i}
  {
    if i / 8 < |bm| then
      var r := bm[i / 8 := bm[i / 8] & !Mask8(i % 8)];
      assert forall k: nat :: BitSet(r, k) <==> k != i && BitSet(bm, k) by {
        forall k: nat ensures BitSet(r, k) <==> k != i && BitSet(bm, k) {
          if k / 8 == i / 8 { Mask8AndNot(bm[i / 8], i % 8, k % 8); }
        }
      }
      r
    else
      bm
  }

  /** A bitmap of zero bytes denotes the empty set. */
  function Blank(n: nat): (r: ByteMap)
    ensures |r| == n
    ensures Bits(r) == {}
  {
    seq(n, _ => 0)
  }

  /** Growing makes index i addressable and adds no member. */
  function GrowTo(bm: ByteMap, i: nat): (r: ByteMap)
    ensures |r| == if |bm| <= i / 8 then i / 8 + 1 else |bm|
    ensures Bits(r) == Bits(bm)
  {
    if |bm| <= i / 8 then
      var r := bm + Blank(i / 8 + 1 - |bm|);
      assert forall k: nat :: BitSet(r, k) <==> BitSet(bm, k);
      r
    else
      bm
  }

  /** Truncating to n bytes keeps exactly the indices below 8n. */
  function Truncate(bm: ByteMap, n: nat): (r: ByteMap)
    requires n <= |bm|
    ensures |r| == n
    ensures forall i: nat :: i in Bits(r) <==> i in Bits(bm) && i < 8 * n
  {
    bm[..n]
  }

  /** The source's loop of setBit over an inclusive index range. */
  method SetBitRange(bm: ByteMap, first: nat, last: int) returns (r: ByteMap)
    requires first <= last ==> last / 8 < |bm|
    ensures |r| == |bm|
    ensures Bits(r) == Bits(bm) + Range(first, last)
  {
    hide BitSet;
    r := bm;
    var s := first;
    while s <= last
      invariant first <= s
      invariant |r| == |bm|
      invariant Bits(r) == Bits(bm) + Range(first, if s - 1 < last then s - 1 else last)
    {
      assert s / 8 <= last / 8;
      r := SetBit(r, s);
      s := s + 1;
    }
  }

  /** The source's loop of clearBit over an inclusive index range. */
  method ClearBitRange(bm: ByteMap, first: nat, last: int) returns (r: ByteMap)
    ensures |r| == |bm|
    ensures Bits(r) == Bits(bm) - Range(first, last)
  {
    hide BitSet;
    r := bm;
    var s := first;
    while s <= last
      invariant first <= s
      invariant |r| == |bm|
      invariant Bits(r) == Bits(bm) - Range(first, if s - 1 < last then s - 1 else last)
    {
      r := ClearBit(r, s);
      s := s + 1;
    }
  }

  // ---- 64-bit word bitmaps ------------------------------------------------------------------

  function Mask64(k: nat): bv64
    requires k < 64
  {
    (1 as bv64) << (k as bv8)
  }

  function BmWords(nSub: nat): (w: nat)
    ensures nSub <= 64 * w < nSub + 64
  {
    (nSub + 63) / 64
  }

  predicate BmGet(bm: WordMap, i: nat) {
    i / 64 < |bm| && bm[i / 64] & Mask64(i % 64) != 0
  }

  /** The set a word bitmap denotes. */
  ghost function WordBits(bm: WordMap): (r: set<nat>)
    ensures forall i: nat :: i in r <==> BmGet(bm, i)
  {
    set i: nat | i < 64 * |bm| && BmGet(bm, i)
  }

  lemma ShiftOr(b: bv64, j: bv8, k: bv8)
    requires j < 64 && k < 64
    ensures (b | ((1 as bv64) << j)) & ((1 as bv64) << k) != 0 <==> j == k || b & ((1 as bv64) << k) != 0
  {
  }

  lemma NarrowInjective(j: nat, k: nat)
    requires j < 64 && k < 64
    ensures j as bv8 < 64
    ensures j as bv8 == k as bv8 ==> j == k
  {
    assert (j as bv8) as nat == j;
    assert (k as bv8) as nat == k;
  }

  lemma Mask64Or(b: bv64, j: nat, k: nat)
    requires j < 64 && k < 64
    ensures (b | Mask64(j)) & Mask64(k) != 0 <==> j == k || b & Mask64(k) != 0
  {
    NarrowInjective(j, k);
    NarrowInjective(k, j);
    ShiftOr(b, j as bv8, k as bv8);
  }

  /** bmSet adds exactly that index, and ignores an index past the words. */
  function BmSet(bm: WordMap, i: nat): (r: WordMap)
    ensures |r| == |bm|
    ensures WordBits(r) == WordBits(bm) + (if i < 64 * |bm| then {i} else {})
  {
    if i / 64 < |bm| then
      var r := bm[i / 64 := bm[i / 64] | Mask64(i % 64)];
      assert forall k: nat :: BmGet(r, k) <==> k == i || BmGet(bm, k) by {
        forall k: nat ensures BmGet(r, k) <==> k == i || BmGet(bm, k) {
          if k / 64 == i / 64 { Mask64Or(bm[i / 64], i % 64, k % 64); }
        }
      }
      r
    else
      bm
  }

  function BlankWords(n: nat): (r: WordMap)
    ensures |r| == n
    ensures WordBits(r) == {}
  {
    seq(n, _ => 0)
  }

  /** The source's loop of bmSet over an inclusive index range. */
  method BmSetRange(bm: WordMap, first: nat, last: nat) returns (r: WordMap)
    ensures |r| == |bm|
    ensures WordBits(r) == WordBits(bm) + (set i | i in Range(first, last) && i < 64 * |bm|)
  {
    hide BmGet;
    r := bm;
    var i := first;
    while i <= last
      invariant first <= i
      invariant |r| == |bm|
      invariant WordBits(r) == WordBits(bm) + (set k | k in Range(first, last) && k < i && k < 64 * |bm|)
    {
      r := BmSet(r, i);
      i := i + 1;
    }
  }

  /** bmRangeAllSet is inclusion of the index range in the denoted set. */
  method BmRangeAllSet(bm: WordMap, first: nat, last: int) returns (all: bool)
    ensures all <==> Range(first, last) <= WordBits(bm)
  {
    var i := first;
    while i <= last
      invariant first <= i
      invariant forall k :: first <= k < i && k <= last ==> k in WordBits(bm)
    {
      if !BmGet(bm, i) {
        assert i in Range(first, last);
        return false;
      }
      i := i + 1;
    }
    all := true;
  }
}
