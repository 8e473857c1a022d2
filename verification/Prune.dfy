/** Two-pass eviction of the on-disk cache (pkg/blockcache/prune.go).

    The first pass drops what is older than the cutoff, filtering the entries into the front of the
    very array it is ranging over.  The second drops oldest first until the rest fits the cap.
    A removal that fails still counts as freed, so expired and evicted are the entries whose removal
    was attempted.
 */
module Prunes {
  import opened Options
  import StableSorts

  type Time = int

  datatype Entry = Entry(key: string, size: nat, mod: Time)

  function Total(es: seq<Entry>): nat {
    if es == [] then 0 else es[0].size + Total(es[1..])
  }

  /** The entries a TTL pass keeps; no cutoff keeps everything. */
  predicate Young(e: Entry, cutoff: Time) {
    cutoff <= e.mod
  }

  function Kept(es: seq<Entry>, cutoff: Time): (r: seq<Entry>)
    ensures |r| <= |es| && forall i :: 0 <= i < |r| ==> Young(r[i], cutoff)
  {
    if es == [] then []
    else Kept(es[..|es| - 1], cutoff) + (if Young(es[|es| - 1], cutoff) then [es[|es| - 1]] else [])
  }

  function Expired(es: seq<Entry>, cutoff: Time): (r: seq<Entry>)
    ensures forall i :: 0 <= i < |r| ==> !Young(r[i], cutoff)
  {
    if es == [] then []
    else Expired(es[..|es| - 1], cutoff) + (if Young(es[|es| - 1], cutoff) then [] else [es[|es| - 1]])
  }

  lemma {:induction false} KeptAndExpired(es: seq<Entry>, cutoff: Time)
    ensures multiset(Kept(es, cutoff)) + multiset(Expired(es, cutoff)) == multiset(es)
    ensures |Kept(es, cutoff)| + |Expired(es, cutoff)| == |es|
    decreases |es|
  {
    if es != [] {
      var init, last := es[..|es| - 1], es[|es| - 1];
      KeptAndExpired(init, cutoff);
      assert es == init + [last];
      assert multiset(es) == multiset(init) + multiset{last};
      if Young(last, cutoff) {
        assert Expired(es, cutoff) == Expired(init, cutoff);
        assert multiset(Kept(es, cutoff)) == multiset(Kept(init, cutoff)) + multiset{last};
      } else {
        assert Kept(es, cutoff) == Kept(init, cutoff);
        assert multiset(Expired(es, cutoff)) == multiset(Expired(init, cutoff)) + multiset{last};
      }
    }
  }

  // ---- sort.Slice by mod time ---------------------------------------------------------------

  ghost predicate OldestFirst(es: seq<Entry>) {
    StableSorts.OldestFirst((e: Entry) => e.mod, es)
  }

  function Sorted(es: seq<Entry>): (r: seq<Entry>) {
    StableSorts.StableSort((e: Entry) => e.mod, es)
  }

  lemma {:induction false} TotalSnoc(es: seq<Entry>, e: Entry)
    ensures Total(es + [e]) == Total(es) + e.size
  {
    if es == [] {
      assert es + [e] == [e] && [e][1..] == [];
    } else {
      TotalSnoc(es[1..], e);
      assert (es + [e])[1..] == es[1..] + [e];
    }
  }

  lemma {:induction false} InsertTotal(ts: Entry -> int, es: seq<Entry>, e: Entry)
    ensures Total(StableSorts.InsertLast(ts, es, e)) == Total(es) + e.size
  {
    TotalSnoc(es, e);
    if es != [] && ts(es[|es| - 1]) > ts(e) {
      var init, last := es[..|es| - 1], es[|es| - 1];
      InsertTotal(ts, init, e);
      TotalSnoc(StableSorts.InsertLast(ts, init, e), last);
      TotalSnoc(init, last);
      assert es == init + [last];
    }
  }

  lemma {:induction false} SortTotal(ts: Entry -> int, es: seq<Entry>)
    ensures Total(StableSorts.StableSort(ts, es)) == Total(es)
  {
    if es != [] {
      var init, last := es[..|es| - 1], es[|es| - 1];
      SortTotal(ts, init);
      InsertTotal(ts, StableSorts.StableSort(ts, init), last);
      TotalSnoc(init, last);
      assert es == init + [last];
    }
  }

  lemma SortedSorts(es: seq<Entry>)
    ensures OldestFirst(Sorted(es)) && multiset(Sorted(es)) == multiset(es) && Total(Sorted(es)) == Total(es)
    ensures |Sorted(es)| == |es| && forall e :: e in Sorted(es) ==> e in es
  {
    var ts := (e: Entry) => e.mod;
    StableSorts.StableSortSorts(ts, es, 0);
    StableSorts.StableSortConserves(ts, es);
    SortTotal(ts, es);
    SameMembers(Sorted(es), es);
  }

  lemma SameMembers(a: seq<Entry>, b: seq<Entry>)
    requires multiset(a) == multiset(b)
    ensures |a| == |b| && forall e :: e in a ==> e in b
  {
    assert |multiset(a)| == |a| && |multiset(b)| == |b|;
    forall e | e in a ensures e in b {
      assert e in multiset(a);
    }
  }

  // ---- Prune --------------------------------------------------------------------------------

  /** What Prune leaves and takes of the entries found. */
  ghost predicate Pruned(found: seq<Entry>, cutoff: Option<Time>, maxBytes: int, expired: seq<Entry>,
                         evicted: seq<Entry>, survivors: seq<Entry>) {
    // conservation
    && multiset(expired) + multiset(evicted) + multiset(survivors) == multiset(found)
    // the TTL pass takes exactly what is older than the cutoff
    && (cutoff.None? ==> expired == [])
    && (cutoff.Some? ==>
          && (forall e :: e in expired ==> e.mod < cutoff.value)
          && (forall e :: e in evicted || e in survivors ==> cutoff.value <= e.mod))
    // the rest fits the cap
    && (maxBytes > 0 ==> Total(survivors) <= maxBytes)
    // size evictions go oldest first, and no further than needed
    && OldestFirst(evicted)
    && (forall e, s :: e in evicted && s in survivors ==> e.mod <= s.mod)
    && (evicted != [] ==> maxBytes > 0 && Total(survivors) + evicted[|evicted| - 1].size > maxBytes)
  }

  /** Filter into entries[:0] while ranging over entries: the write index never passes the read index. */
  method FilterInPlace(a: array<Entry>, cutoff: Time) returns (n: nat, expired: seq<Entry>)
    modifies a
    ensures n <= a.Length && a[..n] == Kept(old(a[..]), cutoff) && expired == Expired(old(a[..]), cutoff)
  {
    n, expired := 0, [];
    ghost var was := a[..];
    for i := 0 to a.Length
      invariant n <= i && a[i..] == was[i..]
      invariant a[..n] == Kept(was[..i], cutoff) && expired == Expired(was[..i], cutoff)
    {
      var e := a[i];
      assert was[..i + 1][..i] == was[..i] && was[..i + 1][i] == e;
      if e.mod < cutoff {
        expired := expired + [e];
      } else {
        a[n] := e;
        n := n + 1;
      }
      assert a[i + 1..] == was[i + 1..];
    }
    assert was[..a.Length] == was;
  }

  /** Evict from the front of the sorted entries until the rest fits. */
  method EvictOldest(kept: seq<Entry>, maxBytes: nat) returns (evicted: seq<Entry>, survivors: seq<Entry>)
    requires Total(kept) > maxBytes && OldestFirst(kept)
    ensures evicted + survivors == kept && Total(survivors) <= maxBytes
    ensures evicted != [] && Total(survivors) + evicted[|evicted| - 1].size > maxBytes
  {
    var total, i := Total(kept), 0;
    while i < |kept| && total > maxBytes
      invariant i <= |kept| && total == Total(kept[i..])
      invariant i == 0 ==> total > maxBytes
      invariant i > 0 ==> total + kept[i - 1].size > maxBytes
    {
      assert kept[i..][1..] == kept[i + 1..];
      total := total - kept[i].size;
      i := i + 1;
    }
    evicted, survivors := kept[..i], kept[i..];
  }

  method Prune(a: array<Entry>, cutoff: Option<Time>, maxBytes: int)
    returns (freed: nat, expired: seq<Entry>, evicted: seq<Entry>, survivors: seq<Entry>)
    modifies a
    ensures Pruned(old(a[..]), cutoff, maxBytes, expired, evicted, survivors)
    ensures freed == |expired| + |evicted|
    ensures freed + |survivors| == a.Length
  {
    ghost var found := a[..];
    var n := a.Length;
    expired := [];
    if cutoff.Some? {
      n, expired := FilterInPlace(a, cutoff.value);
      KeptAndExpired(found, cutoff.value);
    }
    ghost var kept := a[..n];
    assert cutoff.None? ==> kept == found;
    evicted, survivors := FitCap(a[..n], maxBytes);
    freed := |expired| + |evicted|;
    Assemble(found, cutoff, maxBytes, expired, evicted, survivors, kept);
  }

  lemma Sums(a: multiset<Entry>, b: multiset<Entry>, c: multiset<Entry>, bc: multiset<Entry>, all: multiset<Entry>)
    requires b + c == bc && a + bc == all
    ensures a + b + c == all
  {
  }

  lemma Assemble(found: seq<Entry>, cutoff: Option<Time>, maxBytes: int, expired: seq<Entry>,
                 evicted: seq<Entry>, survivors: seq<Entry>, kept: seq<Entry>)
    requires cutoff.None? ==> kept == found && expired == []
    requires cutoff.Some? ==> kept == Kept(found, cutoff.value) && expired == Expired(found, cutoff.value)
    requires multiset(evicted) + multiset(survivors) == multiset(kept)
    requires forall e :: e in evicted || e in survivors ==> e in kept
    requires maxBytes > 0 ==> Total(survivors) <= maxBytes
    requires OldestFirst(evicted) && forall e, s :: e in evicted && s in survivors ==> e.mod <= s.mod
    requires evicted != [] ==> maxBytes > 0 && Total(survivors) + evicted[|evicted| - 1].size > maxBytes
    ensures Pruned(found, cutoff, maxBytes, expired, evicted, survivors)
  {
    hide Total, OldestFirst, Kept, Expired;
    if cutoff.Some? {
      KeptAndExpired(found, cutoff.value);
    }
    Sums(multiset(expired), multiset(evicted), multiset(survivors), multiset(kept), multiset(found));
  }

  /** The size-cap pass. */
  method FitCap(kept: seq<Entry>, maxBytes: int) returns (evicted: seq<Entry>, survivors: seq<Entry>)
    ensures multiset(evicted) + multiset(survivors) == multiset(kept) && |evicted| + |survivors| == |kept|
    ensures forall e :: e in evicted || e in survivors ==> e in kept
    ensures maxBytes > 0 ==> Total(survivors) <= maxBytes
    ensures OldestFirst(evicted) && forall e, s :: e in evicted && s in survivors ==> e.mod <= s.mod
    ensures evicted != [] ==> maxBytes > 0 && Total(survivors) + evicted[|evicted| - 1].size > maxBytes
  {
    hide Sorted;
    evicted, survivors := [], kept;
    if maxBytes > 0 && Total(kept) > maxBytes {
      SortedSorts(kept);
      evicted, survivors := EvictOldest(Sorted(kept), maxBytes);
      SplitMembers(Sorted(kept), evicted, survivors);
    }
  }

  lemma SplitMembers(sorted: seq<Entry>, evicted: seq<Entry>, survivors: seq<Entry>)
    requires sorted == evicted + survivors && OldestFirst(sorted)
    ensures OldestFirst(evicted) && multiset(evicted) + multiset(survivors) == multiset(sorted)
    ensures forall e, s :: e in evicted && s in survivors ==> e.mod <= s.mod
    ensures forall e :: e in evicted || e in survivors ==> e in sorted
  {
    forall i, j | 0 <= i < j < |evicted| ensures evicted[i].mod <= evicted[j].mod {
      assert sorted[i] == evicted[i] && sorted[j] == evicted[j];
    }
    forall e | e in evicted || e in survivors ensures e in sorted {
      if e in evicted {
        var i :| 0 <= i < |evicted| && evicted[i] == e;
        assert sorted[i] == e;
      } else {
        var j :| 0 <= j < |survivors| && survivors[j] == e;
        assert sorted[|evicted| + j] == e;
      }
    }
    forall e, s | e in evicted && s in survivors ensures e.mod <= s.mod {
      var i :| 0 <= i < |evicted| && evicted[i] == e;
      var j :| 0 <= j < |survivors| && survivors[j] == s;
      assert sorted[i] == e && sorted[|evicted| + j] == s;
    }
  }
}
