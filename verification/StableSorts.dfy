/** sort.SliceStable by a key: the contract of the library call, and what it means. */
module StableSorts {

  ghost predicate OldestFirst<T>(ts: T -> int, es: seq<T>) {
    forall i, j :: 0 <= i < j < |es| ==> ts(es[i]) <= ts(es[j])
  }

  /** The events with timestamp t, in order. */
  ghost function AtTime<T>(ts: T -> int, es: seq<T>, t: int): seq<T> {
    if es == [] then []
    else AtTime(ts, es[..|es| - 1], t) + (if ts(es[|es| - 1]) == t then [es[|es| - 1]] else [])
  }

  /** Put e after everything that is not newer. */
  function InsertLast<T>(ts: T -> int, es: seq<T>, e: T): (r: seq<T>)
    ensures |r| == |es| + 1
  {
    if es == [] || ts(es[|es| - 1]) <= ts(e) then es + [e]
    else InsertLast(ts, es[..|es| - 1], e) + [es[|es| - 1]]
  }

  function StableSort<T>(ts: T -> int, es: seq<T>): seq<T> {
    if es == [] then [] else InsertLast(ts, StableSort(ts, es[..|es| - 1]), es[|es| - 1])
  }

  lemma AtTimeSnoc<T>(ts: T -> int, es: seq<T>, e: T, t: int)
    ensures AtTime(ts, es + [e], t) == AtTime(ts, es, t) + (if ts(e) == t then [e] else [])
  {
    assert (es + [e])[..|es|] == es;
  }

  lemma {:induction false} InsertLastSorts<T>(ts: T -> int, es: seq<T>, e: T)
    requires OldestFirst(ts, es)
    ensures OldestFirst(ts, InsertLast(ts, es, e))
    ensures forall x :: x in InsertLast(ts, es, e) ==> x == e || x in es
  {
    if es != [] && ts(es[|es| - 1]) > ts(e) {
      var init, last := es[..|es| - 1], es[|es| - 1];
      InsertLastSorts(ts, init, e);
      var r := InsertLast(ts, init, e);
      forall k | 0 <= k < |r| ensures ts(r[k]) <= ts(last) {
        assert r[k] in r;
      }
    }
  }

  lemma {:induction false} InsertLastStable<T>(ts: T -> int, es: seq<T>, e: T, t: int)
    requires OldestFirst(ts, es)
    ensures AtTime(ts, InsertLast(ts, es, e), t) == AtTime(ts, es, t) + (if ts(e) == t then [e] else [])
  {
    hide AtTime;
    if es == [] || ts(es[|es| - 1]) <= ts(e) {
      AtTimeSnoc(ts, es, e, t);
    } else {
      var init, last := es[..|es| - 1], es[|es| - 1];
      InsertLastStable(ts, init, e, t);
      AtTimeSnoc(ts, InsertLast(ts, init, e), last, t);
      AtTimeSnoc(ts, init, last, t);
      assert es == init + [last];
      var a: seq<T> := AtTime(ts, init, t);
      assert (a + [e]) + [] == (a + []) + [e] && (a + []) + [last] == (a + [last]) + [];
    }
  }

  /** Sorted by time, with the events of each instant as they were: none lost, none added, none swapped. */
  lemma {:induction false} StableSortSorts<T>(ts: T -> int, es: seq<T>, t: int)
    ensures OldestFirst(ts, StableSort(ts, es)) && AtTime(ts, StableSort(ts, es), t) == AtTime(ts, es, t)
  {
    if es != [] {
      var init, last := es[..|es| - 1], es[|es| - 1];
      StableSortSorts(ts, init, t);
      InsertLastSorts(ts, StableSort(ts, init), last);
      InsertLastStable(ts, StableSort(ts, init), last, t);
    }
  }

  lemma {:induction false} InsertLastConserves<T>(ts: T -> int, es: seq<T>, e: T)
    ensures multiset(InsertLast(ts, es, e)) == multiset(es) + multiset{e}
  {
    if es != [] && ts(es[|es| - 1]) > ts(e) {
      var init, last := es[..|es| - 1], es[|es| - 1];
      InsertLastConserves(ts, init, e);
      assert es == init + [last];
    }
  }

  /** Nothing is lost or gained by sorting. */
  lemma {:induction false} StableSortConserves<T>(ts: T -> int, es: seq<T>)
    ensures multiset(StableSort(ts, es)) == multiset(es)
  {
    if es != [] {
      var init, last := es[..|es| - 1], es[|es| - 1];
      StableSortConserves(ts, init);
      InsertLastConserves(ts, StableSort(ts, init), last);
      assert es == init + [last];
    }
  }
}
