/** The fail-static allow-set (pkg/caretaker/proxy.go: allowSet).

    A refresh looks every name up again; a name whose lookup fails keeps the addresses it had, and a
    round that would leave nothing permitted is dropped.
 */
module AllowSets {
  import opened Options

  type Name = string
  type IP = string

  /** One round of lookups, a result for each position of names; None is a failed lookup. */
  type Round = seq<Option<seq<IP>>>

  datatype State = State(ips: set<IP>, perName: map<Name, set<IP>>)

  function SetOf(addrs: seq<IP>): set<IP> {
    set ip | ip in addrs
  }

  /** What a name had before; a missing key reads as the empty set. */
  function Prior(perName: map<Name, set<IP>>, n: Name): set<IP> {
    if n in perName then perName[n] else {}
  }

  /** The addresses a round gives to the name at position i. */
  function Addrs(names: seq<Name>, perName: map<Name, set<IP>>, round: Round, i: nat): set<IP>
    requires i < |names| == |round|
  {
    match round[i]
    case Some(addrs) => SetOf(addrs)
    case None => Prior(perName, names[i])
  }

  /** next and resolved once the first k names have been looked up. */
  ghost function Collect(names: seq<Name>, perName: map<Name, set<IP>>, round: Round, k: nat): State
    requires k <= |names| == |round|
  {
    if k == 0 then State({}, map[]) else
    var before := Collect(names, perName, round, k - 1);
    var addrs := Addrs(names, perName, round, k - 1);
    State(before.ips + addrs, before.perName[names[k - 1] := addrs])
  }

  /** A round counts unless it would leave nothing permitted. */
  ghost predicate Commits(names: seq<Name>, s: State, round: Round)
    requires |names| == |round|
  {
    names == [] || Collect(names, s.perName, round, |names|).ips != {}
  }

  ghost function Next(names: seq<Name>, s: State, round: Round): State
    requires |names| == |round|
  {
    if Commits(names, s, round) then Collect(names, s.perName, round, |names|) else s
  }

  class AllowSet {
    const names: seq<Name>
    var ips: set<IP>
    var perName: map<Name, set<IP>>

    constructor (names: seq<Name>)
      ensures this.names == names && State(ips, perName) == State({}, map[])
    {
      this.names, ips, perName := names, {}, map[];
    }

    method Refresh(round: Round)
      requires |round| == |names|
      modifies this
      ensures State(ips, perName) == Next(names, old(State(ips, perName)), round)
    {
      var next: set<IP>, resolved: map<Name, set<IP>> := {}, map[];
      for k := 0 to |names|
        invariant State(next, resolved) == Collect(names, perName, round, k)
        invariant ips == old(ips) && perName == old(perName)
      {
        match round[k] {
          case None =>
            var prev := Prior(perName, names[k]);
            resolved := resolved[names[k] := prev];
            next := next + prev;
          case Some(addrs) =>
            var cur: set<IP> := {};
            for j := 0 to |addrs|
              invariant cur == SetOf(addrs[..j])
              invariant next == Collect(names, perName, round, k).ips + cur
              invariant ips == old(ips) && perName == old(perName)
            {
              assert SetOf(addrs[..j + 1]) == SetOf(addrs[..j]) + {addrs[j]};
              cur := cur + {addrs[j]};
              next := next + {addrs[j]};
            }
            assert addrs[..|addrs|] == addrs;
            resolved := resolved[names[k] := cur];
        }
      }
      if next == {} && |names| > 0 {
        return;
      }
      ips, perName := next, resolved;
    }
  }

  // ---- one round ----------------------------------------------------------------------------

  /** Some name resolved to an address, or failed while it held one; or there is nothing to look up. */
  ghost predicate TakesEffect(names: seq<Name>, s: State, round: Round)
    requires |names| == |round|
  {
    || names == []
    || (exists i, x :: 0 <= i < |names| && Resolved(round, i, x))
    || (exists i, x :: 0 <= i < |names| && KeptOn(names, s, round, i, x))
  }

  predicate Resolved(round: Round, i: nat, x: IP)
    requires i < |round|
  {
    round[i].Some? && x in round[i].value
  }

  predicate KeptOn(names: seq<Name>, s: State, round: Round, i: nat, x: IP)
    requires i < |names| == |round|
  {
    round[i].None? && names[i] in s.perName && x in s.perName[names[i]]
  }

  lemma {:induction false} CollectsAll(names: seq<Name>, perName: map<Name, set<IP>>, round: Round, k: nat, x: IP)
    requires k <= |names| == |round|
    ensures x in Collect(names, perName, round, k).ips <==>
              exists i: nat :: i < k && x in Addrs(names, perName, round, i)
  {
    if k > 0 {
      CollectsAll(names, perName, round, k - 1, x);
    }
  }

  /** A round takes effect exactly when it resolves or keeps an address; then the permitted addresses are
      exactly those, and otherwise nothing changes. */
  lemma RoundExact(names: seq<Name>, s: State, round: Round, x: IP)
    requires |names| == |round|
    ensures Commits(names, s, round) <==> TakesEffect(names, s, round)
    ensures !TakesEffect(names, s, round) ==> Next(names, s, round) == s
    ensures TakesEffect(names, s, round) ==>
              (x in Next(names, s, round).ips <==>
               exists i: nat :: i < |names| && (Resolved(round, i, x) || KeptOn(names, s, round, i, x)))
  {
    hide Collect;
    var ips := Collect(names, s.perName, round, |names|).ips;
    forall y
      ensures y in ips <==> exists i: nat :: i < |names| && (Resolved(round, i, y) || KeptOn(names, s, round, i, y))
    {
      CollectsAll(names, s.perName, round, |names|, y);
      assert forall i: nat :: i < |names| ==>
               (y in Addrs(names, s.perName, round, i) <==> Resolved(round, i, y) || KeptOn(names, s, round, i, y));
    }
    if ips != {} {
      var y :| y in ips;
      var i: nat :| i < |names| && (Resolved(round, i, y) || KeptOn(names, s, round, i, y));
    }
    if i, y :| 0 <= i < |names| && (Resolved(round, i, y) || KeptOn(names, s, round, i, y)) {
      assert y in ips;
    }
  }

  // ---- every sequence of rounds --------------------------------------------------------------

  ghost predicate Rounds(names: seq<Name>, rounds: seq<Round>) {
    forall r :: 0 <= r < |rounds| ==> |rounds[r]| == |names|
  }

  /** The state after the first k rounds. */
  ghost function After(names: seq<Name>, rounds: seq<Round>, k: nat): State
    requires Rounds(names, rounds) && k <= |rounds|
  {
    if k == 0 then State({}, map[]) else Next(names, After(names, rounds, k - 1), rounds[k - 1])
  }

  ghost predicate Committed(names: seq<Name>, rounds: seq<Round>, r: nat)
    requires Rounds(names, rounds) && r < |rounds|
  {
    TakesEffect(names, After(names, rounds, r), rounds[r])
  }

  /** Among the first k rounds, r is the last committed one in which name i resolved. */
  ghost predicate LastGood(names: seq<Name>, rounds: seq<Round>, k: nat, i: nat, r: nat)
    requires Rounds(names, rounds) && k <= |rounds| && i < |names|
  {
    && r < k && rounds[r][i].Some? && Committed(names, rounds, r)
    && forall q :: r < q < k && Committed(names, rounds, q) ==> rounds[q][i].None?
  }

  ghost predicate Distinct(names: seq<Name>) {
    forall i, j :: 0 <= i < j < |names| ==> names[i] != names[j]
  }

  /** What a round collects, name by name, when the names are distinct. */
  lemma {:induction false} CollectsOne(names: seq<Name>, perName: map<Name, set<IP>>, round: Round, k: nat, i: nat)
    requires i < k <= |names| == |round| && Distinct(names)
    ensures Prior(Collect(names, perName, round, k).perName, names[i]) == Addrs(names, perName, round, i)
  {
    if i < k - 1 {
      CollectsOne(names, perName, round, k - 1, i);
      assert names[i] != names[k - 1];
    }
  }

  lemma AddrsIs(names: seq<Name>, perName: map<Name, set<IP>>, round: Round, i: nat)
    requires i < |names| == |round|
    ensures Addrs(names, perName, round, i) ==
              if round[i].Some? then SetOf(round[i].value) else Prior(perName, names[i])
  {
  }

  /** What one more round does to one name. */
  lemma RoundOfName(names: seq<Name>, rounds: seq<Round>, k: nat, i: nat)
    requires Rounds(names, rounds) && Distinct(names) && k < |rounds| && i < |names|
    ensures Prior(After(names, rounds, k + 1).perName, names[i]) ==
              if Committed(names, rounds, k) && rounds[k][i].Some? then SetOf(rounds[k][i].value)
              else Prior(After(names, rounds, k).perName, names[i])
  {
    hide Collect, TakesEffect, Commits, Prior, Addrs, Distinct;
    var s := After(names, rounds, k);
    RoundExact(names, s, rounds[k], "");
    CollectsOne(names, s.perName, rounds[k], |names|, i);
    AddrsIs(names, s.perName, rounds[k], i);
  }

  /** Name i resolved to x in its last committed successful lookup. */
  ghost predicate Gave(names: seq<Name>, rounds: seq<Round>, k: nat, i: nat, x: IP)
    requires Rounds(names, rounds) && k <= |rounds| && i < |names|
  {
    exists r: nat :: LastGood(names, rounds, k, i, r) && x in rounds[r][i].value
  }

  lemma GaveStep(names: seq<Name>, rounds: seq<Round>, k: nat, i: nat, x: IP)
    requires Rounds(names, rounds) && k < |rounds| && i < |names|
    ensures Gave(names, rounds, k + 1, i, x) <==>
              if Committed(names, rounds, k) && rounds[k][i].Some? then x in rounds[k][i].value
              else Gave(names, rounds, k, i, x)
  {
    hide Committed;
    if Committed(names, rounds, k) && rounds[k][i].Some? {
      assert LastGood(names, rounds, k + 1, i, k);
    } else {
      assert forall r: nat :: LastGood(names, rounds, k + 1, i, r) <==> LastGood(names, rounds, k, i, r);
    }
  }

  /** A name holds exactly the addresses of its last committed successful lookup. */
  lemma {:induction false} NameHoldsLastGood(names: seq<Name>, rounds: seq<Round>, k: nat, i: nat, x: IP)
    requires Rounds(names, rounds) && Distinct(names) && k <= |rounds| && i < |names|
    ensures x in Prior(After(names, rounds, k).perName, names[i]) <==> Gave(names, rounds, k, i, x)
  {
    hide Committed, Next, Distinct;
    if k > 0 {
      NameHoldsLastGood(names, rounds, k - 1, i, x);
      RoundOfName(names, rounds, k - 1, i);
      GaveStep(names, rounds, k - 1, i, x);
    }
  }

  /** The permitted set is the union of what the names hold. */
  lemma {:induction false} PermitsUnion(names: seq<Name>, rounds: seq<Round>, k: nat, x: IP)
    requires Rounds(names, rounds) && Distinct(names) && k <= |rounds|
    ensures x in After(names, rounds, k).ips <==>
              exists i: nat :: i < |names| && x in Prior(After(names, rounds, k).perName, names[i])
  {
    if k > 0 {
      hide TakesEffect;
      var s, round := After(names, rounds, k - 1), rounds[k - 1];
      RoundExact(names, s, round, x);
      if Committed(names, rounds, k - 1) {
        CollectsAll(names, s.perName, round, |names|, x);
        forall i: nat | i < |names|
          ensures Prior(After(names, rounds, k).perName, names[i]) == Addrs(names, s.perName, round, i)
        {
          CollectsOne(names, s.perName, round, |names|, i);
        }
      } else {
        PermitsUnion(names, rounds, k - 1, x);
      }
    }
  }

  /** An address is permitted exactly when some name's last committed successful lookup returned it. */
  lemma PermittedExactly(names: seq<Name>, rounds: seq<Round>, k: nat, x: IP)
    requires Rounds(names, rounds) && Distinct(names) && k <= |rounds|
    ensures x in After(names, rounds, k).ips <==> exists i: nat :: i < |names| && Gave(names, rounds, k, i, x)
  {
    hide After, Prior, Distinct, Gave;
    PermitsUnion(names, rounds, k, x);
    forall i: nat | i < |names|
      ensures x in Prior(After(names, rounds, k).perName, names[i]) <==> Gave(names, rounds, k, i, x)
    {
      NameHoldsLastGood(names, rounds, k, i, x);
    }
  }

  /** A fresh address is permitted at once, whatever the names. */
  lemma ResolvedIsPermitted(names: seq<Name>, rounds: seq<Round>, k: nat, i: nat, x: IP)
    requires Rounds(names, rounds) && k < |rounds| && i < |names|
    requires rounds[k][i].Some? && x in rounds[k][i].value
    ensures x in After(names, rounds, k + 1).ips
  {
    RoundExact(names, After(names, rounds, k), rounds[k], x);
    assert Resolved(rounds[k], i, x);
  }

  /** A stale one is permitted no longer: after a round that takes effect, an address that no lookup
      returned, and that no failing name had from its last committed successful lookup, is denied. */
  lemma StaleIsDenied(names: seq<Name>, rounds: seq<Round>, k: nat, x: IP)
    requires Rounds(names, rounds) && Distinct(names) && k < |rounds| && Committed(names, rounds, k)
    requires forall i: nat :: i < |names| ==>
               if rounds[k][i].Some? then x !in rounds[k][i].value else !Gave(names, rounds, k, i, x)
    ensures x !in After(names, rounds, k + 1).ips
  {
    hide After, Gave, TakesEffect, Distinct;
    var s := After(names, rounds, k);
    RoundExact(names, s, rounds[k], x);
    assert After(names, rounds, k + 1) == Next(names, s, rounds[k]) by { AfterStep(names, rounds, k); }
    forall i: nat | i < |names| ensures !Resolved(rounds[k], i, x) && !KeptOn(names, s, rounds[k], i, x) {
      NameHoldsLastGood(names, rounds, k, i, x);
    }
  }

  lemma AfterStep(names: seq<Name>, rounds: seq<Round>, k: nat)
    requires Rounds(names, rounds) && k < |rounds|
    ensures After(names, rounds, k + 1) == Next(names, After(names, rounds, k), rounds[k])
  {
  }

  /** Once something is permitted, no later round leaves nothing permitted. */
  lemma {:induction false} NeverEmptied(names: seq<Name>, rounds: seq<Round>, k: nat, j: nat)
    requires Rounds(names, rounds) && k <= j <= |rounds| && After(names, rounds, k).ips != {}
    ensures After(names, rounds, j).ips != {}
    decreases j - k
  {
    if k < j {
      if names == [] {
        NoNames(rounds, k);
      } else {
        assert After(names, rounds, k + 1).ips != {};
        NeverEmptied(names, rounds, k + 1, j);
      }
    }
  }

  lemma {:induction false} NoNames(rounds: seq<Round>, k: nat)
    requires Rounds([], rounds) && k <= |rounds|
    ensures After([], rounds, k) == State({}, map[])
  {
    if k > 0 {
      NoNames(rounds, k - 1);
    }
  }

  /** A round of failures only changes nothing that is permitted. */
  lemma AllFailKeeps(names: seq<Name>, rounds: seq<Round>, k: nat)
    requires Rounds(names, rounds) && Distinct(names) && k < |rounds|
    requires forall i :: 0 <= i < |names| ==> rounds[k][i].None?
    ensures After(names, rounds, k + 1).ips == After(names, rounds, k).ips
  {
    hide After, Prior, Distinct;
    forall i: nat | i < |names|
      ensures Prior(After(names, rounds, k + 1).perName, names[i]) == Prior(After(names, rounds, k).perName, names[i])
    {
      RoundOfName(names, rounds, k, i);
    }
    forall x ensures x in After(names, rounds, k + 1).ips <==> x in After(names, rounds, k).ips {
      PermitsUnion(names, rounds, k, x);
      PermitsUnion(names, rounds, k + 1, x);
    }
  }

  // ---- and only for distinct names ----------------------------------------------------------

  ghost predicate UnionLaw(names: seq<Name>, rounds: seq<Round>, k: nat, x: IP)
    requires Rounds(names, rounds) && k <= |rounds|
  {
    x in After(names, rounds, k).ips <==>
    exists i: nat :: i < |names| && x in Prior(After(names, rounds, k).perName, names[i])
  }

  /** A round in which only position i resolves. */
  function OnlyAt(names: seq<Name>, i: nat, x: IP): (round: Round)
    ensures |round| == |names|
  {
    seq(|names|, m => if m == i then Some([x]) else None)
  }

  /** The second copy of a name overwrites what the first resolved to with what the name had before. */
  lemma {:induction false} SecondCopyForgets(names: seq<Name>, i: nat, j: nat, x: IP, k: nat, n: Name)
    requires i < j < |names| && names[i] == names[j] && k <= |names|
    ensures n != names[i] || k > j ==> Prior(Collect(names, map[], OnlyAt(names, i, x), k).perName, n) == {}
  {
    if k > 0 {
      SecondCopyForgets(names, i, j, x, k - 1, n);
      assert k - 1 != i ==> Addrs(names, map[], OnlyAt(names, i, x), k - 1) == {};
    }
  }

  /** With a name listed twice, one round makes an address permitted that no name holds. */
  lemma RepeatedNameLeaks(names: seq<Name>, i: nat, j: nat, x: IP)
    requires i < j < |names| && names[i] == names[j]
    ensures !UnionLaw(names, [OnlyAt(names, i, x)], 1, x)
  {
    hide Collect, OnlyAt, Prior;
    var round := OnlyAt(names, i, x);
    var c := Collect(names, map[], round, |names|);
    assert x in c.ips by {
      CollectsAll(names, map[], round, |names|, x);
      OnlyAtResolves(names, i, x);
    }
    assert After(names, [round], 0) == State({}, map[]);
    assert After(names, [round], 1) == c;
    forall m: nat | m < |names| ensures x !in Prior(c.perName, names[m]) {
      SecondCopyForgets(names, i, j, x, |names|, names[m]);
    }
  }

  lemma OnlyAtResolves(names: seq<Name>, i: nat, x: IP)
    requires i < |names|
    ensures x in Addrs(names, map[], OnlyAt(names, i, x), i)
  {
  }

  /** The permitted set is always the union of what the names hold if and only if no name is repeated. */
  lemma UnionLawExact(names: seq<Name>)
    ensures Distinct(names) <==>
              forall rounds: seq<Round>, k: nat, x: IP :: Rounds(names, rounds) && k <= |rounds| ==>
                UnionLaw(names, rounds, k, x)
  {
    if Distinct(names) {
      hide UnionLaw, Distinct, After, Prior;
      forall rounds: seq<Round>, k: nat, x: IP | Rounds(names, rounds) && k <= |rounds|
        ensures UnionLaw(names, rounds, k, x)
      {
        UnionHolds(names, rounds, k, x);
      }
    } else {
      var i, j :| 0 <= i < j < |names| && names[i] == names[j];
      var round := OnlyAt(names, i, "1.1.1.1");
      RepeatedNameLeaks(names, i, j, "1.1.1.1");
      assert Rounds(names, [round]) && !UnionLaw(names, [round], 1, "1.1.1.1");
    }
  }

  lemma UnionHolds(names: seq<Name>, rounds: seq<Round>, k: nat, x: IP)
    requires Rounds(names, rounds) && Distinct(names) && k <= |rounds|
    ensures UnionLaw(names, rounds, k, x)
  {
    PermitsUnion(names, rounds, k, x);
  }
}
