/** Claim lookup and rule matching (pkg/authscope/authscope.go).

    A dotted claim name is resolved through nested objects by trying the longest key first at every
    level and backtracking.  The lookup is sound and complete for the set of all ways to cut the name
    into consecutive keys, and returns the value of the lexicographically longest-first one.
 */
module ClaimLookup {
  import opened Options

  /** A decoded claim: only objects are looked into. */
  datatype Value =
    | Object(fields: map<string, Value>)
    | Array(items: seq<Value>)
    | Text(s: string)
    | Number(n: int)
    | Flag(b: bool)
    | Null

  // ---- strings.Split and strings.Join on "." ------------------------------------------------

  function Join(parts: seq<string>): string {
    if parts == [] then ""
    else if |parts| == 1 then parts[0]
    else parts[0] + "." + Join(parts[1..])
  }

  function Split(name: string): (parts: seq<string>)
    ensures parts != []
  {
    if name == "" then [""]
    else if name[0] == '.' then [""] + Split(name[1..])
    else
      var rest := Split(name[1..]);
      [[name[0]] + rest[0]] + rest[1..]
  }

  lemma {:induction false} JoinSplit(name: string)
    ensures Join(Split(name)) == name
    decreases |name|
  {
    if name != "" {
      JoinSplit(name[1..]);
      var rest := Split(name[1..]);
      assert name == [name[0]] + name[1..];
      if name[0] == '.' {
        assert ([""] + rest)[1..] == rest;
      } else {
        var parts := [[name[0]] + rest[0]] + rest[1..];
        assert parts[1..] == rest[1..];
        if |rest| == 1 {
          assert Join(parts) == [name[0]] + rest[0];
        } else {
          assert Join(parts) == [name[0]] + (rest[0] + "." + Join(rest[1..]));
        }
      }
    }
  }

  lemma SplitCons(c: char, s: string)
    ensures Split([c] + s) ==
              if c == '.' then [""] + Split(s) else [[c] + Split(s)[0]] + Split(s)[1..]
  {
    assert ([c] + s)[1..] == s;
  }

  lemma {:induction false} SplitConcat(a: string, b: string)
    ensures Split(a + "." + b) == Split(a) + Split(b)
    decreases |a|
  {
    hide Split;
    if a == "" {
      assert a + "." + b == ['.'] + b;
      SplitCons('.', b);
      SplitOne("");
    } else {
      var c, rest := a[0], a[1..];
      assert a == [c] + rest;
      assert a + "." + b == [c] + (rest + "." + b);
      SplitConcat(rest, b);
      SplitCons(c, rest);
      SplitCons(c, rest + "." + b);
      HeadTail(Split(rest), Split(b));
    }
  }

  lemma HeadTail(p: seq<string>, q: seq<string>)
    requires p != []
    ensures (p + q)[0] == p[0] && (p + q)[1..] == p[1..] + q
  {
  }

  predicate Dotless(parts: seq<string>) {
    forall i :: 0 <= i < |parts| ==> '.' !in parts[i]
  }

  /** A name is cut at every dot. */
  lemma {:induction false} SplitDotless(name: string)
    ensures Dotless(Split(name))
    decreases |name|
  {
    if name != "" { SplitDotless(name[1..]); }
  }

  lemma {:induction false} SplitOne(part: string)
    requires '.' !in part
    ensures Split(part) == [part]
    decreases |part|
  {
    if part != "" {
      SplitOne(part[1..]);
      assert part == [part[0]] + part[1..];
    }
  }

  /** And nowhere else. */
  lemma {:induction false} SplitJoin(parts: seq<string>)
    requires parts != [] && Dotless(parts)
    ensures Split(Join(parts)) == parts
    decreases |parts|
  {
    SplitOne(parts[0]);
    if |parts| > 1 {
      SplitJoin(parts[1..]);
      SplitConcat(parts[0], Join(parts[1..]));
      assert parts == [parts[0]] + parts[1..];
    } else {
      assert parts == [parts[0]];
    }
  }

  // ---- what a resolution is -----------------------------------------------------------------

  /** Walk cur along the keys that cuts makes of parts: each cut is the number of segments joined
      into one key. */
  function Walk(cur: Value, parts: seq<string>, cuts: seq<nat>): Option<Value>
    decreases |cuts|
  {
    if cuts == [] then (if parts == [] then Some(cur) else None)
    else if 1 <= cuts[0] <= |parts| && cur.Object? && Join(parts[..cuts[0]]) in cur.fields
    then Walk(cur.fields[Join(parts[..cuts[0]])], parts[cuts[0]..], cuts[1..])
    else None
  }

  /** At the first place they differ, a takes the longer key. */
  predicate LongerFirst(a: seq<nat>, b: seq<nat>) {
    a != [] && b != [] && (a[0] > b[0] || (a[0] == b[0] && LongerFirst(a[1..], b[1..])))
  }

  /** cuts resolves to v, and every other resolution takes a shorter key first. */
  ghost predicate Best(cur: Value, parts: seq<string>, cuts: seq<nat>, v: Value) {
    && Walk(cur, parts, cuts) == Some(v)
    && forall other :: Walk(cur, parts, other).Some? && other != cuts ==> LongerFirst(cuts, other)
  }

  // ---- lookupPath ---------------------------------------------------------------------------

  /** The search as a function: keys of at most n segments first. */
  function Find(cur: Value, parts: seq<string>): Option<Value>
    decreases |parts|, |parts| + 1
  {
    if parts == [] then Some(cur) else FindUpTo(cur, parts, |parts|)
  }

  function FindUpTo(cur: Value, parts: seq<string>, n: nat): Option<Value>
    requires n <= |parts|
    decreases |parts|, n
  {
    if n == 0 || !cur.Object? then None
    else
      var key := Join(parts[..n]);
      var got := if key in cur.fields then Find(cur.fields[key], parts[n..]) else None;
      if got.Some? then got else FindUpTo(cur, parts, n - 1)
  }

  method LookupPath(cur: Value, parts: seq<string>) returns (r: Option<Value>)
    ensures r == Find(cur, parts)
    decreases |parts|
  {
    if parts == [] {
      return Some(cur);
    }
    if !cur.Object? {
      return None;
    }
    for n := |parts| downto 0
      invariant Find(cur, parts) == FindUpTo(cur, parts, n)
    {
      var key := Join(parts[..n + 1]);
      if key in cur.fields {
        var got := LookupPath(cur.fields[key], parts[n + 1..]);
        if got.Some? {
          return got;
        }
      }
    }
    return None;
  }

  /** Complete: when the search fails, no way of cutting the name resolves. */
  lemma {:induction false} FindComplete(cur: Value, parts: seq<string>, cuts: seq<nat>)
    requires Walk(cur, parts, cuts).Some?
    ensures Find(cur, parts).Some?
    decreases |parts|, |parts| + 1
  {
    if parts != [] {
      FindUpToComplete(cur, parts, |parts|, cuts);
    }
  }

  lemma {:induction false} FindUpToComplete(cur: Value, parts: seq<string>, n: nat, cuts: seq<nat>)
    requires n <= |parts| && cuts != [] && cuts[0] <= n && Walk(cur, parts, cuts).Some?
    ensures FindUpTo(cur, parts, n).Some?
    decreases |parts|, n
  {
    if cuts[0] == n {
      FindComplete(cur.fields[Join(parts[..n])], parts[n..], cuts[1..]);
    } else {
      FindUpToComplete(cur, parts, n - 1, cuts);
    }
  }

  /** Sound, and longest-first: a value found is the value of the best resolution. */
  lemma {:induction false} FindBest(cur: Value, parts: seq<string>) returns (cuts: seq<nat>)
    requires Find(cur, parts).Some?
    ensures Best(cur, parts, cuts, Find(cur, parts).value)
    decreases |parts|, |parts| + 1
  {
    if parts == [] {
      cuts := [];
      forall other | Walk(cur, parts, other).Some? ensures other == cuts {
      }
    } else {
      cuts := FindUpToBest(cur, parts, |parts|);
    }
  }

  lemma {:induction false} FindUpToBest(cur: Value, parts: seq<string>, n: nat) returns (cuts: seq<nat>)
    requires n <= |parts| && FindUpTo(cur, parts, n).Some?
    ensures cuts != [] && cuts[0] <= n
    ensures Walk(cur, parts, cuts) == FindUpTo(cur, parts, n)
    ensures forall other :: Walk(cur, parts, other).Some? && other != [] && other[0] <= n && other != cuts ==>
              LongerFirst(cuts, other)
    decreases |parts|, n
  {
    var key := Join(parts[..n]);
    if key in cur.fields && Find(cur.fields[key], parts[n..]).Some? {
      var rest := FindBest(cur.fields[key], parts[n..]);
      cuts := [n] + rest;
      assert cuts[1..] == rest;
      forall other | Walk(cur, parts, other).Some? && other != [] && other[0] <= n && other != cuts
        ensures LongerFirst(cuts, other)
      {
        if other[0] == n {
          assert other == [n] + other[1..];
          assert Walk(cur.fields[key], parts[n..], other[1..]).Some?;
        }
      }
    } else {
      cuts := FindUpToBest(cur, parts, n - 1);
      forall other | Walk(cur, parts, other).Some? && other != [] && other[0] <= n && other != cuts
        ensures LongerFirst(cuts, other)
      {
        if other[0] == n {
          FindComplete(cur.fields[key], parts[n..], other[1..]);
          assert false;
        }
      }
    }
  }

  /** The lookup finds a value exactly when some cutting resolves, and then the longest-first one. */
  lemma LookupIsExact(cur: Value, parts: seq<string>)
    ensures Find(cur, parts).Some? <==> exists cuts :: Walk(cur, parts, cuts).Some?
    ensures Find(cur, parts).Some? ==> exists cuts :: Best(cur, parts, cuts, Find(cur, parts).value)
  {
    if Find(cur, parts).Some? {
      var cuts := FindBest(cur, parts);
    }
    if cuts :| Walk(cur, parts, cuts).Some? {
      FindComplete(cur, parts, cuts);
    }
  }

  // ---- the search, on the name itself -------------------------------------------------------

  /** Follow whole keys through nested objects. */
  function Follow(cur: Value, keys: seq<string>): Option<Value>
    decreases |keys|
  {
    if keys == [] then Some(cur)
    else if cur.Object? && keys[0] in cur.fields then Follow(cur.fields[keys[0]], keys[1..])
    else None
  }

  /** The keys read as the name, dots between them, and lead to v. */
  predicate LeadTo(claims: map<string, Value>, name: string, keys: seq<string>, v: Value) {
    keys != [] && Join(keys) == name && Follow(Object(claims), keys) == Some(v)
  }

  /** At the first place they differ, a takes the longer key. */
  predicate LongerKeyFirst(a: seq<string>, b: seq<string>) {
    a != [] && b != [] && (|a[0]| > |b[0]| || (a[0] == b[0] && LongerKeyFirst(a[1..], b[1..])))
  }

  /** v is where the longest-first keys of the name lead. */
  ghost predicate Resolves(claims: map<string, Value>, name: string, v: Value) {
    exists keys :: LeadTo(claims, name, keys, v)
                   && forall other, u :: LeadTo(claims, name, other, u) && other != keys ==> LongerKeyFirst(keys, other)
  }

  /** Each key cut at its dots, one after the other. */
  function Segments(keys: seq<string>): seq<string> {
    if keys == [] then [] else Split(keys[0]) + Segments(keys[1..])
  }

  function CutsOf(keys: seq<string>): seq<nat> {
    if keys == [] then [] else [|Split(keys[0])|] + CutsOf(keys[1..])
  }

  lemma {:induction false} SegmentsOfName(keys: seq<string>)
    requires keys != []
    ensures Segments(keys) == Split(Join(keys))
    decreases |keys|
  {
    if |keys| > 1 {
      SegmentsOfName(keys[1..]);
      SplitConcat(keys[0], Join(keys[1..]));
    } else {
      assert Segments(keys) == Split(keys[0]);
    }
  }

  lemma FirstSegments(keys: seq<string>)
    requires keys != []
    ensures var (segs, n) := (Segments(keys), CutsOf(keys)[0]);
            && 1 <= n <= |segs| && segs[..n] == Split(keys[0]) && Join(segs[..n]) == keys[0]
            && segs[n..] == Segments(keys[1..]) && CutsOf(keys)[1..] == CutsOf(keys[1..])
  {
    JoinSplit(keys[0]);
    assert (Split(keys[0]) + Segments(keys[1..]))[..|Split(keys[0])|] == Split(keys[0]);
  }

  lemma {:induction false} FollowIsWalk(cur: Value, keys: seq<string>)
    ensures Follow(cur, keys) == Walk(cur, Segments(keys), CutsOf(keys))
    decreases |keys|
  {
    hide Split, Join, Segments, CutsOf;
    if keys != [] {
      FirstSegments(keys);
      CutsNonEmpty(keys);
      if cur.Object? && keys[0] in cur.fields { FollowIsWalk(cur.fields[keys[0]], keys[1..]); }
    } else {
      NoKeys();
    }
  }

  lemma NoKeys()
    ensures Segments([]) == [] && CutsOf([]) == []
  {
  }

  lemma CutsNonEmpty(keys: seq<string>)
    requires keys != []
    ensures CutsOf(keys) != []
  {
  }

  /** The keys that a resolving cutting makes. */
  lemma {:induction false} KeysOfCuts(cur: Value, parts: seq<string>, cuts: seq<nat>) returns (keys: seq<string>)
    requires Dotless(parts) && Walk(cur, parts, cuts).Some?
    ensures Segments(keys) == parts && CutsOf(keys) == cuts && Follow(cur, keys) == Walk(cur, parts, cuts)
    decreases |cuts|
  {
    hide Split, Join;
    keys := [];
    if cuts != [] {
      var n := cuts[0];
      var key := Join(parts[..n]);
      SplitJoin(parts[..n]);
      var rest := KeysOfCuts(cur.fields[key], parts[n..], cuts[1..]);
      keys := [key] + rest;
      assert keys[1..] == rest && parts == parts[..n] + parts[n..] && cuts == [n] + cuts[1..];
    }
  }

  /** More segments make a longer key. */
  lemma {:induction false} JoinGrows(parts: seq<string>, m: nat, n: nat)
    requires 0 < m < n <= |parts|
    ensures |Join(parts[..m])| < |Join(parts[..n])|
    decreases m
  {
    var a, b := parts[..m], parts[..n];
    assert a[0] == b[0];
    if m > 1 {
      assert a[1..] == parts[1..][..m - 1] && b[1..] == parts[1..][..n - 1];
      JoinGrows(parts[1..], m - 1, n - 1);
    }
  }

  /** The order of cuttings is the order of their keys. */
  lemma {:induction false} SameOrder(a: seq<string>, b: seq<string>)
    requires Segments(a) == Segments(b)
    ensures LongerFirst(CutsOf(a), CutsOf(b)) ==> LongerKeyFirst(a, b)
    ensures CutsOf(a) == CutsOf(b) ==> a == b
    decreases |a|
  {
    hide Split, Join, Segments, CutsOf;
    NoKeys();
    if a != [] { CutsNonEmpty(a); }
    if b != [] { CutsNonEmpty(b); }
    if a != [] && b != [] {
      FirstSegments(a);
      FirstSegments(b);
      if CutsOf(a)[0] > CutsOf(b)[0] {
        JoinGrows(Segments(a), CutsOf(b)[0], CutsOf(a)[0]);
      } else if CutsOf(a)[0] == CutsOf(b)[0] {
        SameOrder(a[1..], b[1..]);
        assert a == [a[0]] + a[1..] && b == [b[0]] + b[1..];
      }
    }
  }

  /** What the search computes, said of the name: a value is found exactly when some keys whose dotted
      join is the name lead through the nested objects, and it is where the longest-first keys lead. */
  lemma FindOnName(claims: map<string, Value>, name: string)
    ensures Find(Object(claims), Split(name)).Some? <==> exists keys, v :: LeadTo(claims, name, keys, v)
    ensures Find(Object(claims), Split(name)).Some? ==>
              Resolves(claims, name, Find(Object(claims), Split(name)).value)
  {
    hide Split, Join, Find, Walk, Follow, Segments, CutsOf, LongerFirst, LongerKeyFirst;
    var cur, parts := Object(claims), Split(name);
    JoinSplit(name);
    SplitDotless(name);
    if Find(cur, parts).Some? {
      var cuts := FindBest(cur, parts);
      var keys := KeysOfCuts(cur, parts, cuts);
      assert keys != [] by { NoKeys(); }
      SegmentsOfName(keys);
      JoinSplit(Join(keys));
      assert LeadTo(claims, name, keys, Find(cur, parts).value);
      forall other, u | LeadTo(claims, name, other, u) && other != keys ensures LongerKeyFirst(keys, other) {
        SegmentsOfName(other);
        FollowIsWalk(cur, other);
        SameOrder(keys, other);
      }
    }
    if keys, v :| LeadTo(claims, name, keys, v) {
      SegmentsOfName(keys);
      FollowIsWalk(cur, keys);
      FindComplete(cur, parts, CutsOf(keys));
    }
  }

  lemma {:induction false} OneWayOnly(a: seq<string>, b: seq<string>)
    requires LongerKeyFirst(a, b)
    ensures !LongerKeyFirst(b, a)
    decreases |a|
  {
    if |a[0]| == |b[0]| { OneWayOnly(a[1..], b[1..]); }
  }

  /** So the search returns v exactly when the name resolves to v. */
  lemma FindResolves(claims: map<string, Value>, name: string, v: Value)
    ensures Find(Object(claims), Split(name)) == Some(v) <==> Resolves(claims, name, v)
  {
    hide Split, Join, Find, Follow, LongerKeyFirst;
    FindOnName(claims, name);
    if Resolves(claims, name, v) {
      assert exists keys :: LeadTo(claims, name, keys, v);
      var u := Find(Object(claims), Split(name)).value;
      SameResolution(claims, name, u, v);
    }
  }

  lemma SameResolution(claims: map<string, Value>, name: string, u: Value, v: Value)
    requires Resolves(claims, name, u) && Resolves(claims, name, v)
    ensures u == v
  {
    hide Join, Follow, LongerKeyFirst;
    var a :| LeadTo(claims, name, a, u)
             && forall other, x :: LeadTo(claims, name, other, x) && other != a ==> LongerKeyFirst(a, other);
    var b :| LeadTo(claims, name, b, v)
             && forall other, x :: LeadTo(claims, name, other, x) && other != b ==> LongerKeyFirst(b, other);
    if a != b {
      OneWayOnly(a, b);
      assert false;
    }
  }

  // ---- lookup -------------------------------------------------------------------------------

  /** lookup: the literal name first, then the dotted path. */
  method Lookup(claims: map<string, Value>, name: string) returns (r: Option<Value>)
    ensures r.Some? <==> exists keys, v :: LeadTo(claims, name, keys, v)
    ensures forall v :: r == Some(v) <==> Resolves(claims, name, v)
  {
    hide Resolves, LeadTo;
    FindOnName(claims, name);
    forall v ensures Find(Object(claims), Split(name)) == Some(v) <==> Resolves(claims, name, v) {
      FindResolves(claims, name, v);
    }
    JoinSplit(name);
    var parts := Split(name);
    assert parts[..|parts|] == parts;
    if name in claims {
      LiteralWins(claims, name);
      return Some(claims[name]);
    }
    if |parts| == 1 {
      assert FindUpTo(Object(claims), parts, 0) == None;
      return None;
    }
    r := LookupPath(Object(claims), parts);
  }

  /** A claim that literally has the name always wins. */
  lemma LiteralWins(claims: map<string, Value>, name: string)
    requires name in claims
    ensures Find(Object(claims), Split(name)) == Some(claims[name])
    ensures Resolves(claims, name, claims[name])
  {
    hide Resolves;
    FindResolves(claims, name, claims[name]);
    JoinSplit(name);
    var parts := Split(name);
    assert parts[..|parts|] == parts && parts[|parts|..] == [];
    assert Find(claims[name], []) == Some(claims[name]);
    assert FindUpTo(Object(claims), parts, |parts|) == Some(claims[name]);
  }

  // ---- rules --------------------------------------------------------------------------------

  type Matcher = Value -> bool

  datatype Rule = Rule(name: string, scope: string, tests: map<string, Matcher>)

  /** Every named claim resolves, and its value passes its matcher. */
  ghost predicate RuleAccepts(r: Rule, claims: map<string, Value>) {
    forall claim :: claim in r.tests ==> Passes(r, claims, claim)
  }

  ghost predicate Passes(r: Rule, claims: map<string, Value>, claim: string)
    requires claim in r.tests
  {
    exists v :: Resolves(claims, claim, v) && r.tests[claim](v)
  }

  method Matches(r: Rule, claims: map<string, Value>) returns (ok: bool)
    ensures ok <==> RuleAccepts(r, claims)
  {
    var todo := r.tests.Keys;
    while todo != {}
      invariant todo <= r.tests.Keys
      invariant forall claim :: claim in r.tests && claim !in todo ==> Passes(r, claims, claim)
      decreases todo
    {
      hide Resolves, LeadTo;
      var claim :| claim in todo;
      var v := Lookup(claims, claim);
      if v.None? || !r.tests[claim](v.value) {
        assert !Passes(r, claims, claim);
        return false;
      }
      todo := todo - {claim};
    }
    return true;
  }

  /** The index of the first accepting rule; the number of rules when there is none. */
  ghost function FirstMatch(rules: seq<Rule>, claims: map<string, Value>): (i: nat)
    ensures i <= |rules| && (i < |rules| ==> RuleAccepts(rules[i], claims))
    ensures forall k :: 0 <= k < i ==> !RuleAccepts(rules[k], claims)
  {
    if rules == [] || RuleAccepts(rules[0], claims) then 0 else 1 + FirstMatch(rules[1..], claims)
  }

  /** Append: the second map decides only what the first leaves undecided. */
  lemma {:induction false} AppendIsFallback(a: seq<Rule>, b: seq<Rule>, claims: map<string, Value>)
    ensures FirstMatch(a + b, claims) ==
              if FirstMatch(a, claims) < |a| then FirstMatch(a, claims) else |a| + FirstMatch(b, claims)
    decreases |a|
  {
    hide RuleAccepts;
    if a == [] {
      assert a + b == b;
    } else {
      assert (a + b)[1..] == a[1..] + b;
      AppendIsFallback(a[1..], b, claims);
    }
  }

  /** The first rule that accepts, if any. */
  method MatchMap(rules: seq<Rule>, claims: map<string, Value>) returns (i: Option<nat>)
    ensures i.Some? ==> i.value < |rules| && RuleAccepts(rules[i.value], claims)
                        && forall k :: 0 <= k < i.value ==> !RuleAccepts(rules[k], claims)
    ensures i.None? ==> forall k :: 0 <= k < |rules| ==> !RuleAccepts(rules[k], claims)
  {
    for k := 0 to |rules|
      invariant forall j :: 0 <= j < k ==> !RuleAccepts(rules[j], claims)
    {
      var ok := Matches(rules[k], claims);
      if ok {
        return Some(k);
      }
    }
    return None;
  }
}
