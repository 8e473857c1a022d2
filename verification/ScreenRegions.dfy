/** Screen regions and rule choice (pkg/agentdetect/manifest.go: Region and its scanners, Classify,
    matchesFolded).
 */
module ScreenRegions {
  import opened Options
  import opened ScreenLines
  import opened Sequences

  // ---- blank lines and horizontal rules ------------------------------------------------------

  /** unicode.IsSpace. */
  predicate IsSpace(c: char) {
    || c in "\t\n\r \U{B}\U{C}\U{85}\U{A0}\U{1680}\U{2028}\U{2029}\U{202F}\U{205F}\U{3000}"
    || '\U{2000}' <= c <= '\U{200A}'
  }

  function TrimLeft(s: string): (r: string)
    ensures r != "" ==> s != "" && r[|r| - 1] == s[|s| - 1]
  {
    if s != "" && IsSpace(s[0]) then TrimLeft(s[1..]) else s
  }

  function TrimRight(s: string): (r: string)
    ensures r != "" ==> !IsSpace(r[|r| - 1])
  {
    if s != "" && IsSpace(s[|s| - 1]) then TrimRight(s[..|s| - 1]) else s
  }

  function TrimSpace(s: string): (r: string)
    ensures r != "" ==> !IsSpace(r[|r| - 1])
  {
    TrimRight(TrimLeft(s))
  }

  predicate Blank(line: string) {
    TrimSpace(line) == ""
  }

  predicate AllSpace(s: string) {
    forall i :: 0 <= i < |s| ==> IsSpace(s[i])
  }

  lemma {:induction false} TrimLeftIs(s: string) returns (lo: nat)
    ensures lo <= |s| && TrimLeft(s) == s[lo..] && AllSpace(s[..lo]) && (lo < |s| ==> !IsSpace(s[lo]))
    decreases |s|
  {
    hide IsSpace;
    lo := 0;
    if s != "" && IsSpace(s[0]) {
      var k := TrimLeftIs(s[1..]);
      lo := k + 1;
      assert s[..lo] == [s[0]] + s[1..][..k] && s[1..][k..] == s[lo..];
    }
  }

  lemma {:induction false} TrimRightIs(s: string) returns (hi: nat)
    ensures hi <= |s| && TrimRight(s) == s[..hi] && AllSpace(s[hi..]) && (hi > 0 ==> !IsSpace(s[hi - 1]))
    decreases |s|
  {
    hide IsSpace;
    hi := |s|;
    if s != "" && IsSpace(s[|s| - 1]) {
      hi := TrimRightIs(s[..|s| - 1]);
      assert s[hi..] == s[..|s| - 1][hi..] + [s[|s| - 1]] && s[..|s| - 1][..hi] == s[..hi];
    }
  }

  /** TrimSpace takes all the white space off both ends, and nothing else. */
  lemma TrimSpaceIs(s: string) returns (lo: nat, hi: nat)
    ensures lo <= hi <= |s| && TrimSpace(s) == s[lo..hi] && AllSpace(s[..lo]) && AllSpace(s[hi..])
    ensures lo < hi ==> !IsSpace(s[lo]) && !IsSpace(s[hi - 1])
  {
    hide IsSpace, TrimLeft, TrimRight;
    lo := TrimLeftIs(s);
    var k := TrimRightIs(s[lo..]);
    hi := lo + k;
    assert s[lo..][..k] == s[lo..hi] && s[lo..][k..] == s[hi..];
  }

  /** A line is blank exactly when all its characters are white space. */
  lemma BlankExactly(line: string)
    ensures Blank(line) <==> AllSpace(line)
  {
    hide IsSpace, TrimSpace;
    var lo, hi := TrimSpaceIs(line);
    if lo == hi {
      assert line == line[..lo] + line[lo..];
      assert AllSpace(line[..lo]) && AllSpace(line[lo..]);
      forall i | 0 <= i < |line| ensures IsSpace(line[i]) {
        if i < lo { assert line[i] == line[..lo][i]; } else { assert line[i] == line[lo..][i - lo]; }
      }
    } else {
      assert line[lo..hi] != "";
    }
  }

  const BAR: char := '\U{2500}'

  /** A trimmed line that is one or two bars and nothing else, or begins with three. */
  ghost predicate IsRule(line: string) {
    var t := TrimSpace(line);
    t == [BAR] || t == [BAR, BAR] || [BAR, BAR, BAR] <= t
  }

  /** strings.TrimLeft(s, " \t") */
  function SkipBlanks(s: string): (r: string)
    ensures r == "" && s != "" ==> IsSpace(s[|s| - 1])
  {
    if s != "" && s[0] in " \t" then SkipBlanks(s[1..]) else s
  }

  method IsHorizontalRule(line: string) returns (b: bool)
    ensures b == IsRule(line)
  {
    hide TrimLeft, TrimRight, IsSpace;
    var t := TrimSpace(line);
    if t == "" {
      return false;
    }
    var n := 0;
    while n < |t| && t[n] == BAR
      invariant n <= |t|
      invariant forall j :: 0 <= j < n ==> t[j] == BAR
    {
      n := n + 1;
    }
    if n == 0 {
      return false;
    }
    var suffix := SkipBlanks(t[n..]);
    b := suffix == "" || n >= 3;
    assert suffix == "" <==> n == |t|;
    assert n >= 3 <==> [BAR, BAR, BAR] <= t by {
      assert n >= 3 ==> t[..3] == [BAR, BAR, BAR];
    }
  }

  // ---- lines at the edges --------------------------------------------------------------------

  /** The lines that are not blank, in order. */
  ghost function NonBlank(lines: seq<string>): seq<string> {
    if lines == [] then [] else
    (if Blank(lines[0]) then [] else [lines[0]]) + NonBlank(lines[1..])
  }

  lemma NonBlankStep(l: string, rest: seq<string>)
    ensures NonBlank([l] + rest) == (if Blank(l) then [] else [l]) + NonBlank(rest)
  {
    hide Blank;
    assert ([l] + rest)[1..] == rest;
  }

  lemma {:induction false} NonBlankSplits(a: seq<string>, b: seq<string>)
    ensures NonBlank(a + b) == NonBlank(a) + NonBlank(b)
  {
    if a == [] {
      assert a + b == b;
    } else {
      hide Blank, NonBlank;
      var l, rest := a[0], a[1..];
      var kept: seq<string> := if Blank(l) then [] else [l];
      NonBlankSplits(rest, b);
      NonBlankStep(l, rest);
      NonBlankStep(l, rest + b);
      Assoc([l], rest, b);
      Assoc(kept, NonBlank(rest), NonBlank(b));
      assert a == [l] + rest;
    }
  }

  lemma NonBlankAt(lines: seq<string>, i: nat)
    requires i <= |lines|
    ensures NonBlank(lines) == NonBlank(lines[..i]) + NonBlank(lines[i..])
  {
    assert lines == lines[..i] + lines[i..];
    NonBlankSplits(lines[..i], lines[i..]);
  }

  /** Counting from one end to zero never stops: n == 0 asks for every line that is not blank. */
  ghost function Wanted(n: nat, total: nat): nat {
    if n == 0 || n > total then total else n
  }

  /** No carriage return was stripped above line i. */
  ghost predicate Straight(content: string, i: nat)
    requires i <= |Raw(content)|
  {
    i == |Raw(content)| || Stripped(Raw(content), i) == 0
  }

  /** A screen without carriage returns is straight everywhere. */
  lemma NoCRIsStraight(content: string, i: nat)
    requires CR !in content && i <= |Raw(content)|
    ensures Straight(content, i)
  {
    NoCRStripsNothing(content, i);
  }

  lemma Resplits(content: string, i: nat)
    requires i <= |Raw(content)|
    ensures Lines(From(content, i)) == Lines(content)[i..] <==> Straight(content, i)
  {
    hide Raw, From, Trimmed, Stripped;
    if i < |Raw(content)| {
      FromResplits(content, i);
    } else {
      FromEnd(content);
    }
  }

  method BottomLines(content: string, n: nat) returns (r: string)
    ensures n >= |Lines(content)| ==> r == content
    ensures n < |Lines(content)| ==> r == From(content, |Lines(content)| - n)
    ensures n <= |Lines(content)| ==>
              (Lines(r) == Lines(content)[|Lines(content)| - n..] <==> Straight(content, |Lines(content)| - n))
  {
    hide Raw, From, Trimmed, Straight;
    var lines := SplitLines(content);
    if n >= |lines| {
      StraightStart(content);
      return content;
    }
    r := JoinFrom(content, lines, |lines| - n);
    Resplits(content, |lines| - n);
  }

  lemma StraightStart(content: string)
    ensures Straight(content, 0) && Lines(content) == Lines(content)[0..]
  {
  }

  /** Where the last lines that are not blank begin. */
  ghost predicate BottomFrom(lines: seq<string>, n: nat, start: nat) {
    && start < |lines| && !Blank(lines[start])
    && |NonBlank(lines[start..])| == Wanted(n, |NonBlank(lines)|)
  }

  method BottomStart(lines: seq<string>, n: nat) returns (start: int)
    ensures NonBlank(lines) == [] ==> start == -1
    ensures NonBlank(lines) != [] ==> start >= 0 && BottomFrom(lines, n, start)
  {
    hide Blank;
    var seen: nat, i: int := 0, |lines| - 1;
    start := -1;
    while i >= 0
      invariant -1 <= i < |lines|
      invariant seen == |NonBlank(lines[i + 1..])| && (n > 0 ==> seen < n)
      invariant seen == 0 ==> start == -1
      invariant seen > 0 ==> i < start < |lines| && !Blank(lines[start]) && |NonBlank(lines[start..])| == seen
    {
      assert lines[i..][1..] == lines[i + 1..];
      if !Blank(lines[i]) {
        seen := seen + 1;
        start := i;
        if seen == n {
          NonBlankAt(lines, i);
          return;
        }
      }
      i := i - 1;
    }
    assert lines[0..] == lines;
  }

  /** The region's lines that are not blank are exactly the last ones of the screen. */
  ghost predicate IsBottom(content: string, n: nat, r: string) {
    var all := NonBlank(Lines(content));
    NonBlank(Lines(r)) == all[|all| - Wanted(n, |all|)..]
  }

  /** The screen from its nth last line that is not blank: split again, it holds exactly the last ones. */
  method BottomNonEmptyLines(content: string, n: nat) returns (r: string)
    ensures NonBlank(Lines(content)) == [] ==> r == ""
    ensures NonBlank(Lines(content)) != [] ==>
              exists start: nat :: BottomFrom(Lines(content), n, start) && r == From(content, start)
                                   && (Straight(content, start) ==> IsBottom(content, n, r))
    ensures CR !in content ==> IsBottom(content, n, r)
  {
    hide Raw, From, Trimmed, Blank, CR, Straight;
    var lines := SplitLines(content);
    var start := BottomStart(lines, n);
    if start < 0 {
      NoLines();
      return "";
    }
    r := JoinFrom(content, lines, start);
    assert BottomFrom(lines, n, start);
    Resplits(content, start);
    NonBlankAt(lines, start);
    if CR !in content { NoCRIsStraight(content, start); }
  }

  ghost predicate TopUpTo(lines: seq<string>, n: nat, end: nat) {
    && end < |lines| && !Blank(lines[end])
    && |NonBlank(lines[..end + 1])| == Wanted(n, |NonBlank(lines)|)
  }

  method TopEnd(lines: seq<string>, n: nat) returns (end: int)
    ensures NonBlank(lines) == [] ==> end == -1
    ensures NonBlank(lines) != [] ==> end >= 0 && TopUpTo(lines, n, end)
  {
    hide Blank;
    var seen := 0;
    end := -1;
    for i := 0 to |lines|
      invariant seen == |NonBlank(lines[..i])| && (n > 0 ==> seen < n)
      invariant seen == 0 ==> end == -1
      invariant seen > 0 ==> 0 <= end < i && !Blank(lines[end]) && |NonBlank(lines[..end + 1])| == seen
    {
      assert lines[..i + 1] == lines[..i] + [lines[i]];
      NonBlankSplits(lines[..i], [lines[i]]);
      if !Blank(lines[i]) {
        seen := seen + 1;
        end := i;
        if seen == n {
          NonBlankAt(lines, i + 1);
          return;
        }
      }
    }
    assert lines[..|lines|] == lines;
  }

  /** Nothing was stripped up to line end, or what the offset cuts off that line does not show. */
  ghost predicate Unshown(content: string, end: nat)
    requires end < |Raw(content)|
  {
    var k := Stripped(Raw(content), end + 1);
    k == 0 || CutKeeps(Raw(content)[end], k)
  }

  /** The region's lines that are not blank are exactly the first ones of the screen. */
  ghost predicate IsTop(content: string, n: nat, r: string) {
    var all := NonBlank(Lines(content));
    NonBlank(Lines(r)) == all[..Wanted(n, |all|)]
  }

  method TopNonEmptyLines(content: string, n: nat) returns (r: string)
    ensures NonBlank(Lines(content)) == [] ==> r == ""
    ensures NonBlank(Lines(content)) != [] ==>
              exists end: nat :: TopUpTo(Lines(content), n, end) && r == content[..Offset(content, end + 1)]
                                 && (Unshown(content, end) ==> IsTop(content, n, r))
    ensures CR !in content ==> IsTop(content, n, r)
  {
    hide Raw, Offset, Trimmed, Blank, CR, Stripped, CutKeeps;
    var lines := SplitLines(content);
    var end := TopEnd(lines, n);
    if end < 0 {
      NoLines();
      return "";
    }
    var off := LineStartOffset(content, lines, end + 1);
    r := content[..off];
    assert TopUpTo(lines, n, end);
    UpToResplits(content, end + 1);
    NonBlankAt(lines, end + 1);
    if CR !in content { NoCRStripsNothing(content, end + 1); }
  }

  // ---- rules and markers ---------------------------------------------------------------------

  ghost predicate NoRule(lines: seq<string>) {
    forall l :: l in lines ==> !IsRule(l)
  }

  ghost predicate NoRuleIn(lines: seq<string>, lo: int, hi: int)
    requires 0 <= lo && hi <= |lines|
  {
    forall j :: lo <= j < hi ==> !IsRule(lines[j])
  }

  /** k is just below the last rule, or 0. */
  ghost predicate BelowRules(lines: seq<string>, k: nat) {
    k <= |lines| && NoRuleIn(lines, k, |lines|) && (k > 0 ==> IsRule(lines[k - 1]))
  }

  method AfterLastHorizontalRule(content: string) returns (r: string)
    ensures exists k: nat :: BelowRules(Lines(content), k) && r == From(content, k)
                             && (Lines(r) == Lines(content)[k..] <==> Straight(content, k))
  {
    hide Raw, From, Trimmed, IsRule, Straight;
    var lines := SplitLines(content);
    var k := 0;
    for i := 0 to |lines|
      invariant k <= i && (k > 0 ==> IsRule(lines[k - 1]))
      invariant NoRuleIn(lines, k, i)
    {
      var b := IsHorizontalRule(lines[i]);
      if b {
        k := i + 1;
      }
    }
    assert BelowRules(lines, k);
    r := JoinFrom(content, lines, k);
    Resplits(content, k);
  }

  predicate CodexPromptLine(line: string) {
    line == "\U{203A}" || "\U{203A} " <= line
  }

  /** No line is the marker alone or the marker, a space and more. */
  ghost predicate NoMarker(lines: seq<string>) {
    forall l :: l in lines ==> l != "\U{203A}" && !("\U{203A} " <= l)
  }

  method AfterLastPromptMarker(content: string) returns (r: string)
    ensures NoMarker(Lines(content)) ==> r == content
    ensures !NoMarker(Lines(content)) ==>
              exists k: nat :: k < |Lines(content)| && CodexPromptLine(Lines(content)[k])
                               && NoMarker(Lines(content)[k + 1..]) && r == From(content, k + 1)
                               && (Straight(content, k + 1) ==> NoMarker(Lines(r)))
    ensures CR !in content ==> NoMarker(Lines(r))
  {
    hide Raw, From, Trimmed, CR, Straight;
    var lines := SplitLines(content);
    var i: int := |lines| - 1;
    while i >= 0
      invariant -1 <= i < |lines|
      invariant NoMarker(lines[i + 1..])
    {
      if CodexPromptLine(lines[i]) {
        assert lines[i] in lines;
        r := JoinFrom(content, lines, i + 1);
        Resplits(content, i + 1);
        if CR !in content { NoCRIsStraight(content, i + 1); }
        return;
      }
      assert lines[i..] == [lines[i]] + lines[i + 1..];
      i := i - 1;
    }
    assert lines[0..] == lines;
    return content;
  }

  /** top and end are the last two rules. */
  ghost predicate Box(lines: seq<string>, top: nat, end: nat) {
    && top < end < |lines| && IsRule(lines[top]) && IsRule(lines[end])
    && NoRuleIn(lines, top + 1, end) && NoRuleIn(lines, end + 1, |lines|)
  }

  /** At most one line is a rule. */
  ghost predicate AtMostOneRule(lines: seq<string>) {
    forall i, j :: 0 <= i < j < |lines| ==> !(IsRule(lines[i]) && IsRule(lines[j]))
  }

  /** The second-last rule; last is the one below it. */
  method BoxTop(lines: seq<string>) returns (top: int, ghost last: int)
    ensures top < 0 ==> AtMostOneRule(lines)
    ensures top >= 0 ==> last >= 0 && Box(lines, top, last)
  {
    hide IsRule;
    top, last := -1, -1;
    var borders, i: int := 0, |lines| - 1;
    while i >= 0
      invariant -1 <= i < |lines| && top == -1 && 0 <= borders < 2
      invariant borders == 0 ==> NoRuleIn(lines, i + 1, |lines|)
      invariant borders == 1 ==> i < last < |lines| && IsRule(lines[last])
                                 && NoRuleIn(lines, i + 1, last) && NoRuleIn(lines, last + 1, |lines|)
    {
      var b := IsHorizontalRule(lines[i]);
      if b {
        borders := borders + 1;
        if borders == 2 {
          top := i;
          return;
        }
        last := i;
      }
      i := i - 1;
    }
  }

  /** The first rule below top. */
  method BoxEnd(lines: seq<string>, top: nat, ghost last: nat) returns (end: nat)
    requires Box(lines, top, last)
    ensures end == last
  {
    hide IsRule;
    end := top + 1;
    var b := false;
    while end < |lines| && !b
      invariant top < end <= last && (b ==> end == last)
      decreases |lines| - end + if b then 0 else 1
    {
      b := IsHorizontalRule(lines[end]);
      if !b {
        end := end + 1;
      }
    }
  }

  lemma BoxIsTwoRules(lines: seq<string>, top: nat, end: nat)
    requires Box(lines, top, end)
    ensures !AtMostOneRule(lines)
  {
    hide IsRule;
    assert IsRule(lines[top]) && IsRule(lines[end]);
  }

  lemma {:induction false} TrimLeftSpace(s: string, c: char)
    requires IsSpace(c)
    ensures TrimLeft(s + [c]) == if TrimLeft(s) == "" then "" else TrimLeft(s) + [c]
  {
    hide IsSpace;
    if s == "" {
      assert [c][1..] == "" && "" + [c] == [c];
    } else {
      assert (s + [c])[0] == s[0] && (s + [c])[1..] == s[1..] + [c];
      if IsSpace(s[0]) {
        TrimLeftSpace(s[1..], c);
      }
    }
  }

  /** A carriage return is white space to TrimSpace, so dropping one makes no rule and undoes none. */
  lemma TrimmedRule(l: string)
    ensures IsRule(Trimmed(l)) <==> IsRule(l)
  {
    hide TrimLeft;
    if Trimmed(l) != l {
      var t := Trimmed(l);
      assert l == t + [CR];
      TrimLeftSpace(t, CR);
      var u := TrimLeft(t);
      assert (u + [CR])[..|u|] == u;
    }
  }

  /** Joining lines makes no rule that was not there. */
  lemma JoinHasNoRule(lines: seq<string>)
    requires (forall l :: l in lines ==> LF !in l) && NoRule(lines)
    ensures NoRule(Lines(Join(lines)))
  {
    hide Raw, IsRule, Join, Trimmed;
    JoinResplits(lines);
    var raw := Raw(Join(lines));
    forall l | l in Lines(Join(lines)) ensures !IsRule(l) {
      var j :| 0 <= j < |raw| && l == Trimmed(raw[j]);
      assert raw[j] == lines[j];
      TrimmedRule(raw[j]);
    }
  }

  lemma LinesHaveNoLF(content: string, lo: nat, hi: nat)
    requires lo <= hi <= |Lines(content)|
    ensures forall l :: l in Lines(content)[lo..hi] ==> LF !in l
  {
    hide Raw;
    RawHasNoLF(content);
    forall l | l in Lines(content)[lo..hi] ensures LF !in l {
      var j :| lo <= j < hi && l == Lines(content)[j];
      assert Raw(content)[j] in Raw(content) && l == Trimmed(Raw(content)[j]);
      assert l == Raw(content)[j] || l + [CR] == Raw(content)[j];
    }
  }

  /** The text between the last two rules; split again, none of its lines is a rule. */
  method PromptBoxBody(content: string) returns (r: string)
    ensures AtMostOneRule(Lines(content)) ==> r == ""
    ensures !AtMostOneRule(Lines(content)) ==>
              exists top: nat, end: nat :: Box(Lines(content), top, end) && r == Join(Lines(content)[top + 1..end])
    ensures NoRule(Lines(r))
  {
    hide Raw, Trimmed, IsRule, Join, AtMostOneRule;
    var lines := SplitLines(content);
    var top, last := BoxTop(lines);
    if top < 0 {
      NoLines();
      return "";
    }
    BoxIsTwoRules(lines, top, last);
    var end := BoxEnd(lines, top, last);
    r := if top + 1 >= end then "" else Join(lines[top + 1..end]);
    JoinNone(lines[top + 1..end]);
    LinesHaveNoLF(content, top + 1, end);
    JoinHasNoRule(lines[top + 1..end]);
  }

  // ---- rule choice ---------------------------------------------------------------------------

  type Regex = string -> bool

  datatype Gate = Gate(fold: seq<string>, re: seq<Regex>, lineRe: seq<Regex>,
                       all: seq<Gate>, any: seq<Gate>, none: seq<Gate>)

  predicate Contains(text: string, needle: string) {
    exists i :: 0 <= i <= |text| && needle <= text[i..]
  }

  ghost predicate SomeLine(text: string, re: Regex) {
    exists l :: l in Lines(text) && re(l)
  }

  /** What a gate means: `any` constrains only when it is given. */
  ghost predicate Holds(g: Gate, text: string, lower: string) {
    && (forall i :: 0 <= i < |g.fold| ==> Contains(lower, g.fold[i]))
    && (forall i :: 0 <= i < |g.re| ==> g.re[i](text))
    && (forall i :: 0 <= i < |g.lineRe| ==> SomeLine(text, g.lineRe[i]))
    && (forall i :: 0 <= i < |g.all| ==> Holds(g.all[i], text, lower))
    && (g.any != [] ==> exists i :: 0 <= i < |g.any| && Holds(g.any[i], text, lower))
    && (forall i :: 0 <= i < |g.none| ==> !Holds(g.none[i], text, lower))
  }

  method AnyLineMatches(text: string, re: Regex) returns (b: bool)
    ensures b == SomeLine(text, re)
  {
    var lines := SplitLines(text);
    for i := 0 to |lines|
      invariant forall j :: 0 <= j < i ==> !re(lines[j])
    {
      if re(lines[i]) {
        return true;
      }
    }
    return false;
  }

  /** The leaf conditions of a gate. */
  method LeavesMatch(g: Gate, text: string, lower: string) returns (b: bool)
    ensures b <==>
            && (forall i :: 0 <= i < |g.fold| ==> Contains(lower, g.fold[i]))
            && (forall i :: 0 <= i < |g.re| ==> g.re[i](text))
            && (forall i :: 0 <= i < |g.lineRe| ==> SomeLine(text, g.lineRe[i]))
  {
    hide Contains, SomeLine;
    for i := 0 to |g.fold|
      invariant forall j :: 0 <= j < i ==> Contains(lower, g.fold[j])
    {
      if !Contains(lower, g.fold[i]) {
        return false;
      }
    }
    for i := 0 to |g.re|
      invariant forall j :: 0 <= j < i ==> g.re[j](text)
    {
      if !g.re[i](text) {
        return false;
      }
    }
    for i := 0 to |g.lineRe|
      invariant forall j :: 0 <= j < i ==> SomeLine(text, g.lineRe[j])
    {
      var some := AnyLineMatches(text, g.lineRe[i]);
      if !some {
        return false;
      }
    }
    return true;
  }

  method MatchesFolded(g: Gate, text: string, lower: string) returns (b: bool)
    ensures b == Holds(g, text, lower)
    decreases g
  {
    hide Contains, SomeLine;
    var leaves := LeavesMatch(g, text, lower);
    if !leaves {
      return false;
    }
    for i := 0 to |g.all|
      invariant forall j :: 0 <= j < i ==> Holds(g.all[j], text, lower)
    {
      var holds := MatchesFolded(g.all[i], text, lower);
      if !holds {
        return false;
      }
    }
    if |g.any| > 0 {
      var ok := false;
      for i := 0 to |g.any|
        invariant ok == exists j :: 0 <= j < i && Holds(g.any[j], text, lower)
      {
        ok := MatchesFolded(g.any[i], text, lower);
        if ok {
          break;
        }
      }
      if !ok {
        return false;
      }
    }
    for i := 0 to |g.none|
      invariant forall j :: 0 <= j < i ==> !Holds(g.none[j], text, lower)
    {
      var holds := MatchesFolded(g.none[i], text, lower);
      if holds {
        return false;
      }
    }
    return true;
  }

  datatype Rule = Rule(id: string, priority: int, gate: Gate)

  /** Rule i matches the text of its region; fold is strings.ToLower. */
  ghost predicate Fires(rules: seq<Rule>, texts: seq<string>, fold: string -> string, i: int)
    requires 0 <= i < |rules| == |texts|
  {
    Holds(rules[i].gate, texts[i], fold(texts[i]))
  }

  /** The winner: the first rule of the highest priority among those that fire. */
  method Classify(rules: seq<Rule>, texts: seq<string>, fold: string -> string) returns (r: Option<nat>)
    requires |rules| == |texts|
    ensures r == None <==> forall i :: 0 <= i < |rules| ==> !Fires(rules, texts, fold, i)
    ensures r.Some? ==>
              && r.value < |rules| && Fires(rules, texts, fold, r.value)
              && (forall i :: 0 <= i < |rules| && Fires(rules, texts, fold, i) ==>
                                rules[i].priority < rules[r.value].priority
                                || (rules[i].priority == rules[r.value].priority && r.value <= i))
  {
    hide Holds;
    r := None;
    for k := 0 to |rules|
      invariant r == None ==> forall i :: 0 <= i < k ==> !Fires(rules, texts, fold, i)
      invariant r.Some? ==>
                  && r.value < k && Fires(rules, texts, fold, r.value)
                  && (forall i :: 0 <= i < k && Fires(rules, texts, fold, i) ==>
                                    rules[i].priority < rules[r.value].priority
                                    || (rules[i].priority == rules[r.value].priority && r.value <= i))
    {
      var matches := MatchesFolded(rules[k].gate, texts[k], fold(texts[k]));
      if !matches {
        continue;
      }
      if r.Some? && rules[r.value].priority >= rules[k].priority {
        continue;
      }
      r := Some(k);
    }
  }
}
