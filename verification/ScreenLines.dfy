/** Screen text and its lines (pkg/agentdetect/manifest.go: splitLines, lineStartOffset, joinFrom).

    Lines lose their line feed and one carriage return, and offsets are then added up from the shortened
    lines.  The module says what that makes of a suffix of the screen.
 */
module ScreenLines {
  import Sequences

  const LF: char := '\n'
  const CR: char := '\r'

  /** Where the first line feed is, or the length. */
  function LineEnd(s: string): (k: nat)
    ensures k <= |s| && (k < |s| ==> s[k] == LF)
  {
    if s == "" || s[0] == LF then 0 else 1 + LineEnd(s[1..])
  }

  /** strings.Split on line feeds: one more part than there are line feeds. */
  function Parts(s: string): (r: seq<string>)
    ensures |r| > 0
    decreases |s|
  {
    var k := LineEnd(s);
    if k == |s| then [s] else [s[..k]] + Parts(s[k + 1..])
  }

  /** The lines with their carriage returns: no empty line after a final line feed. */
  function Raw(s: string): (r: seq<string>)
    decreases |s|
  {
    if s == "" then [] else
    var k := LineEnd(s);
    if k == |s| then [s] else [s[..k]] + Raw(s[k + 1..])
  }

  function Trimmed(line: string): (r: string)
    ensures line == r || line == r + [CR]
  {
    if line != "" && line[|line| - 1] == CR then line[..|line| - 1] else line
  }

  function TrimmedAll(lines: seq<string>): (r: seq<string>)
    ensures |r| == |lines| && forall i :: 0 <= i < |r| ==> r[i] == Trimmed(lines[i])
  {
    seq(|lines|, i requires 0 <= i < |lines| => Trimmed(lines[i]))
  }

  function Lines(s: string): seq<string> {
    TrimmedAll(Raw(s))
  }

  lemma RawStep(s: string)
    ensures Raw(s) == var k := LineEnd(s);
              if s == "" then [] else if k == |s| then [s] else [s[..k]] + Raw(s[k + 1..])
  {
    hide LineEnd;
  }

  lemma PartsStep(s: string)
    ensures Parts(s) == var k := LineEnd(s);
              if k == |s| then [s] else [s[..k]] + Parts(s[k + 1..])
  {
    hide LineEnd;
  }

  /** Dropping the last part when it is empty leaves the lines. */
  lemma {:induction false} PartsAreRaw(s: string)
    requires s != ""
    ensures var p := Parts(s);
            Raw(s) == if p[|p| - 1] == "" then p[..|p| - 1] else p
    decreases |s|
  {
    hide Raw, Parts, LineEnd;
    RawStep(s);
    PartsStep(s);
    var k := LineEnd(s);
    if k < |s| {
      var rest := s[k + 1..];
      RawStep(rest);
      PartsStep(rest);
      var q := Parts(rest);
      if rest != "" {
        PartsAreRaw(rest);
      }
      assert ([s[..k]] + q)[..|q|] == [s[..k]] + q[..|q| - 1];
    }
  }

  method TrimEach(raw: seq<string>) returns (parts: seq<string>)
    ensures parts == TrimmedAll(raw)
  {
    hide Trimmed;
    parts := raw;
    for i := 0 to |parts|
      invariant |parts| == |raw|
      invariant forall j :: 0 <= j < |parts| ==> parts[j] == if j < i then Trimmed(raw[j]) else raw[j]
    {
      parts := parts[i := Trimmed(parts[i])];
    }
  }

  method SplitLines(s: string) returns (lines: seq<string>)
    ensures lines == Lines(s)
  {
    if s == "" {
      return [];
    }
    PartsAreRaw(s);
    hide Raw, Parts;
    var parts := Parts(s);
    if parts[|parts| - 1] == "" {
      parts := parts[..|parts| - 1];
    }
    lines := TrimEach(parts);
  }

  // ---- where lines start ---------------------------------------------------------------------

  /** Where line i starts in the screen. */
  ghost function Start(s: string, i: nat): (r: nat)
    requires i < |Raw(s)|
    ensures r < |s|
    decreases |s|
  {
    if i == 0 then 0 else LineEnd(s) + 1 + Start(s[LineEnd(s) + 1..], i - 1)
  }

  lemma {:induction false} LineEndAt(s: string, k: nat)
    requires k <= |s| && LF !in s[..k] && (k < |s| ==> s[k] == LF)
    ensures LineEnd(s) == k
  {
    if k > 0 {
      assert s[0] in s[..k];
      assert s[1..][..k - 1] == s[..k][1..];
      LineEndAt(s[1..], k - 1);
    }
  }

  lemma {:induction false} LineEndFirst(s: string)
    ensures LF !in s[..LineEnd(s)]
  {
    var k := LineEnd(s);
    if k > 0 {
      LineEndFirst(s[1..]);
      assert s[..k] == [s[0]] + s[1..][..k - 1];
    }
  }

  lemma {:induction false} RawHasNoLF(s: string)
    ensures forall l :: l in Raw(s) ==> LF !in l
    decreases |s|
  {
    if s != "" {
      var k := LineEnd(s);
      LineEndFirst(s);
      if k < |s| {
        RawHasNoLF(s[k + 1..]);
      } else {
        assert s[..k] == s;
      }
    }
  }

  lemma FirstLine(s: string, k: nat)
    requires k < |s| && s[k] == LF && LF !in s[..k]
    ensures LineEnd(s) == k && Raw(s) == [s[..k]] + Raw(s[k + 1..])
  {
    LineEndAt(s, k);
  }

  lemma StartStep(s: string, i: nat)
    requires i < |Raw(s)|
    ensures i == 0 ==> Start(s, i) == 0
    ensures i > 0 ==>
              var k := LineEnd(s);
              && k < |s| && i - 1 < |Raw(s[k + 1..])|
              && Raw(s) == [s[..k]] + Raw(s[k + 1..])
              && Start(s, i) == k + 1 + Start(s[k + 1..], i - 1)
  {
  }

  lemma DropDrop<T>(s: seq<T>, a: nat, b: nat)
    requires a + b <= |s|
    ensures s[a + b..] == s[a..][b..]
  {
  }

  lemma TakeOfTake<T>(s: seq<T>, a: nat, b: nat)
    requires a <= b <= |s|
    ensures s[..b][..a] == s[..a] && s[..b][a..] == s[a..][..b - a]
  {
  }

  /** The lines from there on are the rest of the lines. */
  lemma {:induction false} FromStart(s: string, i: nat)
    requires i < |Raw(s)|
    ensures Raw(s[Start(s, i)..]) == Raw(s)[i..]
    decreases |s|
  {
    hide Raw, Start, LineEnd;
    StartStep(s, i);
    if i == 0 {
      assert s[0..] == s;
    } else {
      var k := LineEnd(s);
      var rest := s[k + 1..];
      FromStart(rest, i - 1);
      DropDrop(s, k + 1, Start(rest, i - 1));
      DropDrop(Raw(s), 1, i - 1);
    }
  }

  /** The lines up to there are the others. */
  lemma {:induction false} UpToStart(s: string, i: nat)
    requires i < |Raw(s)|
    ensures Raw(s[..Start(s, i)]) == Raw(s)[..i]
    decreases |s|
  {
    hide Raw, Start, LineEnd;
    StartStep(s, i);
    if i == 0 {
      NoLines();
    } else {
      LineEndFirst(s);
      var k := LineEnd(s);
      var rest := s[k + 1..];
      UpToStart(rest, i - 1);
      var n := Start(s, i);
      TakeOfTake(s, k, n);
      TakeOfTake(s, k + 1, n);
      FirstLine(s[..n], k);
      assert Raw(s)[..i] == [s[..k]] + Raw(rest)[..i - 1];
    }
  }

  /** The length of the first i lines, each with the line feed that follows it. */
  ghost function Length(lines: seq<string>, i: nat): nat
    requires i <= |lines|
  {
    if i == 0 then 0 else Length(lines, i - 1) + |lines[i - 1]| + 1
  }

  /** How many of the first i lines lose a carriage return. */
  ghost function Stripped(raw: seq<string>, i: nat): nat
    requires i <= |raw|
  {
    if i == 0 then 0 else Stripped(raw, i - 1) + |raw[i - 1]| - |Trimmed(raw[i - 1])|
  }

  lemma {:induction false} LengthShift(lines: seq<string>, i: nat)
    requires 0 < i <= |lines|
    ensures Length(lines, i) == |lines[0]| + 1 + Length(lines[1..], i - 1)
  {
    if i > 1 {
      LengthShift(lines, i - 1);
    }
  }

  lemma {:induction false} StartIsLength(s: string, i: nat)
    requires i < |Raw(s)|
    ensures Start(s, i) == Length(Raw(s), i)
    decreases |s|
  {
    if i > 0 {
      StartIsLength(s[LineEnd(s) + 1..], i - 1);
      LengthShift(Raw(s), i);
    }
  }

  lemma {:induction false} LengthStripped(raw: seq<string>, i: nat)
    requires i <= |raw|
    ensures Length(TrimmedAll(raw), i) + Stripped(raw, i) == Length(raw, i)
  {
    hide Trimmed;
    if i > 0 {
      LengthStripped(raw, i - 1);
    }
  }

  /** Only the last line may lack its line feed. */
  lemma {:induction false} WholeLength(s: string)
    ensures |s| <= Length(Raw(s), |Raw(s)|) <= |s| + 1
    decreases |s|
  {
    hide LineEnd;
    if s != "" {
      var k := LineEnd(s);
      if k < |s| {
        WholeLength(s[k + 1..]);
        LengthShift(Raw(s), |Raw(s)|);
        assert Raw(s)[1..] == Raw(s[k + 1..]);
      } else {
        assert Length(Raw(s), 0) == 0;
      }
    }
  }

  /** lineStartOffset as a value. */
  ghost function Offset(s: string, i: nat): (r: nat)
    requires i <= |Raw(s)|
    ensures r <= |s|
  {
    if Length(Lines(s), i) > |s| then |s| else Length(Lines(s), i)
  }

  method LineStartOffset(content: string, lines: seq<string>, i: nat) returns (off: nat)
    requires lines == Lines(content)
    ensures off == Offset(content, if i > |lines| then |lines| else i)
  {
    var n := if i > |lines| then |lines| else i;
    off := 0;
    for j := 0 to n
      invariant off == Length(lines, j)
    {
      off := off + |lines[j]| + 1;
    }
    if off > |content| {
      off := |content|;
    }
  }

  /** The computed offset falls short of the line by the carriage returns stripped above it, so it is
      the start of the line exactly when none was. */
  lemma OffsetExact(s: string, i: nat)
    requires i < |Raw(s)|
    ensures Offset(s, i) + Stripped(Raw(s), i) == Start(s, i)
    ensures Offset(s, i) == Start(s, i) <==> Stripped(Raw(s), i) == 0
  {
    StartIsLength(s, i);
    LengthStripped(Raw(s), i);
  }

  lemma {:induction false} StrippedNone(raw: seq<string>, i: nat)
    requires i <= |raw|
    ensures Stripped(raw, i) == 0 <==> forall j :: 0 <= j < i ==> Trimmed(raw[j]) == raw[j]
  {
    hide Trimmed;
    if i > 0 {
      StrippedNone(raw, i - 1);
    }
  }

  ghost function From(s: string, i: nat): string {
    if i >= |Lines(s)| then "" else s[Offset(s, i)..]
  }

  method JoinFrom(content: string, lines: seq<string>, i: nat) returns (r: string)
    requires lines == Lines(content)
    ensures r == From(content, i)
  {
    if i >= |lines| {
      return "";
    }
    var off := LineStartOffset(content, lines, i);
    return content[off..];
  }

  /** Every line but the first starts after a line feed. */
  lemma {:induction false} LFBeforeStart(s: string, i: nat)
    requires 0 < i < |Raw(s)|
    ensures 0 < Start(s, i) && s[Start(s, i) - 1] == LF
    decreases |s|
  {
    hide Raw, Start, LineEnd;
    StartStep(s, i);
    if i > 1 {
      LFBeforeStart(s[LineEnd(s) + 1..], i - 1);
    } else {
      StartStep(s[LineEnd(s) + 1..], 0);
    }
  }

  /** Text that ends with a line feed adds lines. */
  lemma {:induction false} MoreLines(head: string, rest: string)
    ensures |Raw(head + [LF] + rest)| > |Raw(rest)|
    decreases |head|
  {
    hide Raw, LineEnd;
    var s, k := head + [LF] + rest, LineEnd(head);
    LineEndFirst(head);
    assert s[..k] == head[..k];
    FirstLine(s, k);
    if k == |head| {
      assert s[k + 1..] == rest;
    } else {
      assert s[k + 1..] == head[k + 1..] + [LF] + rest;
      MoreLines(head[k + 1..], rest);
    }
  }

  /** Splitting that suffix again gives the lines from i on if and only if no carriage return was stripped
      above: a suffix that starts early has a line feed too many. */
  lemma FromResplits(s: string, i: nat)
    requires i < |Raw(s)|
    ensures Lines(From(s, i)) == Lines(s)[i..] <==> Stripped(Raw(s), i) == 0
  {
    hide Raw, Start, Offset, Trimmed, Stripped;
    OffsetExact(s, i);
    FromStart(s, i);
    if Stripped(Raw(s), i) > 0 {
      EarlyHasMore(s, i, Offset(s, i));
      assert |Lines(From(s, i))| > |Lines(s)[i..]|;
    } else {
      assert Raw(From(s, i)) == Raw(s)[i..];
      TrimmedFrom(Raw(s), i);
    }
  }

  lemma TrimmedFrom(raw: seq<string>, i: nat)
    requires i <= |raw|
    ensures TrimmedAll(raw[i..]) == TrimmedAll(raw)[i..]
  {
    hide Trimmed;
  }

  /** A suffix that starts before line i has more lines than follow from line i on. */
  lemma EarlyHasMore(s: string, i: nat, off: nat)
    requires i < |Raw(s)| && off < Start(s, i)
    ensures |Raw(s[off..])| > |Raw(s)| - i
  {
    hide Raw, Start;
    FromStart(s, i);
    var at := Start(s, i);
    if i == 0 { StartStep(s, 0); } else { LFBeforeStart(s, i); }
    assert s[off..] == s[off..at - 1] + [LF] + s[at..];
    MoreLines(s[off..at - 1], s[at..]);
  }

  /** The suffix after the last line is empty, and so are the lines from there on. */
  lemma FromEnd(s: string)
    ensures Lines(From(s, |Raw(s)|)) == Lines(s)[|Raw(s)|..] == []
  {
    NoLines();
  }

  // ---- and where they end -------------------------------------------------------------------

  /** Text made of whole lines, followed by more. */
  lemma {:induction false} RawConcat(a: string, b: string)
    requires a == "" || a[|a| - 1] == LF
    ensures Raw(a + b) == Raw(a) + Raw(b)
    decreases |a|
  {
    hide Raw, LineEnd;
    if a == "" {
      NoLines();
      assert a + b == b;
    } else {
      var k := LineEnd(a);
      LineEndFirst(a);
      LFEndsLine(a);
      assert (a + b)[..k] == a[..k] && (a + b)[k + 1..] == a[k + 1..] + b;
      FirstLine(a, k);
      FirstLine(a + b, k);
      RawConcat(a[k + 1..], b);
      Sequences.Assoc([a[..k]], Raw(a[k + 1..]), Raw(b));
    }
  }

  lemma {:induction false} LFEndsLine(s: string)
    requires s != "" && s[|s| - 1] == LF
    ensures LineEnd(s) < |s|
  {
    if s[0] != LF { LFEndsLine(s[1..]); }
  }

  /** A prefix has no more lines than the whole. */
  lemma {:induction false} PrefixHasFewer(s: string, n: nat)
    requires n <= |s|
    ensures |Raw(s[..n])| <= |Raw(s)|
    decreases |s|
  {
    hide Raw, LineEnd;
    RawStep(s);
    RawStep(s[..n]);
    if s != "" && n > 0 {
      var k := LineEnd(s);
      LineEndFirst(s);
      if n <= k {
        assert s[..n] == s[..k][..n];
        OneLine(s[..n]);
      } else {
        assert s[..n][..k] == s[..k];
        FirstLine(s[..n], k);
        assert s[..n][k + 1..] == s[k + 1..][..n - k - 1];
        PrefixHasFewer(s[k + 1..], n - k - 1);
      }
    }
  }

  /** A line in its screen: whole lines before it, the line itself, and the length so far with its line feed. */
  lemma LineAt(s: string, i: nat)
    requires 0 < i <= |Raw(s)|
    ensures var (at, l) := (Start(s, i - 1), Raw(s)[i - 1]);
            && at + |l| <= |s| && s[at..at + |l|] == l && LF !in l
            && (at == 0 || s[at - 1] == LF) && Raw(s[..at]) == Raw(s)[..i - 1]
            && Length(Raw(s), i) == at + |l| + 1
  {
    hide Raw, Start, LineEnd;
    var at := Start(s, i - 1);
    FromStart(s, i - 1);
    UpToStart(s, i - 1);
    StartIsLength(s, i - 1);
    if i > 1 { LFBeforeStart(s, i - 1); } else { StartStep(s, 0); }
    FirstOf(s[at..]);
    assert Raw(s[at..])[0] == Raw(s)[i - 1];
  }

  /** The first line is a prefix without line feeds. */
  lemma FirstOf(t: string)
    requires Raw(t) != []
    ensures Raw(t)[0] <= t && LF !in Raw(t)[0]
  {
    hide LineEnd;
    RawStep(t);
    LineEndFirst(t);
    assert t[..|t|] == t;
  }

  /** Cutting k characters off a line and its line feed leaves the trimmed line as it was. */
  predicate CutKeeps(l: string, k: nat) {
    || (k == 1 && l != "")
    || (k == 2 && |l| >= 2 && l[|l| - 1] == CR && l[|l| - 2] != CR)
  }

  lemma CutExact(l: string, k: nat)
    requires 1 <= k <= |l| + 1
    ensures var x := l[..|l| + 1 - k]; x != "" && Trimmed(x) == Trimmed(l) <==> CutKeeps(l, k)
  {
    var x := l[..|l| + 1 - k];
    if k == 1 {
      assert x == l;
    } else if k == 2 {
      assert l == x + [l[|l| - 1]];
    } else {
      assert |Trimmed(x)| <= |l| - 2 && |Trimmed(l)| >= |l| - 1;
    }
  }

  /** Cutting the text after line i - 1 short by k. */
  lemma CutPrefix(s: string, i: nat, k: nat)
    requires 0 < i <= |Raw(s)| && 1 <= k <= Length(Raw(s), i)
    ensures Length(Raw(s), i) - k <= |s|
    ensures Lines(s[..Length(Raw(s), i) - k]) == Lines(s)[..i] <==> CutKeeps(Raw(s)[i - 1], k)
  {
    hide Raw, Start, Trimmed, Length, CutKeeps;
    LineAt(s, i);
    var at, l, n := Start(s, i - 1), Raw(s)[i - 1], Length(Raw(s), i) - k;
    if n < at {
      PrefixHasFewer(s[..at], n);
      assert s[..at][..n] == s[..n];
      assert |Lines(s[..n])| < i;
      CutTooMuch(l, k);
    } else {
      CutLine(s, i, n - at);
      CutExact(l, k);
    }
  }

  /** Cutting the text inside line i - 1. */
  lemma CutLine(s: string, i: nat, m: nat)
    requires 0 < i <= |Raw(s)| && m <= |Raw(s)[i - 1]|
    ensures Start(s, i - 1) + m <= |s|
    ensures var x := Raw(s)[i - 1][..m];
            Lines(s[..Start(s, i - 1) + m]) == Lines(s)[..i] <==> x != "" && Trimmed(x) == Trimmed(Raw(s)[i - 1])
  {
    hide Raw, Start, Trimmed;
    LineAt(s, i);
    var at, x := Start(s, i - 1), Raw(s)[i - 1][..m];
    assert s[..at + m] == s[..at] + x;
    RawConcat(s[..at], x);
    OneLine(x);
    LastLineSame(Raw(s), i, Raw(s[..at + m]), x);
  }

  lemma CutTooMuch(l: string, k: nat)
    requires k > |l| + 1
    ensures !CutKeeps(l, k)
  {
  }

  /** Lines that agree but for the last. */
  lemma LastLineSame(raw: seq<string>, i: nat, cut: seq<string>, x: string)
    requires 0 < i <= |raw| && cut == raw[..i - 1] + (if x == "" then [] else [x])
    ensures TrimmedAll(cut) == TrimmedAll(raw)[..i] <==> x != "" && Trimmed(x) == Trimmed(raw[i - 1])
  {
    hide Trimmed;
    if x != "" {
      assert TrimmedAll(cut)[i - 1] == Trimmed(x);
      assert TrimmedAll(raw)[..i][i - 1] == Trimmed(raw[i - 1]);
    } else {
      assert |TrimmedAll(cut)| == i - 1;
    }
  }

  /** The text up to the computed offset splits into the lines before i if and only if nothing was stripped
      from them, or what is cut off the last of them does not show: its line feed, or that and one carriage
      return. */
  lemma UpToResplits(s: string, i: nat)
    requires i <= |Raw(s)|
    ensures var k := Stripped(Raw(s), i);
            Lines(s[..Offset(s, i)]) == Lines(s)[..i] <==> k == 0 || (i > 0 && CutKeeps(Raw(s)[i - 1], k))
  {
    hide Raw, Start, Trimmed, CutKeeps;
    LengthStripped(Raw(s), i);
    var k := Stripped(Raw(s), i);
    if k == 0 {
      UpToWhole(s, i);
    } else {
      CutPrefix(s, i, k);
    }
  }

  lemma UpToWhole(s: string, i: nat)
    requires i <= |Raw(s)| && Stripped(Raw(s), i) == 0
    ensures Lines(s[..Offset(s, i)]) == Lines(s)[..i]
  {
    hide Raw, Start, Trimmed;
    if i < |Raw(s)| {
      hide Offset;
      OffsetExact(s, i);
      UpToStart(s, i);
    } else {
      WholeLength(s);
      LengthStripped(Raw(s), i);
      assert s[..|s|] == s;
    }
  }

  lemma NoLines()
    ensures Raw("") == []
  {
  }

  /** Screens without carriage returns strip nothing. */
  lemma NoCRStripsNothing(s: string, i: nat)
    requires CR !in s && i <= |Raw(s)|
    ensures Stripped(Raw(s), i) == 0
  {
    hide Raw;
    NoCRInLines(s);
    StrippedNone(Raw(s), i);
  }

  lemma NoCRInLines(s: string)
    requires CR !in s
    ensures forall l :: l in Lines(s) ==> CR !in l
    ensures Lines(s) == Raw(s)
  {
    hide Raw;
    RawInScreen(s, CR);
    forall j | 0 <= j < |Raw(s)| ensures Trimmed(Raw(s)[j]) == Raw(s)[j] {
      assert Raw(s)[j] in Raw(s);
      TrimmedSame(Raw(s)[j]);
    }
    assert Lines(s) == Raw(s);
  }

  lemma TrimmedSame(l: string)
    requires CR !in l
    ensures Trimmed(l) == l
  {
    assert l != "" ==> l[|l| - 1] in l;
  }

  lemma {:induction false} RawInScreen(s: string, c: char)
    requires c !in s
    ensures forall l :: l in Raw(s) ==> c !in l
    decreases |s|
  {
    if s != "" {
      var k := LineEnd(s);
      assert c !in s[..k];
      if k < |s| {
        assert c !in s[k + 1..];
        RawInScreen(s[k + 1..], c);
      }
    }
  }

  /** With a carriage return it can go wrong: the second line of "a\r\nb" comes back with the line feed
      that ends the first. */
  lemma CRShifts()
    ensures var s := ['a', CR, LF, 'b'];
            Lines(s) == ["a", "b"] && From(s, 1) == [LF, 'b'] && Lines(From(s, 1)) == ["", "b"]
  {
    var s := ['a', CR, LF, 'b'];
    FirstLine(s, 2);
    assert s[..2] == ['a', CR] && s[3..] == "b";
    assert Raw("b") == ["b"];
    assert Trimmed(['a', CR]) == "a";
    assert Lines(s) == ["a", "b"];
    assert Length(Lines(s), 1) == 2;
    FirstLine([LF, 'b'], 0);
    assert [LF, 'b'][1..] == "b";
  }

  // ---- joining -------------------------------------------------------------------------------

  function Join(lines: seq<string>): string {
    if lines == [] then "" else
    if |lines| == 1 then lines[0] else lines[0] + [LF] + Join(lines[1..])
  }

  lemma JoinNone(lines: seq<string>)
    ensures lines == [] ==> Join(lines) == ""
  {
  }

  lemma JoinStep(lines: seq<string>)
    requires |lines| > 1 && LF !in lines[0]
    ensures Raw(Join(lines)) == [lines[0]] + Raw(Join(lines[1..]))
  {
    hide Raw;
    var s := Join(lines);
    var k := |lines[0]|;
    assert s[..k] == lines[0] && s[k] == LF && s[k + 1..] == Join(lines[1..]);
    FirstLine(s, k);
  }

  lemma OneLine(l: string)
    requires LF !in l
    ensures Raw(l) == if l == "" then [] else [l]
  {
    assert l[..|l|] == l;
    LineEndAt(l, |l|);
  }

  /** Joined lines split again, except that a final empty line is lost. */
  lemma {:induction false} JoinResplits(lines: seq<string>)
    requires forall l :: l in lines ==> LF !in l
    ensures Raw(Join(lines)) ==
              if lines != [] && lines[|lines| - 1] == "" then lines[..|lines| - 1] else lines
  {
    hide Raw;
    if lines == [] {
      NoLines();
    } else if |lines| == 1 {
      OneLine(lines[0]);
    } else {
      JoinResplits(lines[1..]);
      JoinStep(lines);
      assert lines == [lines[0]] + lines[1..];
    }
  }
}
