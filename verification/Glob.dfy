/**
 testcase_glob, the pattern matcher of the shell's test cases, against a declarative reading of its
 patterns: a pattern is a list of tokens, and a text matches when it can be cut into one piece for
 each token with nothing but spaces left over.
 */
module Glob {
  import opened CText
  import opened Decimals

  // ----- patterns -----

  datatype Range = Range(lo: char, hi: char)

  datatype Token =
    | Literal(c: char)
    | AnyOne
    | Star
    | Class(invert: bool, ranges: seq<Range>)
    | Never
    | Spaces
    | Number

  /** The ranges of a class up to its closing bracket. */
  datatype Ranges = Unclosed | Closed(ranges: seq<Range>, rest: string)

  function AddRange(r: Range, rs: Ranges): Ranges {
    if rs.Closed? then Closed([r] + rs.ranges, rs.rest) else rs
  }

  /** The value of a char where the type is signed. */
  function Signed(c: char): int {
    if 128 <= c as int < 256 then c as int - 256 else c as int
  }

  /** A minus sign makes a range unless it is first, last or behind another range; prior is NUL then. */
  function ReadRanges(g: string, prior: char): (r: Ranges)
    ensures r.Closed? ==> |r.rest| < |g|
    decreases |g|
  {
    if g == "" then Unclosed
    else if g[0] == ']' then Closed([], g[1..])
    else if g[0] == '-' && |g| > 1 && g[1] != ']' && Signed(prior) > 0 then
      AddRange(Range(prior, g[1]), ReadRanges(g[2..], '\0'))
    else AddRange(Range(g[0], g[0]), ReadRanges(g[1..], g[0]))
  }

  predicate Inverted(g: string) {
    g != "" && g[0] == '^'
  }

  function BehindCaret(g: string): (r: string)
    ensures |r| <= |g|
  {
    if Inverted(g) then g[1..] else g
  }

  /** The ranges behind an opening bracket and a caret; a bracket that comes first is a member. */
  function ClassRanges(g: string): (r: Ranges)
    ensures r.Closed? ==> |r.rest| < |g|
  {
    if g != "" && g[0] == ']' then AddRange(Range(']', ']'), ReadRanges(g[1..], '\0')) else ReadRanges(g, '\0')
  }

  /** The tokens of a pattern; directly behind stars, '#' and white space stand for themselves. */
  function Lex(g: string, run: bool): seq<Token>
    decreases |g|
  {
    if g == "" then []
    else if g[0] == '*' then [Star] + Lex(g[1..], true)
    else if g[0] == '?' then [AnyOne] + Lex(g[1..], run)
    else if g[0] == '[' then LexClass(g[1..])
    else if !run && IsSpace(g[0]) then [Spaces] + Lex(SkipSpace(g[1..]), false)
    else if !run && g[0] == '#' then [Number] + Lex(g[1..], false)
    else [Literal(g[0])] + Lex(g[1..], false)
  }

  /** A class and what follows it; a class that is never closed matches nothing. */
  function LexClass(g: string): (ts: seq<Token>)
    ensures ts != [] && (ts[0].Class? || ts[0].Never?)
    decreases |g|
  {
    var r := ClassRanges(BehindCaret(g));
    if r.Unclosed? then [Never] else [Class(Inverted(g), r.ranges)] + Lex(r.rest, false)
  }

  // ----- what a pattern matches -----

  predicate AllSpace(s: string) {
    forall i :: 0 <= i < |s| ==> IsSpace(s[i])
  }

  predicate AllDigits(s: string) {
    s != "" && forall i :: 0 <= i < |s| ==> IsDigit(s[i])
  }

  predicate Within(c: char, r: Range) {
    Signed(r.lo) <= Signed(c) <= Signed(r.hi)
  }

  predicate InRanges(c: char, rs: seq<Range>) {
    exists i :: 0 <= i < |rs| && Within(c, rs[i])
  }

  /** Token t matches the piece p when the text r follows; a run of spaces or digits is taken whole. */
  predicate Covers(t: Token, p: string, r: string) {
    match t
    case Literal(c) => p == [c]
    case AnyOne => |p| == 1
    case Star => true
    case Class(invert, rs) => |p| == 1 && InRanges(p[0], rs) != invert
    case Never => false
    case Spaces => p != "" && AllSpace(p) && (r != "" ==> !IsSpace(r[0]))
    case Number => (AllDigits(p) || (p != "" && p[0] in "+-" && AllDigits(p[1..]))) && (r != "" ==> !IsDigit(r[0]))
  }

  ghost predicate Matches(ts: seq<Token>, s: string) {
    if ts == [] then AllSpace(s)
    else exists k :: 0 <= k <= |s| && Covers(ts[0], s[..k], s[k..]) && Matches(ts[1..], s[k..])
  }

  // ----- one token at a time -----

  /** The tokens that take exactly one character. */
  predicate TakesOne(t: Token) {
    t.Literal? || t.AnyOne? || t.Class?
  }

  lemma MatchesOne(t: Token, ts: seq<Token>, s: string)
    requires TakesOne(t)
    ensures Matches([t] + ts, s) <==> s != "" && Covers(t, [s[0]], s[1..]) && Matches(ts, s[1..])
  {
    var all := [t] + ts;
    assert all[1..] == ts;
    if Matches(all, s) {
      var k :| 0 <= k <= |s| && Covers(t, s[..k], s[k..]) && Matches(ts, s[k..]);
      assert k == 1 && s[..1] == [s[0]];
    }
    if s != "" && Covers(t, [s[0]], s[1..]) && Matches(ts, s[1..]) {
      assert s[..1] == [s[0]];
    }
  }

  lemma MatchesNever(ts: seq<Token>, s: string)
    ensures !Matches([Never] + ts, s)
  {
  }

  lemma MatchesStar(ts: seq<Token>, s: string)
    ensures Matches([Star] + ts, s) <==> Matches(ts, s) || (s != "" && Matches([Star] + ts, s[1..]))
  {
    var all := [Star] + ts;
    assert all[1..] == ts && s[0..] == s;
    if Matches(all, s) {
      var k :| 0 <= k <= |s| && Covers(Star, s[..k], s[k..]) && Matches(ts, s[k..]);
      if k > 0 {
        var u := s[1..];
        assert u[k - 1..] == s[k..] && Covers(Star, u[..k - 1], u[k - 1..]);
      }
    }
    if Matches(ts, s) {
      assert Covers(Star, s[..0], s[0..]);
    }
    if s != "" && Matches(all, s[1..]) {
      var u := s[1..];
      var k :| 0 <= k <= |u| && Covers(Star, u[..k], u[k..]) && Matches(ts, u[k..]);
      assert u[k..] == s[k + 1..] && Covers(Star, s[..k + 1], s[k + 1..]);
    }
  }

  /** Two stars in a row are one. */
  lemma {:induction false} StarStar(ts: seq<Token>, s: string)
    ensures Matches([Star] + ([Star] + ts), s) <==> Matches([Star] + ts, s)
    decreases |s|
  {
    hide Matches;
    MatchesStar([Star] + ts, s);
    MatchesStar(ts, s);
    if s != "" {
      StarStar(ts, s[1..]);
    }
  }

  /** A star and a question mark can change places. */
  lemma {:induction false} StarOne(ts: seq<Token>, s: string)
    ensures Matches([Star] + ([AnyOne] + ts), s) <==> s != "" && Matches([Star] + ts, s[1..])
    decreases |s|
  {
    hide Matches;
    MatchesStar([AnyOne] + ts, s);
    MatchesOne(AnyOne, ts, s);
    if s != "" {
      StarOne(ts, s[1..]);
      MatchesStar(ts, s[1..]);
    }
  }

  lemma {:induction false} StarLast(s: string)
    ensures Matches([Star], s)
    decreases |s|
  {
    assert [Star] == [Star] + [];
    MatchesStar([], s);
    if s != "" {
      StarLast(s[1..]);
    }
  }

  /** What is behind the longest run of spaces. */
  lemma {:induction false} SkipsRun(p: string, r: string)
    requires AllSpace(p) && (r != "" ==> !IsSpace(r[0]))
    ensures SkipSpace(p + r) == r
  {
    if p == "" {
      assert p + r == r;
    } else {
      assert (p + r)[1..] == p[1..] + r;
      SkipsRun(p[1..], r);
    }
  }

  lemma {:induction false} SkipSpaceIsRun(s: string)
    ensures var k := |s| - |SkipSpace(s)|;
      AllSpace(s[..k]) && s[k..] == SkipSpace(s)
  {
    if s != "" && IsSpace(s[0]) {
      SkipSpaceIsRun(s[1..]);
      var k := |s| - |SkipSpace(s)|;
      assert s[..k] == [s[0]] + s[1..][..k - 1];
    }
  }

  lemma MatchesSpaces(ts: seq<Token>, s: string)
    ensures Matches([Spaces] + ts, s) <==> s != "" && IsSpace(s[0]) && Matches(ts, SkipSpace(s))
  {
    hide SkipSpace;
    var all := [Spaces] + ts;
    assert all[1..] == ts;
    if Matches(all, s) {
      var k :| 0 <= k <= |s| && Covers(Spaces, s[..k], s[k..]) && Matches(ts, s[k..]);
      assert s == s[..k] + s[k..];
      SkipsRun(s[..k], s[k..]);
    }
    if s != "" && IsSpace(s[0]) && Matches(ts, SkipSpace(s)) {
      SkipSpaceIsRun(s);
      var k := |s| - |SkipSpace(s)|;
      assert Covers(Spaces, s[..k], s[k..]);
    }
  }

  lemma AllSpaceSkipped(s: string)
    ensures AllSpace(s) <==> SkipSpace(s) == ""
  {
    SkipSpaceIsRun(s);
    if AllSpace(s) {
      SkipsRun(s, "");
      assert s + "" == s;
    }
  }

  function SkipDigits(s: string): (r: string)
    ensures |r| <= |s| && (r != "" ==> !IsDigit(r[0]))
  {
    if s == "" || !IsDigit(s[0]) then s else SkipDigits(s[1..])
  }

  /** A sign counts only in front of a digit. */
  function BehindSign(s: string): string {
    if |s| > 1 && (s[0] == '-' || s[0] == '+') && IsDigit(s[1]) then s[1..] else s
  }

  lemma {:induction false} SkipsDigits(p: string, r: string)
    requires (forall i :: 0 <= i < |p| ==> IsDigit(p[i])) && (r != "" ==> !IsDigit(r[0]))
    ensures SkipDigits(p + r) == r
  {
    if p == "" {
      assert p + r == r;
    } else {
      assert (p + r)[1..] == p[1..] + r;
      SkipsDigits(p[1..], r);
    }
  }

  lemma {:induction false} SkipDigitsIsRun(s: string)
    ensures var k := |s| - |SkipDigits(s)|;
      (forall i :: 0 <= i < k ==> IsDigit(s[i])) && s[k..] == SkipDigits(s)
  {
    if s != "" && IsDigit(s[0]) {
      SkipDigitsIsRun(s[1..]);
      var k := |s| - |SkipDigits(s)|;
      assert s[..k] == [s[0]] + s[1..][..k - 1];
    }
  }

  lemma MatchesNumber(ts: seq<Token>, s: string)
    ensures Matches([Number] + ts, s) <==>
      var d := BehindSign(s); d != "" && IsDigit(d[0]) && Matches(ts, SkipDigits(d))
  {
    hide SkipDigits, Matches;
    var all := [Number] + ts;
    assert all[1..] == ts;
    MatchesSome(Number, ts, s);
    if Matches(all, s) {
      var k :| 0 <= k <= |s| && Covers(Number, s[..k], s[k..]) && Matches(ts, s[k..]);
      NumberTaken(s[..k], s[k..]);
      assert s == s[..k] + s[k..];
    }
    var d := BehindSign(s);
    if d != "" && IsDigit(d[0]) && Matches(ts, SkipDigits(d)) {
      SkipDigitsIsRun(d);
      var k := |s| - |SkipDigits(d)|;
      NumberAhead(s, k);
    }
  }

  lemma MatchesSome(t: Token, ts: seq<Token>, s: string)
    ensures Matches([t] + ts, s) <==> exists k :: 0 <= k <= |s| && Covers(t, s[..k], s[k..]) && Matches(ts, s[k..])
  {
    assert ([t] + ts)[1..] == ts;
  }

  lemma NumberTaken(p: string, r: string)
    requires Covers(Number, p, r)
    ensures var d := BehindSign(p + r); d != "" && IsDigit(d[0]) && SkipDigits(d) == r
  {
    hide SkipDigits;
    if AllDigits(p) {
      assert (p + r)[0] == p[0];
      SkipsDigits(p, r);
    } else {
      assert (p + r)[0] == p[0] && (p + r)[1] == p[1..][0];
      assert (p + r)[1..] == p[1..] + r;
      SkipsDigits(p[1..], r);
    }
  }

  lemma NumberAhead(s: string, k: nat)
    requires var d := BehindSign(s); d != "" && IsDigit(d[0]) && k == |s| - |SkipDigits(d)|
    ensures Covers(Number, s[..k], s[k..]) && s[k..] == SkipDigits(BehindSign(s))
  {
    var d := BehindSign(s);
    SkipDigitsIsRun(d);
    assert |SkipDigits(d)| < |d|;
    hide SkipDigits;
    if d == s {
      assert AllDigits(s[..k]);
    } else {
      assert AllDigits(s[..k][1..]);
    }
  }

  // ----- the matcher -----

  /** The class behind a bracket of a pattern; c is the character that has to be in it. */
  method MatchClass(glob: string, c: char) returns (closed: bool, ok: bool, rest: string)
    ensures var r := ClassRanges(BehindCaret(glob));
      closed == r.Closed? && (closed ==> ok == (InRanges(c, r.ranges) != Inverted(glob)) && rest == r.rest)
  {
    var g := glob;
    var priorC := '\0';
    var seen := false;
    var invert := false;
    if g != "" && g[0] == '^' {
      invert := true;
      g := g[1..];
    }
    ghost var first := g;
    if g != "" && g[0] == ']' {
      if c == ']' {
        seen := true;
      }
      g := g[1..];
    }
    assert Scans(first, g, priorC, seen, c) by { ScanFirst(first, c); }
    while g != "" && g[0] != ']'
      invariant Scans(first, g, priorC, seen, c)
      decreases |g|
    {
      ScanNext(first, g, priorC, seen, c);
      if g[0] == '-' && |g| > 1 && g[1] != ']' && Signed(priorC) > 0 {
        g := g[1..];
        if Signed(c) >= Signed(priorC) && Signed(c) <= Signed(g[0]) {
          seen := true;
        }
        priorC := '\0';
      } else {
        if c == g[0] {
          seen := true;
        }
        priorC := g[0];
      }
      g := g[1..];
    }
    closed := g != "";
    ok := seen != invert;
    rest := if closed then g[1..] else "";
  }

  /** The ranges of a class that starts with first, when those in front of g have been tried. */
  ghost predicate Scans(first: string, g: string, prior: char, seen: bool, c: char) {
    var all, ahead := ClassRanges(first), ReadRanges(g, prior);
    all.Closed? == ahead.Closed? &&
    (all.Closed? ==> all.rest == ahead.rest && (InRanges(c, all.ranges) <==> seen || InRanges(c, ahead.ranges)))
  }

  lemma AddedRange(r: Range, rs: seq<Range>, c: char)
    ensures InRanges(c, [r] + rs) <==> Within(c, r) || InRanges(c, rs)
  {
    var all := [r] + rs;
    if InRanges(c, rs) {
      var i :| 0 <= i < |rs| && Within(c, rs[i]);
      assert Within(c, all[i + 1]);
    }
    if Within(c, r) {
      assert Within(c, all[0]);
    }
  }

  lemma ScanFirst(first: string, c: char)
    ensures if first != "" && first[0] == ']' then Scans(first, first[1..], '\0', c == ']', c)
            else Scans(first, first, '\0', false, c)
  {
    hide ReadRanges;
    if first != "" && first[0] == ']' && ReadRanges(first[1..], '\0').Closed? {
      AddedRange(Range(']', ']'), ReadRanges(first[1..], '\0').ranges, c);
    }
  }

  lemma ScanNext(first: string, g: string, prior: char, seen: bool, c: char)
    requires Scans(first, g, prior, seen, c) && g != "" && g[0] != ']'
    ensures if g[0] == '-' && |g| > 1 && g[1] != ']' && Signed(prior) > 0
            then Scans(first, g[2..], '\0', seen || Within(c, Range(prior, g[1])), c)
            else Scans(first, g[1..], g[0], seen || c == g[0], c)
  {
    hide ClassRanges, InRanges;
    if g[0] == '-' && |g| > 1 && g[1] != ']' && Signed(prior) > 0 {
      var ahead := ReadRanges(g[2..], '\0');
      if ahead.Closed? {
        AddedRange(Range(prior, g[1]), ahead.ranges, c);
      }
    } else {
      var ahead := ReadRanges(g[1..], g[0]);
      if ahead.Closed? {
        AddedRange(Range(g[0], g[0]), ahead.ranges, c);
      }
    }
  }

  /** The stars and question marks behind a star; each question mark takes a character at once. */
  method SkipStars(glob: string, z: string) returns (ok: bool, g: string, y: string)
    ensures |g| <= |glob| && (g != "" ==> g[0] != '*' && g[0] != '?')
    ensures Matches([Star] + Lex(glob, true), z) <==> ok && Matches([Star] + Lex(g, true), y)
  {
    hide Matches;
    g, y := glob, z;
    while g != "" && (g[0] == '*' || g[0] == '?')
      invariant |g| <= |glob|
      invariant Matches([Star] + Lex(glob, true), z) <==> Matches([Star] + Lex(g, true), y)
      decreases |g|
    {
      if g[0] == '?' {
        StarOne(Lex(g[1..], true), y);
        if y == "" {
          return false, "", "";
        }
        y := y[1..];
      } else {
        StarStar(Lex(g[1..], true), y);
      }
      g := g[1..];
    }
    ok := true;
  }

  /** Tries the class that glob starts with, and what follows it, at every character of z. */
  method AfterStarClass(glob: string, z: string) returns (r: bool)
    requires glob != "" && glob[0] == '['
    ensures r == Matches([Star] + Lex(glob, false), z)
    decreases |glob|, 2
  {
    hide Matches, Lex;
    var y := z;
    ClassLexed(glob);
    ghost var ts := Lex(glob, false);
    while true
      invariant Matches([Star] + ts, z) <==> Matches([Star] + ts, y)
      decreases |y|
    {
      MatchesStar(ts, y);
      if y == "" {
        ClassNeedsOne(ts);
        break;
      }
      var found := TestcaseGlob(glob, y);
      if found {
        break;
      }
      y := y[1..];
    }
    r := y != "";
  }

  lemma ClassLexed(glob: string)
    requires glob != "" && glob[0] == '['
    ensures forall run :: Lex(glob, run) == LexClass(glob[1..])
    ensures var ts := Lex(glob, false); ts != [] && (ts[0].Class? || ts[0].Never?)
  {
  }

  lemma ClassNeedsOne(ts: seq<Token>)
    requires ts != [] && (ts[0].Class? || ts[0].Never?)
    ensures !Matches(ts, "")
  {
  }

  /** Finds every c in z and tries the rest of the pattern behind it. */
  method AfterStarLiteral(c: char, glob: string, z: string) returns (r: bool)
    ensures r == Matches([Star] + ([Literal(c)] + Lex(glob, false)), z)
    decreases |glob|, 2
  {
    hide Matches, Lex;
    var y := z;
    ghost var ts := Lex(glob, false);
    while y != ""
      invariant Matches([Star] + ([Literal(c)] + ts), z) <==> Matches([Star] + ([Literal(c)] + ts), y)
      decreases |y|
    {
      while y[0] != c
        invariant y != ""
        invariant Matches([Star] + ([Literal(c)] + ts), z) <==> Matches([Star] + ([Literal(c)] + ts), y)
        decreases |y|
      {
        StarLiteral(c, ts, y);
        y := y[1..];
        if y == "" {
          StarLiteral(c, ts, y);
          return false;
        }
      }
      StarLiteral(c, ts, y);
      var found := TestcaseGlob(glob, y[1..]);
      if found {
        return true;
      }
      y := y[1..];
    }
    StarLiteral(c, ts, y);
    r := false;
  }

  lemma StarLiteral(c: char, ts: seq<Token>, s: string)
    ensures Matches([Star] + ([Literal(c)] + ts), s) <==>
      s != "" && ((s[0] == c && Matches(ts, s[1..])) || Matches([Star] + ([Literal(c)] + ts), s[1..]))
  {
    hide Matches;
    MatchesStar([Literal(c)] + ts, s);
    MatchesOne(Literal(c), ts, s);
  }

  /** What testcase_glob does behind a star. */
  method AfterStar(glob: string, z: string) returns (r: bool)
    ensures r == Matches([Star] + Lex(glob, true), z)
    decreases |glob|, 3
  {
    hide Matches, Lex;
    var ok, g, y := SkipStars(glob, z);
    if !ok {
      r := false;
    } else if g == "" {
      EmptyLexed();
      StarLast(y);
      r := true;
    } else if g[0] == '[' {
      ClassLexed(g);
      r := AfterStarClass(g, y);
    } else {
      LiteralLexed(g);
      r := AfterStarLiteral(g[0], g[1..], y);
    }
  }

  lemma EmptyLexed()
    ensures forall run :: [Star] + Lex("", run) == [Star] && Lex("", run) == []
  {
  }

  lemma LiteralLexed(g: string)
    requires g != "" && g[0] !in "*?["
    ensures Lex(g, true) == [Literal(g[0])] + Lex(g[1..], false)
  {
  }

  method SkipSpaceRun(s: string) returns (r: string)
    ensures r == SkipSpace(s)
  {
    r := s;
    while r != "" && IsSpace(r[0])
      invariant SkipSpace(r) == SkipSpace(s)
      decreases |r|
    {
      r := r[1..];
    }
  }

  method SkipDigitRun(s: string) returns (r: string)
    ensures r == SkipDigits(s)
  {
    r := s;
    while r != "" && IsDigit(r[0])
      invariant SkipDigits(r) == SkipDigits(s)
      decreases |r|
    {
      r := r[1..];
    }
  }

  /** testcase_glob. */
  method TestcaseGlob(glob: string, z: string) returns (r: bool)
    ensures r == Matches(Lex(glob, false), z)
    decreases |glob|, 1
  {
    hide Matches, Lex, LexClass, ClassRanges;
    var g, y := glob, z;
    while g != ""
      invariant |g| <= |glob|
      invariant Matches(Lex(glob, false), z) <==> Matches(Lex(g, false), y)
      decreases |g|
    {
      LexNext(g);
      ghost var ts := Lex(g[1..], false);
      var c := g[0];
      if IsSpace(c) {
        g := SkipSpaceRun(g[1..]);
        MatchesSpaces(Lex(g, false), y);
        if y == "" || !IsSpace(y[0]) {
          return false;
        }
        y := SkipSpaceRun(y);
      } else if c == '*' {
        r := AfterStar(g[1..], y);
        return;
      } else if c == '?' {
        MatchesOne(AnyOne, ts, y);
        if y == "" {
          return false;
        }
        g, y := g[1..], y[1..];
      } else if c == '[' {
        if y == "" {
          ClassNeedsOne(Lex(g, false));
          return false;
        }
        var closed, ok, rest := MatchClass(g[1..], y[0]);
        ClassMatches(g[1..], y);
        if !closed || !ok {
          return false;
        }
        g, y := rest, y[1..];
      } else if c == '#' {
        MatchesNumber(ts, y);
        if |y| > 1 && (y[0] == '-' || y[0] == '+') && IsDigit(y[1]) {
          y := y[1..];
        }
        if y == "" || !IsDigit(y[0]) {
          return false;
        }
        y := SkipDigitRun(y[1..]);
        g := g[1..];
      } else {
        MatchesOne(Literal(c), ts, y);
        if y == "" || c != y[0] {
          return false;
        }
        g, y := g[1..], y[1..];
      }
    }
    EmptyLexed();
    NothingLeft(y);
    y := SkipSpaceRun(y);
    r := y == "";
  }

  /** The tokens of a pattern, by its first character. */
  lemma LexNext(g: string)
    requires g != ""
    ensures var c, ts := g[0], Lex(g, false);
      if IsSpace(c) then ts == [Spaces] + Lex(SkipSpace(g[1..]), false)
      else if c == '*' then ts == [Star] + Lex(g[1..], true)
      else if c == '?' then ts == [AnyOne] + Lex(g[1..], false)
      else if c == '[' then ts == LexClass(g[1..]) && ts != [] && (ts[0].Class? || ts[0].Never?)
      else if c == '#' then ts == [Number] + Lex(g[1..], false)
      else ts == [Literal(c)] + Lex(g[1..], false)
  {
    hide LexClass;
  }

  lemma ClassMatches(g: string, s: string)
    requires s != ""
    ensures var r := ClassRanges(BehindCaret(g));
      Matches(LexClass(g), s) <==>
        r.Closed? && InRanges(s[0], r.ranges) != Inverted(g) && Matches(Lex(r.rest, false), s[1..])
  {
    hide Matches, Lex, ClassRanges;
    var r := ClassRanges(BehindCaret(g));
    if r.Unclosed? {
      assert [Never] == [Never] + [];
      MatchesNever([], s);
    } else {
      MatchesOne(Class(Inverted(g), r.ranges), Lex(r.rest, false), s);
    }
  }

  lemma NothingLeft(s: string)
    ensures Matches([], s) <==> SkipSpace(s) == ""
  {
    AllSpaceSkipped(s);
  }
}
