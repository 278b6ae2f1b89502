/**
 What patterns mean, told from their characters: a class by the characters and spans written in it,
 and each of the special characters by what it matches.
 */
module GlobPatterns {
  import opened CText
  import opened Decimals
  import opened Glob

  // ----- classes -----

  /** An entry of a class: a character, or the characters from lo to hi. */
  datatype Entry = One(c: char) | Span(lo: char, hi: char)

  predicate Ordinary(c: char) {
    c != ']' && c != '-' && c != '^' && '\0' < c < 128 as char
  }

  predicate EntryOk(e: Entry) {
    match e
    case One(c) => Ordinary(c)
    case Span(lo, hi) => Ordinary(lo) && Ordinary(hi)
  }

  /** Both ends are in a span; if they are the wrong way round, only the first is. */
  predicate Holds(e: Entry, d: char) {
    match e
    case One(c) => d == c
    case Span(lo, hi) => d == lo || lo <= d <= hi
  }

  function EntryText(e: Entry): string {
    match e
    case One(c) => [c]
    case Span(lo, hi) => [lo, '-', hi]
  }

  function EntriesText(es: seq<Entry>): string {
    if es == [] then "" else EntryText(es[0]) + EntriesText(es[1..])
  }

  /** A class: a caret to invert it, a bracket as its first member, entries, a minus sign as its last. */
  function ClassText(invert: bool, bracket: bool, es: seq<Entry>, minus: bool): string {
    "[" + ((if invert then "^" else "") + ((if bracket then "]" else "") + (EntriesText(es) + ((if minus then "-" else "") + "]"))))
  }

  predicate InClass(bracket: bool, es: seq<Entry>, minus: bool, d: char) {
    (bracket && d == ']') || (minus && d == '-') || exists i :: 0 <= i < |es| && Holds(es[i], d)
  }

  function EntryRanges(e: Entry): seq<Range> {
    match e
    case One(c) => [Range(c, c)]
    case Span(lo, hi) => [Range(lo, lo), Range(lo, hi)]
  }

  function EntriesRanges(es: seq<Entry>, minus: bool): seq<Range> {
    if es == [] then (if minus then [Range('-', '-')] else []) else EntryRanges(es[0]) + EntriesRanges(es[1..], minus)
  }

  function ClassEnd(minus: bool, t: string): string {
    (if minus then "-" else "") + ("]" + t)
  }

  lemma {:induction false} EntriesRead(es: seq<Entry>, minus: bool, t: string, prior: char)
    requires forall i :: 0 <= i < |es| ==> EntryOk(es[i])
    ensures ReadRanges(EntriesText(es) + ClassEnd(minus, t), prior) == Closed(EntriesRanges(es, minus), t)
    decreases |es|
  {
    var g := EntriesText(es) + ClassEnd(minus, t);
    if es == [] {
      EndRead(minus, t, prior);
      assert g == ClassEnd(minus, t);
    } else {
      var r := EntriesText(es[1..]) + ClassEnd(minus, t);
      assert g == EntryText(es[0]) + r;
      EntriesRead(es[1..], minus, t, if es[0].One? then es[0].c else '\0');
      EntryRead(es[0], r, prior);
    }
  }

  lemma EndRead(minus: bool, t: string, prior: char)
    ensures ReadRanges(ClassEnd(minus, t), prior) == Closed(EntriesRanges([], minus), t)
  {
    var g := ClassEnd(minus, t);
    if minus {
      assert g[1..] == "]" + t && ("]" + t)[1..] == t;
      assert [Range('-', '-')] + [] == [Range('-', '-')];
    } else {
      assert g == "]" + t && g[1..] == t;
    }
  }

  lemma EntryRead(e: Entry, r: string, prior: char)
    requires EntryOk(e)
    ensures ReadRanges(EntryText(e) + r, prior) ==
      var rs := ReadRanges(r, if e.One? then e.c else '\0');
      if rs.Closed? then Closed(EntryRanges(e) + rs.ranges, rs.rest) else rs
  {
    var g := EntryText(e) + r;
    if e.One? {
      assert g[1..] == r;
    } else {
      var g1 := g[1..];
      assert g1 == ['-', e.hi] + r && g1[2..] == r;
      var rs := ReadRanges(r, '\0');
      assert ReadRanges(g1, e.lo) == AddRange(Range(e.lo, e.hi), rs);
      if rs.Closed? {
        assert [Range(e.lo, e.lo)] + ([Range(e.lo, e.hi)] + rs.ranges) == EntryRanges(e) + rs.ranges;
      }
    }
  }

  lemma EntryHolds(e: Entry, d: char)
    requires EntryOk(e)
    ensures InRanges(d, EntryRanges(e)) <==> Holds(e, d)
  {
    var rs := EntryRanges(e);
    if e.One? {
      assert Within(d, rs[0]) <==> d == e.c;
    } else {
      assert Within(d, rs[0]) <==> d == e.lo;
      assert Within(d, rs[1]) <==> e.lo <= d <= e.hi;
    }
  }

  lemma InRangesBoth(d: char, a: seq<Range>, b: seq<Range>)
    ensures InRanges(d, a + b) <==> InRanges(d, a) || InRanges(d, b)
  {
    if InRanges(d, a) {
      var i :| 0 <= i < |a| && Within(d, a[i]);
      assert (a + b)[i] == a[i];
    }
    if InRanges(d, b) {
      var i :| 0 <= i < |b| && Within(d, b[i]);
      assert (a + b)[|a| + i] == b[i];
    }
  }

  lemma {:induction false} EntriesHold(es: seq<Entry>, minus: bool, d: char)
    requires forall i :: 0 <= i < |es| ==> EntryOk(es[i])
    ensures InRanges(d, EntriesRanges(es, minus)) <==> InClass(false, es, minus, d)
    decreases |es|
  {
    hide Holds, EntryRanges;
    if es == [] {
      assert minus ==> (InRanges(d, [Range('-', '-')]) <==> Within(d, [Range('-', '-')][0]));
    } else {
      EntriesHold(es[1..], minus, d);
      InRangesBoth(d, EntryRanges(es[0]), EntriesRanges(es[1..], minus));
      EntryHolds(es[0], d);
      assert forall i :: 0 <= i < |es| ==> es[i] == if i == 0 then es[0] else es[1..][i - 1];
      assert forall i :: 0 <= i < |es| - 1 ==> es[1..][i] == es[i + 1];
    }
  }

  lemma ClassRead(invert: bool, bracket: bool, es: seq<Entry>, minus: bool, t: string)
    requires (forall i :: 0 <= i < |es| ==> EntryOk(es[i])) && (bracket || es != [] || minus)
    ensures var g := (if invert then "^" else "") + ((if bracket then "]" else "") + (EntriesText(es) + ClassEnd(minus, t)));
      Inverted(g) == invert && ClassRanges(BehindCaret(g)) ==
        Closed((if bracket then [Range(']', ']')] else []) + EntriesRanges(es, minus), t)
  {
    hide ReadRanges;
    var body := EntriesText(es) + ClassEnd(minus, t);
    var h := (if bracket then "]" else "") + body;
    var g := (if invert then "^" else "") + h;
    EntriesRead(es, minus, t, '\0');
    FirstOfBody(es, minus, t);
    assert invert ==> g[1..] == h;
    assert bracket ==> h[1..] == body;
    assert !invert ==> g == h;
    assert !bracket ==> h == body && [] + EntriesRanges(es, minus) == EntriesRanges(es, minus);
  }

  lemma FirstOfBody(es: seq<Entry>, minus: bool, t: string)
    requires (forall i :: 0 <= i < |es| ==> EntryOk(es[i]))
    ensures var body := EntriesText(es) + ClassEnd(minus, t);
      body != "" && body[0] != '^' && (es != [] || minus ==> body[0] != ']')
  {
    if es != [] {
      assert (EntriesText(es) + ClassEnd(minus, t))[0] == EntryText(es[0])[0];
    }
  }

  /** A class takes one character, which has to be written in it, or must not be if a caret comes first. */
  lemma ClassMeaning(invert: bool, bracket: bool, es: seq<Entry>, minus: bool, p: string, s: string)
    requires (forall i :: 0 <= i < |es| ==> EntryOk(es[i])) && (bracket || es != [] || minus)
    ensures Matches(Lex(ClassText(invert, bracket, es, minus) + p, false), s) <==>
      s != "" && InClass(bracket, es, minus, s[0]) != invert && Matches(Lex(p, false), s[1..])
  {
    hide Matches, ClassRanges, EntriesRanges, InRanges, Inverted, BehindCaret;
    var body := EntriesText(es) + ((if minus then "-" else "") + "]");
    var g := (if invert then "^" else "") + ((if bracket then "]" else "") + (EntriesText(es) + ClassEnd(minus, p)));
    var all := ClassText(invert, bracket, es, minus) + p;
    assert all[0] == '[' && all[1..] == g by { ClassTail(invert, bracket, es, minus, p); }
    ClassRead(invert, bracket, es, minus, p);
    LexNext(all);
    if s == "" {
      ClassNeedsOne(LexClass(g));
    } else {
      ClassMatches(g, s);
      InRangesBoth(s[0], if bracket then [Range(']', ']')] else [], EntriesRanges(es, minus));
      EntriesHold(es, minus, s[0]);
      OneBracket(bracket, s[0]);
    }
  }

  lemma OneBracket(bracket: bool, d: char)
    ensures InRanges(d, if bracket then [Range(']', ']')] else []) <==> bracket && d == ']'
  {
    if bracket {
      assert Within(d, [Range(']', ']')][0]) <==> d == ']';
    }
  }

  lemma ClassTail(invert: bool, bracket: bool, es: seq<Entry>, minus: bool, p: string)
    ensures ClassText(invert, bracket, es, minus) + p ==
      "[" + ((if invert then "^" else "") + ((if bracket then "]" else "") + (EntriesText(es) + ClassEnd(minus, p))))
  {
  }

  /** A class with one entry. */
  lemma OneEntry(invert: bool, e: Entry, d: char)
    requires EntryOk(e)
    ensures Matches(Lex((if invert then "[^" else "[") + (EntryText(e) + "]"), false), [d]) <==> Holds(e, d) != invert
  {
    hide Matches, Holds, EntryText, EntryOk;
    var t := EntryText(e);
    assert [e][1..] == [] && EntriesText([e]) == t + EntriesText([]) == t;
    assert ClassText(invert, false, [e], false) + "" == (if invert then "[^" else "[") + (t + "]") by { OneText(invert, t); }
    ClassMeaning(invert, false, [e], false, "", [d]);
    assert InClass(false, [e], false, d) <==> Holds(e, d) by { assert [e][0] == e; }
    NothingLeft("");
    EmptyLexed();
    assert [d][1..] == "";
  }

  lemma OneText(invert: bool, t: string)
    ensures "[" + ((if invert then "^" else "") + ("" + (t + ("" + "]")))) + "" == (if invert then "[^" else "[") + (t + "]")
  {
    assert "" + (t + ("" + "]")) == t + "]";
    assert "[" + ("^" + (t + "]")) == "[^" + (t + "]") && "" + (t + "]") == t + "]";
  }

  /** A character in brackets matches itself, and behind a caret everything else. */
  lemma OneCharacter(c: char, d: char)
    requires Ordinary(c)
    ensures Matches(Lex("[" + ([c] + "]"), false), [d]) <==> d == c
    ensures Matches(Lex("[^" + ([c] + "]"), false), [d]) <==> d != c
  {
    hide Matches;
    OneEntry(false, One(c), d);
    OneEntry(true, One(c), d);
  }

  /** A span in brackets matches what is between its ends, ends included. */
  lemma OneSpan(a: char, b: char, d: char)
    requires Ordinary(a) && Ordinary(b) && a <= b
    ensures Matches(Lex("[" + ([a, '-', b] + "]"), false), [d]) <==> a <= d <= b
    ensures Matches(Lex("[^" + ([a, '-', b] + "]"), false), [d]) <==> !(a <= d <= b)
  {
    hide Matches;
    OneEntry(false, Span(a, b), d);
    OneEntry(true, Span(a, b), d);
  }

  // ----- the other characters -----

  /** A pattern of characters without a meaning of their own. */
  predicate Plain(p: string) {
    forall i :: 0 <= i < |p| ==> p[i] !in "*?[#" && !IsSpace(p[i])
  }

  lemma {:induction false} PlainMeaning(p: string, s: string)
    requires Plain(p)
    ensures Matches(Lex(p, false), s) <==> p <= s && AllSpace(s[|p|..])
  {
    hide Matches;
    if p == "" {
      EmptyLexed();
      NothingLeft(s);
      AllSpaceSkipped(s);
      assert s[0..] == s;
    } else {
      assert p[0] !in "*?[#" && !IsSpace(p[0]);
      LexNext(p);
      MatchesOne(Literal(p[0]), Lex(p[1..], false), s);
      if s != "" {
        PlainMeaning(p[1..], s[1..]);
        assert p <= s <==> s[0] == p[0] && p[1..] <= s[1..];
        assert |p| <= |s| ==> s[1..][|p| - 1..] == s[|p|..];
      }
    }
  }

  /** A question mark takes any one character. */
  lemma QuestionMark(p: string, s: string)
    ensures Matches(Lex("?" + p, false), s) <==> s != "" && Matches(Lex(p, false), s[1..])
  {
    hide Matches;
    LexNext("?" + p);
    assert ("?" + p)[1..] == p;
    MatchesOne(AnyOne, Lex(p, false), s);
  }

  /** The text p at index k, with only white space behind it. */
  predicate EndsWith(s: string, k: nat, p: string) {
    k <= |s| && p <= s[k..] && AllSpace(s[k..][|p|..])
  }

  /** A star takes any text. */
  lemma StarThenPlain(p: string, s: string)
    requires Plain(p)
    ensures Matches(Lex("*" + p, false), s) <==> p == "" || exists k :: EndsWith(s, k, p)
  {
    hide Matches, Plain;
    LexNext("*" + p);
    assert ("*" + p)[1..] == p;
    if p == "" {
      EmptyLexed();
      assert [Star] + [] == [Star];
      StarLast(s);
    } else {
      RunMakesNoDifference(p);
      StarSplits(Lex(p, false), s);
      forall k: nat | k <= |s|
        ensures Matches(Lex(p, false), s[k..]) <==> EndsWith(s, k, p)
      {
        PlainMeaning(p, s[k..]);
      }
    }
  }

  lemma StarSplits(ts: seq<Token>, s: string)
    ensures Matches([Star] + ts, s) <==> exists k: nat :: k <= |s| && Matches(ts, s[k..])
  {
    hide Matches;
    MatchesSome(Star, ts, s);
    forall k: nat | k <= |s|
      ensures Covers(Star, s[..k], s[k..])
    {
    }
  }

  lemma RunMakesNoDifference(p: string)
    requires Plain(p) && p != ""
    ensures Lex(p, true) == Lex(p, false)
  {
    assert p[0] !in "*?[#" && !IsSpace(p[0]);
  }

  /** White space takes a whole run of white space, of any kind and length. */
  lemma SpaceThen(c: char, p: string, s: string)
    requires IsSpace(c) && (p != "" ==> !IsSpace(p[0]))
    ensures Matches(Lex([c] + p, false), s) <==> s != "" && IsSpace(s[0]) && Matches(Lex(p, false), SkipSpace(s))
  {
    hide Matches;
    LexNext([c] + p);
    assert ([c] + p)[1..] == p && SkipSpace(p) == p;
    MatchesSpaces(Lex(p, false), s);
  }

  /** A number sign takes a sign in front of a digit, if there is one, and all the digits. */
  lemma NumberThen(p: string, s: string)
    ensures Matches(Lex("#" + p, false), s) <==>
      var d := BehindSign(s); d != "" && IsDigit(d[0]) && Matches(Lex(p, false), SkipDigits(d))
  {
    hide Matches;
    LexNext("#" + p);
    assert ("#" + p)[1..] == p;
    MatchesNumber(Lex(p, false), s);
  }

  /** So it takes the number d, with or without a sign, when no digit follows, and no text without a number. */
  lemma NumberMeaning(sign: string, d: string, p: string, t: string)
    requires (sign == "" || sign == "+" || sign == "-") && (d != "" ==> AllDigits(d)) && (t != "" ==> !IsDigit(t[0]))
    requires d == "" && t != "" ==> t[0] != '+' && t[0] != '-'
    ensures Matches(Lex("#" + p, false), sign + (d + t)) <==> d != "" && Matches(Lex(p, false), t)
  {
    hide Matches, SkipDigits, AllDigits, BehindSign;
    NumberThen(p, sign + (d + t));
    assert sign + d + t == sign + (d + t);
    if d == "" {
      NoNumber(sign, t);
      assert d + t == t;
    } else {
      SignedNumber(sign, d, t);
      NumberTaken(sign + d, t);
    }
  }

  lemma SignedNumber(sign: string, d: string, t: string)
    requires (sign == "" || sign == "+" || sign == "-") && AllDigits(d) && (t != "" ==> !IsDigit(t[0]))
    ensures Covers(Number, sign + d, t)
  {
    hide AllDigits;
    if sign == "" {
      assert sign + d == d;
    } else {
      assert (sign + d)[1..] == d && (sign + d)[0] in "+-";
    }
  }

  lemma NoNumber(sign: string, t: string)
    requires (sign == "" || sign == "+" || sign == "-") && (t != "" ==> !IsDigit(t[0]) && t[0] != '+' && t[0] != '-')
    ensures var d := BehindSign(sign + t); d == "" || !IsDigit(d[0])
  {
  }

  /** Behind a star, a number sign or a white-space character stands for itself. */
  lemma StarThenItself(c: char, p: string, s: string)
    requires c == '#' || IsSpace(c)
    ensures Matches(Lex("*" + ([c] + p), false), s) <==> exists k: nat :: k < |s| && s[k] == c && Matches(Lex(p, false), s[k + 1..])
  {
    hide Matches, Lex;
    LexAfterStar(c, p);
    var ts := [Literal(c)] + Lex(p, false);
    StarSplits(ts, s);
    if k: nat :| k <= |s| && Matches(ts, s[k..]) {
      ItselfAt(c, Lex(p, false), s, k);
      assert k < |s| && s[k] == c && Matches(Lex(p, false), s[k + 1..]);
    }
    if k: nat :| k < |s| && s[k] == c && Matches(Lex(p, false), s[k + 1..]) {
      ItselfAt(c, Lex(p, false), s, k);
      assert Matches(ts, s[k..]);
    }
  }

  lemma ItselfAt(c: char, ts: seq<Token>, s: string, k: nat)
    requires k <= |s|
    ensures Matches([Literal(c)] + ts, s[k..]) <==> k < |s| && s[k] == c && Matches(ts, s[k + 1..])
  {
    hide Matches;
    MatchesOne(Literal(c), ts, s[k..]);
    if k < |s| {
      assert s[k..][1..] == s[k + 1..];
    }
  }

  lemma LexAfterStar(c: char, p: string)
    requires c == '#' || IsSpace(c)
    ensures Lex("*" + ([c] + p), false) == [Star] + ([Literal(c)] + Lex(p, false))
  {
    var g := [c] + p;
    assert ("*" + g)[1..] == g && g[1..] == p;
  }

  // ----- classes that are not closed -----

  lemma {:induction false} UnclosedRanges(g: string, prior: char)
    ensures ReadRanges(g, prior).Unclosed? <==> ']' !in g
    decreases |g|
  {
    if g != "" && g[0] != ']' {
      if g[0] == '-' && |g| > 1 && g[1] != ']' && Signed(prior) > 0 {
        UnclosedRanges(g[2..], '\0');
        assert g == [g[0], g[1]] + g[2..];
      } else {
        UnclosedRanges(g[1..], g[0]);
        assert g == [g[0]] + g[1..];
      }
    }
  }

  /** A class without a closing bracket matches nothing; a bracket that comes first does not close it. */
  lemma UnclosedClass(invert: bool, bracket: bool, g: string, s: string)
    requires ']' !in g
    ensures !Matches(Lex("[" + ((if invert then "^" else "") + ((if bracket then "]" else "") + g)), false), s)
  {
    hide ReadRanges;
    var h := (if bracket then "]" else "") + g;
    var all := (if invert then "^" else "") + h;
    assert invert ==> all[1..] == h;
    assert bracket ==> h[1..] == g;
    assert !invert ==> all == h;
    assert !bracket ==> h == g;
    UnclosedStart(bracket, g, h);
    UnclosedStart(bracket, g, BehindCaret(all));
    assert ("[" + all)[1..] == all;
    LexNext("[" + all);
    NeverMatches(s);
  }

  lemma UnclosedStart(bracket: bool, g: string, h: string)
    requires ']' !in g && (if bracket && h != g then h == "]" + g else h == g || (g != "" && h == g[1..]))
    ensures ClassRanges(h).Unclosed?
  {
    hide ReadRanges;
    if bracket && h != g {
      assert h[1..] == g;
      UnclosedRanges(g, '\0');
    } else {
      UnclosedRanges(h, '\0');
    }
  }

  lemma NeverMatches(s: string)
    ensures !Matches([Never], s)
  {
  }
}
