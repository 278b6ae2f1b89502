/**
 Schema text in MODE_Pretty: one pass that squeezes white space and, for long texts, one that breaks
 the text into lines, both in place on the same buffer.
 */
module Pretty {
  import opened Options
  import opened CStrings
  import opened CText

  /** The characters of s that are not white space. */
  function NonSpace(s: string): string {
    if s == "" then "" else (if IsSpace(s[0]) then "" else [s[0]]) + NonSpace(s[1..])
  }

  lemma {:induction false} NonSpaceConcat(a: string, b: string)
    ensures NonSpace(a + b) == NonSpace(a) + NonSpace(b)
  {
    if a == "" {
      assert a + b == b;
    } else {
      assert (a + b)[1..] == a[1..] + b;
      NonSpaceConcat(a[1..], b);
    }
  }

  lemma NonSpaceOne(a: string, c: char)
    ensures NonSpace(a + [c]) == NonSpace(a) + if IsSpace(c) then "" else [c]
  {
    NonSpaceConcat(a, [c]);
    assert [c][1..] == "";
  }

  lemma {:induction false} NonSpaceSkip(s: string)
    ensures NonSpace(SkipSpace(s)) == NonSpace(s)
  {
    if s != "" && IsSpace(s[0]) {
      NonSpaceSkip(s[1..]);
    }
  }

  // ----- the first pass -----

  function Last(s: string): char
    requires s != ""
  {
    s[|s| - 1]
  }

  predicate IsParen(c: char) {
    c == '(' || c == ')'
  }

  /** The text kept so far and one more character. */
  function Kept(a: string, c: char): string {
    if IsSpace(c) then (if a == "" || IsSpace(Last(a)) || Last(a) == '(' then a else a + [c])
    else if IsParen(c) && a != "" && IsSpace(Last(a)) then a[..|a| - 1] + [c]
    else a + [c]
  }

  function KeptAll(s: string): (r: string)
    ensures |r| <= |s|
  {
    if s == "" then "" else Kept(KeptAll(s[..|s| - 1]), Last(s))
  }

  function TrimEnd(s: string): (r: string)
    ensures r <= s && (r != "" ==> !IsSpace(Last(r)))
  {
    if s == "" || !IsSpace(Last(s)) then s else TrimEnd(s[..|s| - 1])
  }

  function Squeezed(s: string): string {
    TrimEnd(KeptAll(SkipSpace(s)))
  }

  /** No white space but single characters between words, and none inside of parentheses or in front of them. */
  predicate Tight(s: string) {
    && (s != "" ==> !IsSpace(s[0]))
    && (forall i :: 0 < i < |s| && IsSpace(s[i]) ==> !IsSpace(s[i - 1]) && s[i - 1] != '(')
    && (forall i :: 0 < i < |s| && IsParen(s[i]) ==> !IsSpace(s[i - 1]))
  }

  lemma TightWith(a: string, c: char)
    requires Tight(a)
    requires IsSpace(c) ==> a != "" && !IsSpace(Last(a)) && Last(a) != '('
    requires IsParen(c) && a != "" ==> !IsSpace(Last(a))
    ensures Tight(a + [c])
  {
    hide IsSpace, IsParen;
    var r := a + [c];
    forall i | 0 < i < |r|
      ensures IsSpace(r[i]) ==> !IsSpace(r[i - 1]) && r[i - 1] != '('
      ensures IsParen(r[i]) ==> !IsSpace(r[i - 1])
    {
      assert r[i - 1] == a[i - 1];
      assert i < |a| ==> r[i] == a[i];
    }
  }

  lemma TightWithout(a: string)
    requires Tight(a) && a != "" && IsSpace(Last(a))
    ensures var r := a[..|a| - 1]; Tight(r) && (r != "" ==> !IsSpace(Last(r)))
  {
  }

  lemma KeptOne(a: string, c: char)
    requires Tight(a)
    ensures Tight(Kept(a, c)) && NonSpace(Kept(a, c)) == NonSpace(a) + if IsSpace(c) then "" else [c]
  {
    hide NonSpace, Tight;
    if IsSpace(c) {
      if a != "" && !IsSpace(Last(a)) && Last(a) != '(' {
        TightWith(a, c);
        NonSpaceOne(a, c);
      }
    } else if IsParen(c) && a != "" && IsSpace(Last(a)) {
      var r := a[..|a| - 1];
      assert a == r + [Last(a)];
      TightWithout(a);
      TightWith(r, c);
      NonSpaceOne(r, Last(a));
      NonSpaceOne(r, c);
    } else {
      TightWith(a, c);
      NonSpaceOne(a, c);
    }
  }

  lemma {:induction false} KeptTight(s: string)
    ensures Tight(KeptAll(s)) && NonSpace(KeptAll(s)) == NonSpace(s)
  {
    if s != "" {
      KeptTight(s[..|s| - 1]);
      KeptOne(KeptAll(s[..|s| - 1]), Last(s));
      assert s == s[..|s| - 1] + [Last(s)];
      NonSpaceOne(s[..|s| - 1], Last(s));
    }
  }

  lemma {:induction false} NonSpaceTrim(s: string)
    ensures NonSpace(TrimEnd(s)) == NonSpace(s)
  {
    if s != "" && IsSpace(Last(s)) {
      NonSpaceTrim(s[..|s| - 1]);
      assert s == s[..|s| - 1] + [Last(s)];
      NonSpaceOne(s[..|s| - 1], Last(s));
    }
  }

  /** The first pass changes nothing but white space, of which it leaves as little as it can. */
  lemma SqueezedText(s: string)
    ensures NonSpace(Squeezed(s)) == NonSpace(s)
    ensures Tight(Squeezed(s)) && (Squeezed(s) != "" ==> !IsSpace(Last(Squeezed(s))))
  {
    NonSpaceSkip(s);
    KeptTight(SkipSpace(s));
    NonSpaceTrim(KeptAll(SkipSpace(s)));
  }

  lemma {:induction false} KeptNotEmpty(s: string)
    requires s != "" && !IsSpace(s[0])
    ensures KeptAll(s) != ""
  {
    if |s| == 1 {
      assert KeptAll(s[..0]) == "";
    } else {
      KeptNotEmpty(s[..|s| - 1]);
    }
  }

  method LeadingSpaces(z: array<char>, ghost n: nat) returns (i: nat)
    requires EndsAt(z[..], 0, n)
    ensures i <= n && z[i..n] == SkipSpace(z[..n])
  {
    i := 0;
    assert z[i..n] == z[..n];
    while IsSpace(z[i])
      invariant i <= n && SkipSpace(z[i..n]) == SkipSpace(z[..n])
      decreases n - i
    {
      assert z[i..n][1..] == z[i + 1..n];
      i := i + 1;
    }
  }

  /** The body of the loop below: the character c behind the j that are kept. */
  method KeepOne(z: array<char>, j: nat, c: char) returns (k: nat)
    requires j < z.Length && (IsSpace(c) ==> j > 0)
    modifies z
    ensures k <= j + 1 && z[..k] == Kept(old(z[..j]), c) && z[j + 1..] == old(z[j + 1..])
  {
    k := j;
    if IsSpace(c) {
      if IsSpace(z[j - 1]) || z[j - 1] == '(' {
        return;
      }
    } else if (c == '(' || c == ')') && j > 0 && IsSpace(z[j - 1]) {
      k := k - 1;
    }
    z[k] := c;
    k := k + 1;
  }

  /** The first j characters are what is kept of b[start..i], and from i on nothing has changed. */
  ghost predicate Squeezing(z: string, b: string, start: nat, i: nat, j: nat, n: nat) {
    && start <= i <= n < |z| == |b| && j <= i && EndsAt(b, start, n) && !IsSpace(b[start])
    && z[i..] == b[i..] && z[..j] == KeptAll(b[start..i])
  }

  lemma SqueezeNext(z: string, w: string, b: string, start: nat, i: nat, j: nat, k: nat, n: nat)
    requires Squeezing(w, b, start, i, j, n) && i < n && |z| == |w|
    requires k <= j + 1 && z[..k] == Kept(w[..j], b[i]) && z[j + 1..] == w[j + 1..]
    ensures Squeezing(z, b, start, i + 1, k, n)
  {
    hide Kept, KeptAll;
    KeptNext(b, start, i);
    StillAhead(z, w, b, j, i);
  }

  lemma SqueezeReads(w: string, b: string, start: nat, i: nat, j: nat, n: nat)
    requires Squeezing(w, b, start, i, j, n)
    ensures w[i] == b[i] && (w[i] == '\0' <==> i == n) && (IsSpace(w[i]) ==> j > 0)
  {
    hide KeptAll;
    SameAt(w, b, i);
    if start < i {
      KeptNotEmpty(b[start..i]);
    }
  }

  /** The loop that copies what is kept to the front of the buffer. */
  method Squeeze(z: array<char>, ghost n: nat) returns (j: nat)
    requires EndsAt(z[..], 0, n)
    modifies z
    ensures j <= n && z[..j] == KeptAll(SkipSpace(old(z[..n])))
  {
    ghost var b := z[..];
    var i := LeadingSpaces(z, n);
    ghost var start := i;
    j := 0;
    assert Squeezing(b, b, start, i, j, n) by {
      assert start < n ==> !IsSpace(b[start..n][0]);
      KeptNothing();
    }
    hide KeptAll, Kept, SkipSpace, Squeezing;
    while z[i] != '\0'
      invariant start <= i <= n < z.Length && j <= i && Squeezing(z[..], b, start, i, j, n)
      decreases n - i
    {
      ghost var w, j0 := z[..], j;
      SqueezeReads(w, b, start, i, j, n);
      j := KeepOne(z, j, z[i]);
      SqueezeNext(z[..], w, b, start, i, j0, j, n);
      i := i + 1;
    }
    SqueezeReads(z[..], b, start, i, j, n);
    SqueezeResult(z[..], b, start, j, n);
  }

  lemma SqueezeResult(z: string, b: string, start: nat, j: nat, n: nat)
    requires Squeezing(z, b, start, n, j, n)
    ensures z[..j] == KeptAll(b[start..n])
  {
  }

  lemma SameAt(z: string, b: string, i: nat)
    requires i < |z| == |b| && z[i..] == b[i..]
    ensures z[i] == b[i]
  {
    assert z[i..][0] == b[i..][0];
  }

  /** Writing at most one character from j on leaves what is behind i as it was. */
  lemma StillAhead(z: string, w: string, b: string, j: nat, i: nat)
    requires j <= i < |z| == |w| == |b| && z[j + 1..] == w[j + 1..] && w[i..] == b[i..]
    ensures z[i + 1..] == b[i + 1..]
  {
    assert z[i + 1..] == z[j + 1..][i - j..];
    assert w[i + 1..] == w[j + 1..][i - j..] == w[i..][1..];
  }

  lemma KeptNothing()
    ensures KeptAll("") == ""
  {
  }

  lemma KeptNext(b: string, start: nat, i: nat)
    requires start <= i < |b|
    ensures KeptAll(b[start..i + 1]) == Kept(KeptAll(b[start..i]), b[i])
  {
    hide Kept;
    var s := b[start..i + 1];
    assert s[..|s| - 1] == b[start..i] && Last(s) == b[i];
  }

  lemma {:induction false} InNonSpace(c: char, s: string)
    requires !IsSpace(c)
    ensures c in s <==> c in NonSpace(s)
  {
    if s != "" {
      InNonSpace(c, s[1..]);
      assert s == [s[0]] + s[1..];
    }
  }

  lemma SqueezedHasNoNul(s: string)
    requires '\0' !in s
    ensures '\0' !in Squeezed(s)
  {
    SqueezedText(s);
    InNonSpace('\0', s);
    InNonSpace('\0', Squeezed(s));
  }

  /** The first pass, up to the new final NUL. */
  method FirstPass(z: array<char>, ghost n: nat) returns (j: nat)
    requires EndsAt(z[..], 0, n)
    modifies z
    ensures j <= n && z[..j] == Squeezed(old(z[..n])) && EndsAt(z[..], 0, j)
  {
    hide KeptAll;
    SqueezedHasNoNul(z[..n]);
    j := Squeeze(z, n);
    ghost var k := j;
    while j > 0 && IsSpace(z[j - 1])
      invariant j <= k && TrimEnd(z[..j]) == TrimEnd(z[..k])
    {
      assert z[..j][..j - 1] == z[..j - 1];
      j := j - 1;
    }
    z[j] := '\0';
    assert forall i :: 0 <= i < j ==> z[i] == z[..j][i];
  }

  // ----- lines -----

  /** A piece of the text and what is printed behind it. */
  datatype Line = Line(text: string, tail: string)

  /** The local variables of the second pass: line is what waits in the buffer, lines is printed. */
  datatype Pen = Pen(cEnd: char, nParen: int, nLine: nat, line: string, lines: seq<Line>)

  const FRESH := Pen('\0', 0, 0, "", [])

  /** Quotes, brackets and parentheses, before the character joins its line. */
  function Track(p: Pen, c: char): Pen {
    if c == p.cEnd then p.(cEnd := '\0')
    else if c == '"' || c == '\'' || c == '`' then p.(cEnd := c)
    else if c == '[' then p.(cEnd := ']')
    else if c == '(' then p.(nParen := p.nParen + 1)
    else if c == ')' then
      var q := p.(nParen := p.nParen - 1);
      if q.nLine > 0 && q.nParen == 0 && q.line != "" then Printed(q, q.line, "\n") else q
    else p
  }

  function Printed(p: Pen, text: string, tail: string): Pen {
    p.(line := "", lines := p.lines + [Line(text, tail)])
  }

  /** Whether the line ends behind c. */
  predicate Breaks(p: Pen, c: char) {
    Track(p, c).nParen == 1 && (c == '(' || c == ',' || c == '\n')
  }

  function Put(p: Pen, c: char): Pen {
    var q := Track(p, c);
    if Breaks(p, c) then
      Printed(q, if c == '\n' then q.line else q.line + [c], "\n  ").(nLine := q.nLine + 1)
    else q.(line := q.line + [c])
  }

  function Layout(p: Pen, s: string): Pen
    decreases |s|
  {
    if s == "" then p else Layout(Put(p, s[0]), if Breaks(p, s[0]) then SkipSpace(s[1..]) else s[1..])
  }

  /** The lines of a schema text; only a text of 79 characters or more is broken. */
  function Lines(s: string): seq<Line> {
    var t := Squeezed(s);
    if |t| >= 79 then (var p := Layout(FRESH, t); p.lines + [Line(p.line, ";\n")]) else [Line(t, ";\n")]
  }

  function Texts(lines: seq<Line>): string {
    if lines == [] then "" else Texts(lines[..|lines| - 1]) + lines[|lines| - 1].text
  }

  lemma TextsNext(lines: seq<Line>, l: Line)
    ensures Texts(lines + [l]) == Texts(lines) + l.text
  {
    assert (lines + [l])[..|lines|] == lines;
  }

  /** Everything that has been put so far. */
  function AllText(p: Pen): string {
    Texts(p.lines) + p.line
  }

  lemma PrintedText(p: Pen, tail: string)
    ensures AllText(Printed(p, p.line, tail)) == AllText(p)
  {
    TextsNext(p.lines, Line(p.line, tail));
  }

  lemma TrackText(p: Pen, c: char)
    ensures AllText(Track(p, c)) == AllText(p)
  {
    hide AllText;
    var q := p.(nParen := p.nParen - 1);
    PrintedText(q, "\n");
    SameText(p, q);
    SameText(p, Track(p, c));
  }

  lemma SameText(p: Pen, q: Pen)
    ensures p.line == q.line && p.lines == q.lines ==> AllText(p) == AllText(q)
  {
  }

  lemma EndedText(q: Pen, text: string, tail: string, n: nat)
    ensures AllText(Printed(q, text, tail).(nLine := n)) == Texts(q.lines) + text
  {
    hide Texts;
    TextsNext(q.lines, Line(text, tail));
    assert Texts(q.lines) + text + "" == Texts(q.lines) + text;
  }

  lemma GrownText(q: Pen, c: char)
    ensures AllText(q.(line := q.line + [c])) == AllText(q) + [c] == Texts(q.lines) + (q.line + [c])
  {
  }

  lemma PutText(p: Pen, c: char)
    ensures NonSpace(AllText(Put(p, c))) == NonSpace(AllText(p)) + if IsSpace(c) then "" else [c]
  {
    hide NonSpace, Track, AllText, Printed, Texts;
    var q := Track(p, c);
    TrackText(p, c);
    NonSpaceOne(AllText(q), c);
    GrownText(q, c);
    if Breaks(p, c) {
      EndedText(q, if c == '\n' then q.line else q.line + [c], "\n  ", q.nLine + 1);
      assert AllText(q) == Texts(q.lines) + q.line by { LineText(q); }
    }
  }

  lemma LineText(q: Pen)
    ensures AllText(q) == Texts(q.lines) + q.line
  {
  }

  /** Breaking into lines loses nothing but white space. */
  lemma {:induction false} LayoutText(p: Pen, s: string)
    ensures NonSpace(AllText(Layout(p, s))) == NonSpace(AllText(p)) + NonSpace(s)
    decreases |s|
  {
    hide Put, AllText, Breaks;
    if s != "" {
      PutText(p, s[0]);
      NonSpaceSkip(s[1..]);
      LayoutText(Put(p, s[0]), if Breaks(p, s[0]) then SkipSpace(s[1..]) else s[1..]);
    }
  }

  /** The lines of a schema text are the text, but for white space. */
  lemma LinesText(s: string)
    ensures NonSpace(Texts(Lines(s))) == NonSpace(s)
  {
    hide NonSpace, Squeezed, Layout;
    var t := Squeezed(s);
    SqueezedText(s);
    if |t| >= 79 {
      var p := Layout(FRESH, t);
      LayoutText(FRESH, t);
      TextsNext(p.lines, Line(p.line, ";\n"));
      NonSpaceOfNothing();
    } else {
      TextsNext([], Line(t, ";\n"));
      assert [] + [Line(t, ";\n")] == Lines(s) && "" + t == t;
    }
  }

  lemma NonSpaceOfNothing()
    ensures NonSpace(AllText(FRESH)) == ""
  {
  }

  // ----- printing -----

  const CREATE := "CREATE TABLE "
  const IF_NOT_EXISTS := "IF NOT EXISTS "

  /** The pattern CREATE TABLE ['"]* of the GLOB operator. */
  predicate QuotedCreate(text: string) {
    CREATE <= text && |text| > 13 && (text[13] == '\'' || text[13] == '"')
  }

  function SchemaLine(l: Line): string {
    if QuotedCreate(l.text) then CREATE + IF_NOT_EXISTS + l.text[13..] + l.tail else l.text + l.tail
  }

  /** printSchemaLine; the text is the C string at the start of z. */
  method PrintSchemaLine(out: string, z: array<char>, tail: string, ghost n: nat) returns (r: string)
    requires EndsAt(z[..], 0, n)
    ensures r == out + SchemaLine(Line(z[..n], tail))
  {
    hide CStr, EndsAt, QuotedCreate;
    CStrPrefix(z[..], n);
    if QuotedCreate(CStr(z[..], 0)) {
      BehindCreate(z[..], n);
      r := out + "CREATE TABLE IF NOT EXISTS " + CStr(z[..], 13) + tail;
      assert CREATE + IF_NOT_EXISTS == "CREATE TABLE IF NOT EXISTS ";
    } else {
      r := out + CStr(z[..], 0) + tail;
    }
  }

  lemma BehindCreate(z: string, n: nat)
    requires EndsAt(z, 0, n) && QuotedCreate(z[..n])
    ensures |z[..n]| > 13 && CStr(z, 13) == z[..n][13..]
  {
    hide CStr;
    CStrSuffix(z, 13, n);
    assert z[..n][13..] == z[13..n];
  }

  lemma CStrPrefix(z: string, n: nat)
    requires EndsAt(z, 0, n)
    ensures CStr(z, 0) == z[..n]
  {
    CStrSuffix(z, 0, n);
    assert z[0..n] == z[..n];
  }

  lemma CStrSuffix(z: string, i: nat, n: nat)
    requires EndsAt(z, 0, n) && i <= n
    ensures CStr(z, i) == z[i..n]
  {
    CStrAt(z, i, n);
    CStrWhole(z[i..n], 0);
  }

  /** printSchemaLineN: the buffer is as before, although a NUL was in it meanwhile. */
  method PrintSchemaLineN(out: string, z: array<char>, n: nat, tail: string) returns (r: string)
    requires n < z.Length && '\0' !in z[..n]
    modifies z
    ensures z[..] == old(z[..]) && r == out + SchemaLine(Line(old(z[..n]), tail))
  {
    hide SchemaLine;
    ghost var b := z[..];
    var c := z[n];
    z[n] := '\0';
    assert z[..n] == b[..n];
    assert forall k :: 0 <= k < n ==> z[k] == b[..n][k];
    r := PrintSchemaLine(out, z, tail, n);
    z[n] := c;
    assert z[..] == b;
  }

  function Rendered(lines: seq<Line>): string {
    if lines == [] then "" else Rendered(lines[..|lines| - 1]) + SchemaLine(lines[|lines| - 1])
  }

  lemma RenderedNext(lines: seq<Line>, l: Line)
    ensures Rendered(lines + [l]) == Rendered(lines) + SchemaLine(l)
  {
    hide SchemaLine;
    assert (lines + [l])[..|lines|] == lines;
  }

  /** r is what was printed before and the lines of p; the rest of p is in the variables and the buffer. */
  ghost predicate Holds(p: Pen, z: string, j: nat, cEnd: char, nParen: int, nLine: nat, out: string, r: string) {
    && j <= |z| && p.line == z[..j] && '\0' !in p.line
    && p.cEnd == cEnd && p.nParen == nParen && p.nLine == nLine && r == out + Rendered(p.lines)
  }

  lemma HoldsPrinted(p: Pen, z: string, j: nat, nLine: nat, out: string, r: string, text: string, tail: string)
    requires r == out + Rendered(p.lines)
    ensures var q := Printed(p, text, tail).(nLine := nLine);
      Holds(q, z, 0, p.cEnd, p.nParen, nLine, out, r + SchemaLine(Line(text, tail)))
  {
    hide SchemaLine;
    RenderedNext(p.lines, Line(text, tail));
  }

  /** The branches on the character c, before it is stored. */
  method TrackOne(z: array<char>, c: char, j: nat, cEnd: char, nParen: int, nLine: nat, out: string, ghost out0: string, ghost p: Pen)
    returns (k: nat, end: char, depth: int, r: string)
    requires j < z.Length && Holds(p, z[..], j, cEnd, nParen, nLine, out0, out)
    modifies z
    ensures z[..] == old(z[..]) && k <= j && Holds(Track(p, c), z[..], k, end, depth, nLine, out0, r)
  {
    hide SchemaLine, Rendered;
    k, end, depth, r := j, cEnd, nParen, out;
    if c == cEnd {
      end := '\0';
    } else if c == '"' || c == '\'' || c == '`' {
      end := c;
    } else if c == '[' {
      end := ']';
    } else if c == '(' {
      depth := nParen + 1;
    } else if c == ')' {
      depth := nParen - 1;
      if nLine > 0 && depth == 0 && j > 0 {
        r := PrintSchemaLineN(r, z, j, "\n");
        HoldsPrinted(p.(nParen := depth), z[..], j, nLine, out0, out, p.line, "\n");
        k := 0;
      }
    }
  }

  /** Storing c and, where the line breaks, printing it. */
  method StoreOne(z: array<char>, c: char, j: nat, cEnd: char, nParen: int, nLine: nat, out: string, ghost out0: string, ghost p: Pen)
    returns (k: nat, lines: nat, r: string, broken: bool)
    requires j + 1 < z.Length && c != '\0' && Holds(Track(p, c), z[..], j, cEnd, nParen, nLine, out0, out)
    modifies z
    ensures z[j + 1..] == old(z[j + 1..]) && k <= j + 1 && broken == Breaks(p, c)
    ensures Holds(Put(p, c), z[..], k, cEnd, nParen, lines, out0, r)
  {
    hide SchemaLine, Rendered, Track;
    ghost var q := Track(p, c);
    k, lines, r, broken := j, nLine, out, false;
    z[k] := c;
    k := k + 1;
    assert z[..j] == q.line && z[..k] == q.line + [c];
    if nParen == 1 && (c == '(' || c == ',' || c == '\n') {
      if c == '\n' {
        k := k - 1;
      }
      HoldsPrinted(q, z[..], k, nLine + 1, out0, out, z[..k], "\n  ");
      r := PrintSchemaLineN(r, z, k, "\n  ");
      k := 0;
      lines := nLine + 1;
      broken := true;
    }
  }

  /** The inner loop that skips the white space behind a break. */
  method SkipAhead(z: array<char>, i: nat, ghost n: nat) returns (k: nat)
    requires i < n && EndsAt(z[..], i + 1, n)
    ensures i <= k < n && z[k + 1..n] == SkipSpace(z[i + 1..n])
  {
    k := i;
    while IsSpace(z[k + 1])
      invariant i <= k < n && SkipSpace(z[k + 1..n]) == SkipSpace(z[i + 1..n])
      decreases n - k
    {
      assert z[k + 1..n][1..] == z[k + 2..n];
      k := k + 1;
    }
  }

  lemma LayoutNext(p: Pen, s: string)
    requires s != ""
    ensures Layout(p, s) == Layout(Put(p, s[0]), if Breaks(p, s[0]) then SkipSpace(s[1..]) else s[1..])
  {
    hide Put, Breaks;
  }

  lemma LayoutDone(p: Pen)
    ensures Layout(p, "") == p
  {
  }

  /** The body of the second pass's loop: the character at i and, behind a break, the white space. */
  method PutOne(z: array<char>, i: nat, j: nat, cEnd: char, nParen: int, nLine: nat, out: string,
                ghost out0: string, ghost p: Pen, ghost b: string, ghost n: nat)
    returns (i1: nat, j1: nat, end: char, depth: int, lines: nat, r: string)
    requires j <= i < n < z.Length && |b| == z.Length && z[i..] == b[i..] && EndsAt(b, i, n)
    requires Holds(p, z[..], j, cEnd, nParen, nLine, out0, out)
    modifies z
    ensures j1 <= i1 && i < i1 <= n && z[i1..] == b[i1..] && EndsAt(b, i1, n)
    ensures Holds(Put(p, b[i]), z[..], j1, end, depth, lines, out0, r)
    ensures b[i1..n] == if Breaks(p, b[i]) then SkipSpace(b[i + 1..n]) else b[i + 1..n]
  {
    hide Put, Track, Breaks, SkipSpace, Holds, EndsAt;
    Ahead(z[..], b, i, i, n);
    InText(z[..], b, i, n);
    var c := z[i];
    j1, end, depth, r := TrackOne(z, c, j, cEnd, nParen, nLine, out, out0, p);
    ghost var w, j0 := z[..], j1;
    var broken;
    j1, lines, r, broken := StoreOne(z, c, j1, end, depth, nLine, r, out0, p);
    StillAhead(z[..], w, b, j0, i);
    i1 := i;
    Ahead(z[..], b, i + 1, i + 1, n);
    if broken {
      i1 := SkipAhead(z, i, n);
    }
    Ahead(z[..], b, i + 1, i1 + 1, n);
    i1 := i1 + 1;
  }

  /** The second pass: prints all lines but the last, which is left at the start of the buffer. */
  method SecondPass(z: array<char>, out: string, ghost n: nat) returns (j: nat, r: string)
    requires EndsAt(z[..], 0, n)
    modifies z
    ensures var p := Layout(FRESH, old(z[..n])); r == out + Rendered(p.lines) && EndsAt(z[..], 0, j) && z[..j] == p.line
  {
    assert n < z.Length;
    hide Layout, Rendered, Put, Track, Breaks, SkipSpace, Holds, EndsAt;
    ghost var b := z[..];
    ghost var p := FRESH;
    var cEnd, nParen, nLine, i := '\0', 0, 0, 0;
    j, r := 0, out;
    HoldsFresh(z[..], out);
    while z[i] != '\0'
      invariant j <= i <= n < z.Length && z[i..] == b[i..] && EndsAt(b, i, n)
      invariant Holds(p, z[..], j, cEnd, nParen, nLine, out, r)
      invariant Layout(p, b[i..n]) == Layout(FRESH, b[..n])
      decreases n - i
    {
      InText(z[..], b, i, n);
      LayoutNext(p, b[i..n]);
      ghost var c := b[i];
      i, j, cEnd, nParen, nLine, r := PutOne(z, i, j, cEnd, nParen, nLine, r, out, p, b, n);
      p := Put(p, c);
    }
    AtEnd(z[..], b, i, n);
    LayoutDone(p);
    ghost var w := z[..];
    z[j] := '\0';
    LastLine(z[..], w, p, j, cEnd, nParen, nLine, out, r);
  }

  lemma HoldsFresh(z: string, out: string)
    ensures Holds(FRESH, z, 0, '\0', 0, 0, out, out)
  {
    hide SchemaLine;
  }

  lemma InText(z: string, b: string, i: nat, n: nat)
    requires i <= n < |z| == |b| && z[i..] == b[i..] && EndsAt(b, i, n) && (z[i] != '\0' || i < n)
    ensures z[i] != '\0' && i < n && z[i] == b[i] == b[i..n][0] && b[i..n][1..] == b[i + 1..n] && EndsAt(b, i + 1, n)
  {
    SameAt(z, b, i);
  }

  lemma Ahead(z: string, b: string, i: nat, k: nat, n: nat)
    requires i <= k <= n < |z| == |b| && z[i..] == b[i..] && EndsAt(b, i, n)
    ensures z[k..] == b[k..] && z[k..n] == b[k..n] && EndsAt(z, k, n) && EndsAt(b, k, n)
  {
    assert z[k..] == z[i..][k - i..] == b[i..][k - i..] == b[k..];
    assert forall x :: k <= x <= n ==> z[x] == z[k..][x - k] == b[k..][x - k] == b[x];
  }

  lemma AtEnd(z: string, b: string, i: nat, n: nat)
    requires i <= n < |z| == |b| && z[i..] == b[i..] && EndsAt(b, i, n) && z[i] == '\0'
    ensures i == n && b[i..n] == ""
  {
    SameAt(z, b, i);
  }

  lemma LastLine(z: string, w: string, p: Pen, j: nat, cEnd: char, nParen: int, nLine: nat, out: string, r: string)
    requires Holds(p, w, j, cEnd, nParen, nLine, out, r) && j < |w| && z == w[j := '\0']
    ensures EndsAt(z, 0, j) && z[..j] == p.line && r == out + Rendered(p.lines)
  {
    hide Rendered;
    assert forall k :: 0 <= k < j ==> z[k] == w[..j][k];
  }

  // ----- the whole case -----

  function Lower(c: char): char {
    if 'A' <= c <= 'Z' then (c as int + 32) as char else c
  }

  /** The text starts with the prefix, whatever the case of the letters: LIKE with a final percent sign. */
  predicate Like(prefix: string, s: string) {
    |prefix| <= |s| && forall i :: 0 <= i < |prefix| ==> Lower(s[i]) == Lower(prefix[i])
  }

  predicate KeptAsIs(s: string) {
    Like("CREATE VIEW", s) || Like("CREATE TRIG", s)
  }

  /** What MODE_Pretty prints for a schema text. */
  function Pretty(s: string): string {
    if KeptAsIs(s) then s + ";\n" else Rendered(Lines(s))
  }

  /** The MODE_Pretty case of shell_callback; a NULL prints nothing. */
  method PrettyCase(azArg: Option<string>, out: string) returns (r: string)
    requires azArg.Some? ==> '\0' !in azArg.value
    ensures r == if azArg.None? then out else out + Pretty(azArg.value)
  {
    if azArg.None? {
      return out;
    }
    var s := azArg.value;
    if KeptAsIs(s) {
      return out + s + ";\n";
    }
    hide Rendered, Lines, KeptAsIs;
    r := PrettyText(s, out);
  }

  /** The part of the case that works on a copy of the text. */
  method PrettyText(s: string, out: string) returns (r: string)
    requires '\0' !in s
    ensures r == out + Rendered(Lines(s))
  {
    hide Squeezed, Layout, SchemaLine, Lines, Rendered, EndsAt;
    var z := new char[|s| + 1](i requires 0 <= i < |s| + 1 => if i < |s| then s[i] else '\0');
    assert z[..] == s + "\0";
    Whole(z[..], s);
    var j := FirstPass(z, |s|);
    LinesRendered(s);
    if j >= 79 {
      j, r := SecondPass(z, out, j);
      r := PrintSchemaLine(r, z, ";\n", j);
    } else {
      r := PrintSchemaLine(out, z, ";\n", j);
    }
  }

  lemma Whole(z: string, s: string)
    requires z == s + "\0" && '\0' !in s
    ensures z[..|s|] == s && EndsAt(z, 0, |s|)
  {
  }

  lemma LinesRendered(s: string)
    ensures var t := Squeezed(s);
      if |t| >= 79 then (var p := Layout(FRESH, t); Rendered(Lines(s)) == Rendered(p.lines) + SchemaLine(Line(p.line, ";\n")))
      else Rendered(Lines(s)) == SchemaLine(Line(t, ";\n"))
  {
    hide Squeezed, Layout, SchemaLine;
    var t := Squeezed(s);
    if |t| >= 79 {
      var p := Layout(FRESH, t);
      RenderedNext(p.lines, Line(p.line, ";\n"));
    } else {
      RenderedNext([], Line(t, ";\n"));
      assert [] + [Line(t, ";\n")] == Lines(s);
      assert "" + SchemaLine(Line(t, ";\n")) == SchemaLine(Line(t, ";\n"));
    }
  }

  // ----- what is printed -----

  predicate PlainTails(lines: seq<Line>) {
    forall i :: 0 <= i < |lines| ==> lines[i].tail == "\n" || lines[i].tail == "\n  "
  }

  lemma {:induction false} LayoutTails(p: Pen, s: string)
    requires PlainTails(p.lines)
    ensures PlainTails(Layout(p, s).lines)
    decreases |s|
  {
    if s != "" {
      LayoutTails(Put(p, s[0]), if Breaks(p, s[0]) then SkipSpace(s[1..]) else s[1..]);
    }
  }

  /** How many lines get an IF NOT EXISTS. */
  function Creates(lines: seq<Line>): nat {
    if lines == [] then 0
    else Creates(lines[..|lines| - 1]) + if QuotedCreate(lines[|lines| - 1].text) then 1 else 0
  }

  const INSERTED := "IFNOTEXISTS"

  lemma SchemaLineText(l: Line)
    ensures NonSpace(SchemaLine(l)) ==
      if QuotedCreate(l.text) then "CREATETABLE" + INSERTED + NonSpace(l.text[13..]) + NonSpace(l.tail)
      else NonSpace(l.text) + NonSpace(l.tail)
    ensures QuotedCreate(l.text) ==> NonSpace(l.text) == "CREATETABLE" + NonSpace(l.text[13..])
  {
    Phrases();
    hide NonSpace;
    if QuotedCreate(l.text) {
      assert l.text == CREATE + l.text[13..];
      NonSpaceConcat(CREATE, l.text[13..]);
      NonSpaceConcat(CREATE + IF_NOT_EXISTS + l.text[13..], l.tail);
      NonSpaceConcat(CREATE + IF_NOT_EXISTS, l.text[13..]);
      NonSpaceConcat(CREATE, IF_NOT_EXISTS);
    } else {
      NonSpaceConcat(l.text, l.tail);
    }
  }

  lemma Phrases()
    ensures NonSpace(CREATE) == "CREATETABLE" && NonSpace(IF_NOT_EXISTS) == INSERTED
  {
    hide NonSpace;
    TwoWords("CREATE", "TABLE", "");
    assert CREATE == "CREATE" + " " + ("TABLE" + " " + "");
    var existing := "EXISTS" + " " + "";
    TwoWords("IF", "NOT", existing);
    Word("EXISTS", "");
    assert IF_NOT_EXISTS == "IF" + " " + ("NOT" + " " + existing);
    NothingInNothing();
    assert "CREATE" + ("TABLE" + "") == "CREATETABLE" && "IF" + ("NOT" + ("EXISTS" + "")) == INSERTED;
  }

  lemma NothingInNothing()
    ensures NonSpace("") == ""
  {
  }

  lemma TwoWords(v: string, w: string, rest: string)
    requires forall i :: 0 <= i < |v| ==> !IsSpace(v[i])
    requires forall i :: 0 <= i < |w| ==> !IsSpace(w[i])
    ensures NonSpace(v + " " + (w + " " + rest)) == v + (w + NonSpace(rest))
  {
    hide NonSpace;
    Word(v, w + " " + rest);
    Word(w, rest);
  }

  lemma {:induction false} Word(w: string, rest: string)
    requires forall i :: 0 <= i < |w| ==> !IsSpace(w[i])
    ensures NonSpace(w + " " + rest) == w + NonSpace(rest)
  {
    if w == "" {
      assert (w + " " + rest)[1..] == rest;
    } else {
      assert (w + " " + rest)[1..] == w[1..] + " " + rest;
      Word(w[1..], rest);
    }
  }

  lemma Tails()
    ensures NonSpace("\n") == "" && NonSpace("\n  ") == "" && NonSpace(";\n") == ";"
  {
    assert "\n"[1..] == "" && "\n  "[1..] == "  " && "  "[1..] == " " && " "[1..] == "" && ";\n"[1..] == "\n";
  }

  /** One INSERTED in out, where printSchemaLine puts it: between CREATE TABLE and a quote. */
  predicate InsertedAt(out: string, i: int) {
    && 11 <= i && i + |INSERTED| < |out| && out[i - 11..i] == "CREATETABLE" && out[i..i + |INSERTED|] == INSERTED
    && (out[i + |INSERTED|] == '\'' || out[i + |INSERTED|] == '"')
  }

  /** The text without the insertion at i. */
  function Without(out: string, i: int): (r: string)
    requires InsertedAt(out, i)
    ensures |r| + 11 == |out|
  {
    out[..i] + out[i + |INSERTED|..]
  }

  /** Taking n such insertions out of out leaves txt. */
  ghost predicate WithInserted(out: string, txt: string, n: nat)
    decreases n
  {
    if n == 0 then out == txt
    else exists i :: InsertedAt(out, i) && WithInserted(Without(out, i), txt, n - 1)
  }

  lemma {:induction false} InsertedLength(out: string, txt: string, n: nat)
    requires WithInserted(out, txt, n)
    ensures |out| == |txt| + 11 * n
    decreases n
  {
    hide InsertedAt, Without;
    if n > 0 {
      var i :| InsertedAt(out, i) && WithInserted(Without(out, i), txt, n - 1);
      InsertedLength(Without(out, i), txt, n - 1);
    }
  }

  lemma {:induction false} InsertedThen(out: string, txt: string, n: nat, t: string)
    requires WithInserted(out, txt, n)
    ensures WithInserted(out + t, txt + t, n)
    decreases n
  {
    hide InsertedAt, Without;
    if n > 0 {
      var i :| InsertedAt(out, i) && WithInserted(Without(out, i), txt, n - 1);
      InsertedThen(Without(out, i), txt, n - 1, t);
      OneThen(out, i, t);
    }
  }

  lemma OneThen(out: string, i: int, t: string)
    requires InsertedAt(out, i)
    ensures InsertedAt(out + t, i) && Without(out + t, i) == Without(out, i) + t
  {
    var j := i + |INSERTED|;
    assert (out + t)[i - 11..i] == out[i - 11..i] && (out + t)[i..j] == out[i..j] && (out + t)[j..] == out[j..] + t;
    assert (out + t)[..i] == out[..i];
  }

  /** A line gets at most one insertion, whatever was printed before it. */
  lemma LineInserted(r: string, l: Line)
    ensures WithInserted(r + NonSpace(SchemaLine(l)), r + NonSpace(l.text) + NonSpace(l.tail), if QuotedCreate(l.text) then 1 else 0)
  {
    hide NonSpace, SchemaLine;
    SchemaLineText(l);
    var out := r + NonSpace(SchemaLine(l));
    if QuotedCreate(l.text) {
      var name := NonSpace(l.text[13..]);
      QuoteFirst(l.text[13..]);
      var i := |r| + 11;
      assert out[..i] == r + "CREATETABLE" && out[i..i + |INSERTED|] == INSERTED && out[i + |INSERTED|..] == name + NonSpace(l.tail);
      assert out[i - 11..i] == "CREATETABLE" && out[i + |INSERTED|] == name[0];
      assert InsertedAt(out, i);
      assert Without(out, i) == r + NonSpace(l.text) + NonSpace(l.tail);
      assert WithInserted(Without(out, i), r + NonSpace(l.text) + NonSpace(l.tail), 0);
    } else {
      assert out == r + NonSpace(l.text) + NonSpace(l.tail);
    }
  }

  lemma QuoteFirst(s: string)
    requires s != "" && !IsSpace(s[0])
    ensures NonSpace(s) != "" && NonSpace(s)[0] == s[0]
  {
  }

  lemma {:induction false} InsertedBoth(a: string, x: string, n: nat, l: Line)
    requires WithInserted(a, x, n)
    ensures WithInserted(a + NonSpace(SchemaLine(l)), x + (NonSpace(l.text) + NonSpace(l.tail)), n + if QuotedCreate(l.text) then 1 else 0)
  {
    hide NonSpace, SchemaLine, WithInserted;
    var t := NonSpace(l.text) + NonSpace(l.tail);
    InsertedThen(a, x, n, t);
    LineInserted(a, l);
    assert a + NonSpace(l.text) + NonSpace(l.tail) == a + t;
    InsertedChain(a + NonSpace(SchemaLine(l)), a + t, if QuotedCreate(l.text) then 1 else 0, x + t, n);
  }

  lemma {:induction false} InsertedChain(a: string, b: string, m: nat, c: string, n: nat)
    requires WithInserted(a, b, m) && WithInserted(b, c, n)
    ensures WithInserted(a, c, m + n)
    decreases m
  {
    hide InsertedAt, Without;
    if m > 0 {
      var i :| InsertedAt(a, i) && WithInserted(Without(a, i), b, m - 1);
      InsertedChain(Without(a, i), b, m - 1, c, n);
    }
  }

  /** The printed lines are their texts with one insertion for each that starts like a quoted CREATE TABLE. */
  lemma {:induction false} RenderedText(lines: seq<Line>)
    requires PlainTails(lines)
    ensures WithInserted(NonSpace(Rendered(lines)), NonSpace(Texts(lines)), Creates(lines))
  {
    hide NonSpace, SchemaLine, QuotedCreate, WithInserted;
    if lines == [] {
      NothingInserted("");
    } else {
      var n := |lines| - 1;
      RenderedText(lines[..n]);
      Tails();
      LineRendered(lines[..n], lines[n]);
      assert NonSpace(Texts(lines)) + "" == NonSpace(Texts(lines));
    }
  }

  lemma NothingInserted(t: string)
    ensures WithInserted(NonSpace(t), NonSpace(t), 0)
  {
  }

  lemma LineRendered(lines: seq<Line>, l: Line)
    requires WithInserted(NonSpace(Rendered(lines)), NonSpace(Texts(lines)), Creates(lines))
    ensures WithInserted(NonSpace(Rendered(lines) + SchemaLine(l)), NonSpace(Texts(lines) + l.text) + NonSpace(l.tail),
      Creates(lines) + if QuotedCreate(l.text) then 1 else 0)
  {
    hide NonSpace, SchemaLine, QuotedCreate, Rendered, Texts, Creates, WithInserted;
    NonSpaceConcat(Rendered(lines), SchemaLine(l));
    NonSpaceConcat(Texts(lines), l.text);
    InsertedBoth(NonSpace(Rendered(lines)), NonSpace(Texts(lines)), Creates(lines), l);
    assert NonSpace(Texts(lines)) + (NonSpace(l.text) + NonSpace(l.tail)) == NonSpace(Texts(lines)) + NonSpace(l.text) + NonSpace(l.tail);
  }

  lemma CreatesNext(lines: seq<Line>, l: Line)
    ensures Creates(lines + [l]) == Creates(lines) + if QuotedCreate(l.text) then 1 else 0
  {
    assert (lines + [l])[..|lines|] == lines;
  }

  // ----- how many insertions -----

  function Depth(d: int, c: char): int {
    if c == '(' then d + 1 else if c == ')' then d - 1 else d
  }

  /**
   How many later lines start like a quoted CREATE TABLE, at depth d of parentheses: a line starts
   behind each parenthesis, comma or line end that leaves the depth at one.
   */
  function LaterCreates(d: int, s: string): nat
    decreases |s|
  {
    if s == "" then 0
    else if Depth(d, s[0]) == 1 && (s[0] == '(' || s[0] == ',' || s[0] == '\n') then
      (var r := SkipSpace(s[1..]); (if QuotedCreate(r) then 1 else 0) + LaterCreates(1, r))
    else LaterCreates(Depth(d, s[0]), s[1..])
  }

  /** How many times IF NOT EXISTS is inserted into a schema text. */
  function Insertions(s: string): nat {
    var t := Squeezed(s);
    if KeptAsIs(s) then 0
    else (if QuotedCreate(t) then 1 else 0) + if |t| >= 79 then LaterCreates(0, t) else 0
  }

  /** Quotes never hide a parenthesis from the count. */
  lemma TrackDepth(p: Pen, c: char)
    requires !IsParen(p.cEnd)
    ensures Track(p, c).nParen == Depth(p.nParen, c) && !IsParen(Track(p, c).cEnd)
    ensures c != ')' ==> Track(p, c).line == p.line && Track(p, c).lines == p.lines
    ensures var q := Track(p, c);
      c == ')' ==> (q.line == p.line && q.lines == p.lines) || (q.line == "" && q.lines == p.lines + [Line(p.line, "\n")])
  {
  }

  /** Cutting a text off at a parenthesis, comma or line end does not change how it starts. */
  lemma CreateCut(a: string, s: string)
    requires s != "" && (IsParen(s[0]) || s[0] == ',' || s[0] == '\n')
    ensures QuotedCreate(a + s) == QuotedCreate(a) == QuotedCreate(a + [s[0]])
  {
    CreateChars();
    var x, y := a + s, a + [s[0]];
    assert x[|a|] == s[0] && y[|a|] == s[0];
    if |a| < 13 {
      assert CREATE[|a|] != s[0];
    } else {
      assert x[..13] == y[..13] == a[..13];
      assert |a| > 13 ==> x[13] == y[13] == a[13];
    }
  }

  lemma CreateChars()
    ensures forall i :: 0 <= i < |CREATE| ==> !IsParen(CREATE[i]) && CREATE[i] != ',' && CREATE[i] != '\n'
  {
  }

  /** The lines that get an insertion, the waiting one and those still to come included. */
  lemma {:induction false} LayoutCreates(p: Pen, s: string)
    requires !IsParen(p.cEnd)
    ensures var q := Layout(p, s);
      Creates(q.lines) + (if QuotedCreate(q.line) then 1 else 0) ==
        Creates(p.lines) + (if QuotedCreate(p.line + s) then 1 else 0) + LaterCreates(p.nParen, s)
    decreases |s|
  {
    hide QuotedCreate, Creates, Track;
    if s == "" {
      assert p.line + s == p.line;
    } else {
      var c := s[0];
      TrackDepth(p, c);
      var r := if Breaks(p, c) then SkipSpace(s[1..]) else s[1..];
      LayoutCreates(Put(p, c), r);
      PutCreates(p, s, r);
    }
  }

  lemma PutCreates(p: Pen, s: string, r: string)
    requires s != "" && !IsParen(p.cEnd) && r == if Breaks(p, s[0]) then SkipSpace(s[1..]) else s[1..]
    ensures var q := Put(p, s[0]);
      Creates(q.lines) + (if QuotedCreate(q.line + r) then 1 else 0) ==
        Creates(p.lines) + (if QuotedCreate(p.line + s) then 1 else 0) + (if Breaks(p, s[0]) && QuotedCreate(r) then 1 else 0)
  {
    hide Creates, Track, QuotedCreate;
    var c := s[0];
    TrackDepth(p, c);
    if Breaks(p, c) {
      CreateCut(p.line, s);
      CreatesNext(p.lines, Line(if c == '\n' then p.line else p.line + [c], "\n  "));
      assert Put(p, c).line + r == r;
    } else if Track(p, c).line == p.line && Track(p, c).lines == p.lines {
      assert p.line + [c] + r == p.line + s;
    } else {
      CreateCut(p.line, s);
      CreatesNext(p.lines, Line(p.line, "\n"));
      assert "" + [c] + r == [c] + r;
      CreateCut("", [c] + r);
      assert "" + ([c] + r) == [c] + r;
      EmptyCreate();
    }
  }

  lemma EmptyCreate()
    ensures !QuotedCreate("")
  {
  }

  lemma LinesCreates(s: string)
    requires !KeptAsIs(s)
    ensures Creates(Lines(s)) == Insertions(s)
  {
    hide QuotedCreate, Layout, Squeezed, KeptAsIs, LaterCreates, Creates;
    var t := Squeezed(s);
    var p := if |t| >= 79 then Layout(FRESH, t) else Pen('\0', 0, 0, t, []);
    assert Lines(s) == p.lines + [Line(p.line, ";\n")];
    CreatesNext(p.lines, Line(p.line, ";\n"));
    assert Creates([]) == 0 by { NoCreates(); }
    if |t| >= 79 {
      LayoutCreates(FRESH, t);
      assert FRESH.line + t == t;
    }
  }

  lemma NoCreates()
    ensures Creates([]) == 0
  {
  }

  // ----- the whole output -----

  /**
   But for white space, what is printed for a schema text is the text, a final semicolon, and
   Insertions(s) times IF NOT EXISTS behind a CREATE TABLE and in front of a quote.
   */
  lemma PrettyKeepsText(s: string)
    ensures WithInserted(NonSpace(Pretty(s)), NonSpace(s) + ";", Insertions(s))
  {
    hide NonSpace, SchemaLine, QuotedCreate, Layout, Squeezed, KeptAsIs, WithInserted, Insertions;
    Tails();
    if KeptAsIs(s) {
      NonSpaceConcat(s, ";\n");
      NothingInserted(s + ";\n");
      KeptInsertions(s);
    } else {
      LinesText(s);
      LinesCreates(s);
      var t := Squeezed(s);
      var p := if |t| >= 79 then Layout(FRESH, t) else Pen('\0', 0, 0, t, []);
      LayoutTails(FRESH, t);
      RenderedText(p.lines);
      LineRendered(p.lines, Line(p.line, ";\n"));
      assert Lines(s) == p.lines + [Line(p.line, ";\n")];
      RenderedNext(p.lines, Line(p.line, ";\n"));
      TextsNext(p.lines, Line(p.line, ";\n"));
      CreatesNext(p.lines, Line(p.line, ";\n"));
    }
  }

  lemma KeptInsertions(s: string)
    requires KeptAsIs(s)
    ensures Insertions(s) == 0
  {
  }

  /** So nothing is inserted exactly when the count is zero. */
  lemma PrettyAddsOnlySemicolon(s: string)
    ensures NonSpace(Pretty(s)) == NonSpace(s) + ";" <==> Insertions(s) == 0
  {
    hide NonSpace, Pretty, Insertions, WithInserted;
    PrettyKeepsText(s);
    InsertedLength(NonSpace(Pretty(s)), NonSpace(s) + ";", Insertions(s));
    if Insertions(s) == 0 {
      InsertedZero(NonSpace(Pretty(s)), NonSpace(s) + ";", 0);
    }
  }

  lemma InsertedZero(out: string, txt: string, n: nat)
    requires WithInserted(out, txt, n) && n == 0
    ensures out == txt
  {
  }

  /** A text that is tight already goes through the first pass unchanged. */
  lemma {:induction false} TightKept(s: string)
    requires Tight(s)
    ensures KeptAll(s) == s
  {
    hide Kept;
    if s != "" {
      var a := s[..|s| - 1];
      TightStart(s);
      TightKept(a);
      KeptTightOne(s);
    }
  }

  lemma TightStart(s: string)
    requires Tight(s) && s != ""
    ensures Tight(s[..|s| - 1])
  {
  }

  lemma KeptTightOne(s: string)
    requires Tight(s) && s != ""
    ensures Kept(s[..|s| - 1], Last(s)) == s
  {
    var a := s[..|s| - 1];
    assert s == a + [Last(s)];
    if a == "" {
      assert !IsSpace(s[0]);
    } else {
      assert Last(a) == s[|s| - 2];
    }
  }

  lemma TightSqueezed(s: string)
    requires Tight(s) && (s != "" ==> !IsSpace(Last(s)))
    ensures Squeezed(s) == s
  {
    TightKept(s);
  }

  /** A short tight text that starts like a quoted CREATE TABLE gets the phrase, once. */
  lemma ShortCreate(s: string)
    requires Tight(s) && QuotedCreate(s) && |s| < 79 && !IsSpace(Last(s))
    ensures Pretty(s) == CREATE + IF_NOT_EXISTS + s[13..] + ";\n" && Insertions(s) == 1
  {
    NotKept(s);
    TightSqueezed(s);
    hide Squeezed, Lines, Rendered, KeptAsIs, QuotedCreate;
    LinesRendered(s);
  }

  lemma NotKept(s: string)
    requires QuotedCreate(s)
    ensures !KeptAsIs(s)
  {
    assert s[7] == CREATE[7] && s[8] == CREATE[8];
    assert Lower(s[7]) != Lower("CREATE VIEW"[7]) && Lower(s[8]) != Lower("CREATE TRIG"[8]);
  }

  const SHADOW := "'t'(x)"

  /** As for this schema text. */
  lemma CreateExample()
    ensures Pretty(CREATE + SHADOW) == CREATE + IF_NOT_EXISTS + SHADOW + ";\n" && Insertions(CREATE + SHADOW) == 1
  {
    var s := CREATE + SHADOW;
    assert s[13..] == SHADOW && s[..13] == CREATE;
    assert s[13] == '\'' && s[18] == ')' && s[12] == ' ' && s[16] == '(' && s[11] == 'E' && s[15] == '\'' && s[17] == 'x' && s[14] == 't';
    ExampleTight();
    hide Tight, Pretty, Insertions;
    ShortCreate(s);
  }

  lemma ExampleTight()
    ensures Tight(CREATE + SHADOW)
  {
    var s := CREATE + SHADOW;
    forall i | 0 < i < |s|
      ensures IsSpace(s[i]) ==> !IsSpace(s[i - 1]) && s[i - 1] != '('
      ensures IsParen(s[i]) ==> !IsSpace(s[i - 1])
    {
      if i < 13 {
        assert s[i] == CREATE[i] && s[i - 1] == CREATE[i - 1];
      } else {
        assert s[i] == SHADOW[i - 13];
      }
    }
  }
}
