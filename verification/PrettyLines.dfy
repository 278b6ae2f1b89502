/**
 Schema text by its layout: what a run of white space becomes, where the lines of a long table break
 and how they are indented, and which texts are printed as they are.
 */
module PrettyLines {
  import opened CText
  import opened Letters
  import opened P = Pretty

  // ----- white space -----

  /** The text kept so far and s behind it. */
  function KeptOnto(a: string, s: string): string
    decreases |s|
  {
    if s == "" then a else KeptOnto(Kept(a, s[0]), s[1..])
  }

  lemma {:induction false} KeptOntoNext(a: string, s: string, c: char)
    ensures KeptOnto(a, s + [c]) == Kept(KeptOnto(a, s), c)
    decreases |s|
  {
    hide Kept;
    if s == "" {
      assert (s + [c])[1..] == "" && (s + [c])[0] == c;
      assert KeptOnto(Kept(a, c), "") == Kept(a, c);
    } else {
      assert (s + [c])[1..] == s[1..] + [c] && (s + [c])[0] == s[0];
      KeptOntoNext(Kept(a, s[0]), s[1..], c);
    }
  }

  lemma {:induction false} KeptAllConcat(a: string, s: string)
    ensures KeptAll(a + s) == KeptOnto(KeptAll(a), s)
    decreases |s|
  {
    hide Kept;
    if s == "" {
      assert a + s == a;
    } else {
      var n := |s| - 1;
      KeptAllConcat(a, s[..n]);
      assert (a + s)[..|a + s| - 1] == a + s[..n] && Last(a + s) == s[n];
      assert s == s[..n] + [s[n]];
      KeptOntoNext(KeptAll(a), s[..n], s[n]);
    }
  }

  lemma {:induction false} TightOnto(a: string, s: string)
    requires Tight(a + s) && a != ""
    ensures KeptOnto(a, s) == a + s
    decreases |s|
  {
    hide Kept, Tight;
    if s == "" {
      assert a + s == a;
    } else {
      var b := a + [s[0]];
      assert a + s == b + s[1..];
      TightPrefix(b, s[1..]);
      KeptTightOne(b);
      assert b[..|b| - 1] == a && Last(b) == s[0];
      TightOnto(b, s[1..]);
    }
  }

  lemma TightPrefix(a: string, s: string)
    requires Tight(a + s)
    ensures Tight(a)
  {
    forall i | 0 < i < |a|
      ensures IsSpace(a[i]) ==> !IsSpace(a[i - 1]) && a[i - 1] != '('
      ensures IsParen(a[i]) ==> !IsSpace(a[i - 1])
    {
      assert (a + s)[i] == a[i] && (a + s)[i - 1] == a[i - 1];
    }
    assert a != "" ==> a[0] == (a + s)[0];
  }

  lemma {:induction false} BlankOnto(a: string, w: string)
    requires Blank(w) && (a == "" || IsSpace(Last(a)) || Last(a) == '(')
    ensures KeptOnto(a, w) == a
  {
    if w != "" {
      BlankOnto(a, w[1..]);
    }
  }

  /** What a run of white space between a and b becomes: its first character, or nothing next to a parenthesis. */
  function Between(a: string, w: string, b: string): string
    requires a != "" && w != "" && b != ""
  {
    if Last(a) == '(' || b[0] == '(' || b[0] == ')' then "" else [w[0]]
  }

  lemma RunOnto(a: string, w: string, b: string)
    requires a != "" && !IsSpace(Last(a)) && w != "" && Blank(w) && b != "" && !IsSpace(b[0])
    ensures KeptOnto(a, w + b) == KeptOnto(a + Between(a, w, b) + [b[0]], b[1..])
  {
    hide KeptOnto;
    var r := if Last(a) == '(' then a else a + [w[0]];
    OntoConcat(a, w, b);
    OntoFirst(a, w);
    BlankOnto(r, w[1..]);
    OntoFirst(r, b);
    if Last(a) == '(' {
      assert a + Between(a, w, b) == a;
    } else if IsParen(b[0]) {
      assert r[..|r| - 1] == a == a + Between(a, w, b);
    } else {
      assert r == a + Between(a, w, b);
    }
  }

  lemma OntoFirst(a: string, s: string)
    requires s != ""
    ensures KeptOnto(a, s) == KeptOnto(Kept(a, s[0]), s[1..])
  {
  }

  lemma {:induction false} OntoConcat(a: string, s: string, t: string)
    ensures KeptOnto(a, s + t) == KeptOnto(KeptOnto(a, s), t)
    decreases |s|
  {
    hide Kept;
    if s == "" {
      assert s + t == t;
    } else {
      assert (s + t)[1..] == s[1..] + t;
      OntoConcat(Kept(a, s[0]), s[1..], t);
    }
  }

  lemma TightJoin(a: string, g: string, b: string)
    requires Tight(a) && a != "" && !IsSpace(Last(a)) && Tight(b) && b != ""
    requires g == "" || (|g| == 1 && IsSpace(g[0]) && Last(a) != '(' && !IsParen(b[0]))
    ensures Tight(a + g + b)
  {
    hide IsSpace, IsParen;
    var r := a + g + b;
    assert r[0] == a[0];
    forall i | 0 < i < |r|
      ensures IsSpace(r[i]) ==> !IsSpace(r[i - 1]) && r[i - 1] != '('
      ensures IsParen(r[i]) ==> !IsSpace(r[i - 1])
    {
      if i < |a| {
        assert r[i] == a[i] && r[i - 1] == a[i - 1];
      } else if i > |a| + |g| {
        assert r[i] == b[i - |a| - |g|] && r[i - 1] == b[i - 1 - |a| - |g|];
      } else {
        assert r[|a| - 1] == Last(a) && r[|a| + |g|] == b[0];
        assert g != "" ==> r[|a|] == g[0];
        SpaceNoParen(r[i]);
      }
    }
  }

  lemma SpaceNoParen(c: char)
    ensures !(IsSpace(c) && IsParen(c))
  {
  }

  /** Between two tight pieces a run of white space becomes one character, or none next to a parenthesis. */
  lemma SqueezedRun(a: string, w: string, b: string)
    requires Tight(a) && a != "" && !IsSpace(Last(a)) && Tight(b) && b != "" && !IsSpace(Last(b))
    requires w != "" && Blank(w)
    ensures Squeezed(a + (w + b)) == a + Between(a, w, b) + b
  {
    hide Tight, KeptOnto, KeptAll;
    var g := Between(a, w, b);
    var r := a + g + b;
    StartsTight(a);
    StartsTight(b);
    assert (a + (w + b))[0] == a[0];
    KeptAllConcat(a, w + b);
    TightKept(a);
    RunOnto(a, w, b);
    TightJoin(a, g, b);
    assert a + g + [b[0]] + b[1..] == r;
    TightOnto(a + g + [b[0]], b[1..]);
    assert Last(r) == Last(b);
  }

  lemma StartsTight(a: string)
    requires Tight(a) && a != ""
    ensures !IsSpace(a[0])
  {
  }

  // ----- the lines of a table -----

  /** Text without parentheses. */
  predicate Open(s: string) {
    forall i :: 0 <= i < |s| ==> s[i] != '(' && s[i] != ')'
  }

  /** Parentheses that match from d open ones on, and no comma or line end outside of them. */
  predicate Matched(s: string, d: nat) {
    if s == "" then d == 0
    else if s[0] == '(' then Matched(s[1..], d + 1)
    else if s[0] == ')' then d > 0 && Matched(s[1..], d - 1)
    else (d > 0 || (s[0] != ',' && s[0] != '\n')) && Matched(s[1..], d)
  }

  /** One column or constraint, the comma or line end behind it, and the white space behind that. */
  datatype Item = Item(text: string, end: char, gap: string)

  predicate NoSpaceFirst(s: string) {
    s != "" ==> !IsSpace(s[0])
  }

  predicate ValidItem(c: Item) {
    && Matched(c.text, 0) && (c.end == ',' || c.end == '\n') && Blank(c.gap)
    && NoSpaceFirst(c.text) && (c.text == "" ==> c.end == ',')
  }

  predicate ValidItems(cs: seq<Item>) {
    forall i :: 0 <= i < |cs| ==> ValidItem(cs[i])
  }

  function ItemsText(cs: seq<Item>): string {
    if cs == [] then "" else cs[0].text + ([cs[0].end] + (cs[0].gap + ItemsText(cs[1..])))
  }

  function ItemLine(c: Item): Line {
    Line(if c.end == '\n' then c.text else c.text + [c.end], "\n  ")
  }

  function ItemLines(cs: seq<Item>): seq<Line> {
    if cs == [] then [] else [ItemLine(cs[0])] + ItemLines(cs[1..])
  }

  /** A table: what stands in front of its parenthesis, its items, the last of which has no comma, and what stands behind. */
  datatype Table = Table(head: string, gap: string, items: seq<Item>, last: string, tail: string)

  predicate ValidTable(t: Table) {
    Open(t.head) && Blank(t.gap) && ValidItems(t.items) && Matched(t.last, 0) && NoSpaceFirst(t.last) && Open(t.tail)
  }

  function TableText(t: Table): string {
    t.head + ("(" + (t.gap + (ItemsText(t.items) + (t.last + (")" + t.tail)))))
  }

  function TableLines(t: Table): seq<Line> {
    [Line(t.head + "(", "\n  ")] + ItemLines(t.items) + (if t.last == "" then [] else [Line(t.last, "\n")]) + [Line(")" + t.tail, ";\n")]
  }

  /** A character at which no line ends. */
  lemma QuietOne(p: Pen, c: char, t: string)
    requires !IsParen(p.cEnd) && (c == ')' ==> p.nParen != 1)
    requires !(Depth(p.nParen, c) == 1 && (c == '(' || c == ',' || c == '\n'))
    ensures var e := Track(p, c).cEnd;
      !IsParen(e) && Layout(p, [c] + t) == Layout(p.(cEnd := e, nParen := Depth(p.nParen, c), line := p.line + [c]), t)
  {
    hide Layout;
    TrackDepth(p, c);
    assert ([c] + t)[1..] == t;
    LayoutNext(p, [c] + t);
  }

  lemma {:induction false} OpenLayout(p: Pen, s: string, t: string) returns (e: char)
    requires !IsParen(p.cEnd) && p.nParen == 0 && Open(s)
    ensures !IsParen(e) && Layout(p, s + t) == Layout(p.(cEnd := e, line := p.line + s), t)
    decreases |s|
  {
    hide Layout, Track;
    if s == "" {
      e := p.cEnd;
      assert s + t == t && p.line + s == p.line;
    } else {
      var q := p.(cEnd := Track(p, s[0]).cEnd, line := p.line + [s[0]]);
      QuietOne(p, s[0], s[1..] + t);
      assert s + t == [s[0]] + (s[1..] + t);
      e := OpenLayout(q, s[1..], t);
      assert q.line + s[1..] == p.line + s;
    }
  }

  lemma {:induction false} MatchedLayout(p: Pen, s: string, d: nat, t: string) returns (e: char)
    requires !IsParen(p.cEnd) && p.nParen == d + 1 && Matched(s, d)
    ensures !IsParen(e) && Layout(p, s + t) == Layout(p.(cEnd := e, nParen := 1, line := p.line + s), t)
    decreases |s|
  {
    hide Layout, Track;
    if s == "" {
      e := p.cEnd;
      assert s + t == t && p.line + s == p.line;
    } else {
      var d1 := if s[0] == '(' then d + 1 else if s[0] == ')' then d - 1 else d;
      var q := p.(cEnd := Track(p, s[0]).cEnd, nParen := d1 + 1, line := p.line + [s[0]]);
      QuietOne(p, s[0], s[1..] + t);
      assert s + t == [s[0]] + (s[1..] + t);
      e := MatchedLayout(q, s[1..], d1, t);
      assert q.line + s[1..] == p.line + s;
    }
  }

  /** The end of a line, and the white space behind it. */
  lemma BreakLayout(p: Pen, c: char, g: string, t: string) returns (e: char)
    requires !IsParen(p.cEnd) && Depth(p.nParen, c) == 1 && (c == '(' || c == ',' || c == '\n') && Blank(g) && NoSpaceFirst(t)
    ensures !IsParen(e)
    ensures Layout(p, [c] + (g + t)) ==
      Layout(Pen(e, 1, p.nLine + 1, "", p.lines + [Line(if c == '\n' then p.line else p.line + [c], "\n  ")]), t)
  {
    hide Layout, SkipSpace;
    TrackDepth(p, c);
    e := Track(p, c).cEnd;
    SkipBlank(g, t);
    assert ([c] + (g + t))[1..] == g + t;
    LayoutNext(p, [c] + (g + t));
    TrackLine(p, c);
  }

  lemma TrackLine(p: Pen, c: char)
    ensures Track(p, c).nLine == p.nLine
  {
  }

  /** The parenthesis that closes the table. */
  lemma CloseLayout(p: Pen, t: string)
    requires !IsParen(p.cEnd) && p.nParen == 1 && p.nLine > 0
    ensures Layout(p, ")" + t) ==
      Layout(p.(nParen := 0, line := ")", lines := p.lines + if p.line == "" then [] else [Line(p.line, "\n")]), t)
  {
    hide Layout;
    assert (")" + t)[1..] == t && "" + ")" == ")";
    LayoutNext(p, ")" + t);
    assert p.line == "" ==> p.lines + [] == p.lines && p.line + [')'] == ")";
  }

  lemma ItemsFirst(cs: seq<Item>, t: string)
    requires cs != []
    ensures ItemsText(cs) + t == cs[0].text + ([cs[0].end] + (cs[0].gap + (ItemsText(cs[1..]) + t)))
    ensures ItemLines(cs) == [ItemLine(cs[0])] + ItemLines(cs[1..])
  {
    hide ItemLine;
  }

  lemma NoItems(t: string)
    ensures ItemsText([]) + t == t && ItemLines([]) == []
  {
  }

  /** One item, up to where the next one starts. */
  lemma ItemLayout(p: Pen, c: Item, r: string) returns (e: char)
    requires !IsParen(p.cEnd) && p.nParen == 1 && p.line == "" && ValidItem(c) && NoSpaceFirst(r)
    ensures !IsParen(e)
    ensures Layout(p, c.text + ([c.end] + (c.gap + r))) == Layout(Pen(e, 1, p.nLine + 1, "", p.lines + [ItemLine(c)]), r)
  {
    hide Layout, Matched, Blank, NoSpaceFirst;
    e := MatchedLayout(p, c.text, 0, [c.end] + (c.gap + r));
    assert p.line + c.text == c.text;
    e := BreakLayout(p.(cEnd := e, line := c.text), c.end, c.gap, r);
  }

  lemma {:induction false} ItemsLayout(p: Pen, cs: seq<Item>, t: string) returns (e: char, n: nat)
    requires !IsParen(p.cEnd) && p.nParen == 1 && p.line == "" && ValidItems(cs) && NoSpaceFirst(t)
    ensures !IsParen(e) && n >= p.nLine && Layout(p, ItemsText(cs) + t) == Layout(Pen(e, 1, n, "", p.lines + ItemLines(cs)), t)
    decreases |cs|
  {
    hide Layout, ItemsText, ItemLines, ItemLine, ValidItem, NoSpaceFirst, IsParen;
    if cs == [] {
      e, n := p.cEnd, p.nLine;
      NoItems(t);
      assert p.lines + [] == p.lines;
    } else {
      ItemsFirst(cs, t);
      ItemsStart(cs[1..], t);
      e := ItemLayout(p, cs[0], ItemsText(cs[1..]) + t);
      var lines := p.lines + [ItemLine(cs[0])];
      e, n := ItemsLayout(Pen(e, 1, p.nLine + 1, "", lines), cs[1..], t);
      assert lines + ItemLines(cs[1..]) == p.lines + ItemLines(cs);
    }
  }

  lemma ItemsStart(cs: seq<Item>, t: string)
    requires ValidItems(cs) && NoSpaceFirst(t)
    ensures NoSpaceFirst(ItemsText(cs) + t)
  {
    hide Matched, Blank;
    if cs == [] {
      assert ItemsText(cs) + t == t;
    } else {
      var c := cs[0];
      assert ValidItem(c);
      assert (ItemsText(cs) + t)[0] == if c.text == "" then c.end else c.text[0];
    }
  }

  lemma LastStart(last: string, t: string)
    requires NoSpaceFirst(last)
    ensures NoSpaceFirst(last + (")" + t))
  {
    var r := last + (")" + t);
    assert r[0] == if last == "" then ')' else last[0];
  }

  /** Laid out, a table is its first line up to the parenthesis, a line for each item, and the rest. */
  lemma TableLayout(t: Table)
    requires ValidTable(t)
    ensures var p := Layout(FRESH, TableText(t)); p.lines + [Line(p.line, ";\n")] == TableLines(t)
  {
    hide Layout, Matched, ValidItems, NoSpaceFirst, ItemsText, ItemLines;
    var close := ")" + t.tail;
    var inside := ItemsText(t.items) + (t.last + close);
    assert TableText(t) == t.head + ("(" + (t.gap + inside));
    LastStart(t.last, t.tail);
    ItemsStart(t.items, t.last + close);
    var e := OpenLayout(FRESH, t.head, "(" + (t.gap + inside));
    assert FRESH.line + t.head == t.head;
    e := BreakLayout(FRESH.(cEnd := e, line := t.head), '(', t.gap, inside);
    var n;
    var first := [Line(t.head + "(", "\n  ")];
    assert [] + first == first;
    e, n := ItemsLayout(Pen(e, 1, 1, "", first), t.items, t.last + close);
    var lines := first + ItemLines(t.items);
    e := MatchedLayout(Pen(e, 1, n, "", lines), t.last, 0, close);
    assert "" + t.last == t.last;
    CloseLayout(Pen(e, 1, n, t.last, lines), t.tail);
    var all := lines + if t.last == "" then [] else [Line(t.last, "\n")];
    e := OpenLayout(Pen(e, 0, n, ")", all), t.tail, "");
    assert t.tail + "" == t.tail;
    LayoutDone(Pen(e, 0, n, close, all));
  }

  // ----- what is printed -----

  /** IF NOT EXISTS goes behind CREATE TABLE where a quote follows. */
  function WithPhrase(s: string): string {
    if |s| > 13 && s[..13] == "CREATE TABLE " && s[13] in "'\"" then "CREATE TABLE IF NOT EXISTS " + s[13..] else s
  }

  lemma PhraseLine(l: Line)
    ensures SchemaLine(l) == WithPhrase(l.text) + l.tail
  {
    assert "'\""[0] == '\'' && "'\""[1] == '"';
    assert CREATE + IF_NOT_EXISTS == "CREATE TABLE IF NOT EXISTS ";
    assert CREATE <= l.text <==> |l.text| >= 13 && l.text[..13] == "CREATE TABLE ";
  }

  function ItemsPrinted(cs: seq<Item>): string {
    if cs == [] then ""
    else WithPhrase(if cs[0].end == '\n' then cs[0].text else cs[0].text + [cs[0].end]) + "\n  " + ItemsPrinted(cs[1..])
  }

  /** Each item stands on a line of its own, indented by two spaces. */
  function TablePrinted(t: Table): string {
    WithPhrase(t.head + "(") + "\n  " + ItemsPrinted(t.items) + (if t.last == "" then "" else WithPhrase(t.last) + "\n")
      + (WithPhrase(")" + t.tail) + ";\n")
  }

  lemma {:induction false} RenderedConcat(a: seq<Line>, b: seq<Line>)
    ensures Rendered(a + b) == Rendered(a) + Rendered(b)
    decreases |b|
  {
    hide SchemaLine, Rendered;
    if b == [] {
      NothingRendered();
      assert a + b == a;
    } else {
      var n := |b| - 1;
      RenderedConcat(a, b[..n]);
      RenderedNext(a + b[..n], b[n]);
      RenderedNext(b[..n], b[n]);
      assert a + b == (a + b[..n]) + [b[n]] && b == b[..n] + [b[n]];
    }
  }

  lemma RenderedOne(l: Line)
    ensures Rendered([l]) == WithPhrase(l.text) + l.tail
  {
    hide SchemaLine;
    RenderedNext([], l);
    assert [] + [l] == [l];
    PhraseLine(l);
  }

  lemma {:induction false} RenderedItems(cs: seq<Item>)
    ensures Rendered(ItemLines(cs)) == ItemsPrinted(cs)
  {
    hide Rendered, WithPhrase;
    if cs == [] {
      NothingRendered();
    } else {
      RenderedConcat([ItemLine(cs[0])], ItemLines(cs[1..]));
      RenderedOne(ItemLine(cs[0]));
      RenderedItems(cs[1..]);
    }
  }

  lemma NothingRendered()
    ensures Rendered([]) == ""
  {
  }

  lemma TableRendered(t: Table)
    ensures Rendered(TableLines(t)) == TablePrinted(t)
  {
    hide Rendered, WithPhrase, ItemLines, ItemsPrinted;
    var first, last, end := Line(t.head + "(", "\n  "), Line(t.last, "\n"), Line(")" + t.tail, ";\n");
    var tail := if t.last == "" then [] else [last];
    RenderedConcat([first] + ItemLines(t.items) + tail, [end]);
    RenderedConcat([first] + ItemLines(t.items), tail);
    RenderedConcat([first], ItemLines(t.items));
    RenderedOne(first);
    RenderedOne(last);
    RenderedOne(end);
    RenderedItems(t.items);
    NothingRendered();
  }

  /** A table of 79 characters or more is printed item by item, a shorter text on one line. */
  lemma PrettyTable(s: string, t: Table)
    requires !KeptAsIs(s) && ValidTable(t) && Squeezed(s) == TableText(t) && |TableText(t)| >= 79
    ensures Pretty(s) == TablePrinted(t)
  {
    hide Squeezed, Layout, KeptAsIs, TablePrinted, TableLines, TableText, ValidTable, Rendered;
    TableLayout(t);
    TableRendered(t);
  }

  lemma PrettyShort(s: string)
    requires !KeptAsIs(s) && |Squeezed(s)| < 79
    ensures Pretty(s) == WithPhrase(Squeezed(s)) + ";\n"
  {
    hide Squeezed, Layout, KeptAsIs, Rendered;
    RenderedOne(Line(Squeezed(s), ";\n"));
  }

  // ----- views and triggers -----

  lemma LowerSame(c: char, d: char)
    ensures P.Lower(c) == P.Lower(d) <==> SameLetter(c, d)
  {
    hide SameLetter;
    SameLetterCodes(c, d);
  }

  lemma LikePrefix(w: string, s: string)
    ensures Like(w, s) <==> |s| >= |w| && SameWord(s[..|w|], w)
  {
    hide SameLetter, P.Lower;
    if |s| >= |w| {
      forall i | 0 <= i < |w|
        ensures P.Lower(s[i]) == P.Lower(w[i]) <==> SameLetter(s[..|w|][i], w[i])
      {
        LowerSame(s[i], w[i]);
      }
    }
  }

  /** The texts that are printed as they are start with CREATE VIEW or CREATE TRIG, in any case. */
  lemma KeptExactly(s: string)
    ensures KeptAsIs(s) <==> |s| >= 11 && (SameWord(s[..11], "CREATE VIEW") || SameWord(s[..11], "CREATE TRIG"))
  {
    hide Like, SameWord;
    LikePrefix("CREATE VIEW", s);
    LikePrefix("CREATE TRIG", s);
  }

  /** So a trigger or a view comes out unchanged, white space and line ends included. */
  lemma PrettyKept(w: string, s: string)
    requires SameWord(w, "CREATE VIEW") || SameWord(w, "CREATE TRIG")
    ensures Pretty(w + s) == w + s + ";\n"
  {
    assert |w| == 11;
    hide SameWord, KeptAsIs;
    assert (w + s)[..11] == w;
    KeptExactly(w + s);
  }
}
