/**
 Text printed as SQL: string literals, and the replace(...) expressions that stand for text with
 line ends in it.
 */
module SqlText {
  import opened Decimals
  import opened Strings

  // ----- unused_string -----

  function Candidate(zA: string, i: nat): string {
    "(" + zA + Decimal(i) + ")"
  }

  /** The candidate with the digits d in it. */
  lemma CandidateText(zA: string, d: string)
    requires IsDecimal(d)
    ensures (forall i :: 0 <= i < |d| ==> IsDigit(d[i])) && Candidate(zA, Value(d)) == "(" + zA + d + ")"
  {
    DecimalOfValue(d);
  }

  /** A position of z can start at most one candidate. */
  lemma OneCandidatePerPosition(zA: string, i: nat, j: nat, z: string, at: int)
    requires OccursAt(Candidate(zA, i), z, at) && OccursAt(Candidate(zA, j), z, at)
    ensures i == j
  {
    hide Decimal;
    var r := z[at + 1 + |zA|..];
    TailAt("(" + zA, Decimal(i) + ")", z, at);
    TailAt("(" + zA, Decimal(j) + ")", z, at);
    NumberAt(r, i, j);
  }

  lemma NumberAt(r: string, i: nat, j: nat)
    requires Decimal(i) + ")" <= r && Decimal(j) + ")" <= r
    ensures i == j
  {
    hide Decimal;
    var a, b := Decimal(i), Decimal(j);
    var m, n := |a|, |b|;
    assert r == r[..m + 1] + r[m + 1..] && r == r[..n + 1] + r[n + 1..];
    assert a + (")" + r[m + 1..]) == r;
    assert b + (")" + r[n + 1..]) == r;
    DigitsEnd(a, b, ")" + r[m + 1..], ")" + r[n + 1..]);
    DecimalInjective(i, j);
  }

  lemma TailAt(head: string, tail: string, z: string, at: int)
    requires OccursAt(head + tail, z, at)
    ensures at + |head| <= |z| && tail <= z[at + |head|..]
  {
    assert z[at..at + |head + tail|][|head|..] == z[at + |head|..at + |head| + |tail|];
  }

  ghost function Place(p: string, z: string): (i: int)
    requires Occurs(p, z)
    ensures 0 <= i && OccursAt(p, z, i)
  {
    var i :| 0 <= i <= |z| && OccursAt(p, z, i);
    i
  }

  /** The places of the first n candidates. */
  ghost function Places(zA: string, z: string, n: nat): (s: set<int>)
    requires forall j :: 0 <= j < n ==> Occurs(Candidate(zA, j), z)
    ensures forall at :: at in s ==> 0 <= at < |z| && exists j :: 0 <= j < n && OccursAt(Candidate(zA, j), z, at)
  {
    if n == 0 then {} else
      var at := Place(Candidate(zA, n - 1), z);
      assert OccursAt(Candidate(zA, n - 1), z, at);
      Places(zA, z, n - 1) + {at}
  }

  lemma {:induction false} PlacesDistinct(zA: string, z: string, n: nat)
    requires forall j :: 0 <= j < n ==> Occurs(Candidate(zA, j), z)
    ensures |Places(zA, z, n)| == n
  {
    if n > 0 {
      PlacesDistinct(zA, z, n - 1);
      var at := Place(Candidate(zA, n - 1), z);
      if at in Places(zA, z, n - 1) {
        var j :| 0 <= j < n - 1 && OccursAt(Candidate(zA, j), z, at);
        OneCandidatePerPosition(zA, j, n - 1, z, at);
      }
    }
  }

  ghost function Below(n: nat): (s: set<int>)
    ensures |s| == n && forall k :: k in s <==> 0 <= k < n
  {
    if n == 0 then {} else Below(n - 1) + {n - 1}
  }

  lemma SubsetSize(a: set<int>, b: set<int>)
    requires a <= b
    ensures |a| <= |b|
  {
    assert b == a + (b - a);
  }

  /** So at most |z| candidates can occur in z. */
  lemma CandidatesRunOut(zA: string, z: string, n: nat)
    requires forall j :: 0 <= j < n ==> Occurs(Candidate(zA, j), z)
    ensures n <= |z|
  {
    PlacesDistinct(zA, z, n);
    SubsetSize(Places(zA, z, n), Below(|z|));
  }

  /** The first of zA, zB, "(zA0)", "(zA1)", ... that does not occur in z. */
  ghost predicate IsUnused(r: string, z: string, zA: string, zB: string) {
    && !Occurs(r, z)
    && (r == zA || (Occurs(zA, z) && (r == zB || (Occurs(zB, z) &&
        exists i :: 0 <= i && r == Candidate(zA, i) && forall j :: 0 <= j < i ==> Occurs(Candidate(zA, j), z)))))
  }

  /** unused_string; the counter stays within 32 bits for every string shorter than that. */
  method UnusedString(z: string, zA: string, zB: string) returns (r: string)
    requires |z| < 0xffff_ffff
    ensures IsUnused(r, z, zA, zB)
  {
    if !Occurs(zA, z) {
      return zA;
    }
    if !Occurs(zB, z) {
      return zB;
    }
    var i := 0;
    r := Candidate(zA, i);
    i := i + 1;
    while Occurs(r, z)
      invariant 1 <= i <= |z| + 1 && r == Candidate(zA, i - 1)
      invariant forall j :: 0 <= j < i - 1 ==> Occurs(Candidate(zA, j), z)
      decreases |z| + 1 - i
    {
      CandidatesRunOut(zA, z, i);
      r := Candidate(zA, i);
      i := i + 1;
    }
    assert i <= 0xffff_ffff;
  }

  /** A generated string and its NUL fit the buffer of 20 bytes. */
  lemma CandidateFits(zA: string, i: nat)
    requires |zA| <= 7 && i <= 0xffff_ffff
    ensures |Candidate(zA, i)| + 1 <= 20
  {
    assert Pow10(10) == 10_000_000_000 by {
      assert Pow10(5) == 100_000;
    }
    DecimalLength(i, 10);
  }

  // ----- literals -----

  /** A character inside a string literal. */
  function Escaped(c: char): string {
    if c == '\'' then "''" else [c]
  }

  /** The text of z with nl for every LF and cr for every CR, inside a string literal. */
  function Body(z: string, nl: string, cr: string): string {
    if z == "" then "" else
      (if z[0] == '\n' then nl else if z[0] == '\r' then cr else Escaped(z[0])) + Body(z[1..], nl, cr)
  }

  datatype Eval = Fail | Val(v: string, rest: string)

  /** The value of a literal, from behind its opening quote. */
  function LiteralTail(s: string): Eval {
    if s == "" then Fail
    else if s[0] == '\'' && |s| > 1 && s[1] == '\'' then
      match LiteralTail(s[2..]) case Fail => Fail case Val(v, r) => Val("'" + v, r)
    else if s[0] == '\'' then Val("", s[1..])
    else match LiteralTail(s[1..]) case Fail => Fail case Val(v, r) => Val([s[0]] + v, r)
  }

  function Literal(s: string): Eval {
    if s == "" || s[0] != '\'' then Fail else LiteralTail(s[1..])
  }

  /** The digits that s starts with. */
  function Digits(s: string): (d: string)
    ensures |d| <= |s| && forall i :: 0 <= i < |d| ==> IsDigit(d[i])
  {
    if s == "" || !IsDigit(s[0]) then "" else [s[0]] + Digits(s[1..])
  }

  /** The end of a replace call behind its first argument x: a literal and char(n), for an ASCII n. */
  function ReplaceTail(x: string, s: string): Eval {
    if s == "" || s[0] != ',' then Fail else
      match Literal(s[1..])
      case Fail => Fail
      case Val(p, r) =>
        if !(",char(" <= r) then Fail else
          var d := Digits(r[6..]);
          var q := r[6 + |d|..];
          if d != "" && Value(d) < 128 && "))" <= q then Val(Replace(x, p, Value(d) as char), q[2..]) else Fail
  }

  /** The value of the expression at the start of s: a literal, or replace(expression,literal,char(n)). */
  function Expr(s: string): Eval
    decreases |s|
  {
    if "replace(" <= s then
      match Expr(s[8..]) case Fail => Fail case Val(x, r) => ReplaceTail(x, r)
    else Literal(s)
  }

  /** A text behind a literal that does not continue it. */
  predicate Separate(t: string) {
    t == "" || t[0] != '\''
  }

  /** The printed text s is an expression for z, wherever it stands. */
  ghost predicate Denotes(s: string, z: string) {
    forall t :: Separate(t) ==> Expr(s + t) == Val(z, t)
  }

  lemma {:induction false} DigitsBefore(d: string, t: string)
    requires (forall i :: 0 <= i < |d| ==> IsDigit(d[i])) && t != "" && !IsDigit(t[0])
    ensures Digits(d + t) == d
  {
    if d == "" {
      assert d + t == t;
    } else {
      assert (d + t)[1..] == d[1..] + t;
      DigitsBefore(d[1..], t);
      assert [d[0]] + d[1..] == d;
    }
  }

  /** The text of a call of char, and the parentheses that close it and replace. */
  function CharCall(n: nat): string {
    ",char(" + Decimal(n) + "))"
  }

  predicate NoQuote(p: string) {
    '\'' !in p
  }

  lemma {:induction false} PlainLiteral(p: string, t: string)
    requires NoQuote(p) && Separate(t)
    ensures LiteralTail(p + ("'" + t)) == Val(p, t)
  {
    var s := p + ("'" + t);
    if p == "" {
      assert s == "'" + t && s[1..] == t;
    } else {
      assert s[0] == p[0] && s[1..] == p[1..] + ("'" + t);
      PlainLiteral(p[1..], t);
      assert [p[0]] + p[1..] == p;
    }
  }

  lemma {:induction false} CopiedLiteral(p: string, s: string)
    requires NoQuote(p)
    ensures LiteralTail(p + s) == match LiteralTail(s) case Fail => Fail case Val(v, r) => Val(p + v, r)
  {
    if p == "" {
      assert p + s == s;
      match LiteralTail(s) case Fail => case Val(v, r) => assert "" + v == v;
    } else {
      assert (p + s)[0] == p[0] && (p + s)[1..] == p[1..] + s;
      CopiedLiteral(p[1..], s);
      match LiteralTail(s) case Fail => case Val(v, r) => assert [p[0]] + (p[1..] + v) == p + v;
    }
  }

  lemma EscapedLiteral(c: char, s: string)
    ensures LiteralTail(Escaped(c) + s) == match LiteralTail(s) case Fail => Fail case Val(v, r) => Val([c] + v, r)
  {
    if c == '\'' {
      assert ("''" + s)[2..] == s;
    } else {
      assert ([c] + s)[1..] == s;
    }
  }

  lemma EmptyLiteral(t: string)
    requires Separate(t)
    ensures LiteralTail("'" + t) == Val("", t)
  {
    assert ("'" + t)[1..] == t;
  }

  /** Reading a printed literal gives the text with the placeholders in it. */
  lemma {:induction false} LiteralOfBody(z: string, nl: string, cr: string, t: string)
    requires NoQuote(nl) && NoQuote(cr) && Separate(t)
    ensures LiteralTail(Body(z, nl, cr) + ("'" + t)) == Val(Expand(z, '\r', cr, '\n', nl), t)
  {
    hide LiteralTail, Escaped, NoQuote;
    if z == "" {
      assert "" + ("'" + t) == "'" + t;
      EmptyLiteral(t);
    } else {
      var s1 := Body(z[1..], nl, cr) + ("'" + t);
      LiteralOfBody(z[1..], nl, cr, t);
      var x := if z[0] == '\n' then nl else if z[0] == '\r' then cr else Escaped(z[0]);
      assert Body(z, nl, cr) + ("'" + t) == x + s1;
      if z[0] == '\n' {
        CopiedLiteral(nl, s1);
      } else if z[0] == '\r' {
        CopiedLiteral(cr, s1);
      } else {
        EscapedLiteral(z[0], s1);
      }
    }
  }

  // ----- placeholders keep apart -----

  /** What unused_string makes of "\x" and "\o" for a line end. */
  ghost predicate Shape(p: string, x: char, o: string) {
    p == ['\\', x] || p == "\\" + o || exists i :: 0 <= i && p == Candidate(['\\', x], i)
  }

  lemma UnusedShape(r: string, z: string, x: char, o: string)
    requires IsUnused(r, z, ['\\', x], "\\" + o)
    ensures Shape(r, x, o) && !Occurs(r, z)
  {
  }

  lemma Differ(a: string, b: string, i: nat)
    requires i < |a| && i < |b| && a[i] != b[i]
    ensures !Compatible(a, b)
  {
  }

  /** The characters of a placeholder: only the first two can be a parenthesis or a backslash. */
  lemma ShapeChars(p: string, x: char, o: string)
    requires Shape(p, x, o) && x in "nr" && o in {"012", "015"}
    ensures NoQuote(p) && '\n' !in p && '\r' !in p && |p| >= 2
    ensures p[0] == '\\' ==> (p[1] == x || (p[1] == '0' && p == "\\" + o)) && forall k :: 1 <= k < |p| ==> p[k] != '\\' && p[k] != '('
    ensures p[0] != '\\' ==> p[0] == '(' && p[1] == '\\' && |p| > 2 && p[2] == x && forall k :: 2 <= k < |p| ==> p[k] != '\\' && p[k] != '('
  {
    if p != ['\\', x] && p != "\\" + o {
      var i :| 0 <= i && p == Candidate(['\\', x], i);
      var d := Decimal(i);
      forall k | 2 < k < |p|
        ensures IsDigit(p[k]) || p[k] == ')'
      {
        if k < |p| - 1 {
          assert p[k] == d[k - 3];
        }
      }
    }
  }

  lemma SuffixesApart(p: string, q: string, x: char, o: string, y: char, u: string)
    requires Shape(p, x, o) && Shape(q, y, u) && x in "nr" && y in "nr" && x != y && {o, u} == {"012", "015"}
    ensures forall k :: 1 <= k < |p| ==> !Compatible(p[k..], p) && !Compatible(p[k..], q)
  {
    ShapeChars(p, x, o);
    ShapeChars(q, y, u);
    forall k | 1 <= k < |p|
      ensures !Compatible(p[k..], p) && !Compatible(p[k..], q)
    {
      Differ(p[k..], p, 0);
      if p[k] == '\\' && q[0] == '\\' {
        Differ(p[k..], q, 1);
      } else {
        Differ(p[k..], q, 0);
      }
    }
  }

  lemma WholesApart(p: string, q: string, x: char, o: string, y: char, u: string)
    requires Shape(p, x, o) && Shape(q, y, u) && x in "nr" && y in "nr" && x != y && {o, u} == {"012", "015"}
    ensures !Compatible(p, q)
  {
    ShapeChars(p, x, o);
    ShapeChars(q, y, u);
    assert o != u;
    if p[0] != q[0] {
      Differ(p, q, 0);
    } else if p[0] == '(' {
      Differ(p, q, 2);
    } else if p[1] != q[1] {
      Differ(p, q, 1);
    } else {
      assert p == "\\" + o && q == "\\" + u;
      assert p[3] == o[2] && q[3] == u[2];
      Differ(p, q, 3);
    }
  }

  lemma PlaceholdersIndependent(cr: string, nl: string)
    requires Shape(cr, 'r', "015") && Shape(nl, 'n', "012")
    ensures Independent(cr, nl) && Independent(nl, "\r")
  {
    ShapeChars(cr, 'r', "015");
    ShapeChars(nl, 'n', "012");
    SuffixesApart(cr, nl, 'r', "015", 'n', "012");
    SuffixesApart(nl, cr, 'n', "012", 'r', "015");
    WholesApart(cr, nl, 'r', "015", 'n', "012");
    forall j | 0 <= j < |nl|
      ensures !Compatible(nl[j..], cr)
    {
      if j == 0 {
        assert nl[0..] == nl;
      }
    }
    forall k | 1 <= k < |nl|
      ensures !Compatible(nl[k..], "\r")
    {
      Differ(nl[k..], "\r", 0);
    }
    assert "\r"[0..] == "\r";
    Differ("\r", nl, 0);
  }

  // ----- what the two replacements give back -----

  lemma {:induction false} ExpandSwap(z: string, c: char, p: string, d: char, q: string)
    requires c != d
    ensures Expand(z, c, p, d, q) == Expand(z, d, q, c, p)
  {
    if z != "" {
      ExpandSwap(z[1..], c, p, d, q);
    }
  }

  lemma {:induction false} ExpandSame(z: string, c: char, d: char)
    ensures Expand(z, c, [c], d, [d]) == z
  {
    if z != "" {
      ExpandSame(z[1..], c, d);
    }
  }

  lemma {:induction false} ExpandAbsent(z: string, c: char, p: string, p': string, d: char, q: string)
    requires c !in z
    ensures Expand(z, c, p, d, q) == Expand(z, c, p', d, q)
  {
    if z != "" {
      ExpandAbsent(z[1..], c, p, p', d, q);
    }
  }

  /** The inner replacement brings back the CRs, the outer one the LFs. */
  lemma ReplacementsUndo(z: string, cr: string, nl: string)
    requires Shape(cr, 'r', "015") && Shape(nl, 'n', "012") && !Occurs(cr, z) && !Occurs(nl, z)
    ensures Replace(Replace(Expand(z, '\r', cr, '\n', nl), cr, '\r'), nl, '\n') == z
  {
    PlaceholdersIndependent(cr, nl);
    ReplaceUndoes(z, '\r', cr, '\n', nl);
    ExpandSwap(z, '\r', "\r", '\n', nl);
    ReplaceUndoes(z, '\n', nl, '\r', "\r");
    ExpandSame(z, '\n', '\r');
  }

  lemma OneReplacementUndoes(z: string, cr: string, nl: string)
    requires Shape(cr, 'r', "015") && Shape(nl, 'n', "012")
    ensures '\n' !in z && !Occurs(cr, z) ==> Replace(Expand(z, '\r', cr, '\n', nl), cr, '\r') == z
    ensures '\r' !in z && !Occurs(nl, z) ==> Replace(Expand(z, '\r', cr, '\n', nl), nl, '\n') == z
  {
    PlaceholdersIndependent(cr, nl);
    if '\n' !in z && !Occurs(cr, z) {
      ReplaceUndoes(z, '\r', cr, '\n', nl);
      ExpandSwap(z, '\r', "\r", '\n', nl);
      ExpandAbsent(z, '\n', nl, "\n", '\r', "\r");
      ExpandSame(z, '\n', '\r');
    }
    if '\r' !in z && !Occurs(nl, z) {
      ExpandAbsent(z, '\r', cr, "\r", '\n', nl);
      ExpandSwap(z, '\r', "\r", '\n', nl);
      ReplaceUndoes(z, '\n', nl, '\r', "\r");
      ExpandSame(z, '\n', '\r');
    }
  }
}
