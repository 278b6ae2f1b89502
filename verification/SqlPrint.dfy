/** output_quoted_string and output_quoted_escaped_string, and what their output evaluates to. */
module SqlPrint {
  import opened Decimals
  import opened Strings
  import opened SqlText

  // ----- the printed expression -----

  const CR_CALL := ",char(13))"
  const LF_CALL := ",char(10))"

  /** The calls around the literal: CR inside, LF outside, each only where there is one. */
  function Printed(z: string, nl: string, cr: string): string {
    (if '\n' in z then "replace(" else "") + ((if '\r' in z then "replace(" else "") +
      ("'" + (Body(z, nl, cr) + ("'" +
        ((if '\r' in z then ",'" + cr + "'" + CR_CALL else "") + (if '\n' in z then ",'" + nl + "'" + LF_CALL else ""))))))
  }

  lemma LiteralValue(z: string, nl: string, cr: string, t: string)
    requires NoQuote(nl) && NoQuote(cr) && Separate(t)
    ensures Expr("'" + (Body(z, nl, cr) + ("'" + t))) == Val(Expand(z, '\r', cr, '\n', nl), t)
  {
    var s := "'" + (Body(z, nl, cr) + ("'" + t));
    assert s[0] == '\'' && s[1..] == Body(z, nl, cr) + ("'" + t);
    LiteralOfBody(z, nl, cr, t);
  }

  predicate IsCall(call: string, c: char) {
    c as int < 128 && call == CharCall(c as int)
  }

  lemma LineEndCalls()
    ensures IsCall(CR_CALL, '\r') && IsCall(LF_CALL, '\n')
  {
    assert Decimal(1) == "1" && Decimal(13) == "13" && Decimal(10) == "10";
    assert ",char(" + "13" + "))" == ",char(13))" && ",char(" + "10" + "))" == ",char(10))";
  }

  lemma CallDigits(n: nat, t: string)
    ensures var r, d := CharCall(n) + t, Decimal(n);
      ",char(" <= r && Digits(r[6..]) == d && r[6 + |d|..] == "))" + t && r[6 + |d|..][2..] == t
  {
    hide Digits, Decimal;
    var r, d := CharCall(n) + t, Decimal(n);
    assert r == ",char(" + (d + ("))" + t)) && r[6..] == d + ("))" + t);
    DigitsBefore(d, "))" + t);
    assert r[6 + |d|..] == "))" + t && ("))" + t)[2..] == t;
  }

  lemma ReplaceTailValue(x: string, p: string, call: string, c: char, t: string)
    requires NoQuote(p) && IsCall(call, c)
    ensures ReplaceTail(x, ",'" + p + "'" + call + t) == Val(Replace(x, p, c), t)
  {
    hide Replace, LiteralTail, Digits, Decimal, Value, CharCall;
    var r := ",'" + p + "'" + call + t;
    var l := "'" + (p + ("'" + (call + t)));
    CallDigits(c as int, t);
    assert (call + t)[0] == ',';
    assert r[1..] == l && l[1..] == p + ("'" + (call + t));
    PlainLiteral(p, call + t);
    ValueOfDecimal(c as int);
  }

  /** With the numbers written out: char(10) stands for LF and char(13) for CR. */
  lemma CharCalls(x: string, p: string, t: string)
    requires NoQuote(p)
    ensures ReplaceTail(x, ",'" + p + "'" + ",char(10))" + t) == Val(Replace(x, p, '\n'), t)
    ensures ReplaceTail(x, ",'" + p + "'" + ",char(13))" + t) == Val(Replace(x, p, '\r'), t)
  {
    hide ReplaceTail, Replace;
    LineEndCalls();
    ReplaceTailValue(x, p, LF_CALL, '\n', t);
    ReplaceTailValue(x, p, CR_CALL, '\r', t);
  }

  lemma ExprOfCall(e: string)
    ensures Expr("replace(" + e) == match Expr(e) case Fail => Fail case Val(x, r) => ReplaceTail(x, r)
  {
    assert ("replace(" + e)[8..] == e && "replace(" <= "replace(" + e;
  }

  lemma CallValue(e: string, x: string, p: string, call: string, c: char, t: string)
    requires NoQuote(p) && IsCall(call, c)
    requires Expr(e + (",'" + p + "'" + call + t)) == Val(x, ",'" + p + "'" + call + t)
    ensures Expr("replace(" + e + (",'" + p + "'" + call) + t) == Val(Replace(x, p, c), t)
  {
    hide Expr, ReplaceTail, Replace, IsCall;
    var r := ",'" + p + "'" + call + t;
    ReplaceTailValue(x, p, call, c, t);
    ExprOfCall(e + r);
    assert "replace(" + e + (",'" + p + "'" + call) + t == "replace(" + (e + r);
  }

  /** The printed text evaluates to the string that was printed, and has no line end in it. */
  lemma PrintedDenotes(z: string, nl: string, cr: string)
    requires '\n' in z ==> Shape(nl, 'n', "012") && !Occurs(nl, z)
    requires '\r' in z ==> Shape(cr, 'r', "015") && !Occurs(cr, z)
    ensures Denotes(Printed(z, nl, cr), z)
  {
    var nl' := if '\n' in z then nl else "\\n";
    var cr' := if '\r' in z then cr else "\\r";
    BodyOnly(z, nl, nl', cr, cr');
    ShapeChars(nl', 'n', "012");
    ShapeChars(cr', 'r', "015");
    forall t | Separate(t)
      ensures Expr(Printed(z, nl, cr) + t) == Val(z, t)
    {
      PrintedValue(z, nl', cr', t);
    }
  }

  lemma {:induction false} BodyOnly(z: string, nl: string, nl': string, cr: string, cr': string)
    requires '\n' in z ==> nl == nl'
    requires '\r' in z ==> cr == cr'
    ensures Body(z, nl, cr) == Body(z, nl', cr')
  {
    if z != "" {
      BodyOnly(z[1..], nl, nl', cr, cr');
    }
  }

  lemma PrintedValue(z: string, nl: string, cr: string, t: string)
    requires Shape(nl, 'n', "012") && Shape(cr, 'r', "015") && NoQuote(nl) && NoQuote(cr) && Separate(t)
    requires '\n' in z ==> !Occurs(nl, z)
    requires '\r' in z ==> !Occurs(cr, z)
    ensures Expr(Printed(z, nl, cr) + t) == Val(z, t)
  {
    hide Expr, Body, Expand, Replace, Occurs, Shape, IsCall, NoQuote;
    LineEndCalls();
    var lit, x := "'" + Body(z, nl, cr) + "'", Expand(z, '\r', cr, '\n', nl);
    var crTail, nlTail := ",'" + cr + "'" + CR_CALL, ",'" + nl + "'" + LF_CALL;
    if '\r' in z && '\n' in z {
      LiteralAt(z, nl, cr, crTail + (nlTail + t));
      BothCalls(lit, x, cr, nl, t);
      ReplacementsUndo(z, cr, nl);
      assert Printed(z, nl, cr) + t == "replace(" + ("replace(" + lit + crTail) + nlTail + t;
    } else if '\r' in z {
      LiteralAt(z, nl, cr, crTail + t);
      assert crTail + t == ",'" + cr + "'" + CR_CALL + t;
      CallValue(lit, x, cr, CR_CALL, '\r', t);
      OneReplacementUndoes(z, cr, nl);
      assert Printed(z, nl, cr) + t == "replace(" + lit + crTail + t;
    } else if '\n' in z {
      LiteralAt(z, nl, cr, nlTail + t);
      assert nlTail + t == ",'" + nl + "'" + LF_CALL + t;
      CallValue(lit, x, nl, LF_CALL, '\n', t);
      OneReplacementUndoes(z, cr, nl);
      assert Printed(z, nl, cr) + t == "replace(" + lit + nlTail + t;
    } else {
      LiteralAt(z, nl, cr, t);
      NothingToExpand(z, cr, nl);
      assert Printed(z, nl, cr) + t == lit + t;
    }
  }

  /** The call for the CRs inside that for the LFs. */
  lemma BothCalls(lit: string, x: string, cr: string, nl: string, t: string)
    requires NoQuote(cr) && NoQuote(nl)
    requires var crTail, nlTail := ",'" + cr + "'" + CR_CALL, ",'" + nl + "'" + LF_CALL;
      Expr(lit + (crTail + (nlTail + t))) == Val(x, crTail + (nlTail + t))
    ensures var crTail, nlTail := ",'" + cr + "'" + CR_CALL, ",'" + nl + "'" + LF_CALL;
      Expr("replace(" + ("replace(" + lit + crTail) + nlTail + t) == Val(Replace(Replace(x, cr, '\r'), nl, '\n'), t)
  {
    hide Expr, Replace, IsCall, NoQuote;
    LineEndCalls();
    var crTail, nlTail := ",'" + cr + "'" + CR_CALL, ",'" + nl + "'" + LF_CALL;
    assert crTail + (nlTail + t) == ",'" + cr + "'" + CR_CALL + (nlTail + t);
    CallValue(lit, x, cr, CR_CALL, '\r', nlTail + t);
    var e := "replace(" + lit + crTail;
    assert e + (",'" + nl + "'" + LF_CALL + t) == "replace(" + lit + crTail + (nlTail + t);
    assert nlTail + t == ",'" + nl + "'" + LF_CALL + t;
    CallValue(e, Replace(x, cr, '\r'), nl, LF_CALL, '\n', t);
  }

  lemma LiteralAt(z: string, nl: string, cr: string, t: string)
    requires NoQuote(nl) && NoQuote(cr) && Separate(t)
    ensures Expr("'" + Body(z, nl, cr) + "'" + t) == Val(Expand(z, '\r', cr, '\n', nl), t)
  {
    LiteralValue(z, nl, cr, t);
    assert "'" + Body(z, nl, cr) + "'" + t == "'" + (Body(z, nl, cr) + ("'" + t));
  }

  lemma NothingToExpand(z: string, cr: string, nl: string)
    requires '\r' !in z && '\n' !in z
    ensures Expand(z, '\r', cr, '\n', nl) == z
  {
    ExpandAbsent(z, '\r', cr, "\r", '\n', nl);
    ExpandSwap(z, '\r', "\r", '\n', nl);
    ExpandAbsent(z, '\n', nl, "\n", '\r', "\r");
    ExpandSame(z, '\n', '\r');
  }

  // ----- the printers -----

  /** How far the text from p on runs without a quote, and without a line end where those count. */
  method Run(z: string, p: nat, lineEnds: bool) returns (i: nat)
    requires p <= |z|
    ensures p + i <= |z| && forall j :: p <= j < p + i ==> z[j] != '\'' && (lineEnds ==> z[j] != '\n' && z[j] != '\r')
    ensures p + i < |z| ==> z[p + i] == '\'' || (lineEnds && (z[p + i] == '\n' || z[p + i] == '\r'))
  {
    i := 0;
    while p + i < |z| && z[p + i] != '\'' && !(lineEnds && (z[p + i] == '\n' || z[p + i] == '\r'))
      invariant p + i <= |z| && forall j :: p <= j < p + i ==> z[j] != '\'' && (lineEnds ==> z[j] != '\n' && z[j] != '\r')
    {
      i := i + 1;
    }
  }

  lemma {:induction false} BodyConcat(a: string, b: string, nl: string, cr: string)
    ensures Body(a + b, nl, cr) == Body(a, nl, cr) + Body(b, nl, cr)
  {
    if a == "" {
      assert a + b == b;
    } else {
      assert (a + b)[1..] == a[1..] + b;
      BodyConcat(a[1..], b, nl, cr);
    }
  }

  lemma {:induction false} BodyCopies(a: string, nl: string, cr: string)
    requires forall j :: 0 <= j < |a| ==> a[j] != '\'' && (a[j] == '\n' ==> nl == "\n") && (a[j] == '\r' ==> cr == "\r")
    ensures Body(a, nl, cr) == a
  {
    if a != "" {
      BodyCopies(a[1..], nl, cr);
    }
  }

  lemma BodyOfOne(c: char, nl: string, cr: string)
    ensures Body([c], nl, cr) == if c == '\n' then nl else if c == '\r' then cr else Escaped(c)
  {
    assert [c][1..] == "";
  }

  /** One turn of the copying loop: a stretch, with its quote if that ends it. */
  lemma BodyStretch(z: string, p: nat, i: nat, nl: string, cr: string)
    requires p + i <= |z| && forall j :: p <= j < p + i ==> z[j] != '\'' && (z[j] == '\n' ==> nl == "\n") && (z[j] == '\r' ==> cr == "\r")
    ensures Body(z[..p + i], nl, cr) == Body(z[..p], nl, cr) + z[p..p + i]
    ensures p + i < |z| ==> (
      var last := if z[p + i] == '\n' then nl else if z[p + i] == '\r' then cr else Escaped(z[p + i]);
      Body(z[..p + i + 1], nl, cr) == Body(z[..p], nl, cr) + z[p..p + i] + last)
  {
    hide Body;
    assert z[..p + i] == z[..p] + z[p..p + i];
    BodyConcat(z[..p], z[p..p + i], nl, cr);
    BodyCopies(z[p..p + i], nl, cr);
    if p + i < |z| {
      assert z[..p + i + 1] == z[..p + i] + [z[p + i]];
      BodyConcat(z[..p + i], [z[p + i]], nl, cr);
      BodyOfOne(z[p + i], nl, cr);
    }
  }

  /** What is printed in one turn, by the character that ends the stretch. */
  lemma Turn(out: string, z: string, p: nat, i: nat, nl: string, cr: string)
    requires p + i <= |z| && forall j :: p <= j < p + i ==> z[j] != '\'' && (z[j] == '\n' ==> nl == "\n") && (z[j] == '\r' ==> cr == "\r")
    ensures var r, n := out + Body(z[..p], nl, cr), p + i;
      if n == |z| then r + z[p..n] == out + Body(z[..n], nl, cr)
      else if z[n] == '\'' then r + z[p..n + 1] + "'" == out + Body(z[..n + 1], nl, cr)
      else if z[n] == '\n' then r + z[p..n] + nl == out + Body(z[..n + 1], nl, cr)
      else z[n] == '\r' ==> r + z[p..n] + cr == out + Body(z[..n + 1], nl, cr)
  {
    hide Body;
    BodyStretch(z, p, i, nl, cr);
    var n := p + i;
    if n < |z| && z[n] == '\'' {
      assert z[p..n + 1] == z[p..n] + "'" && Escaped('\'') == "'" + "'";
      assert Body(z[..p], nl, cr) + z[p..n] + ("'" + "'") == Body(z[..p], nl, cr) + (z[p..n] + "'") + "'";
    }
  }

  /** The copying loop of both printers; without line ends to escape, nl and cr are those themselves. */
  method PutBody(out: string, z: string, lineEnds: bool, nl: string, cr: string) returns (r: string)
    requires lineEnds || (nl == "\n" && cr == "\r")
    ensures r == out + Body(z, nl, cr)
  {
    hide Body;
    r := out;
    var p := 0;
    BodyCopies(z[..0], nl, cr);
    while p < |z|
      invariant 0 <= p <= |z| && r == out + Body(z[..p], nl, cr)
    {
      var i := Run(z, p, lineEnds);
      Turn(out, z, p, i, nl, cr);
      var c := if p + i < |z| then z[p + i] else '\0';
      var end := p + i == |z|;
      if !end && c == '\'' {
        i := i + 1;
      }
      if i > 0 {
        r := r + z[p..p + i];
        p := p + i;
      }
      if !end && c == '\'' {
        r := r + "'";
        continue;
      }
      if end {
        break;
      }
      p := p + 1;
      if c == '\n' {
        r := r + nl;
        continue;
      }
      r := r + cr;
    }
    assert z[..p] == z;
  }

  /** output_quoted_string. */
  method OutputQuotedString(out: string, z: string) returns (r: string)
    ensures out <= r && Denotes(r[|out|..], z)
  {
    hide Denotes, Body;
    var i := Run(z, 0, false);
    ghost var s := "'" + Body(z, "\n", "\r") + "'";
    QuotedDenotes(z);
    if i == |z| {
      assert z[0..i] == z;
      BodyStretch(z, 0, i, "\n", "\r");
      BodyCopies(z[..0], "\n", "\r");
      assert z[..i] == z;
      r := out + "'" + z + "'";
    } else {
      r := out + "'";
      r := PutBody(r, z, false, "\n", "\r");
      r := r + "'";
    }
    assert r == out + s;
  }

  lemma QuotedDenotes(z: string)
    ensures Denotes("'" + Body(z, "\n", "\r") + "'", z)
  {
    forall t | Separate(t)
      ensures Expr("'" + Body(z, "\n", "\r") + "'" + t) == Val(z, t)
    {
      LiteralAt(z, "\n", "\r", t);
      ExpandSame(z, '\r', '\n');
    }
  }

  lemma PlainDenotes(z: string)
    requires '\'' !in z && '\n' !in z && '\r' !in z
    ensures Denotes("'" + z + "'", z)
  {
    BodyCopies(z, "\n", "\r");
    QuotedDenotes(z);
  }

  method CountLineEnds(z: string) returns (nNL: nat, nCR: nat)
    ensures (nNL > 0 <==> '\n' in z) && (nCR > 0 <==> '\r' in z)
  {
    nNL, nCR := 0, 0;
    var i := 0;
    while i < |z|
      invariant 0 <= i <= |z| && (nNL > 0 <==> '\n' in z[..i]) && (nCR > 0 <==> '\r' in z[..i])
    {
      assert z[..i + 1] == z[..i] + [z[i]];
      if z[i] == '\n' {
        nNL := nNL + 1;
      }
      if z[i] == '\r' {
        nCR := nCR + 1;
      }
      i := i + 1;
    }
    assert z[..i] == z;
  }

  predicate OneLine(s: string) {
    '\n' !in s && '\r' !in s
  }

  lemma {:induction false} BodyOneLine(z: string, nl: string, cr: string)
    requires ('\n' in z ==> OneLine(nl)) && ('\r' in z ==> OneLine(cr))
    ensures OneLine(Body(z, nl, cr))
  {
    if z != "" {
      BodyOneLine(z[1..], nl, cr);
    }
  }

  lemma OneLineConcat(a: string, b: string)
    requires OneLine(a) && OneLine(b)
    ensures OneLine(a + b)
  {
  }

  lemma PrintedOneLine(z: string, nl: string, cr: string)
    requires ('\n' in z ==> Shape(nl, 'n', "012")) && ('\r' in z ==> Shape(cr, 'r', "015"))
    ensures OneLine(Printed(z, nl, cr))
  {
    hide Shape, Body, OneLine;
    var c := if '\r' in z then ",'" + cr + "'" + CR_CALL else "";
    var n := if '\n' in z then ",'" + nl + "'" + LF_CALL else "";
    assert OneLine(c) && OneLine(n) && OneLine("'") && OneLine("replace(") && OneLine("") && ('\n' in z ==> OneLine(nl)) && ('\r' in z ==> OneLine(cr)) by {
      TailsOneLine(z, nl, cr);
    }
    BodyOneLine(z, nl, cr);
    var l := Body(z, nl, cr) + ("'" + (c + n));
    OneLineConcat(c, n);
    OneLineConcat("'", c + n);
    OneLineConcat(Body(z, nl, cr), "'" + (c + n));
    OneLineConcat("'", l);
    OneLineConcat(if '\r' in z then "replace(" else "", "'" + l);
    OneLineConcat(if '\n' in z then "replace(" else "", (if '\r' in z then "replace(" else "") + ("'" + l));
  }

  lemma TailsOneLine(z: string, nl: string, cr: string)
    requires ('\n' in z ==> Shape(nl, 'n', "012")) && ('\r' in z ==> Shape(cr, 'r', "015"))
    ensures OneLine(if '\r' in z then ",'" + cr + "'" + CR_CALL else "") && OneLine(if '\n' in z then ",'" + nl + "'" + LF_CALL else "")
    ensures OneLine("'") && OneLine("replace(") && OneLine("") && ('\n' in z ==> OneLine(nl)) && ('\r' in z ==> OneLine(cr))
  {
    hide Shape;
    if '\n' in z {
      ShapeChars(nl, 'n', "012");
    }
    if '\r' in z {
      ShapeChars(cr, 'r', "015");
    }
  }

  lemma PrintedIs(out: string, z: string, nl: string, cr: string)
    ensures var c := ",'" + cr + "'" + CR_CALL; var n := ",'" + nl + "'" + LF_CALL;
      && ('\n' in z && '\r' in z ==> out + "replace(" + "replace(" + "'" + Body(z, nl, cr) + "'" + c + n == out + Printed(z, nl, cr))
      && ('\n' in z && '\r' !in z ==> out + "replace(" + "'" + Body(z, nl, cr) + "'" + n == out + Printed(z, nl, cr))
      && ('\n' !in z && '\r' in z ==> out + "replace(" + "'" + Body(z, nl, cr) + "'" + c == out + Printed(z, nl, cr))
      && ('\n' !in z && '\r' !in z ==> out + "'" + Body(z, nl, cr) + "'" == out + Printed(z, nl, cr))
  {
    hide Body;
  }

  /** output_quoted_escaped_string; zNL and zCR stand for line ends in what is printed. */
  method OutputQuotedEscapedString(out: string, z: string) returns (r: string, ghost zNL: string, ghost zCR: string)
    requires |z| < 0xffff_ffff
    ensures out <= r && Denotes(r[|out|..], z)
    ensures OneLine(r[|out|..])
    ensures r == out + Printed(z, zNL, zCR)
    ensures '\n' in z ==> IsUnused(zNL, z, "\\n", "\\012")
    ensures '\r' in z ==> IsUnused(zCR, z, "\\r", "\\015")
  {
    hide Denotes, Body, Shape, Occurs, Printed, IsUnused;
    var i := Run(z, 0, true);
    if i == |z| {
      assert z[0..i] == z && z[..i] == z;
      BodyStretch(z, 0, i, "\\n", "\\r");
      BodyCopies(z[..0], "\\n", "\\r");
      PlainDenotes(z);
      r := out + "'" + z + "'";
      assert r == out + ("'" + z + "'");
      zNL, zCR := "\\n", "\\r";
      assert '\n' !in z && '\r' !in z;
      PrintedIs(out, z, zNL, zCR);
    } else {
      assert "\\" + "012" == "\\012" && "\\" + "015" == "\\015";
      var nl, cr := "", "";
      var nNL, nCR := CountLineEnds(z);
      r := out;
      if nNL > 0 {
        r := r + "replace(";
        nl := UnusedString(z, "\\n", "\\" + "012");
        UnusedShape(nl, z, 'n', "012");
      }
      if nCR > 0 {
        r := r + "replace(";
        cr := UnusedString(z, "\\r", "\\" + "015");
        UnusedShape(cr, z, 'r', "015");
      }
      r := r + "'";
      r := PutBody(r, z, true, nl, cr);
      r := r + "'";
      if nCR > 0 {
        r := r + (",'" + cr + "'" + CR_CALL);
      }
      if nNL > 0 {
        r := r + (",'" + nl + "'" + LF_CALL);
      }
      PrintedIs(out, z, nl, cr);
      PrintedDenotes(z, nl, cr);
      PrintedOneLine(z, nl, cr);
      zNL, zCR := nl, cr;
    }
  }
}
