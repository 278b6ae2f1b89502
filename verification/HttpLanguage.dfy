/**
 The language of accepted requests with every alphabet written out, apart from the predicates by
 which the parser is described, and a request of everyday shape.
 */
module HttpLanguage {
  import opened Options
  import opened CStrings
  import opened Http
  import opened HttpGrammar
  import opened HttpBuffer
  import opened Letters

  // ----- the alphabets -----

  const BLANKS := " \t"
  const LETTERS := UPPER + LOWER
  const ALNUM := LETTERS + DIGITS
  const PATH := ALNUM + "/.+-=?~%"
  const FIELD := ALNUM + "-.+*"
  const VALUE_START := ALNUM + "-./?+*"
  const VALUE := ALNUM + "-./?+*:=%&()_; \t,\n"

  /** Every alphabet of the parser, character by character. */
  lemma Alphabets(c: char)
    ensures IsBlank(c) <==> c in BLANKS
    ensures IsLetter(c) <==> c in LETTERS
    ensures IsPathChar(c) <==> c in PATH
    ensures IsFieldChar(c) <==> c in FIELD
    ensures IsValueStart(c) <==> c in VALUE_START
    ensures IsValueChar(c) <==> c in VALUE
  {
    hide UPPER, LOWER, DIGITS;
    InUpper(c);
    InLower(c);
    InDigits(c);
    InBoth(c, UPPER, LOWER);
    InBoth(c, LETTERS, DIGITS);
    InBoth(c, ALNUM, "/.+-=?~%");
    InBoth(c, ALNUM, "-.+*");
    InBoth(c, ALNUM, "-./?+*");
    InBoth(c, ALNUM, "-./?+*:=%&()_; \t,\n");
  }

  /** The version line, in any case. */
  predicate VersionLine(t: string) {
    |t| == 10 && t[0] in "Hh" && t[1] in "Tt" && t[2] in "Tt" && t[3] in "Pp" && t[4..7] == "/1." && t[7] in "01" && t[8..] == "\r\n"
  }

  lemma VersionLines(t: string)
    ensures IsVersion(t) <==> VersionLine(t)
  {
    if |t| == 10 {
      assert t[4..7] == [t[4], t[5], t[6]] && t[8..] == [t[8], t[9]];
    }
  }

  // ----- what is accepted -----

  predicate Over(t: string, alphabet: string) {
    forall i :: 0 <= i < |t| ==> t[i] in alphabet
  }

  predicate HeaderLine(f: Field) {
    && Over(f.lead, BLANKS) && f.name != "" && Over(f.name, FIELD)
    && Over(f.gap, BLANKS + FIELD) && (f.gap != "" ==> f.gap[0] in BLANKS)
    && Over(f.lead2, BLANKS) && f.value != "" && f.value[0] in VALUE_START && Over(f.value, VALUE)
  }

  predicate WellFormed(p: Parts) {
    && Over(p.w0, BLANKS) && p.verb != "" && Over(p.verb, LETTERS)
    && p.w1 != "" && Over(p.w1, BLANKS) && p.path != "" && p.path[0] == '/' && Over(p.path, PATH)
    && p.w2 != "" && Over(p.w2, BLANKS) && VersionLine(p.line)
    && (forall i :: 0 <= i < |p.fields| ==> HeaderLine(p.fields[i])) && Over(p.w3, BLANKS)
  }

  lemma AllAlphabets()
    ensures forall c :: IsBlank(c) <==> c in BLANKS
    ensures forall c :: IsLetter(c) <==> c in LETTERS
    ensures forall c :: IsPathChar(c) <==> c in PATH
    ensures forall c :: IsFieldChar(c) <==> c in FIELD
    ensures forall c :: IsValueStart(c) <==> c in VALUE_START
    ensures forall c :: IsValueChar(c) <==> c in VALUE
  {
    forall c
      ensures (IsBlank(c) <==> c in BLANKS) && (IsLetter(c) <==> c in LETTERS) && (IsPathChar(c) <==> c in PATH)
      ensures (IsFieldChar(c) <==> c in FIELD) && (IsValueStart(c) <==> c in VALUE_START) && (IsValueChar(c) <==> c in VALUE)
    {
      Alphabets(c);
    }
  }

  lemma HeaderLines(f: Field)
    ensures FieldOk(f) <==> HeaderLine(f)
  {
    hide BLANKS, FIELD, VALUE_START, VALUE, IsBlank, IsFieldChar, IsValueStart, IsValueChar;
    AllAlphabets();
    forall i | 0 <= i < |f.gap|
      ensures f.gap[i] in BLANKS + FIELD <==> IsBlank(f.gap[i]) || IsFieldChar(f.gap[i])
    {
      InBoth(f.gap[i], BLANKS, FIELD);
    }
  }

  lemma OkIsWellFormed(p: Parts)
    ensures Ok(p) <==> WellFormed(p)
  {
    hide BLANKS, LETTERS, PATH, IsBlank, IsLetter, IsPathChar, IsVersion, VersionLine, FieldOk, HeaderLine;
    AllAlphabets();
    VersionLines(p.line);
    forall i | 0 <= i < |p.fields|
      ensures FieldOk(p.fields[i]) <==> HeaderLine(p.fields[i])
    {
      HeaderLines(p.fields[i]);
    }
  }

  /** The parser accepts a text if and only if it is a request over these alphabets, whatever the body. */
  lemma AcceptsIffWellFormed(s: string)
    ensures Accepts(Start(s)) <==> exists p: Parts, t: string :: WellFormed(p) && s == Text(p, t)
  {
    hide Accepts, Ok, WellFormed, Text;
    AcceptsIffPrinted(s);
    if Accepts(Start(s)) {
      var p: Parts, t: string :| Ok(p) && s == Text(p, t);
      OkIsWellFormed(p);
    }
    if exists p: Parts, t: string :: WellFormed(p) && s == Text(p, t) {
      var p: Parts, t: string :| WellFormed(p) && s == Text(p, t);
      OkIsWellFormed(p);
    }
  }

  // ----- a request -----

  const EXAMPLE := "GET /index.lua HTTP/1.1\r\n" + ("Host: localhost:8080\r\n" + ("\r\n" + "hi"))

  const HOST := Field("", "Host", "", " ", "localhost:8080")
  const PARTS := Parts("", "GET", " ", "/index.lua", " ", "HTTP/1.1\r\n", [HOST], "")

  lemma ExampleOk()
    ensures Ok(PARTS)
  {
    assert FieldOk(HOST);
    hide FieldOk;
  }

  lemma ExampleText()
    ensures Text(PARTS, "hi") == EXAMPLE
  {
    hide FieldText;
    var r := "\r\n" + "hi";
    assert "" + r == r;
    assert [HOST][1..] == [] && FieldsText([], r) == r && FieldsText([HOST], r) == FieldText(HOST, r);
    HostLine(r);
    ExampleHead("Host: localhost:8080\r\n" + r);
  }

  lemma HostLine(r: string)
    ensures FieldText(HOST, r) == "Host: localhost:8080\r\n" + r
  {
    var v := "localhost:8080" + ("\r\n" + r);
    assert "Host: localhost:8080\r\n" + r == "Host: " + v by {
      assert "Host: localhost:8080\r\n" == "Host: " + "localhost:8080" + "\r\n";
    }
    assert "" + ("Host" + ("" + (":" + (" " + v)))) == "Host: " + v;
  }

  lemma ExampleHead(r: string)
    ensures "" + ("GET" + (" " + ("/index.lua" + (" " + ("HTTP/1.1\r\n" + r))))) == "GET /index.lua HTTP/1.1\r\n" + r
  {
    assert " " + ("HTTP/1.1\r\n" + r) == " HTTP/1.1\r\n" + r;
    assert "/index.lua" + (" HTTP/1.1\r\n" + r) == "/index.lua HTTP/1.1\r\n" + r;
    assert " " + ("/index.lua HTTP/1.1\r\n" + r) == " /index.lua HTTP/1.1\r\n" + r;
  }

  /** The parser takes the example to its blank line and leaves these strings in the buffer. */
  lemma ExampleRequest()
    ensures var k, b := Run(Start(EXAMPLE)), After(EXAMPLE);
      && k.state == Halt && |k.req.headers| == 1 && k.req.headers[0].value.Some?
      && k.req.verb.Some? && CStr(b, k.req.verb.value) == "GET"
      && k.req.path.Some? && CStr(b, k.req.path.value) == "/index.lua" && k.req.version == Some('1')
      && CStr(b, k.req.headers[0].field) == "Host" && CStr(b, k.req.headers[0].value.value) == "localhost:8080"
      && k.req.body.Some? && CStr(b, k.req.body.value) == "hi"
  {
    ExampleOk();
    ExampleText();
    hide Run, After, CStr, Ok, Text, EXAMPLE;
    ParsePrinted(PARTS, "hi");
    ParsedReads(PARTS, "hi");
    CStrWhole("hi", 0);
  }
}
