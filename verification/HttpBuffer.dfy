/**
 The request buffer after the parse: which bytes changed, what the pointers read as C strings,
 and the "index.lua" that jlua_interpret writes into the same buffer.
 */
module HttpBuffer {
  import opened Options
  import opened CStrings
  import opened Http
  import opened HttpGrammar

  // ----- every input -----

  /** The buffer when the parser halts. */
  function After(s: string): string {
    var k := Run(Start(s));
    k.done + k.rest
  }

  /** b is s with NULs over some delimiters. */
  predicate CutOf(b: string, s: string) {
    |b| == |s| && forall j :: 0 <= j < |s| ==> b[j] == s[j] || (b[j] == '\0' && s[j] in " \t:\r")
  }

  /** Going on over v, of which only delimiters become NULs in w. */
  lemma CutHere(done: string, v: string, w: string, rest: string)
    requires CutOf(w, v)
    ensures CutOf(done + w + rest, done + (v + rest))
  {
    var b, s := done + w + rest, done + (v + rest);
    forall j | 0 <= j < |s|
      ensures b[j] == s[j] || (b[j] == '\0' && s[j] in " \t:\r")
    {
      if |done| <= j < |done| + |v| {
        assert b[j] == w[j - |done|] && s[j] == v[j - |done|];
      }
    }
  }

  lemma StepCuts(k: Config)
    requires k.rest != [] && k.state != Halt
    ensures var t := Step(k); CutOf(t.done + t.rest, k.done + k.rest)
  {
    var n := |k.rest| - |Step(k).rest|;
    StepWrites(k);
    hide Step, CutOf;
    var t := Step(k);
    assert k.rest == k.rest[..n] + k.rest[n..];
    assert t.done == k.done + t.done[|k.done|..];
    CutHere(k.done, k.rest[..n], t.done[|k.done|..], t.rest);
  }

  lemma StepWrites(k: Config)
    requires k.rest != [] && k.state != Halt
    ensures var t := Step(k); var n := |k.rest| - |t.rest|;
      0 <= n <= |k.rest| && t.rest == k.rest[n..] && |k.done| <= |t.done| && t.done[..|k.done|] == k.done
      && CutOf(t.done[|k.done|..], k.rest[..n])
  {
    hide SetValue, IsVersion;
    assert k.rest[0..] == k.rest;
  }

  lemma {:induction false} RunCuts(k: Config)
    ensures var t := Run(k);
      CutOf(t.done + t.rest, k.done + k.rest) && |t.rest| <= |k.rest| && t.rest == k.rest[|k.rest| - |t.rest|..]
    decreases |k.rest|, if k.state == Halt then 0 else 1
  {
    hide Step, Run;
    if k.state == Halt || k.rest == [] {
      RunStops(k);
    } else {
      RunNext(k);
      StepShortens(k);
      StepCuts(k);
      StepWrites(k);
      RunCuts(Step(k));
    }
  }

  /**
   Whatever the request, the parser changes nothing but delimiters, and those only to NULs, and
   only where it has been: from its last index on the buffer is as it was.
   */
  lemma OnlyDelimitersChange(s: string)
    ensures CutOf(After(s), s)
    ensures var at := |Run(Start(s)).done|; at <= |s| && After(s)[at..] == s[at..]
  {
    hide Run, CutOf;
    var k := Run(Start(s));
    assert [] + s == s;
    RunCuts(Start(s));
    assert After(s) == k.done + k.rest;
    CutLength(After(s), s);
    assert |k.done| == |s| - |k.rest|;
    assert After(s)[|k.done|..] == k.rest;
  }

  lemma CutLength(b: string, s: string)
    requires CutOf(b, s)
    ensures |b| == |s|
  {
  }

  // ----- the strings of a parsed request -----

  lemma {:induction false} FieldsCutAppends(done: string, fs: seq<Field>)
    ensures FieldsCut(done, fs) == done + FieldsCut("", fs)
    decreases |fs|
  {
    if fs == [] {
      assert done + "" == done;
    } else {
      FieldsCutAppends(FieldCut(done, fs[0]), fs[1..]);
      FieldsCutAppends(FieldCut("", fs[0]), fs[1..]);
      assert FieldCut(done, fs[0]) == done + FieldCut("", fs[0]);
      assert done + FieldCut("", fs[0]) + FieldsCut("", fs[1..]) == done + (FieldCut("", fs[0]) + FieldsCut("", fs[1..]));
    }
  }

  /** The header list reads as the field names and values, in order. */
  predicate Reads(b: string, hs: seq<Header>, fs: seq<Field>) {
    && |hs| == |fs|
    && forall j :: 0 <= j < |fs| ==>
         CStr(b, hs[j].field) == fs[j].name && hs[j].value.Some? && CStr(b, hs[j].value.value) == fs[j].value
  }

  lemma NameReads(a: string, name: string, gap: string, r: string)
    requires '\0' !in name && (gap != "" ==> IsBlank(gap[0]))
    ensures CStr(a + name + Nulled(gap) + "\0" + r, |a|) == name
  {
    var s := a + name + Nulled(gap) + "\0" + r;
    if gap == "" {
      assert s == a + name + "\0" + r;
      CStrIs(a, name, r);
    } else {
      assert s == a + name + "\0" + (Nulled(gap[1..]) + "\0" + r);
      CStrIs(a, name, Nulled(gap[1..]) + "\0" + r);
    }
  }

  lemma FieldReads(done: string, f: Field, r: string)
    requires FieldOk(f)
    ensures var h := HeaderAt(|done|, f);
      CStr(FieldCut(done, f) + r, h.field) == f.name && CStr(FieldCut(done, f) + r, h.value.value) == f.value
  {
    NoNul(f);
    GapOk(f);
    hide FieldOk, Nulled, CStr;
    NameOfField(done, f, r);
    ValueOfField(done, f, r);
  }

  lemma NameOfField(done: string, f: Field, r: string)
    requires '\0' !in f.name && (f.gap != "" ==> IsBlank(f.gap[0]))
    ensures CStr(FieldCut(done, f) + r, |done| + |f.lead|) == f.name
  {
    hide CStr, Nulled;
    var b := (done + f.lead) + f.name + Nulled(f.gap) + "\0";
    var r1 := f.lead2 + f.value + "\0\n";
    assert FieldCut(done, f) == b + r1;
    assert FieldCut(done, f) + r == b + (r1 + r);
    NameReads(done + f.lead, f.name, f.gap, r1 + r);
  }

  lemma ValueOfField(done: string, f: Field, r: string)
    requires '\0' !in f.value
    ensures CStr(FieldCut(done, f) + r, |done| + |f.lead| + |f.name| + |f.gap| + 1 + |f.lead2|) == f.value
  {
    hide CStr, Nulled;
    var a := done + f.lead + f.name + Nulled(f.gap) + "\0" + f.lead2;
    assert FieldCut(done, f) == a + f.value + "\0" + "\n";
    assert FieldCut(done, f) + r == a + f.value + "\0" + ("\n" + r);
    CStrIs(a, f.value, "\n" + r);
  }

  lemma GapOk(f: Field)
    requires FieldOk(f)
    ensures f.gap != "" ==> IsBlank(f.gap[0])
  {
  }

  lemma NoNul(f: Field)
    requires FieldOk(f)
    ensures '\0' !in f.name && '\0' !in f.value
  {
  }

  lemma {:induction false} FieldsRead(done: string, fs: seq<Field>, r: string)
    requires forall i :: 0 <= i < |fs| ==> FieldOk(fs[i])
    ensures Reads(FieldsCut(done, fs) + r, HeadersAt(done, fs), fs)
    decreases |fs|
  {
    hide FieldOk, HeaderAt, FieldCut;
    if fs != [] {
      var d1 := FieldCut(done, fs[0]);
      var b := FieldsCut(done, fs) + r;
      FieldsRead(d1, fs[1..], r);
      FieldsCutAppends(d1, fs[1..]);
      FieldReads(done, fs[0], FieldsCut("", fs[1..]) + r);
      assert b == d1 + (FieldsCut("", fs[1..]) + r);
      forall j | 0 <= j < |fs|
        ensures CStr(b, HeadersAt(done, fs)[j].field) == fs[j].name && HeadersAt(done, fs)[j].value.Some?
        ensures CStr(b, HeadersAt(done, fs)[j].value.value) == fs[j].value
      {
        HeaderHasValue(|done|, fs[0]);
        if j > 0 {
          assert HeadersAt(done, fs)[j] == HeadersAt(d1, fs[1..])[j - 1] && fs[j] == fs[1..][j - 1];
        }
      }
    }
  }

  lemma HeaderHasValue(i: nat, f: Field)
    ensures HeaderAt(i, f).value.Some?
  {
  }

  lemma {:induction false} HeadersByLength(done: string, done': string, fs: seq<Field>)
    requires |done| == |done'|
    ensures HeadersAt(done, fs) == HeadersAt(done', fs)
    decreases |fs|
  {
    if fs != [] {
      HeadersByLength(FieldCut(done, fs[0]), FieldCut(done', fs[0]), fs[1..]);
    }
  }

  lemma HeadLength(p: Parts)
    requires Ok(p)
    ensures |HeadCut(p)| == |p.w0| + |p.verb| + |p.w1| + |p.path| + |p.w2| + 10
    ensures '\0' !in p.verb && '\0' !in p.path
  {
  }

  /** The buffer b has the strings of the parsed request: verb, path, headers in order, and body. */
  predicate ReadsAs(b: string, req: Request, p: Parts, path: string, body: string) {
    && req.verb.Some? && CStr(b, req.verb.value) == p.verb
    && req.path.Some? && CStr(b, req.path.value) == path
    && req.version == Some((if |p.line| > 7 then p.line[7] else ' '))
    && Reads(b, req.headers, p.fields)
    && req.body.Some? && CStr(b, req.body.value) == body
  }

  /** Headers and body read the same behind any head of the right length. */
  lemma TailReads(head: string, p: Parts, t: string)
    requires Ok(p) && |head| == |HeadCut(p)|
    ensures var b := FieldsCut(head, p.fields) + p.w3 + ("\r\n" + t);
      Reads(b, HeadersAt(HeadCut(p), p.fields), p.fields) &&
      CStr(b, |FieldsCut(HeadCut(p), p.fields) + p.w3| + 2) == CStr(t, 0)
  {
    hide FieldOk, HeadCut, CStr, Reads;
    HeadersRead(head, HeadCut(p), p.fields, p.w3, t);
    BodyReads(head, HeadCut(p), p.fields, p.w3, t);
  }

  lemma HeadersRead(head: string, head': string, fs: seq<Field>, w3: string, t: string)
    requires |head| == |head'| && forall i :: 0 <= i < |fs| ==> FieldOk(fs[i])
    ensures Reads(FieldsCut(head, fs) + w3 + ("\r\n" + t), HeadersAt(head', fs), fs)
  {
    hide FieldOk, Reads, FieldsCut, HeadersAt;
    FieldsRead(head, fs, w3 + ("\r\n" + t));
    HeadersByLength(head, head', fs);
    assert FieldsCut(head, fs) + w3 + ("\r\n" + t) == FieldsCut(head, fs) + (w3 + ("\r\n" + t));
  }

  lemma BodyReads(head: string, head': string, fs: seq<Field>, w3: string, t: string)
    requires |head| == |head'|
    ensures CStr(FieldsCut(head, fs) + w3 + ("\r\n" + t), |FieldsCut(head', fs) + w3| + 2) == CStr(t, 0)
  {
    hide CStr, FieldsCut;
    FieldsCutAppends(head, fs);
    FieldsCutAppends(head', fs);
    var a := FieldsCut(head, fs) + w3 + "\r\n";
    assert FieldsCut(head, fs) + w3 + ("\r\n" + t) == a + t;
    CStrShift(a, t, 0);
  }

  /** A parsed request reads, string for string, as it was printed. */
  lemma ParsedReads(p: Parts, t: string)
    requires Ok(p)
    ensures ReadsAs(After(Text(p, t)), Run(Start(Text(p, t))).req, p, p.path, CStr(t, 0))
  {
    hide Run, FieldOk, IsVersion, Text, CStr, Reads;
    ParsePrinted(p, t);
    HeadLength(p);
    TailReads(HeadCut(p), p, t);
    FieldsCutAppends(HeadCut(p), p.fields);
    var r := p.line + (FieldsCut("", p.fields) + p.w3 + ("\r\n" + t));
    HeadReads(p, r);
    assert HeadCut(p) + FieldsCut("", p.fields) + p.w3 + ("\r\n" + t)
      == p.w0 + p.verb + ("\0" + p.w1[1..]) + p.path + ("\0" + p.w2[1..]) + r;
  }

  lemma HeadReads(p: Parts, r: string)
    requires p.w1 != "" && p.w2 != "" && '\0' !in p.verb && '\0' !in p.path
    ensures var b := p.w0 + p.verb + ("\0" + p.w1[1..]) + p.path + ("\0" + p.w2[1..]) + r;
      CStr(b, |p.w0|) == p.verb && CStr(b, |p.w0| + |p.verb| + |p.w1|) == p.path
  {
    hide CStr;
    var b := p.w0 + p.verb + ("\0" + p.w1[1..]) + p.path + ("\0" + p.w2[1..]) + r;
    var r1 := p.w1[1..] + p.path + ("\0" + p.w2[1..]) + r;
    assert b == p.w0 + p.verb + "\0" + r1;
    CStrIs(p.w0, p.verb, r1);
    var a := p.w0 + p.verb + ("\0" + p.w1[1..]);
    assert b == a + p.path + "\0" + (p.w2[1..] + r);
    CStrIs(a, p.path, p.w2[1..] + r);
  }

  // ----- index.lua -----

  const INDEX := "index.lua"

  /** The buffer after jlua_interpret has completed the path that ends at the NUL at q. */
  function Completed(b: string, q: nat): string
    requires 0 < q && q + 10 <= |b|
  {
    if b[q - 1] == '/' then b[..q] + INDEX + "\0" + b[q + 10..] else b
  }

  /** The in-place append of jlua_interpret; q is where the path ends. */
  method AppendIndex(b: array<char>, path: nat, ghost q: nat)
    requires path < q && q + 10 <= b.Length && b[q] == '\0' && forall j :: path <= j < q ==> b[j] != '\0'
    modifies b
    ensures b[..] == Completed(old(b[..]), q)
  {
    var lastChar := 0;
    while b[path + lastChar] != '\0'
      invariant path + lastChar <= q
      decreases q - lastChar
    {
      lastChar := lastChar + 1;
    }
    if b[path + lastChar - 1] == '/' {
      WriteIndex(b, path + lastChar);
    }
  }

  /** s with the first k characters of text written over it from q on. */
  function Overwritten(s: string, q: nat, text: string, k: nat): string
    requires q + |text| <= |s| && k <= |text|
  {
    s[..q] + text[..k] + s[q + k..]
  }

  /** Stores the next character of text and moves on. */
  method Store(b: array<char>, i: nat, c: char, ghost s: string, ghost q: nat, ghost text: string, ghost done: nat) returns (k: nat)
    requires i == q + done < b.Length == |s| && done < |text| <= |s| - q && c == text[done]
    requires b[..] == Overwritten(s, q, text, done)
    modifies b
    ensures k == q + done + 1 && b[..] == Overwritten(s, q, text, done + 1)
  {
    b[i] := c;
    k := i + 1;
  }

  /** The ten stores. */
  method WriteIndex(b: array<char>, q: nat)
    requires q + 10 <= b.Length
    modifies b
    ensures b[..] == old(b[..q]) + INDEX + "\0" + old(b[q + 10..])
  {
    ghost var s := b[..];
    ghost var text := INDEX + "\0";
    assert text == "index.lua\0";
    AllOverwritten(s, q);
    hide Overwritten;
    var i := q;
    i := Store(b, i, 'i', s, q, text, 0);
    i := Store(b, i, 'n', s, q, text, 1);
    i := Store(b, i, 'd', s, q, text, 2);
    i := Store(b, i, 'e', s, q, text, 3);
    i := Store(b, i, 'x', s, q, text, 4);
    i := Store(b, i, '.', s, q, text, 5);
    i := Store(b, i, 'l', s, q, text, 6);
    i := Store(b, i, 'u', s, q, text, 7);
    i := Store(b, i, 'a', s, q, text, 8);
    i := Store(b, i, '\0', s, q, text, 9);
  }

  lemma AllOverwritten(s: string, q: nat)
    requires q + 10 <= |s|
    ensures Overwritten(s, q, INDEX + "\0", 0) == s
    ensures Overwritten(s, q, INDEX + "\0", 10) == s[..q] + INDEX + "\0" + s[q + 10..]
  {
    var text := INDEX + "\0";
    assert text[..0] == "" && text[..10] == text;
    assert s[..q] + text + s[q + 10..] == s[..q] + INDEX + "\0" + s[q + 10..];
  }

  /** The end of the path of a parsed request. */
  function PathEnd(p: Parts): nat {
    |p.w0| + |p.verb| + |p.w1| + |p.path|
  }

  /**
   After any parse through the blank line there is room for "index.lua" and its NUL between the
   path and the next line: the path grows by it and every other string stays what it was.
   */
  lemma IndexFits(p: Parts, t: string)
    requires Ok(p)
    ensures var b, req := After(Text(p, t)), Run(Start(Text(p, t))).req; var q := PathEnd(p);
      && 0 < q && q + 10 <= |b| && b[q] == '\0' && req.path.Some? && req.path.value < q
      && (forall j :: req.path.value <= j < q ==> b[j] != '\0')
      && ReadsAs(Completed(b, q), req, p, if p.path[|p.path| - 1] == '/' then p.path + INDEX else p.path, CStr(t, 0))
  {
    hide Run, FieldOk, IsVersion, Text, CStr;
    ParsedReads(p, t);
    ParsePrinted(p, t);
    HeadLength(p);
    var b := After(Text(p, t));
    var q := PathEnd(p);
    var head := HeadCut(p);
    FieldsCutAppends(head, p.fields);
    var r := FieldsCut("", p.fields) + p.w3 + ("\r\n" + t);
    var a := p.w0 + p.verb + ("\0" + p.w1[1..]);
    assert b == a + p.path + ("\0" + p.w2[1..]) + p.line + r == head + r;
    assert |a + p.path| == q && b[q - 1] == p.path[|p.path| - 1];
    forall j | |a| <= j < q
      ensures b[j] != '\0'
    {
      assert b[j] == p.path[j - |a|];
    }
    if p.path[|p.path| - 1] == '/' {
      CompletedReads(p, t, a, r);
    }
  }

  /** The written name covers the blank's remainder and part of the version, never the next line. */
  lemma CompletedReads(p: Parts, t: string, a: string, r: string)
    requires Ok(p) && a == p.w0 + p.verb + ("\0" + p.w1[1..]) && p.path[|p.path| - 1] == '/'
    requires r == FieldsCut("", p.fields) + p.w3 + ("\r\n" + t)
    ensures |HeadCut(p)| >= PathEnd(p) + 10
    ensures ReadsAs(Completed(HeadCut(p) + r, PathEnd(p)), Parsed(p, t).req, p, p.path + INDEX, CStr(t, 0))
  {
    hide FieldOk, IsVersion, CStr, Reads, Completed;
    HeadLength(p);
    var head, q := HeadCut(p), PathEnd(p);
    var gap := p.w2[1..] + p.line;
    var head2 := a + p.path + INDEX + "\0" + gap[9..];
    assert head == a + p.path + "\0" + gap;
    assert |a + p.path| == q;
    Splice(a + p.path, gap, r);
    FieldsCutAppends(head2, p.fields);
    TailReads(head2, p, t);
    assert head2 + r == FieldsCut(head2, p.fields) + p.w3 + ("\r\n" + t);
    CompletedHead(p, gap[9..] + r);
    assert head2 + r == a + (p.path + INDEX) + "\0" + (gap[9..] + r);
  }

  lemma Splice(a: string, gap: string, r: string)
    requires a != "" && a[|a| - 1] == '/' && |gap| >= 9
    ensures |a + "\0" + gap + r| >= |a| + 10
    ensures Completed(a + "\0" + gap + r, |a|) == a + INDEX + "\0" + gap[9..] + r
  {
    var b := a + "\0" + gap + r;
    assert b[..|a|] == a && b[|a| - 1] == '/' && b[|a| + 10..] == gap[9..] + r;
    assert a + INDEX + "\0" + (gap[9..] + r) == a + INDEX + "\0" + gap[9..] + r;
  }

  lemma CompletedHead(p: Parts, r: string)
    requires Ok(p)
    ensures var a := p.w0 + p.verb + ("\0" + p.w1[1..]); var b := a + (p.path + INDEX) + "\0" + r;
      CStr(b, |p.w0|) == p.verb && CStr(b, |a|) == p.path + INDEX
  {
    HeadLength(p);
    hide CStr, FieldOk, IsVersion;
    var a := p.w0 + p.verb + ("\0" + p.w1[1..]);
    CStrIs(a, p.path + INDEX, r);
    var b := a + (p.path + INDEX) + "\0" + r;
    assert b == p.w0 + p.verb + "\0" + (p.w1[1..] + (p.path + INDEX) + "\0" + r);
    CStrIs(p.w0, p.verb, p.w1[1..] + (p.path + INDEX) + "\0" + r);
  }
}
