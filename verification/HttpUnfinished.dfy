/**
 The requests that end too early: the texts that leave the parser waiting for more, described over
 the alphabets of the grammar, and what they mean for the reads of the parser.
 */
module HttpUnfinished {
  import opened Options
  import opened CStrings
  import opened Http
  import opened HttpGrammar

  // ----- unfinished requests -----

  /** A header line that the text ends in: in its name or gap, or behind its colon. */
  datatype Broken =
    | InName(lead: string, name: string, gap: string)
    | InValue(lead: string, name: string, gap: string, lead2: string, value: string)

  predicate BrokenOk(l: Broken) {
    && Blanks(l.lead) && (forall i :: 0 <= i < |l.name| ==> IsFieldChar(l.name[i]))
    && (l.gap != "" ==> l.name != "" && IsBlank(l.gap[0]))
    && (forall i :: 0 <= i < |l.gap| ==> IsBlank(l.gap[i]) || IsFieldChar(l.gap[i]))
    && (l.InValue? ==>
      && l.name != "" && Blanks(l.lead2) && (l.value != "" ==> IsValueStart(l.value[0]))
      && forall i :: 0 <= i < |l.value| ==> IsValueChar(l.value[i]))
  }

  function BrokenText(l: Broken): string {
    l.lead + (l.name + (l.gap + if l.InValue? then ":" + (l.lead2 + l.value) else ""))
  }

  /** A request that the text ends in: in the verb, in the path, in front of the version, or in a header line. */
  datatype Prefix =
    | InVerb(w0: string, verb: string)
    | InPath(w0: string, verb: string, w1: string, path: string)
    | InVersion(w0: string, verb: string, w1: string, path: string, w2: string)
    | InHeaders(w0: string, verb: string, w1: string, path: string, w2: string, line: string, fields: seq<Field>, last: Broken)

  predicate PrefixOk(u: Prefix) {
    && Blanks(u.w0) && (forall i :: 0 <= i < |u.verb| ==> IsLetter(u.verb[i]))
    && (!u.InVerb? ==>
      && u.verb != "" && Blanks(u.w1) && u.w1 != "" && (u.path != "" ==> u.path[0] == '/')
      && forall i :: 0 <= i < |u.path| ==> IsPathChar(u.path[i]))
    && (u.InVersion? || u.InHeaders? ==> u.path != "" && Blanks(u.w2) && u.w2 != "")
    && (u.InHeaders? ==> IsVersion(u.line) && BrokenOk(u.last) && forall i :: 0 <= i < |u.fields| ==> FieldOk(u.fields[i]))
  }

  function PrefixText(u: Prefix): string {
    match u
    case InVerb(w0, verb) => w0 + verb
    case InPath(w0, verb, w1, path) => w0 + (verb + (w1 + path))
    case InVersion(w0, verb, w1, path, w2) => w0 + (verb + (w1 + (path + w2)))
    case InHeaders(w0, verb, w1, path, w2, line, fields, last) =>
      w0 + (verb + (w1 + (path + (w2 + (line + FieldsText(fields, BrokenText(last)))))))
  }

  /** The text is a request that ends too early. */
  ghost predicate Unfinished(s: string) {
    exists u :: PrefixOk(u) && s == PrefixText(u)
  }

  // ----- an unfinished request leaves the machine waiting -----

  /** The run uses up the text, with neither an error nor a blank line. */
  predicate Waits(k: Config) {
    Run(k).state != Halt && Run(k).state != Err
  }

  lemma WaitsAtEnd(k: Config)
    requires k.rest == "" && k.state != Halt && k.state != Err
    ensures Waits(k)
  {
  }

  lemma BrokenWaits(k: Config, l: Broken)
    requires k.state == FieldBegin && k.rest == BrokenText(l) && BrokenOk(l)
    ensures Waits(k)
  {
    hide Run, Step;
    var tail := if l.InValue? then ":" + (l.lead2 + l.value) else "";
    Scan(k, l.lead, l.name + (l.gap + tail));
    var k1 := k.(done := k.done + l.lead, rest := l.name + (l.gap + tail));
    if l.name == "" {
      WaitsAtEnd(k1);
    } else {
      FirstOfName(k1, l.name, l.gap + tail);
      var k2 := Config(FieldEnd, k1.done + [l.name[0]], l.name[1..] + (l.gap + tail),
        k1.req.(headers := k1.req.headers + [Header(|k1.done|, None)]));
      Scan(k2, l.name[1..], l.gap + tail);
      var k3 := k2.(done := k2.done + Written(FieldEnd, l.name[1..]), rest := l.gap + tail);
      Scan(k3, l.gap, tail);
      var k4 := k3.(done := k3.done + Written(FieldEnd, l.gap), rest := tail);
      if l.InValue? {
        ColonRun(k4, l.lead2 + l.value);
        ValueWaits(Config(ValueBegin, k4.done + "\0", l.lead2 + l.value, k4.req), l.lead2, l.value);
      } else {
        WaitsAtEnd(k4);
      }
    }
  }

  lemma ValueWaits(k: Config, lead: string, value: string)
    requires k.state == ValueBegin && k.rest == lead + value && Blanks(lead)
    requires (value != "" ==> IsValueStart(value[0])) && forall i :: 0 <= i < |value| ==> IsValueChar(value[i])
    ensures Waits(k)
  {
    hide Run, Step, IsValueStart, IsValueChar;
    Scan(k, lead, value);
    var k1 := k.(done := k.done + lead, rest := value);
    if value == "" {
      WaitsAtEnd(k1);
    } else {
      assert value + "" == value && value[1..] + "" == value[1..];
      FirstOfValue(k1, value, "");
      var k2 := Config(ValueEnd, k1.done + [value[0]], value[1..], k1.req.(headers := SetValue(k1.req.headers, |k1.done|)));
      Scan(k2, value[1..], "");
      WaitsAtEnd(k2.(done := k2.done + value[1..], rest := ""));
    }
  }

  lemma VerbWaits(k: Config, verb: string)
    requires k.state == VerbBegin && k.rest == verb && forall i :: 0 <= i < |verb| ==> IsLetter(verb[i])
    ensures Waits(k)
  {
    hide Run;
    if verb == "" {
      WaitsAtEnd(k);
    } else {
      RunNext(k);
      var k1 := Step(k);
      assert verb[1..] + "" == verb[1..];
      Scan(k1, verb[1..], "");
      WaitsAtEnd(k1.(done := k1.done + verb[1..], rest := ""));
    }
  }

  lemma PathWaits(k: Config, path: string)
    requires k.state == PathBegin && k.rest == path && (path != "" ==> path[0] == '/')
    requires forall i :: 0 <= i < |path| ==> IsPathChar(path[i])
    ensures Waits(k)
  {
    hide Run, IsPathChar;
    if path == "" {
      WaitsAtEnd(k);
    } else {
      RunNext(k);
      var k1 := Step(k);
      assert path[1..] + "" == path[1..];
      Scan(k1, path[1..], "");
      WaitsAtEnd(k1.(done := k1.done + path[1..], rest := ""));
    }
  }

  lemma PrefixWaits(u: Prefix)
    requires PrefixOk(u)
    ensures Waits(Start(PrefixText(u)))
  {
    hide Run, Step, FieldOk, FieldsText, BrokenOk, BrokenText, IsVersion;
    var k0 := Start(PrefixText(u));
    var r1 := k0.rest[|u.w0|..];
    assert k0.rest == u.w0 + r1;
    Scan(k0, u.w0, r1);
    var k1 := k0.(done := [] + u.w0, rest := r1);
    if u.InVerb? {
      VerbWaits(k1, u.verb);
    } else {
      var r2 := if u.InPath? then u.path else if u.InVersion? then u.path + (u.w2 + "") else u.path + (u.w2 + (u.line + FieldsText(u.fields, BrokenText(u.last))));
      assert u.InVersion? ==> u.w2 + "" == u.w2;
      assert r1 == u.verb + (u.w1 + r2);
      VerbRun(k1, u.verb, u.w1, r2);
      var k2 := Config(PathBegin, k1.done + u.verb + ("\0" + u.w1[1..]), r2, k1.req.(verb := Some(|k1.done|)));
      if u.InPath? {
        PathWaits(k2, u.path);
      } else {
        HeadWaits(k2, u);
      }
    }
  }

  lemma HeadWaits(k: Config, u: Prefix)
    requires (u.InVersion? || u.InHeaders?) && PrefixOk(u) && k.state == PathBegin
    requires k.rest == u.path + (u.w2 + if u.InVersion? then "" else u.line + FieldsText(u.fields, BrokenText(u.last)))
    ensures Waits(k)
  {
    hide Run, Step, FieldOk, FieldsText, BrokenOk, BrokenText, IsVersion;
    var r := if u.InVersion? then "" else u.line + FieldsText(u.fields, BrokenText(u.last));
    PathRun(k, u.path, u.w2, r);
    var k1 := Config(Version, k.done + u.path + ("\0" + u.w2[1..]), r, k.req.(path := Some(|k.done|)));
    if u.InVersion? {
      WaitsAtEnd(k1);
    } else {
      LineLength(u.line);
      VersionRun(k1, u.line, FieldsText(u.fields, BrokenText(u.last)));
      var k2 := Config(FieldBegin, k1.done + u.line, FieldsText(u.fields, BrokenText(u.last)), k1.req.(version := Some(u.line[7])));
      FieldsRun(k2, u.fields, BrokenText(u.last));
      var k3 := Config(FieldBegin, FieldsCut(k2.done, u.fields), BrokenText(u.last),
        k2.req.(headers := k2.req.headers + HeadersAt(k2.done, u.fields)));
      BrokenWaits(k3, u.last);
    }
  }

  // ----- and nothing else does -----

  lemma WaitsState(k: Config)
    requires Waits(k)
    ensures k.state != Halt && k.state != Err
  {
    if k.state == Err && k.rest != [] {
      RunHalted(Step(k));
    }
  }

  /** A waiting run uses up the text in its state or leaves it as a request does. */
  lemma Wait(k: Config) returns (v: string, r: string, k2: Config)
    requires Waits(k)
    ensures k.rest == v + r && forall i :: 0 <= i < |v| ==> Stays(k.state, v[i])
    ensures r != "" ==> LeavesBy(k.state, r) && !Stays(k.state, r[0]) && Waits(k2)
    ensures r != "" ==> k2 == Step(k.(done := k.done + Written(k.state, v), rest := r))
  {
    hide Run, Step, Stays, LeavesBy;
    WaitsState(k);
    v, r := Longest(k.state, k.rest);
    Scan(k, v, r);
    k2 := k.(done := k.done + Written(k.state, v), rest := r);
    if r != "" {
      var k1 := k2;
      RunNext(k1);
      k2 := Step(k1);
      WaitsState(k2);
      OnlyExit(k1);
    }
  }

  lemma WaitVerb(k: Config) returns (w0: string, verb: string, w: string, k2: Config)
    requires Waits(k) && k.state == VerbBegin
    ensures k.rest == w0 + (verb + w) && Blanks(w0) && forall i :: 0 <= i < |verb| ==> IsLetter(verb[i])
    ensures w != "" ==> verb != "" && IsBlank(w[0]) && k2.state == PathBegin && k2.rest == w[1..] && Waits(k2)
  {
    hide Run, IsVersion;
    var r, k1, v;
    w0, r, k1 := Wait(k);
    verb, w, k2 := "", "", k1;
    if r != "" {
      v, w, k2 := Wait(k1);
      verb := [r[0]] + v;
      assert r == [r[0]] + k1.rest;
    }
  }

  lemma WaitPath(k: Config) returns (w: string, path: string, w2: string, k2: Config)
    requires Waits(k) && k.state == PathBegin
    ensures k.rest == w + (path + w2) && Blanks(w) && (path != "" ==> path[0] == '/')
    ensures forall i :: 0 <= i < |path| ==> IsPathChar(path[i])
    ensures w2 != "" ==> path != "" && IsBlank(w2[0]) && k2.state == Version && k2.rest == w2[1..] && Waits(k2)
  {
    hide Waits, IsPathChar;
    var r, k1, v;
    w, r, k1 := WaitSlash(k);
    path, w2, k2 := "", "", k1;
    if r != "" {
      v, w2, k2 := WaitPathEnd(k1);
      path := "/" + v;
      assert "/" + (v + w2) == path + w2;
      SlashInPath();
    }
  }

  lemma WaitSlash(k: Config) returns (w: string, r: string, k2: Config)
    requires Waits(k) && k.state == PathBegin
    ensures k.rest == w + r && Blanks(w)
    ensures r != "" ==> r == "/" + k2.rest && k2.state == PathEnd && Waits(k2)
  {
    hide Run, IsVersion;
    w, r, k2 := Wait(k);
    assert r != "" ==> r == [r[0]] + r[1..];
  }

  lemma WaitPathEnd(k: Config) returns (v: string, r: string, k2: Config)
    requires Waits(k) && k.state == PathEnd
    ensures k.rest == v + r && forall i :: 0 <= i < |v| ==> IsPathChar(v[i])
    ensures r != "" ==> IsBlank(r[0]) && k2.state == Version && k2.rest == r[1..] && Waits(k2)
  {
    hide Run, IsVersion, IsPathChar;
    v, r, k2 := Wait(k);
  }

  lemma WaitVersion(k: Config) returns (w: string, r: string, k2: Config)
    requires Waits(k) && k.state == Version
    ensures k.rest == w + r && Blanks(w)
    ensures r != "" ==> |r| >= 10 && IsVersion(r[..10]) && k2.state == FieldBegin && k2.rest == r[10..] && Waits(k2)
  {
    hide Run, IsVersion;
    w, r, k2 := Wait(k);
  }

  /** The start of a line: it can only go on with a name, as the blank line would halt the run. */
  lemma WaitLine(k: Config) returns (lead: string, r: string, k2: Config)
    requires Waits(k) && k.state == FieldBegin
    ensures k.rest == lead + r && Blanks(lead)
    ensures r != "" ==> IsFieldChar(r[0]) && k2.state == FieldEnd && k2.rest == r[1..] && Waits(k2)
  {
    hide Run, IsVersion;
    lead, r, k2 := Wait(k);
    if r != "" {
      WaitsState(k2);
    }
  }

  lemma WaitName(k: Config) returns (name: string, gap: string, r: string, k2: Config)
    requires Waits(k) && k.state == FieldEnd
    ensures k.rest == name + (gap + r) && (forall i :: 0 <= i < |name| ==> IsFieldChar(name[i])) && (gap != "" ==> IsBlank(gap[0]))
    ensures forall i :: 0 <= i < |gap| ==> IsBlank(gap[i]) || IsFieldChar(gap[i])
    ensures r != "" ==> r == ":" + k2.rest && k2.state == ValueBegin && Waits(k2)
  {
    hide Run, IsVersion;
    var v;
    v, r, k2 := Wait(k);
    name, gap := SplitName(v);
    assert r != "" ==> r == [r[0]] + r[1..];
  }

  lemma WaitValue(k: Config) returns (lead: string, value: string, r: string, k2: Config)
    requires Waits(k) && k.state == ValueBegin
    ensures k.rest == lead + (value + r) && Blanks(lead) && (value != "" ==> IsValueStart(value[0]))
    ensures forall i :: 0 <= i < |value| ==> IsValueChar(value[i])
    ensures r != "" ==> value != "" && r == "\r\n" + k2.rest && k2.state == FieldBegin && Waits(k2)
  {
    hide Waits, IsValueStart, IsValueChar;
    var r1, k1, v;
    lead, r1, k1 := WaitValueBegin(k);
    value, r, k2 := "", "", k1;
    if r1 != "" {
      v, r, k2 := WaitValueEnd(k1);
      value := [r1[0]] + v;
      StartsAreChars(r1[0]);
      assert [r1[0]] + (v + r) == value + r;
    }
  }

  lemma WaitValueBegin(k: Config) returns (lead: string, r: string, k2: Config)
    requires Waits(k) && k.state == ValueBegin
    ensures k.rest == lead + r && Blanks(lead)
    ensures r != "" ==> r == [r[0]] + k2.rest && IsValueStart(r[0]) && k2.state == ValueEnd && Waits(k2)
  {
    hide Run, IsVersion, IsValueStart;
    lead, r, k2 := Wait(k);
    assert r != "" ==> r == [r[0]] + r[1..];
  }

  lemma WaitValueEnd(k: Config) returns (v: string, r: string, k2: Config)
    requires Waits(k) && k.state == ValueEnd
    ensures k.rest == v + r && forall i :: 0 <= i < |v| ==> IsValueChar(v[i])
    ensures r != "" ==> r == "\r\n" + k2.rest && k2.state == FieldBegin && Waits(k2)
  {
    hide Run, IsVersion, IsValueChar;
    v, r, k2 := Wait(k);
    assert r != "" ==> r == "\r\n" + r[2..];
  }

  lemma NameBroken(lead: string, name: string, gap: string)
    requires Blanks(lead) && (forall i :: 0 <= i < |name| ==> IsFieldChar(name[i])) && (gap != "" ==> name != "" && IsBlank(gap[0]))
    requires forall i :: 0 <= i < |gap| ==> IsBlank(gap[i]) || IsFieldChar(gap[i])
    ensures BrokenOk(InName(lead, name, gap))
  {
  }

  lemma ValueBroken(lead: string, name: string, gap: string, lead2: string, value: string)
    requires BrokenOk(InName(lead, name, gap)) && name != "" && Blanks(lead2)
    requires (value != "" ==> IsValueStart(value[0])) && forall i :: 0 <= i < |value| ==> IsValueChar(value[i])
    ensures BrokenOk(InValue(lead, name, gap, lead2, value))
  {
  }

  lemma FieldWhole(f: Field)
    requires BrokenOk(InValue(f.lead, f.name, f.gap, f.lead2, f.value)) && f.value != ""
    ensures FieldOk(f)
  {
  }

  lemma {:induction false} WaitFields(k: Config) returns (fs: seq<Field>, last: Broken)
    requires Waits(k) && k.state == FieldBegin
    ensures k.rest == FieldsText(fs, BrokenText(last)) && BrokenOk(last) && forall i :: 0 <= i < |fs| ==> FieldOk(fs[i])
    decreases |k.rest|
  {
    hide Waits, FieldOk, BrokenOk;
    var lead, r1, k1 := WaitLine(k);
    if r1 == "" {
      fs, last := [], InName(lead, "", "");
      NameBroken(lead, "", "");
    } else {
      var n1, gap, r2, k2 := WaitName(k1);
      var name := [r1[0]] + n1;
      assert r1 == [r1[0]] + k1.rest == name + (gap + r2);
      NameBroken(lead, name, gap);
      if r2 == "" {
        fs, last := [], InName(lead, name, gap);
      } else {
        var lead2, value, r3, k3 := WaitValue(k2);
        ValueBroken(lead, name, gap, lead2, value);
        if r3 == "" {
          fs, last := [], InValue(lead, name, gap, lead2, value);
          assert value + r3 == value;
        } else {
          var f := Field(lead, name, gap, lead2, value);
          var fs1;
          fs1, last := WaitFields(k3);
          fs := [f] + fs1;
          assert fs[1..] == fs1;
          FieldWhole(f);
        }
      }
    }
  }

  lemma WaitsInHead(k: Config, w0: string, verb: string, c: char) returns (u: Prefix)
    requires Waits(k) && k.state == PathBegin && IsBlank(c)
    requires Blanks(w0) && verb != "" && forall i :: 0 <= i < |verb| ==> IsLetter(verb[i])
    ensures PrefixOk(u) && PrefixText(u) == w0 + (verb + ([c] + k.rest))
  {
    hide Waits, IsVersion, FieldOk, BrokenOk, FieldsText, BrokenText, IsLetter, IsPathChar;
    var v1, path, x2, k2 := WaitPath(k);
    var w1 := [c] + v1;
    assert [c] + k.rest == w1 + (path + x2);
    if x2 == "" {
      assert path + x2 == path;
      u := InPath(w0, verb, w1, path);
    } else {
      var w2, line, fs, last := WaitsInVersion(k2, x2);
      u := if line == "" then InVersion(w0, verb, w1, path, w2) else InHeaders(w0, verb, w1, path, w2, line, fs, last);
    }
  }

  lemma WaitsInVersion(k: Config, x: string) returns (w2: string, line: string, fs: seq<Field>, last: Broken)
    requires Waits(k) && k.state == Version && x != "" && IsBlank(x[0]) && k.rest == x[1..]
    ensures Blanks(w2) && w2 != ""
    ensures if line == "" then x == w2 else
      IsVersion(line) && x == w2 + (line + FieldsText(fs, BrokenText(last))) && BrokenOk(last) && forall i :: 0 <= i < |fs| ==> FieldOk(fs[i])
  {
    hide Waits, IsVersion, FieldOk, BrokenOk, FieldsText, BrokenText;
    var v2, r, k2 := WaitVersion(k);
    w2, line, fs, last := [x[0]] + v2, "", [], InName("", "", "");
    assert x == w2 + r;
    if r != "" {
      line := r[..10];
      fs, last := WaitFields(k2);
      assert r == line + k2.rest;
    }
  }

  lemma WaitsIsPrefix(s: string) returns (u: Prefix)
    requires Waits(Start(s))
    ensures PrefixOk(u) && s == PrefixText(u)
  {
    hide Waits, IsLetter;
    var w0, verb, x, k := WaitVerb(Start(s));
    if x == "" {
      assert verb + x == verb;
      u := InVerb(w0, verb);
    } else {
      u := WaitsInHead(k, w0, verb, x[0]);
      assert x == [x[0]] + k.rest;
    }
  }

  /** The machine waits for more behind exactly the unfinished requests. */
  lemma WaitsIffUnfinished(s: string)
    ensures Waits(Start(s)) <==> Unfinished(s)
  {
    hide Waits, PrefixOk, PrefixText;
    if Waits(Start(s)) {
      var u := WaitsIsPrefix(s);
    }
    if Unfinished(s) {
      var u :| PrefixOk(u) && s == PrefixText(u);
      PrefixWaits(u);
    }
  }

  // ----- how far the parser looks -----

  /** The machine rejects a NUL in every state. */
  lemma NulIsRejected(k: Config)
    requires k.rest != [] && k.rest[0] == '\0' && k.state != Halt && k.state != Err
    ensures Step(k) == Advance(k, Err, '\0')
  {
    hide SetValue;
  }

  /** What lies behind the NUL never influences a step. */
  lemma StepLooksNoFurther(k: Config, r: string, x: string)
    requires k.rest == r && r != "" && k.state != Halt
    ensures var t := Step(k);
      Step(k.(rest := r + "\0" + x)) == t.(rest := t.rest + "\0" + x)
  {
    hide SetValue, IsVersion, IsLetter, IsBlank, IsPathChar, IsFieldChar, IsValueChar, IsValueStart;
    var s := r + "\0" + x;
    assert s[0] == r[0] && s[1..] == r[1..] + "\0" + x;
    if |r| >= 2 {
      assert s[1] == r[1] && s[2..] == r[2..] + "\0" + x;
    }
    if |r| >= 10 {
      assert s[..10] == r[..10] && s[10..] == r[10..] + "\0" + x;
    } else if |s| >= 10 {
      NulInVersion(s[..10], |r|);
    }
  }

  lemma NulInVersion(v: string, i: nat)
    requires |v| == 10 && i < 10 && v[i] == '\0'
    ensures !IsVersion(v)
  {
  }

  /**
   Appending the NUL and what follows it to the text r either changes nothing, or, when r alone
   leaves the machine waiting for more, adds the step that rejects the NUL.
   */
  lemma {:induction false} RunWithNul(k: Config, r: string, x: string)
    requires k.rest == r
    ensures var alone, whole := Run(k), Run(k.(rest := r + "\0" + x));
      if alone.state == Halt || alone.state == Err then whole.done == alone.done && whole.req == alone.req
      else whole.done == alone.done + "\0" && whole.req == alone.req && alone.rest == ""
    decreases |r|, if k.state == Halt then 0 else 1
  {
    hide Step, Run;
    var w := k.(rest := r + "\0" + x);
    if k.state == Halt {
      RunHalted(k);
      RunHalted(w);
    } else if r == "" {
      RunStops(k);
      RunNext(w);
      assert w.rest[0] == '\0' && w.rest[1..] == x;
      if k.state == Err {
        ErrorStep(w);
        RunHalted(Step(w));
      } else {
        NulIsRejected(w);
        var e := Step(w);
        if x == "" {
          RunStops(e);
        } else {
          RunNext(e);
          ErrorStep(e);
          RunHalted(Step(e));
        }
      }
    } else {
      RunNext(k);
      RunNext(w);
      StepLooksNoFurther(k, r, x);
      StepShortens(k);
      RunWithNul(Step(k), Step(k).rest, x);
    }
  }

  /**
   In the error state the parser reads at |done|.  That is behind the NUL, at n+1, exactly when
   the request is unfinished; otherwise no read passes the NUL.
   */
  lemma ReadsPastNulIffUnfinished(b: string, n: nat)
    requires EndsAt(b, 0, n)
    ensures var k := Run(Start(b));
      (Unfinished(b[..n]) <==> |k.done| == n + 1) && (!Unfinished(b[..n]) ==> |k.done| <= n)
  {
    hide Run, Unfinished;
    var r, x := b[..n], b[n + 1..];
    assert b == r + "\0" + x;
    WaitsIffUnfinished(r);
    RunWithNul(Start(r), r, x);
    DoneGrows(Start(r));
    DoneGrows(Start(b));
  }

  lemma {:induction false} DoneGrows(k: Config)
    ensures |Run(k).done| + |Run(k).rest| == |k.done| + |k.rest| && |k.done| <= |Run(k).done|
    decreases |k.rest|, if k.state == Halt then 0 else 1
  {
    hide Step, Run;
    if k.state == Halt || k.rest == [] {
      RunStops(k);
    } else {
      RunNext(k);
      StepShortens(k);
      DoneGrows(Step(k));
    }
  }

  /** A lone verb letter is such a request, and so is the empty text; a bare line end is not. */
  lemma UnfinishedExample()
    ensures Unfinished("G") && Unfinished("") && !Unfinished("\r\n")
  {
    assert PrefixOk(InVerb("", "G")) && "G" == PrefixText(InVerb("", "G"));
    assert PrefixOk(InVerb("", "")) && "" == PrefixText(InVerb("", ""));
    WaitsIffUnfinished("\r\n");
    RunNext(Start("\r\n"));
    RunNext(Step(Start("\r\n")));
    RunHalted(Step(Step(Start("\r\n"))));
  }
}
