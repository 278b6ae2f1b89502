/**
 What the request parser accepts and what it makes of it: the texts that parse are exactly the
 printed forms of the requests described by Parts, and the buffer ends up as the printed form
 with a NUL behind every verb, path, field name and value.
 */
module HttpGrammar {
  import opened Options
  import opened Http

  // ----- requests and their printed form -----

  datatype Field = Field(lead: string, name: string, gap: string, lead2: string, value: string)

  /** line is "HTTP/1.x" CR LF; the version is its eighth character. */
  datatype Parts = Parts(w0: string, verb: string, w1: string, path: string, w2: string, line: string,
                         fields: seq<Field>, w3: string)

  predicate Blanks(t: string) {
    forall i :: 0 <= i < |t| ==> IsBlank(t[i])
  }

  predicate FieldOk(f: Field) {
    && Blanks(f.lead) && Blanks(f.lead2)
    && f.name != "" && (forall i :: 0 <= i < |f.name| ==> IsFieldChar(f.name[i]))
    && (f.gap != "" ==> IsBlank(f.gap[0])) && (forall i :: 0 <= i < |f.gap| ==> IsBlank(f.gap[i]) || IsFieldChar(f.gap[i]))
    && f.value != "" && IsValueStart(f.value[0]) && (forall i :: 0 <= i < |f.value| ==> IsValueChar(f.value[i]))
  }

  predicate Ok(p: Parts) {
    && Blanks(p.w0) && Blanks(p.w1) && Blanks(p.w2) && Blanks(p.w3) && p.w1 != "" && p.w2 != ""
    && p.verb != "" && (forall i :: 0 <= i < |p.verb| ==> IsLetter(p.verb[i]))
    && p.path != "" && p.path[0] == '/' && (forall i :: 0 <= i < |p.path| ==> IsPathChar(p.path[i]))
    && IsVersion(p.line)
    && forall i :: 0 <= i < |p.fields| ==> FieldOk(p.fields[i])
  }

  /** A field line followed by t. */
  function FieldText(f: Field, t: string): string {
    f.lead + (f.name + (f.gap + (":" + (f.lead2 + (f.value + ("\r\n" + t))))))
  }

  function FieldsText(fs: seq<Field>, t: string): string {
    if fs == [] then t else FieldText(fs[0], FieldsText(fs[1..], t))
  }

  /** The request followed by t, which starts with the body. */
  function Text(p: Parts, t: string): string {
    p.w0 + (p.verb + (p.w1 + (p.path + (p.w2 + (p.line + FieldsText(p.fields, p.w3 + ("\r\n" + t)))))))
  }

  // ----- what the parser makes of it -----

  function Nulled(t: string): (r: string)
    ensures |r| == |t|
  {
    if t == "" then "" else [if IsBlank(t[0]) then '\0' else t[0]] + Nulled(t[1..])
  }

  /** The buffer behind the parser after a field line, given what was behind it before. */
  function FieldCut(done: string, f: Field): string {
    done + f.lead + f.name + Nulled(f.gap) + "\0" + f.lead2 + f.value + "\0\n"
  }

  function FieldsCut(done: string, fs: seq<Field>): string
    decreases |fs|
  {
    if fs == [] then done else FieldsCut(FieldCut(done, fs[0]), fs[1..])
  }

  function HeadCut(p: Parts): string
    requires p.w1 != "" && p.w2 != ""
  {
    p.w0 + p.verb + ("\0" + p.w1[1..]) + p.path + ("\0" + p.w2[1..]) + p.line
  }

  function HeaderAt(i: nat, f: Field): Header {
    var name := i + |f.lead|;
    Header(name, Some(name + |f.name| + |f.gap| + 1 + |f.lead2|))
  }

  function HeadersAt(done: string, fs: seq<Field>): seq<Header>
    decreases |fs|
  {
    if fs == [] then [] else [HeaderAt(|done|, fs[0])] + HeadersAt(FieldCut(done, fs[0]), fs[1..])
  }

  /** The end of the run on Text(p, t). */
  function Parsed(p: Parts, t: string): Config
    requires Ok(p)
  {
    var head := HeadCut(p);
    var done := FieldsCut(head, p.fields) + p.w3;
    Config(Halt, done, "\r\n" + t,
      Request(Some(|p.w0|), Some(|p.w0| + |p.verb| + |p.w1|), Some(p.line[7]), HeadersAt(head, p.fields), Some(|done| + 2)))
  }

  // ----- runs over a token -----

  /** The machine stays in state st over c and leaves the request alone. */
  predicate Stays(st: State, c: char) {
    match st
    case VerbBegin | PathBegin | Version | FieldBegin | ValueBegin => IsBlank(c)
    case VerbEnd => IsLetter(c)
    case PathEnd => IsPathChar(c)
    case FieldEnd => IsFieldChar(c) || IsBlank(c)
    case ValueEnd => IsValueChar(c)
    case _ => false
  }

  function Written(st: State, v: string): (r: string)
    ensures |r| == |v|
  {
    if st == FieldEnd then Nulled(v) else v
  }

  function WrittenChar(st: State, c: char): char {
    if st == FieldEnd && IsBlank(c) then '\0' else c
  }

  lemma StayStep(k: Config, c: char, r: string)
    requires k.rest == [c] + r && Stays(k.state, c)
    ensures Step(k) == k.(done := k.done + [WrittenChar(k.state, c)], rest := r)
  {
    hide IsVersion, SetValue;
    assert k.rest[1..] == r;
  }

  lemma WrittenFirst(st: State, v: string)
    requires v != ""
    ensures Written(st, v) == [WrittenChar(st, v[0])] + Written(st, v[1..])
  {
  }

  lemma {:induction false} Scan(k: Config, v: string, r: string)
    requires k.rest == v + r && forall i :: 0 <= i < |v| ==> Stays(k.state, v[i])
    ensures Run(k) == Run(k.(done := k.done + Written(k.state, v), rest := r))
    decreases |v|
  {
    hide Run, Step, Stays;
    if v == "" {
      assert k.rest == r && k.done + Written(k.state, v) == k.done;
      assert k == k.(done := k.done + Written(k.state, v), rest := r);
    } else {
      assert Stays(k.state, v[0]);
      assert k.rest == [v[0]] + (v[1..] + r);
      StayStep(k, v[0], v[1..] + r);
      StaysNotHalt(k.state, v[0]);
      RunNext(k);
      Scan(Step(k), v[1..], r);
      WrittenFirst(k.state, v);
      assert k.done + [WrittenChar(k.state, v[0])] + Written(k.state, v[1..]) == k.done + Written(k.state, v);
    }
  }

  lemma StaysNotHalt(st: State, c: char)
    requires Stays(st, c)
    ensures st != Halt && st != Err
  {
  }

  lemma VerbRun(k: Config, verb: string, w1: string, r: string)
    requires k.state == VerbBegin && k.rest == verb + (w1 + r)
    requires verb != "" && w1 != "" && Blanks(w1) && forall i :: 0 <= i < |verb| ==> IsLetter(verb[i])
    ensures Run(k) == Run(Config(PathBegin, k.done + verb + ("\0" + w1[1..]), r, k.req.(verb := Some(|k.done|))))
  {
    hide Run;
    var q := k.req.(verb := Some(|k.done|));
    RunNext(k);
    assert k.rest[0] == verb[0] && k.rest[1..] == verb[1..] + (w1 + r);
    var k1 := Config(VerbEnd, k.done + [verb[0]], verb[1..] + (w1 + r), q);
    assert Step(k) == k1;
    Scan(k1, verb[1..], w1 + r);
    var k2 := Config(VerbEnd, k.done + verb, w1 + r, q);
    assert k.done + [verb[0]] + verb[1..] == k.done + verb;
    RunNext(k2);
    assert (w1 + r)[0] == w1[0] && (w1 + r)[1..] == w1[1..] + r;
    Scan(Step(k2), w1[1..], r);
    assert k.done + verb + ['\0'] + w1[1..] == k.done + verb + ("\0" + w1[1..]);
  }

  lemma PathRun(k: Config, path: string, w2: string, r: string)
    requires k.state == PathBegin && k.rest == path + (w2 + r)
    requires path != "" && path[0] == '/' && w2 != "" && Blanks(w2) && forall i :: 0 <= i < |path| ==> IsPathChar(path[i])
    ensures Run(k) == Run(Config(Version, k.done + path + ("\0" + w2[1..]), r, k.req.(path := Some(|k.done|))))
  {
    hide Run;
    var q := k.req.(path := Some(|k.done|));
    RunNext(k);
    assert k.rest[0] == path[0] && k.rest[1..] == path[1..] + (w2 + r);
    var k1 := Config(PathEnd, k.done + [path[0]], path[1..] + (w2 + r), q);
    assert Step(k) == k1;
    Scan(k1, path[1..], w2 + r);
    var k2 := Config(PathEnd, k.done + path, w2 + r, q);
    assert k.done + [path[0]] + path[1..] == k.done + path;
    RunNext(k2);
    assert (w2 + r)[0] == w2[0] && (w2 + r)[1..] == w2[1..] + r;
    Scan(Step(k2), w2[1..], r);
    assert k.done + path + ['\0'] + w2[1..] == k.done + path + ("\0" + w2[1..]);
  }

  lemma VersionRun(k: Config, line: string, r: string)
    requires k.state == Version && k.rest == line + r && IsVersion(line)
    ensures Run(k) == Run(Config(FieldBegin, k.done + line, r, k.req.(version := Some(line[7]))))
  {
    hide Run;
    RunNext(k);
    assert k.rest[..10] == line && k.rest[10..] == r;
  }

  lemma FirstOfName(k: Config, name: string, r: string)
    requires k.state == FieldBegin && k.rest == name + r && name != "" && IsFieldChar(name[0])
    ensures Run(k) == Run(Config(FieldEnd, k.done + [name[0]], name[1..] + r,
      k.req.(headers := k.req.headers + [Header(|k.done|, None)])))
  {
    hide Run;
    RunNext(k);
    assert k.rest[0] == name[0] && k.rest[1..] == name[1..] + r;
  }

  lemma ColonRun(k: Config, r: string)
    requires k.state == FieldEnd && k.rest == ":" + r
    ensures Run(k) == Run(Config(ValueBegin, k.done + "\0", r, k.req))
  {
    hide Run;
    RunNext(k);
    assert k.rest[1..] == r;
  }

  lemma OnlyNameRun(k: Config, name: string, r: string)
    requires k.state == FieldBegin && k.rest == name + r && name != ""
    requires forall i :: 0 <= i < |name| ==> IsFieldChar(name[i])
    ensures Run(k) == Run(Config(FieldEnd, k.done + name, r, k.req.(headers := k.req.headers + [Header(|k.done|, None)])))
  {
    hide Run, Step, Nulled, IsFieldChar, IsBlank;
    FirstOfName(k, name, r);
    var k1 := Config(FieldEnd, k.done + [name[0]], name[1..] + r, k.req.(headers := k.req.headers + [Header(|k.done|, None)]));
    Scan(k1, name[1..], r);
    NoBlanks(name[1..]);
    assert k1.done + name[1..] == k.done + name;
  }

  lemma NameRun(k: Config, name: string, gap: string, r: string)
    requires k.state == FieldBegin && k.rest == name + (gap + (":" + r)) && name != ""
    requires forall i :: 0 <= i < |name| ==> IsFieldChar(name[i])
    requires forall i :: 0 <= i < |gap| ==> IsBlank(gap[i]) || IsFieldChar(gap[i])
    ensures Run(k) == Run(Config(ValueBegin, k.done + name + Nulled(gap) + "\0", r,
      k.req.(headers := k.req.headers + [Header(|k.done|, None)])))
  {
    hide Run, Step, Nulled, IsFieldChar, IsBlank;
    OnlyNameRun(k, name, gap + (":" + r));
    var k1 := Config(FieldEnd, k.done + name, gap + (":" + r), k.req.(headers := k.req.headers + [Header(|k.done|, None)]));
    Scan(k1, gap, ":" + r);
    ColonRun(Config(FieldEnd, k1.done + Nulled(gap), ":" + r, k1.req), r);
  }

  lemma {:induction false} NoBlanks(t: string)
    requires forall i :: 0 <= i < |t| ==> IsFieldChar(t[i])
    ensures Nulled(t) == t
  {
    if t != "" {
      NoBlanks(t[1..]);
    }
  }

  lemma FirstOfValue(k: Config, value: string, r: string)
    requires k.state == ValueBegin && k.rest == value + r && value != "" && IsValueStart(value[0])
    ensures Run(k) == Run(Config(ValueEnd, k.done + [value[0]], value[1..] + r, k.req.(headers := SetValue(k.req.headers, |k.done|))))
  {
    hide Run;
    RunNext(k);
    assert k.rest[0] == value[0] && k.rest[1..] == value[1..] + r;
  }

  lemma LineEndRun(k: Config, r: string)
    requires k.state == ValueEnd && k.rest == "\r\n" + r
    ensures Run(k) == Run(Config(FieldBegin, k.done + "\0\n", r, k.req))
  {
    hide Run;
    RunNext(k);
    assert k.rest[2..] == r;
  }

  lemma ValueRun(k: Config, value: string, r: string)
    requires k.state == ValueBegin && k.rest == value + ("\r\n" + r) && value != ""
    requires IsValueStart(value[0]) && forall i :: 0 <= i < |value| ==> IsValueChar(value[i])
    ensures Run(k) == Run(Config(FieldBegin, k.done + value + "\0\n", r, k.req.(headers := SetValue(k.req.headers, |k.done|))))
  {
    hide Run, Step, IsValueStart, IsValueChar;
    var q := k.req.(headers := SetValue(k.req.headers, |k.done|));
    FirstOfValue(k, value, "\r\n" + r);
    Scan(Config(ValueEnd, k.done + [value[0]], value[1..] + ("\r\n" + r), q), value[1..], "\r\n" + r);
    assert k.done + [value[0]] + value[1..] == k.done + value;
    LineEndRun(Config(ValueEnd, k.done + value, "\r\n" + r, q), r);
  }

  lemma FieldRun(k: Config, f: Field, r: string)
    requires k.state == FieldBegin && k.rest == FieldText(f, r) && FieldOk(f)
    ensures Run(k) == Run(Config(FieldBegin, FieldCut(k.done, f), r, k.req.(headers := k.req.headers + [HeaderAt(|k.done|, f)])))
  {
    hide Run, Step, Nulled;
    var r1 := f.name + (f.gap + (":" + (f.lead2 + (f.value + ("\r\n" + r)))));
    Scan(k, f.lead, r1);
    var k1 := k.(done := k.done + f.lead, rest := r1);
    NameRun(k1, f.name, f.gap, f.lead2 + (f.value + ("\r\n" + r)));
    var q := k.req.(headers := k.req.headers + [Header(|k1.done|, None)]);
    var k2 := Config(ValueBegin, k1.done + f.name + Nulled(f.gap) + "\0", f.lead2 + (f.value + ("\r\n" + r)), q);
    Scan(k2, f.lead2, f.value + ("\r\n" + r));
    var k3 := k2.(done := k2.done + f.lead2, rest := f.value + ("\r\n" + r));
    ValueRun(k3, f.value, r);
    var h := HeaderAt(|k.done|, f);
    assert q.headers == k.req.headers + [Header(h.field, None)] && |k3.done| == h.value.value;
    assert SetValue(q.headers, |k3.done|) == k.req.headers + [h];
  }

  lemma {:induction false} FieldsRun(k: Config, fs: seq<Field>, r: string)
    requires k.state == FieldBegin && k.rest == FieldsText(fs, r) && forall i :: 0 <= i < |fs| ==> FieldOk(fs[i])
    ensures Run(k) == Run(Config(FieldBegin, FieldsCut(k.done, fs), r, k.req.(headers := k.req.headers + HeadersAt(k.done, fs))))
    decreases |fs|
  {
    hide Run;
    if fs == [] {
      assert k.req.headers + HeadersAt(k.done, fs) == k.req.headers;
      assert k == Config(FieldBegin, FieldsCut(k.done, fs), r, k.req.(headers := k.req.headers + HeadersAt(k.done, fs)));
    } else {
      FieldRun(k, fs[0], FieldsText(fs[1..], r));
      var k1 := Config(FieldBegin, FieldCut(k.done, fs[0]), FieldsText(fs[1..], r),
        k.req.(headers := k.req.headers + [HeaderAt(|k.done|, fs[0])]));
      FieldsRun(k1, fs[1..], r);
      assert k1.req.headers + HeadersAt(k1.done, fs[1..]) == k.req.headers + HeadersAt(k.done, fs);
    }
  }

  /** Parsing undoes printing: every printed request halts through its blank line, cut as promised. */
  lemma ParsePrinted(p: Parts, t: string)
    requires Ok(p)
    ensures Run(Start(Text(p, t))) == Parsed(p, t)
  {
    hide Run, Step, FieldsText, FieldsCut, HeadersAt, FieldOk, IsLetter, IsPathChar, IsBlank, SetValue;
    LineLength(p.line);
    hide IsVersion;
    var k0 := Start(Text(p, t));
    var r4 := FieldsText(p.fields, p.w3 + ("\r\n" + t));
    var r3 := p.line + r4;
    var r2 := p.path + (p.w2 + r3);
    var r1 := p.verb + (p.w1 + r2);
    Scan(k0, p.w0, r1);
    assert [] + p.w0 == p.w0;
    var k1 := Config(VerbBegin, p.w0, r1, EMPTY);
    VerbRun(k1, p.verb, p.w1, r2);
    var k2 := Config(PathBegin, k1.done + p.verb + ("\0" + p.w1[1..]), r2, EMPTY.(verb := Some(|p.w0|)));
    PathRun(k2, p.path, p.w2, r3);
    var k3 := Config(Version, k2.done + p.path + ("\0" + p.w2[1..]), r3, k2.req.(path := Some(|k2.done|)));
    VersionRun(k3, p.line, r4);
    var k4 := Config(FieldBegin, k3.done + p.line, r4, k3.req.(version := Some(p.line[7])));
    FieldsRun(k4, p.fields, p.w3 + ("\r\n" + t));
    assert EMPTY.headers + HeadersAt(k4.done, p.fields) == HeadersAt(k4.done, p.fields);
    var k5 := Config(FieldBegin, FieldsCut(k4.done, p.fields), p.w3 + ("\r\n" + t), k4.req.(headers := HeadersAt(k4.done, p.fields)));
    Scan(k5, p.w3, "\r\n" + t);
    var k6 := k5.(done := k5.done + p.w3, rest := "\r\n" + t);
    BlankLineRun(k6, t);
  }

  lemma LineLength(line: string)
    requires IsVersion(line)
    ensures |line| == 10
  {
  }

  lemma BlankLineRun(k: Config, t: string)
    requires k.state == FieldBegin && k.rest == "\r\n" + t
    ensures Run(k) == k.(state := Halt, req := k.req.(body := Some(|k.done| + 2)))
  {
    hide Run;
    RunNext(k);
    RunHalted(Step(k));
  }

  // ----- nothing else is accepted -----

  predicate Accepts(k: Config) {
    Run(k).req.body.Some?
  }

  lemma {:induction false} ErrRefuses(k: Config)
    requires k.state == Err && k.req.body.None?
    ensures !Accepts(k)
  {
    if k.rest != [] {
      RunHalted(Step(k));
    }
  }

  /** An accepting run does not stop short, and its next step is not into the error state. */
  lemma AcceptsNext(k: Config)
    requires Accepts(k) && k.req.body.None? && k.state != Halt && k.state != Err
    ensures k.rest != [] && Run(k) == Run(Step(k)) && Accepts(Step(k)) && Step(k).state != Err
  {
    hide Step;
    if k.rest != [] {
      RunNext(k);
      if Step(k).state == Err {
        ErrKeepsBody(k);
        ErrRefuses(Step(k));
      }
    }
  }

  lemma ErrKeepsBody(k: Config)
    requires k.rest != [] && Step(k).state != Halt
    ensures Step(k).req.body == k.req.body
  {
    hide IsVersion, SetValue;
  }

  /** The longest stretch over which the machine stays in its state. */
  lemma {:induction false} Longest(st: State, t: string) returns (v: string, r: string)
    ensures t == v + r && (forall i :: 0 <= i < |v| ==> Stays(st, v[i])) && (r != "" ==> !Stays(st, r[0]))
  {
    hide Stays;
    if t == "" || !Stays(st, t[0]) {
      v, r := "", t;
    } else {
      var v1, r1 := Longest(st, t[1..]);
      v, r := [t[0]] + v1, r1;
    }
  }

  /** An accepting run leaves its state on the first character that it cannot stay for. */
  lemma Leave(k: Config) returns (v: string, r: string)
    requires Accepts(k) && k.req.body.None? && k.state != Halt && k.state != Err
    ensures k.rest == v + r && (forall i :: 0 <= i < |v| ==> Stays(k.state, v[i])) && r != "" && !Stays(k.state, r[0])
    ensures var k1 := k.(done := k.done + Written(k.state, v), rest := r);
      Accepts(k1) && Accepts(Step(k1)) && Step(k1).state != Err
  {
    hide Run, Step, Stays;
    v, r := Longest(k.state, k.rest);
    Scan(k, v, r);
    AcceptsNext(k.(done := k.done + Written(k.state, v), rest := r));
  }

  /** What the only step out of a state shows about the character and the rest. */
  predicate LeavesBy(st: State, r: string) {
    match st
    case VerbBegin => r != "" && IsLetter(r[0])
    case VerbEnd => r != "" && IsBlank(r[0])
    case PathBegin => r != "" && r[0] == '/'
    case PathEnd => r != "" && IsBlank(r[0])
    case Version => |r| >= 10 && IsVersion(r[..10])
    case FieldBegin => r != "" && (IsFieldChar(r[0]) || (|r| > 1 && r[0] == '\r' && r[1] == '\n'))
    case FieldEnd => r != "" && r[0] == ':'
    case ValueBegin => r != "" && IsValueStart(r[0])
    case ValueEnd => |r| > 1 && r[0] == '\r' && r[1] == '\n'
    case _ => false
  }

  lemma OnlyExit(k: Config)
    requires k.rest != [] && !Stays(k.state, k.rest[0]) && k.state != Halt && k.state != Err && Step(k).state != Err
    ensures LeavesBy(k.state, k.rest)
  {
    hide IsVersion, SetValue;
  }

  /** A run that has yet to find the blank line, and will. */
  predicate Open(k: Config, st: State) {
    Accepts(k) && k.req.body.None? && k.state == st
  }

  /** Leaving a state: the stretch v, the character that ends it and the moment after that. */
  lemma Exit(k: Config, st: State) returns (v: string, r: string, k2: Config)
    requires Open(k, st) && st != Halt && st != Err
    ensures k.rest == v + r && (forall i :: 0 <= i < |v| ==> Stays(st, v[i])) && r != "" && !Stays(st, r[0])
    ensures LeavesBy(st, r) && Accepts(k2)
    ensures k2 == Step(k.(done := k.done + Written(st, v), rest := r))
  {
    hide Run, Step, Stays, LeavesBy;
    v, r := Leave(k);
    var k1 := k.(done := k.done + Written(st, v), rest := r);
    OnlyExit(k1);
    k2 := Step(k1);
  }

  lemma ExplainName(k: Config) returns (name: string, gap: string, k2: Config)
    requires Open(k, FieldEnd)
    ensures k.rest == name + (gap + (":" + k2.rest)) && Open(k2, ValueBegin) && |k2.rest| < |k.rest|
    ensures (forall i :: 0 <= i < |name| ==> IsFieldChar(name[i])) && (gap != "" ==> IsBlank(gap[0]))
    ensures forall i :: 0 <= i < |gap| ==> IsBlank(gap[i]) || IsFieldChar(gap[i])
  {
    hide Run;
    var v, r;
    v, r, k2 := Exit(k, FieldEnd);
    assert r == [r[0]] + r[1..] == ":" + k2.rest;
    name, gap := SplitName(v);
  }

  lemma {:induction false} SplitName(v: string) returns (name: string, gap: string)
    requires forall i :: 0 <= i < |v| ==> Stays(FieldEnd, v[i])
    ensures v == name + gap && (forall i :: 0 <= i < |name| ==> IsFieldChar(name[i])) && (gap != "" ==> IsBlank(gap[0]))
    ensures forall i :: 0 <= i < |gap| ==> IsBlank(gap[i]) || IsFieldChar(gap[i])
  {
    if v == "" || IsBlank(v[0]) {
      name, gap := "", v;
    } else {
      var n1, g1 := SplitName(v[1..]);
      name, gap := [v[0]] + n1, g1;
    }
  }

  lemma EnterValue(k: Config) returns (lead: string, c: char, k2: Config)
    requires Open(k, ValueBegin)
    ensures k.rest == lead + ([c] + k2.rest) && Open(k2, ValueEnd) && Blanks(lead) && IsValueStart(c)
  {
    hide Run, IsVersion;
    var r;
    lead, r, k2 := Exit(k, ValueBegin);
    c := r[0];
    assert r == [c] + k2.rest;
  }

  lemma LeaveValue(k: Config) returns (v: string, k2: Config)
    requires Open(k, ValueEnd)
    ensures k.rest == v + ("\r\n" + k2.rest) && Open(k2, FieldBegin) && forall i :: 0 <= i < |v| ==> IsValueChar(v[i])
  {
    hide Run, IsVersion;
    var r;
    v, r, k2 := Exit(k, ValueEnd);
    assert r == "\r\n" + k2.rest;
  }

  lemma ExplainValue(k: Config) returns (lead: string, value: string, k2: Config)
    requires Open(k, ValueBegin)
    ensures k.rest == lead + (value + ("\r\n" + k2.rest)) && Open(k2, FieldBegin) && |k2.rest| < |k.rest|
    ensures Blanks(lead) && value != "" && IsValueStart(value[0]) && forall i :: 0 <= i < |value| ==> IsValueChar(value[i])
  {
    hide Open, Blanks, IsValueStart, IsValueChar;
    var c, k1, v;
    lead, c, k1 := EnterValue(k);
    v, k2 := LeaveValue(k1);
    value := [c] + v;
    assert [c] + (v + ("\r\n" + k2.rest)) == value + ("\r\n" + k2.rest);
    StartsAreChars(c);
  }

  lemma StartsAreChars(c: char)
    requires IsValueStart(c)
    ensures IsValueChar(c)
  {
  }

  /** At the start of a line: either a field name begins or the blank line is there. */
  lemma EnterLine(k: Config) returns (v: string, r: string, k2: Config)
    requires Open(k, FieldBegin)
    ensures k.rest == v + r && Blanks(v) && r != ""
    ensures IsFieldChar(r[0]) ==> r == [r[0]] + k2.rest && Open(k2, FieldEnd)
    ensures !IsFieldChar(r[0]) ==> |r| >= 2 && r == "\r\n" + r[2..]
  {
    hide Run, IsVersion;
    v, r, k2 := Exit(k, FieldBegin);
  }

  lemma {:induction false} ExplainFields(k: Config) returns (fs: seq<Field>, w3: string, t: string)
    requires Open(k, FieldBegin)
    ensures k.rest == FieldsText(fs, w3 + ("\r\n" + t)) && Blanks(w3) && forall i :: 0 <= i < |fs| ==> FieldOk(fs[i])
    decreases |k.rest|
  {
    hide Open, IsFieldChar, IsValueStart, IsValueChar;
    var v, r, k1 := EnterLine(k);
    if IsFieldChar(r[0]) {
      var n1, gap, k2 := ExplainName(k1);
      var lead2, value, k3 := ExplainValue(k2);
      var f := Field(v, [r[0]] + n1, gap, lead2, value);
      var fs1;
      fs1, w3, t := ExplainFields(k3);
      assert FieldOk(f);
      assert r == f.name + (gap + (":" + k2.rest));
      fs := [f] + fs1;
      assert fs[1..] == fs1;
    } else {
      fs, w3, t := [], v, r[2..];
    }
  }

  lemma EnterVerb(k: Config) returns (w0: string, c: char, k2: Config)
    requires Open(k, VerbBegin)
    ensures k.rest == w0 + ([c] + k2.rest) && Open(k2, VerbEnd) && Blanks(w0) && IsLetter(c)
  {
    hide Run, IsVersion;
    var r;
    w0, r, k2 := Exit(k, VerbBegin);
    c := r[0];
    assert r == [c] + k2.rest;
  }

  lemma LeaveVerb(k: Config) returns (v: string, c: char, k2: Config)
    requires Open(k, VerbEnd)
    ensures k.rest == v + ([c] + k2.rest) && Open(k2, PathBegin) && IsBlank(c) && forall i :: 0 <= i < |v| ==> IsLetter(v[i])
  {
    hide Run, IsVersion;
    var r;
    v, r, k2 := Exit(k, VerbEnd);
    c := r[0];
    assert r == [c] + k2.rest;
  }

  lemma ExplainVerb(k: Config) returns (w0: string, verb: string, c: char, k2: Config)
    requires Open(k, VerbBegin)
    ensures k.rest == w0 + (verb + ([c] + k2.rest)) && Open(k2, PathBegin) && Blanks(w0) && IsBlank(c)
    ensures verb != "" && forall i :: 0 <= i < |verb| ==> IsLetter(verb[i])
  {
    hide Open, IsLetter, IsBlank;
    var first, k1, v;
    w0, first, k1 := EnterVerb(k);
    v, c, k2 := LeaveVerb(k1);
    verb := [first] + v;
    assert [first] + (v + ([c] + k2.rest)) == verb + ([c] + k2.rest);
  }

  lemma EnterPath(k: Config) returns (w: string, k2: Config)
    requires Open(k, PathBegin)
    ensures k.rest == w + ("/" + k2.rest) && Open(k2, PathEnd) && Blanks(w)
  {
    hide Run, IsVersion;
    var r;
    w, r, k2 := Exit(k, PathBegin);
    assert r == "/" + k2.rest;
  }

  lemma LeavePath(k: Config) returns (v: string, c: char, k2: Config)
    requires Open(k, PathEnd)
    ensures k.rest == v + ([c] + k2.rest) && Open(k2, Version) && IsBlank(c) && forall i :: 0 <= i < |v| ==> IsPathChar(v[i])
  {
    hide Run, IsVersion;
    var r;
    v, r, k2 := Exit(k, PathEnd);
    c := r[0];
    assert r == [c] + k2.rest;
  }

  lemma ExplainPath(k: Config) returns (w: string, path: string, c: char, k2: Config)
    requires Open(k, PathBegin)
    ensures k.rest == w + (path + ([c] + k2.rest)) && Open(k2, Version) && Blanks(w) && IsBlank(c)
    ensures path != "" && path[0] == '/' && forall i :: 0 <= i < |path| ==> IsPathChar(path[i])
  {
    SlashInPath();
    hide Open, IsPathChar, IsBlank;
    var k1, v;
    w, k1 := EnterPath(k);
    v, c, k2 := LeavePath(k1);
    path := "/" + v;
    assert "/" + (v + ([c] + k2.rest)) == path + ([c] + k2.rest);
  }

  lemma SlashInPath()
    ensures IsPathChar('/')
  {
  }

  lemma ExplainVersion(k: Config) returns (w: string, line: string, k2: Config)
    requires Open(k, Version)
    ensures k.rest == w + (line + k2.rest) && Open(k2, FieldBegin) && Blanks(w) && IsVersion(line)
  {
    hide Run;
    var r;
    w, r, k2 := Exit(k, Version);
    line := r[..10];
    assert r == line + k2.rest;
  }

  /** Whatever halts through the blank line is a printed request. */
  lemma AcceptedIsPrinted(s: string) returns (p: Parts, t: string)
    requires Accepts(Start(s))
    ensures Ok(p) && s == Text(p, t)
  {
    hide Run, Step, IsVersion, FieldOk;
    var w0, verb, c1, k1 := ExplainVerb(Start(s));
    var v1, path, c2, k2 := ExplainPath(k1);
    var v2, line, k3 := ExplainVersion(k2);
    var fs, w3;
    fs, w3, t := ExplainFields(k3);
    p := Parts(w0, verb, [c1] + v1, path, [c2] + v2, line, fs, w3);
    assert [c1] + (v1 + (path + ([c2] + k2.rest))) == p.w1 + (path + ([c2] + k2.rest));
    assert [c2] + (v2 + (line + k3.rest)) == p.w2 + (line + k3.rest);
  }

  /** The parser accepts exactly the printed requests, whatever the body. */
  lemma AcceptsIffPrinted(s: string)
    ensures Accepts(Start(s)) <==> exists p: Parts, t: string :: Ok(p) && s == Text(p, t)
  {
    if Accepts(Start(s)) {
      var p, t := AcceptedIsPrinted(s);
    }
    if exists p: Parts, t: string :: Ok(p) && s == Text(p, t) {
      var p: Parts, t: string :| Ok(p) && s == Text(p, t);
      ParsePrinted(p, t);
    }
  }
}
