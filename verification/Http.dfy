/**
 The HTTP request parser of jorgeNetwork.cpp as a state machine on values: it walks the request
 buffer once and cuts it into C strings by writing NULs over delimiters.
 */
module Http {
  import opened Options

  // ----- alphabets -----

  predicate IsBlank(c: char) {
    c == ' ' || c == '\t'
  }

  predicate IsLetter(c: char) {
    'A' <= c <= 'Z' || 'a' <= c <= 'z'
  }

  predicate IsAlnum(c: char) {
    IsLetter(c) || '0' <= c <= '9'
  }

  predicate IsPathChar(c: char) {
    IsAlnum(c) || c in "/.+-=?~%"
  }

  predicate IsFieldChar(c: char) {
    IsAlnum(c) || c in "-.+*"
  }

  predicate IsValueStart(c: char) {
    IsAlnum(c) || c in "-./?+*"
  }

  predicate IsValueChar(c: char) {
    IsAlnum(c) || c in "-./?+*:=%&()_; \t,\n"
  }

  function ToUpper(c: char): char {
    if 'a' <= c <= 'z' then (c as int - 32) as char else c
  }

  /** "HTTP/1.x" and the line end, in any case. */
  predicate IsVersion(t: seq<char>) {
    && |t| == 10
    && ToUpper(t[0]) == 'H' && ToUpper(t[1]) == 'T' && ToUpper(t[2]) == 'T' && ToUpper(t[3]) == 'P'
    && t[4] == '/' && t[5] == '1' && t[6] == '.' && (t[7] == '0' || t[7] == '1')
    && t[8] == '\r' && t[9] == '\n'
  }

  // ----- the machine -----

  datatype State = VerbBegin | VerbEnd | PathBegin | PathEnd | Version | FieldBegin | FieldEnd
                 | ValueBegin | ValueEnd | Halt | Err

  /** A node of the header list; value is unset until it is reached. */
  datatype Header = Header(field: nat, value: Option<nat>)

  /** The fields of jnet_request_data, pointers being indices into the buffer. */
  datatype Request = Request(verb: Option<nat>, path: Option<nat>, version: Option<char>, headers: seq<Header>, body: Option<nat>)

  const EMPTY := Request(None, None, None, [], None)

  /** A moment of a run: the buffer is done + rest and the index is |done|. */
  datatype Config = Config(state: State, done: seq<char>, rest: seq<char>, req: Request)

  function Start(buf: seq<char>): Config {
    Config(VerbBegin, [], buf, EMPTY)
  }

  /** Goes on to state st behind the next character, which becomes c. */
  function Advance(k: Config, st: State, c: char): Config
    requires k.rest != []
  {
    k.(state := st, done := k.done + [c], rest := k.rest[1..])
  }

  function SetValue(hs: seq<Header>, i: nat): seq<Header> {
    if hs == [] then hs else hs[|hs| - 1 := hs[|hs| - 1].(value := Some(i))]
  }

  function Step(k: Config): Config
    requires k.rest != []
  {
    var i, c := |k.done|, k.rest[0];
    match k.state
    case VerbBegin =>
      if IsBlank(c) then Advance(k, VerbBegin, c)
      else if IsLetter(c) then Advance(k, VerbEnd, c).(req := k.req.(verb := Some(i)))
      else Advance(k, Err, c)
    case VerbEnd =>
      if IsBlank(c) then Advance(k, PathBegin, '\0')
      else if IsLetter(c) then Advance(k, VerbEnd, c)
      else Advance(k, Err, c)
    case PathBegin =>
      if IsBlank(c) then Advance(k, PathBegin, c)
      else if c == '/' then Advance(k, PathEnd, c).(req := k.req.(path := Some(i)))
      else Advance(k, Err, c)
    case PathEnd =>
      if IsBlank(c) then Advance(k, Version, '\0')
      else if IsPathChar(c) then Advance(k, PathEnd, c)
      else Advance(k, Err, c)
    case Version =>
      if IsBlank(c) then Advance(k, Version, c)
      else if |k.rest| >= 10 && IsVersion(k.rest[..10]) then
        Config(FieldBegin, k.done + k.rest[..10], k.rest[10..], k.req.(version := Some(k.rest[7])))
      else Advance(k, Err, c)
    case FieldBegin =>
      if IsBlank(c) then Advance(k, FieldBegin, c)
      else if IsFieldChar(c) then
        Advance(k, FieldEnd, c).(req := k.req.(headers := k.req.headers + [Header(i, None)]))
      else if c == '\r' && |k.rest| > 1 && k.rest[1] == '\n' then
        k.(state := Halt, req := k.req.(body := Some(i + 2)))
      else Advance(k, Err, c)
    case FieldEnd =>
      if IsBlank(c) then Advance(k, FieldEnd, '\0')
      else if c == ':' then Advance(k, ValueBegin, '\0')
      else if IsFieldChar(c) then Advance(k, FieldEnd, c)
      else Advance(k, Err, c)
    case ValueBegin =>
      if IsBlank(c) then Advance(k, ValueBegin, c)
      else if IsValueStart(c) then
        Advance(k, ValueEnd, c).(req := k.req.(headers := SetValue(k.req.headers, i)))
      else Advance(k, Err, c)
    case ValueEnd =>
      if c == '\r' && |k.rest| > 1 && k.rest[1] == '\n' then
        Config(FieldBegin, k.done + "\0\n", k.rest[2..], k.req)
      else if IsValueChar(c) then Advance(k, ValueEnd, c)
      else Advance(k, Err, c)
    case _ => k.(state := Halt)
  }

  function Run(k: Config): Config
    decreases |k.rest|, if k.state == Halt then 0 else 1
  {
    if k.state == Halt || k.rest == [] then k else Run(Step(k))
  }

  lemma RunNext(k: Config)
    requires k.state != Halt && k.rest != []
    ensures Run(k) == Run(Step(k))
  {
  }

  /** A run changes nothing once it has halted or used up the buffer. */
  lemma RunStops(k: Config)
    requires k.state == Halt || k.rest == []
    ensures Run(k) == k
  {
  }

  lemma StepShortens(k: Config)
    requires k.rest != [] && k.state != Halt
    ensures var t := Step(k); |t.rest| < |k.rest| || (|t.rest| == |k.rest| && t.state == Halt)
    ensures var t := Step(k); |t.done| + |t.rest| == |k.done| + |k.rest|
  {
  }

  lemma ErrorStep(k: Config)
    requires k.rest != [] && (k.state == Err || k.state == Halt)
    ensures Step(k) == k.(state := Halt)
  {
  }

  lemma RunHalted(k: Config)
    requires k.state == Halt
    ensures Run(k) == k
  {
  }
}
