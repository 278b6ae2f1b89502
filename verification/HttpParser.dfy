/**
 The parser of jnet_read_request in the source's own form: one loop over the request buffer, which
 the branches of its switch cut in place.
 */
module HttpParser {
  import opened Options
  import opened CStrings
  import opened Http
  import opened HttpUnfinished

  lemma Slices(s: seq<char>, i: nat, c: char)
    requires i < |s|
    ensures s[i := c][..i + 1] == s[..i] + [c] && s[i := c][i + 1..] == s[i..][1..] == s[i + 1..]
  {
  }

  lemma VersionAt(s: seq<char>, i: nat)
    requires i < |s|
    ensures |s[i..]| >= 10 ==>
      && (IsVersion(s[i..][..10]) <==>
          ToUpper(s[i]) == 'H' && ToUpper(s[i + 1]) == 'T' && ToUpper(s[i + 2]) == 'T' && ToUpper(s[i + 3]) == 'P' &&
          s[i + 4] == '/' && s[i + 5] == '1' && s[i + 6] == '.' && (s[i + 7] == '0' || s[i + 7] == '1') &&
          s[i + 8] == '\r' && s[i + 9] == '\n')
      && s[..i] + s[i..][..10] == s[..i + 10] && s[i..][10..] == s[i + 10..]
  {
  }

  lemma VersionStep(k: Config)
    requires k.state == Version && k.rest != []
    ensures Step(k) ==
      if IsBlank(k.rest[0]) then Advance(k, Version, k.rest[0])
      else if |k.rest| >= 10 && IsVersion(k.rest[..10]) then
        Config(FieldBegin, k.done + k.rest[..10], k.rest[10..], k.req.(version := Some(k.rest[7])))
      else Advance(k, Err, k.rest[0])
  {
    hide IsVersion;
  }

  // ----- the parser -----

  /** The request buffer and the local variables of jnet_read_request. */
  class Parser {
    const b: array<char>
    ghost const n: nat
    var state: State
    var i: nat
    var req: Request
    /** How much of the buffer is behind the parser; i, until the parser halts. */
    ghost var at: nat

    /**
     What is ahead is still the request.  Nothing is known to be behind the NUL at n, so that every
     read of a valid parser stops there; only the error state may already be past it.
     */
    ghost predicate Valid()
      reads this, b
    {
      && n < b.Length && at <= n + 1
      && (state == Err || state == Halt || at <= n) && (state == Halt || i == at)
      && (at <= n ==> b[n] == '\0') && forall k :: at <= k < n ==> b[k] != '\0'
    }

    ghost function Moment(): Config
      requires Valid()
      reads this, b
    {
      Config(state, b[..at], b[at..], req)
    }

    constructor (b: array<char>, ghost n: nat)
      requires EndsAt(b[..], 0, n)
      ensures Valid() && this.b == b && this.n == n && Moment() == Start(b[..])
    {
      this.b, this.n := b, n;
      state, i, at, req := VerbBegin, 0, 0, EMPTY;
    }

    /** The switch; the error state falls through to the default, which halts. */
    method Dispatch()
      requires Valid() && at < b.Length
      modifies this, b
      ensures Valid() && Moment() == Step(old(Moment()))
    {
      hide Step;
      match state {
        case VerbBegin => OnVerbBegin();
        case VerbEnd => OnVerbEnd();
        case PathBegin => OnPathBegin();
        case PathEnd => OnPathEnd();
        case Version => OnVersion();
        case FieldBegin => OnFieldBegin();
        case FieldEnd => OnFieldEnd();
        case ValueBegin => OnValueBegin();
        case ValueEnd => OnValueEnd();
        case _ =>
          ErrorStep(Moment());
          state := Halt;
      }
    }

    method OnVerbBegin()
      requires Valid() && state == VerbBegin
      modifies this
      ensures Valid() && Moment() == Step(old(Moment()))
    {
      Slices(b[..], i, b[i]);
      if IsBlank(b[i]) {
      } else if IsLetter(b[i]) {
        req := req.(verb := Some(i));
        state := VerbEnd;
      } else {
        state := Err;
      }
      i := i + 1;
      at := i;
    }

    method OnVerbEnd()
      requires Valid() && state == VerbEnd
      modifies this, b
      ensures Valid() && Moment() == Step(old(Moment()))
    {
      Slices(b[..], i, b[i]);
      Slices(b[..], i, '\0');
      if IsBlank(b[i]) {
        b[i] := '\0';
        state := PathBegin;
      } else if IsLetter(b[i]) {
      } else {
        state := Err;
      }
      i := i + 1;
      at := i;
    }

    method OnPathBegin()
      requires Valid() && state == PathBegin
      modifies this
      ensures Valid() && Moment() == Step(old(Moment()))
    {
      Slices(b[..], i, b[i]);
      if IsBlank(b[i]) {
      } else if b[i] == '/' {
        req := req.(path := Some(i));
        state := PathEnd;
      } else {
        state := Err;
      }
      i := i + 1;
      at := i;
    }

    method OnPathEnd()
      requires Valid() && state == PathEnd
      modifies this, b
      ensures Valid() && Moment() == Step(old(Moment()))
    {
      Slices(b[..], i, b[i]);
      Slices(b[..], i, '\0');
      if IsBlank(b[i]) {
        b[i] := '\0';
        state := Version;
      } else if IsPathChar(b[i]) {
      } else {
        state := Err;
      }
      i := i + 1;
      at := i;
    }

    method OnVersion()
      requires Valid() && state == Version
      modifies this
      ensures Valid() && Moment() == Step(old(Moment()))
    {
      hide IsVersion, Step;
      VersionStep(Moment());
      Slices(b[..], i, b[i]);
      VersionAt(b[..], i);
      if IsBlank(b[i]) {
        i := i + 1;
      } else if ToUpper(b[i]) == 'H' && ToUpper(b[i + 1]) == 'T' && ToUpper(b[i + 2]) == 'T' && ToUpper(b[i + 3]) == 'P' &&
                b[i + 4] == '/' && b[i + 5] == '1' && b[i + 6] == '.' && (b[i + 7] == '0' || b[i + 7] == '1') &&
                b[i + 8] == '\r' && b[i + 9] == '\n' {
        req := req.(version := Some(b[i + 7]));
        state := FieldBegin;
        i := i + 10;
      } else {
        state := Err;
        i := i + 1;
      }
      at := i;
    }

    method OnFieldBegin()
      requires Valid() && state == FieldBegin
      modifies this
      ensures Valid() && Moment() == Step(old(Moment()))
    {
      Slices(b[..], i, b[i]);
      at := i + 1;
      if IsBlank(b[i]) {
      } else if IsFieldChar(b[i]) {
        req := req.(headers := req.headers + [Header(i, None)]);
        state := FieldEnd;
      } else if b[i] == '\r' && b[i + 1] == '\n' {
        req := req.(body := Some(i + 2));
        at := i;
        i := i + 2;
        state := Halt;
      } else {
        state := Err;
      }
      i := i + 1;
    }

    method OnFieldEnd()
      requires Valid() && state == FieldEnd
      modifies this, b
      ensures Valid() && Moment() == Step(old(Moment()))
    {
      Slices(b[..], i, b[i]);
      Slices(b[..], i, '\0');
      if IsBlank(b[i]) {
        b[i] := '\0';
      } else if b[i] == ':' {
        b[i] := '\0';
        state := ValueBegin;
      } else if IsFieldChar(b[i]) {
      } else {
        state := Err;
      }
      i := i + 1;
      at := i;
    }

    method OnValueBegin()
      requires Valid() && state == ValueBegin
      modifies this
      ensures Valid() && Moment() == Step(old(Moment()))
    {
      Slices(b[..], i, b[i]);
      if IsBlank(b[i]) {
      } else if IsValueStart(b[i]) {
        req := req.(headers := SetValue(req.headers, i));
        state := ValueEnd;
      } else {
        state := Err;
      }
      i := i + 1;
      at := i;
    }

    method OnValueEnd()
      requires Valid() && state == ValueEnd
      modifies this, b
      ensures Valid() && Moment() == Step(old(Moment()))
    {
      Slices(b[..], i, b[i]);
      if b[i] == '\r' && b[i + 1] == '\n' {
        assert b[..][i := '\0'][..i + 2] == b[..i] + "\0\n" && b[..][i := '\0'][i + 2..] == b[i..][2..];
        b[i] := '\0';
        state := FieldBegin;
        i := i + 2;
      } else if IsValueChar(b[i]) {
        i := i + 1;
      } else {
        state := Err;
        i := i + 1;
      }
      at := i;
    }
  }

  /**
   The loop of jnet_read_request.  Every step first reads the character at the index, also the
   step that only notices an error.  So the buffer may end with the NUL, unless the request is
   unfinished: then that step reads the byte behind the NUL.
   */
  method Parse(b: array<char>, ghost n: nat) returns (req: Request)
    requires EndsAt(b[..], 0, n) && (n + 1 < b.Length || !Unfinished(b[..n]))
    modifies b
    ensures var k := Run(Start(old(b[..]))); b[..] == k.done + k.rest && req == k.req && k.state == Halt
  {
    hide Step, Run, Start, Unfinished;
    ReadsPastNulIffUnfinished(b[..], n);
    var p := new Parser(b, n);
    ghost var k := Run(p.Moment());
    while p.state != Halt
      invariant p.Valid() && fresh(p) && p.b == b && p.n == n
      invariant Run(p.Moment()) == k
      decreases |p.Moment().rest|, if p.state == Halt then 0 else 1
    {
      ghost var m := p.Moment();
      DoneGrows(m);
      var c := b[p.i];
      RunNext(m);
      StepShortens(m);
      p.Dispatch();
    }
    RunHalted(p.Moment());
    assert b[..p.at] + b[p.at..] == b[..];
    req := p.req;
  }
}
