/**
 The tokenizer at the head of do_meta_command, which cuts the command line into C strings in place
 and resolves the escapes of each in the same buffer.
 */
module Tokenizer {
  import opened CStrings
  import opened CText

  // ----- resolve_backslashes -----

  /** The buffer with b[i..n] replaced by the shorter text u and, if there is room, a NUL. */
  function Shrunk(b: string, i: nat, n: nat, u: string): (r: string)
    requires i + |u| <= n < |b|
    ensures |r| == |b| && r[..i] == b[..i] && r[n..] == b[n..]
  {
    if i + |u| < n then b[..i] + u + "\0" + b[i + |u| + 1..] else b[..i] + u + b[n..]
  }

  /** Characters without a backslash among them resolve to themselves. */
  lemma {:induction false} UnescapePlain(a: string, t: string)
    requires '\\' !in a
    ensures Unescape(a + t) == a + Unescape(t)
  {
    if a == "" {
      assert a + t == t;
    } else {
      assert a[0] in a;
      assert (a + t)[1..] == a[1..] + t;
      UnescapePlain(a[1..], t);
    }
  }

  /** The skip to the first backslash. */
  method FirstBackslash(z: array<char>, start: nat, ghost n: nat) returns (p: nat)
    requires EndsAt(z[..], start, n)
    ensures start <= p <= n && '\\' !in z[start..p]
  {
    p := start;
    while z[p] != '\0' && z[p] != '\\'
      invariant start <= p <= n && '\\' !in z[start..p]
      decreases n - p
    {
      assert z[start..p + 1] == z[start..p] + [z[p]];
      p := p + 1;
    }
  }

  /** One digit more, in a char. */
  function Shifted(c: char, d: char): char
    requires IsOctal(d)
  {
    ((8 * c as int + (d as int - '0' as int)) % 256) as char
  }

  /** The character of the escape whose backslash is before i, and the index of its last character. */
  method ReadEscape(z: array<char>, i: nat, ghost n: nat) returns (c: char, last: nat)
    requires EndsAt(z[..], i, n) && i < n
    ensures c == EscapeValue(z[i..n]) && last == i + EscapeSize(z[i..n]) - 1
  {
    ghost var t := z[i..n];
    c, last := z[i], i;
    if c == 'a' {
      c := 7 as char;
    } else if c == 'b' {
      c := 8 as char;
    } else if c == 't' {
      c := '\t';
    } else if c == 'n' {
      c := '\n';
    } else if c == 'v' {
      c := 11 as char;
    } else if c == 'f' {
      c := 12 as char;
    } else if c == 'r' {
      c := '\r';
    } else if c == '"' {
      c := '"';
    } else if c == '\'' {
      c := '\'';
    } else if c == '\\' {
      c := '\\';
    } else if '0' <= c <= '7' {
      c, last := ReadOctal(z, i, n);
    }
  }

  method ReadOctal(z: array<char>, i: nat, ghost n: nat) returns (c: char, last: nat)
    requires EndsAt(z[..], i, n) && i < n && IsOctal(z[i])
    ensures last == i + EscapeSize(z[i..n]) - 1
    ensures c == EscapeValue(z[i..n])
  {
    hide OctalValue, EscapeValue, EscapeSize;
    ghost var t := z[i..n];
    c, last := (z[i] as int - '0' as int) as char, i;
    if IsOctal(z[last + 1]) {
      last := last + 1;
      c := Shifted(c, z[last]);
      if IsOctal(z[last + 1]) {
        last := last + 1;
        c := Shifted(c, z[last]);
        EscapeOfThree(t);
      } else {
        EscapeOfTwo(t);
      }
    } else {
      EscapeOfOne(t);
    }
  }

  lemma EscapeOfOne(t: string)
    requires t != "" && IsOctal(t[0]) && (|t| > 1 ==> !IsOctal(t[1]))
    ensures EscapeSize(t) == 1 && EscapeValue(t) == (t[0] as int - '0' as int) as char
  {
    hide OctalValue;
    OctalOne(t[0]);
    assert t[..1] == [t[0]];
  }

  lemma EscapeOfTwo(t: string)
    requires |t| > 1 && IsOctal(t[0]) && IsOctal(t[1]) && (|t| > 2 ==> !IsOctal(t[2]))
    ensures EscapeSize(t) == 2 && EscapeValue(t) == Shifted((t[0] as int - '0' as int) as char, t[1])
  {
    hide OctalValue;
    OctalTwo(t[0], t[1]);
    assert t[..2] == [t[0], t[1]];
  }

  lemma EscapeOfThree(t: string)
    requires |t| > 2 && IsOctal(t[0]) && IsOctal(t[1]) && IsOctal(t[2])
    ensures EscapeSize(t) == 3
    ensures EscapeValue(t) == Shifted(Shifted((t[0] as int - '0' as int) as char, t[1]), t[2])
  {
    hide OctalValue;
    OctalThree(t[0], t[1], t[2]);
    assert t[..3] == [t[0], t[1], t[2]];
    ShiftedSmall((t[0] as int - '0' as int) as char, t[1]);
  }

  /** Two digits fit in a char. */
  lemma ShiftedSmall(c: char, d: char)
    requires c as int < 8 && IsOctal(d)
    ensures Shifted(c, d) as int == 8 * c as int + (d as int - '0' as int)
  {
  }

  lemma OctalOne(x: char)
    requires IsOctal(x)
    ensures OctalValue([x]) == x as int - '0' as int
  {
    assert [x][..0] == "";
  }

  lemma OctalTwo(x: char, y: char)
    requires IsOctal(x) && IsOctal(y)
    ensures OctalValue([x, y]) == 8 * (x as int - '0' as int) + (y as int - '0' as int)
  {
    OctalOne(x);
    assert [x, y][..1] == [x];
  }

  lemma UnescapeLiteral(s: string)
    requires s != "" && (s[0] != '\\' || |s| == 1)
    ensures Unescape(s) == [s[0]] + Unescape(s[1..])
  {
  }

  /**
   The text b[i0..n] resolved up to i: its characters so far end at j, and whatever is behind them
   in the buffer z, so also all that is still unread, is what was there before.
   */
  ghost predicate Resolving(z: string, b: string, i0: nat, i: nat, j: nat, n: nat) {
    && i0 <= j <= i <= n < |z| == |b| && EndsAt(z, i, n)
    && z[..i0] == b[..i0] && z[j..] == b[j..]
    && Unescape(b[i0..n]) == z[i0..j] + Unescape(z[i..n])
  }

  lemma StillUnread(z: string, b: string, i0: nat, i: nat, j: nat, n: nat)
    requires Resolving(z, b, i0, i, j, n)
    ensures EndsAt(z, i, n)
  {
  }

  lemma SkippedPlain(b: string, i0: nat, p: nat, n: nat)
    requires EndsAt(b, i0, n) && i0 <= p <= n && '\\' !in b[i0..p]
    ensures Resolving(b, b, i0, p, p, n)
  {
    assert b[i0..n] == b[i0..p] + b[p..n];
    UnescapePlain(b[i0..p], b[p..n]);
  }

  lemma ResolvedOne(z: string, b: string, i0: nat, i: nat, j: nat, n: nat, c: char, last: nat)
    requires Resolving(z, b, i0, i, j, n) && i <= last < n
    requires Unescape(z[i..n]) == [c] + Unescape(z[last + 1..n])
    ensures Resolving(z[j := c], b, i0, last + 1, j + 1, n)
  {
    hide Unescape;
    var w := z[j := c];
    assert w[..i0] == b[..i0];
    assert w[j + 1..] == z[j..][1..] == b[j + 1..];
    assert w[last + 1..n] == z[last + 1..n];
    assert w[i0..j + 1] == z[i0..j] + [c];
  }

  lemma AllResolved(z: string, b: string, i0: nat, i: nat, j: nat, n: nat)
    requires Resolving(z, b, i0, i, j, n) && z[i] == '\0'
    ensures i == n && i0 + |Unescape(b[i0..n])| == j
    ensures (if j < i then z[j := '\0'] else z) == Shrunk(b, i0, n, Unescape(b[i0..n]))
  {
    assert z[n..n] == "" && Unescape("") == "";
    hide Unescape;
    var u := z[i0..j];
    if j < n {
      assert z[j + 1..] == z[j..][1..] == b[j + 1..];
      WriteNul(z, i0, j);
    } else {
      assert z == z[..i0] + u + z[j..];
    }
  }

  lemma WriteNul(z: string, i0: nat, j: nat)
    requires i0 <= j < |z|
    ensures z[j := '\0'] == z[..i0] + z[i0..j] + "\0" + z[j + 1..]
  {
  }

  /** The copying loop of resolve_backslashes, from the first backslash at p on. */
  method CopyResolved(z: array<char>, start: nat, p: nat, ghost n: nat) returns (i: nat, j: nat)
    requires start <= p <= n < z.Length && Resolving(z[..], z[..], start, p, p, n)
    modifies z
    ensures j <= i && p + i < z.Length && z[p + i] == '\0'
    ensures Resolving(z[..], old(z[..]), start, p + i, p + j, n)
  {
    hide Unescape, EndsAt, Resolving;
    ghost var b := z[..];
    i, j := 0, 0;
    while z[p + i] != '\0'
      invariant 0 <= j <= i && p + i <= n < z.Length
      invariant Resolving(z[..], b, start, p + i, p + j, n)
      decreases n - i
    {
      ghost var w := z[..];
      StillUnread(w, b, start, p + i, p + j, n);
      var c, last := ReadChar(z, p + i, n);
      ResolvedOne(w, b, start, p + i, p + j, n, c, last);
      i := last - p;
      z[p + j] := c;
      assert z[..] == w[p + j := c];
      i, j := i + 1, j + 1;
    }
  }

  /**
   resolve_backslashes on the C string at start, which ends at n.  Its reading index is never behind
   the writing index, so that what is still unread is what was there before.
   */
  method ResolveBackslashes(z: array<char>, start: nat, ghost n: nat)
    requires EndsAt(z[..], start, n)
    modifies z
    ensures start + |Unescape(old(z[start..n]))| <= n
    ensures z[..] == Shrunk(old(z[..]), start, n, Unescape(old(z[start..n])))
  {
    assert start <= n < z.Length;
    hide Unescape, Shrunk, EndsAt, Resolving;
    var p := FirstBackslash(z, start, n);
    SkippedPlain(z[..], start, p, n);
    var i, j := CopyResolved(z, start, p, n);
    ghost var w := z[..];
    AllResolved(w, old(z[..]), start, p + i, p + j, n);
    if j < i {
      z[p + j] := '\0';
      assert z[..] == w[p + j := '\0'];
    }
  }

  /** The character that the text at i starts with, which may be an escape, and its last index. */
  method ReadChar(z: array<char>, i: nat, ghost n: nat) returns (c: char, last: nat)
    requires EndsAt(z[..], i, n) && z[i] != '\0'
    ensures i <= last < n
    ensures Unescape(z[i..n]) == [c] + Unescape(z[last + 1..n])
  {
    hide Unescape, EscapeValue, EscapeSize;
    ghost var s := z[i..n];
    c, last := z[i], i;
    if c == '\\' && z[i + 1] != '\0' {
      assert z[i + 1..n] == s[1..];
      UnescapeOne(s);
      c, last := ReadEscape(z, i + 1, n);
      assert s[1 + EscapeSize(s[1..])..] == z[last + 1..n];
    } else {
      UnescapeLiteral(s);
      assert s[1..] == z[i + 1..n];
    }
  }

  // ----- the tokenizer -----

  const MAX_ARGS := 50

  method SkipSpaces(z: array<char>, h: nat, ghost n: nat) returns (g: nat)
    requires EndsAt(z[..], h, n)
    ensures h <= g <= n && z[g..n] == SkipSpace(z[h..n])
  {
    g := h;
    while IsSpace(z[g])
      invariant h <= g <= n && SkipSpace(z[g..n]) == SkipSpace(z[h..n])
      decreases n - g
    {
      assert z[g..n][1..] == z[g + 1..n];
      g := g + 1;
    }
  }

  method WordEnd(z: array<char>, h: nat, ghost n: nat) returns (g: nat)
    requires EndsAt(z[..], h, n)
    ensures g == h + WordLength(z[h..n]) <= n
  {
    g := h;
    while z[g] != '\0' && !IsSpace(z[g])
      invariant h <= g <= n && h + WordLength(z[h..n]) == g + WordLength(z[g..n])
      decreases n - g
    {
      assert z[g..n][1..] == z[g + 1..n];
      g := g + 1;
    }
  }

  method QuotedEnd(z: array<char>, h: nat, delim: char, ghost n: nat) returns (g: nat)
    requires EndsAt(z[..], h, n)
    ensures g == h + QuotedLength(z[h..n], delim) <= n
    ensures g < n ==> z[g] == delim
  {
    g := h;
    while z[g] != '\0' && z[g] != delim
      invariant h <= g <= n && h + QuotedLength(z[h..n], delim) == g + QuotedLength(z[g..n], delim)
      decreases n - g
    {
      assert z[g..n][1..] == z[g + 1..n] && (g + 1 < n ==> z[g..n][2..] == z[g + 2..n]);
      if z[g] == '\\' && delim == '"' && z[g + 1] != '\0' {
        g := g + 1;
      }
      g := g + 1;
    }
  }

  /** A C string at i is u, up to its first NUL, and its final NUL is before e. */
  ghost predicate Holds(z: string, i: nat, e: nat, u: string) {
    i <= e < |z| && z[e] == '\0' && CStr(z[i..e], 0) == CStr(u, 0)
  }

  lemma ShrunkHolds(b: string, i: nat, n: nat, u: string)
    requires i + |u| <= n < |b| && b[n] == '\0'
    ensures Holds(Shrunk(b, i, n, u), i, i + |u|, u)
  {
    assert Shrunk(b, i, n, u)[i..i + |u|] == u;
  }

  /** The buffer w after the token that starts at h in b: value u at arg, the rest of b from next on. */
  ghost predicate TokenCut(w: string, b: string, h: nat, arg: nat, e: nat, next: nat, n: nat, u: string) {
    && h <= arg && e <= n && h < next <= n < |w| == |b| && (e < next || next == n) && Holds(w, arg, e, u)
    && w[..h] == b[..h] && w[next..] == b[next..]
  }

  /** Cutting the token b[arg..g] off at g and replacing it by u. */
  lemma CutAt(b: string, h: nat, arg: nat, g: nat, n: nat, u: string)
    requires h <= arg <= g <= n < |b| && h < n && (g == h ==> g == n) && b[n] == '\0' && arg + |u| <= g
    ensures var next := if g < n then g + 1 else n;
      TokenCut(Shrunk(b[g := '\0'], arg, g, u), b, h, arg, arg + |u|, next, n, u)
  {
    var w := b[g := '\0'];
    var r := Shrunk(w, arg, g, u);
    ShrunkHolds(w, arg, g, u);
    hide Shrunk, Holds;
    assert r[..h] == r[..arg][..h] == w[..arg][..h] == b[..h];
    var next := if g < n then g + 1 else n;
    assert r[next..] == r[g..][next - g..] == w[g..][next - g..] == b[next..];
  }

  lemma QuotedParts(b: string, h: nat, g: nat, n: nat)
    requires h < n <= |b| && IsDelim(b[h]) && g == h + 1 + QuotedLength(b[h + 1..n], b[h]) <= n
    ensures TokenValue(b[h..n]) == if b[h] == '"' then Unescape(b[h + 1..g]) else b[h + 1..g]
    ensures TokenRest(b[h..n]) == b[if g < n then g + 1 else n..n]
  {
    hide Unescape, QuotedLength;
    var r := b[h..n];
    var t := b[h + 1..n];
    assert r[0] == b[h] && r[1..] == t;
    assert t[..g - h - 1] == b[h + 1..g];
  }

  /** A token that starts with a quote. */
  method QuotedToken(z: array<char>, h: nat, ghost n: nat) returns (arg: nat, next: nat, ghost e: nat)
    requires EndsAt(z[..], h, n) && h < n && IsDelim(z[h])
    modifies z
    ensures TokenCut(z[..], old(z[..]), h, arg, e, next, n, TokenValue(old(z[h..n])))
    ensures next <= n && old(z[next..n]) == TokenRest(old(z[h..n]))
  {
    hide Unescape, QuotedLength, TokenCut, TokenValue, TokenRest, Shrunk;
    ghost var b := z[..];
    var delim := z[h];
    arg := h + 1;
    var g := QuotedEnd(z, arg, delim, n);
    QuotedParts(b, h, g, n);
    next := g;
    if z[g] == delim {
      z[g] := '\0';
      next := g + 1;
    }
    assert z[..] == b[g := '\0'] && z[arg..g] == b[arg..g];
    e := g;
    if delim == '"' {
      e := arg + |Unescape(z[arg..g])|;
      ResolveBackslashes(z, arg, g);
    } else {
      ShrunkToItself(z[..], arg, g);
    }
    CutAt(b, h, arg, g, n, TokenValue(b[h..n]));
  }

  lemma ShrunkToItself(b: string, i: nat, n: nat)
    requires i <= n < |b|
    ensures Shrunk(b, i, n, b[i..n]) == b
  {
  }

  lemma PlainParts(b: string, h: nat, g: nat, n: nat)
    requires h < n <= |b| && !IsDelim(b[h]) && g == h + WordLength(b[h..n]) <= n
    ensures TokenValue(b[h..n]) == Unescape(b[h..g])
    ensures TokenRest(b[h..n]) == b[if g < n then g + 1 else n..n]
  {
    hide Unescape, WordLength;
    var r := b[h..n];
    assert r[..g - h] == b[h..g];
  }

  lemma WordIsNotEmpty(b: string, h: nat, n: nat)
    requires h < n <= |b| && !IsSpace(b[h])
    ensures WordLength(b[h..n]) > 0
  {
  }

  /** A token up to the next space. */
  method PlainToken(z: array<char>, h: nat, ghost n: nat) returns (arg: nat, next: nat, ghost e: nat)
    requires EndsAt(z[..], h, n) && h < n && !IsDelim(z[h]) && !IsSpace(z[h])
    modifies z
    ensures TokenCut(z[..], old(z[..]), h, arg, e, next, n, TokenValue(old(z[h..n])))
    ensures next <= n && old(z[next..n]) == TokenRest(old(z[h..n]))
  {
    hide Unescape, TokenCut, TokenValue, TokenRest, Shrunk, WordLength;
    ghost var b := z[..];
    arg := h;
    var g := WordEnd(z, h, n);
    WordIsNotEmpty(b, h, n);
    PlainParts(b, h, g, n);
    next := g;
    if z[g] != '\0' {
      z[g] := '\0';
      next := g + 1;
    }
    assert z[..] == b[g := '\0'] && z[arg..g] == b[arg..g];
    e := arg + |Unescape(z[arg..g])|;
    ResolveBackslashes(z, arg, g);
    CutAt(b, h, arg, g, n, TokenValue(b[h..n]));
  }

  /** The first m tokens are cut: each string ends before h, or at the end of the line. */
  ghost predicate Cut(w: string, args: seq<nat>, ends: seq<nat>, values: seq<string>, h: nat, n: nat) {
    && |args| == |ends| && |args| <= |values|
    && forall k :: 0 <= k < |args| ==> (ends[k] < h || h == n) && Holds(w, args[k], ends[k], values[k])
  }

  lemma CutMore(w: string, b: string, args: seq<nat>, ends: seq<nat>, values: seq<string>, g: nat, h: nat, n: nat,
                arg: nat, e: nat, next: nat)
    requires g <= h < n && Cut(b, args, ends, values, g, n) && |args| < |values|
    requires TokenCut(w, b, h, arg, e, next, n, values[|args|])
    ensures Cut(w, args + [arg], ends + [e], values, next, n)
  {
    forall k | 0 <= k < |args|
      ensures ends[k] < next && Holds(w, args[k], ends[k], values[k])
    {
      Unmoved(w, b, args[k], ends[k], h, values[k]);
    }
  }

  /** What is written behind a string leaves it alone. */
  lemma Unmoved(w: string, b: string, i: nat, e: nat, h: nat, u: string)
    requires Holds(b, i, e, u) && e < h <= |w| && h <= |b| && w[..h] == b[..h]
    ensures Holds(w, i, e, u)
  {
    assert forall k :: i <= k <= e ==> w[k] == w[..h][k] == b[..h][k] == b[k];
    assert w[i..e] == b[i..e];
  }

  /**
   The loop at the head of do_meta_command.  The line starts behind its first character and ends
   with the NUL at n; args are the indices of at most 50 arguments.  Each argument reads as the value
   of its token, up to a NUL that an octal escape may have put in it.
   */
  method Tokenize(z: array<char>, ghost n: nat) returns (args: seq<nat>)
    requires 1 <= n && EndsAt(z[..], 1, n)
    modifies z
    ensures var values := Tokens(old(z[1..n]), MAX_ARGS);
      |args| == |values| && forall k :: 0 <= k < |args| ==> CStr(z[..], args[k]) == CStr(values[k], 0)
    ensures z[0] == old(z[0]) && z[n..] == old(z[n..])
  {
    hide Tokens, TokenValue, TokenRest, SkipSpace, Cut, TokenCut;
    ghost var b := z[..];
    ghost var values := Tokens(b[1..n], MAX_ARGS);
    var h := 1;
    args := [];
    ghost var ends: seq<nat> := [];
    assert Cut(z[..], args, ends, values, h, n) by { NothingCut(z[..], values, h, n); }
    while z[h] != '\0' && |args| < MAX_ARGS
      invariant 1 <= h <= n && |args| <= MAX_ARGS && |args| <= |values|
      invariant EndsAt(z[..], h, n) && z[0] == b[0] && z[n..] == b[n..]
      invariant Cut(z[..], args, ends, values, h, n)
      invariant values[|args|..] == Tokens(z[h..n], MAX_ARGS - |args|)
      decreases n - h
    {
      var g := SkipSpaces(z, h, n);
      if z[g] == '\0' {
        NoMore(z[h..n], MAX_ARGS - |args|);
        break;
      }
      ghost var was := z[..];
      var arg, next;
      ghost var e;
      NextToken(z[h..n], MAX_ARGS - |args|);
      if IsDelim(z[g]) {
        arg, next, e := QuotedToken(z, g, n);
      } else {
        arg, next, e := PlainToken(z, g, n);
      }
      CutMore(z[..], was, args, ends, values, h, g, n, arg, e, next);
      args, ends := args + [arg], ends + [e];
      h := next;
      StillAhead(z[..], was, g, arg, e, next, n, values[|args| - 1]);
    }
    if h == n || |args| == MAX_ARGS {
      NoMore(z[h..n], MAX_ARGS - |args|);
    }
    CutReads(z[..], args, ends, values, h, n);
  }

  lemma NextToken(s: string, m: nat)
    requires m > 0 && SkipSpace(s) != ""
    ensures Tokens(s, m) == [TokenValue(SkipSpace(s))] + Tokens(TokenRest(SkipSpace(s)), m - 1)
  {
    hide TokenValue, TokenRest, SkipSpace;
  }

  lemma NoMore(s: string, m: nat)
    requires m == 0 || SkipSpace(s) == ""
    ensures Tokens(s, m) == []
  {
    hide TokenValue, TokenRest, SkipSpace;
  }

  lemma CutReads(w: string, args: seq<nat>, ends: seq<nat>, values: seq<string>, h: nat, n: nat)
    requires Cut(w, args, ends, values, h, n)
    ensures forall k :: 0 <= k < |args| ==> CStr(w, args[k]) == CStr(values[k], 0)
  {
    forall k | 0 <= k < |args|
      ensures CStr(w, args[k]) == CStr(values[k], 0)
    {
      CStrAt(w, args[k], ends[k]);
    }
  }

  lemma StillAhead(w: string, b: string, h: nat, arg: nat, e: nat, next: nat, n: nat, u: string)
    requires TokenCut(w, b, h, arg, e, next, n, u) && EndsAt(b, h, n) && h > 0
    ensures EndsAt(w, next, n) && w[next..n] == b[next..n] && w[n..] == b[n..] && w[0] == b[0]
  {
    hide Holds;
    assert w[n..] == w[next..][n - next..] == b[next..][n - next..] == b[n..];
    assert forall k :: next <= k <= n ==> w[k] == w[next..][k - next] == b[next..][k - next] == b[k];
    assert w[0] == w[..h][0] == b[..h][0];
  }

  lemma NothingCut(w: string, values: seq<string>, h: nat, n: nat)
    ensures Cut(w, [], [], values, h, n)
  {
  }

  /**
   The arguments that Tokenize leaves for a printed command line are the name and the printed
   strings, as many as it has room for.
   */
  method TokenizePrinted(z: array<char>, name: string, args: seq<string>, ghost n: nat) returns (argv: seq<nat>)
    requires IsName(name) && '\0' !in name
    requires forall i :: 0 <= i < |args| ==> Bytes(args[i]) && '\0' !in args[i]
    requires 1 <= n && EndsAt(z[..], 1, n) && z[1..n] == name + Arguments(args)
    modifies z
    ensures |argv| == if |args| < 50 then 1 + |args| else 50
    ensures forall k :: 0 <= k < |argv| ==> CStr(z[..], argv[k]) == if k == 0 then name else args[k - 1]
  {
    hide Tokens, Arguments;
    LineTokens(name, args, MAX_ARGS);
    argv := Tokenize(z, n);
    CStrWhole(name, 0);
    forall i | 0 <= i < |args|
      ensures CStr(args[i], 0) == args[i]
    {
      CStrWhole(args[i], 0);
    }
  }
}
