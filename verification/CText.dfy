/**
 C-style string text: the printer output_c_string, the escapes that resolve_backslashes
 understands, and the arguments of a dot-command line.
 */
module CText {

  predicate IsSpace(c: char) {
    c == ' ' || 9 <= c as int <= 13
  }

  /** isprint in the C locale. */
  predicate IsPrint(c: char) {
    ' ' <= c <= '~'
  }

  predicate IsByte(c: char) {
    c as int < 256
  }

  predicate IsOctal(c: char) {
    '0' <= c <= '7'
  }

  // ----- printing -----

  function OctalDigit(d: nat): char
    requires d < 8
  {
    (d + '0' as int) as char
  }

  /** What output_c_string writes for one byte. */
  function EscapeChar(c: char): string
    requires IsByte(c)
  {
    if c == '\\' then "\\\\"
    else if c == '"' then "\\\""
    else if c == '\t' then "\\t"
    else if c == '\n' then "\\n"
    else if c == '\r' then "\\r"
    else if !IsPrint(c) then ['\\', OctalDigit(c as int / 64), OctalDigit(c as int / 8 % 8), OctalDigit(c as int % 8)]
    else [c]
  }

  predicate Bytes(z: string) {
    forall i :: 0 <= i < |z| ==> IsByte(z[i])
  }

  function Escape(z: string): string
    requires Bytes(z)
  {
    if z == "" then "" else EscapeChar(z[0]) + Escape(z[1..])
  }

  lemma {:induction false} EscapeConcat(a: string, b: string)
    requires Bytes(a) && Bytes(b)
    ensures Bytes(a + b) && Escape(a + b) == Escape(a) + Escape(b)
  {
    hide EscapeChar, IsByte;
    if a == "" {
      assert a + b == b;
    } else {
      EscapeConcat(a[1..], b);
      assert (a + b)[1..] == a[1..] + b && (a + b)[0] == a[0];
      EscapeFirst(a);
      EscapeFirst(a + b);
    }
  }

  lemma EscapeFirst(z: string)
    requires Bytes(z) && z != ""
    ensures Escape(z) == EscapeChar(z[0]) + Escape(z[1..])
  {
    hide EscapeChar;
  }

  /** output_c_string. */
  method OutputCString(out: string, z: string) returns (r: string)
    requires Bytes(z)
    ensures r == out + "\"" + Escape(z) + "\""
  {
    hide EscapeChar, Escape;
    r := out + "\"";
    assert Escape(z[..0]) == "" by { EscapeEmpty(); }
    var i := 0;
    while i < |z|
      invariant 0 <= i <= |z| && r == out + "\"" + Escape(z[..i])
    {
      r := OutputCChar(r, z[i]);
      EscapeNext(z, i);
      i := i + 1;
    }
    assert z[..i] == z;
    r := r + "\"";
  }

  lemma EscapeEmpty()
    ensures Escape("") == ""
  {
  }

  /** The body of output_c_string's loop. */
  method OutputCChar(out: string, c: char) returns (r: string)
    requires IsByte(c)
    ensures r == out + EscapeChar(c)
  {
    r := out;
    if c == '\\' {
      r := r + [c];
      r := r + [c];
    } else if c == '"' {
      r := r + "\\";
      r := r + "\"";
    } else if c == '\t' {
      r := r + "\\";
      r := r + "t";
    } else if c == '\n' {
      r := r + "\\";
      r := r + "n";
    } else if c == '\r' {
      r := r + "\\";
      r := r + "r";
    } else if !IsPrint(c) {
      r := r + ['\\', OctalDigit(c as int / 64), OctalDigit(c as int / 8 % 8), OctalDigit(c as int % 8)];
    } else {
      r := r + [c];
    }
  }

  lemma EscapeNext(z: string, i: nat)
    requires Bytes(z) && i < |z|
    ensures Escape(z[..i + 1]) == Escape(z[..i]) + EscapeChar(z[i])
  {
    assert z[..i + 1] == z[..i] + [z[i]];
    EscapeConcat(z[..i], [z[i]]);
    assert [z[i]][1..] == "";
  }

  // ----- escapes -----

  /** How many characters the escape behind a backslash takes: up to three octal digits, else one. */
  function EscapeSize(s: string): (k: nat)
    requires s != ""
    ensures 1 <= k <= 3 && k <= |s|
  {
    if IsOctal(s[0]) && |s| > 1 && IsOctal(s[1]) then (if |s| > 2 && IsOctal(s[2]) then 3 else 2) else 1
  }

  function OctalValue(s: string): nat
    requires forall i :: 0 <= i < |s| ==> IsOctal(s[i])
  {
    if s == "" then 0 else
      assert IsOctal(s[|s| - 1]);
      8 * OctalValue(s[..|s| - 1]) + (s[|s| - 1] as int - '0' as int)
  }

  /** The character that an escape stands for; an octal value is cut to a byte. */
  function EscapeValue(s: string): char
    requires s != ""
  {
    if IsOctal(s[0]) then (OctalValue(s[..EscapeSize(s)]) % 256) as char
    else match s[0]
      case 'a' => 7 as char
      case 'b' => 8 as char
      case 't' => '\t'
      case 'n' => '\n'
      case 'v' => 11 as char
      case 'f' => 12 as char
      case 'r' => '\r'
      case c => c
  }

  /** A text with its escapes resolved; a lone backslash at the end stays. */
  function Unescape(s: string): string
    decreases |s|
  {
    if s == "" then ""
    else if s[0] == '\\' && |s| > 1 then [EscapeValue(s[1..])] + Unescape(s[1 + EscapeSize(s[1..])..])
    else [s[0]] + Unescape(s[1..])
  }

  /** Resolving undoes escaping, byte by byte. */
  lemma UnescapeChar(c: char, t: string)
    requires IsByte(c)
    ensures Unescape(EscapeChar(c) + t) == [c] + Unescape(t)
  {
    hide OctalValue;
    var e := EscapeChar(c);
    var s := e + t;
    if e[0] == '\\' {
      var k := |e| - 1;
      EscapeCharValue(c, t);
      assert s[1..] == e[1..] + t && s[1 + k..] == t;
      UnescapeOne(s);
    } else {
      assert s[1..] == t;
    }
  }

  lemma UnescapeOne(s: string)
    requires |s| > 1 && s[0] == '\\'
    ensures Unescape(s) == [EscapeValue(s[1..])] + Unescape(s[1 + EscapeSize(s[1..])..])
  {
    hide EscapeValue, EscapeSize;
  }

  /** What follows the backslash of a printed escape stands for the byte, whatever comes behind it. */
  lemma EscapeCharValue(c: char, t: string)
    requires IsByte(c) && EscapeChar(c)[0] == '\\'
    ensures var s := EscapeChar(c)[1..] + t;
      EscapeSize(s) == |EscapeChar(c)| - 1 && EscapeValue(s) == c
  {
    hide OctalValue;
    var e := EscapeChar(c);
    var s := e[1..] + t;
    if |e| == 4 {
      OctalOfByte(c);
      assert s[..3] == e[1..];
    } else {
      assert s[0] == e[1] && !IsOctal(e[1]);
    }
  }

  lemma OctalOfByte(c: char)
    requires IsByte(c)
    ensures var s := [OctalDigit(c as int / 64), OctalDigit(c as int / 8 % 8), OctalDigit(c as int % 8)];
      (forall i :: 0 <= i < 3 ==> IsOctal(s[i])) && OctalValue(s) == c as int
  {
    hide OctalValue;
    var x, y, z := c as int / 64, c as int / 8 % 8, c as int % 8;
    var s := [OctalDigit(x), OctalDigit(y), OctalDigit(z)];
    OctalThree(s[0], s[1], s[2]);
  }

  lemma OctalThree(x: char, y: char, z: char)
    requires IsOctal(x) && IsOctal(y) && IsOctal(z)
    ensures OctalValue([x, y, z]) == 64 * (x as int - '0' as int) + 8 * (y as int - '0' as int) + (z as int - '0' as int)
  {
    assert [x, y, z][..2] == [x, y] && [x, y][..1] == [x] && [x][..0] == "";
    assert OctalValue([x]) == x as int - '0' as int;
    assert OctalValue([x, y]) == 8 * OctalValue([x]) + (y as int - '0' as int);
  }

  lemma {:induction false} UnescapeEscape(z: string)
    requires Bytes(z)
    ensures Unescape(Escape(z)) == z
  {
    if z != "" {
      UnescapeChar(z[0], Escape(z[1..]));
      UnescapeEscape(z[1..]);
    }
  }

  // ----- tokens -----

  function SkipSpace(s: string): (r: string)
    ensures |r| <= |s| && (r != "" ==> !IsSpace(r[0]))
  {
    if s == "" || !IsSpace(s[0]) then s else SkipSpace(s[1..])
  }

  /** The length of a quoted token whose text starts s: up to the delimiter, minding backslashes. */
  function QuotedLength(s: string, delim: char): (k: nat)
    ensures k <= |s|
  {
    if s == "" || s[0] == delim then 0
    else if s[0] == '\\' && delim == '"' && |s| > 1 then 2 + QuotedLength(s[2..], delim)
    else 1 + QuotedLength(s[1..], delim)
  }

  function WordLength(s: string): (k: nat)
    ensures k <= |s|
  {
    if s == "" || IsSpace(s[0]) then 0 else 1 + WordLength(s[1..])
  }

  predicate IsDelim(c: char) {
    c == '\'' || c == '"'
  }

  /** The text behind a token of length k: its delimiter or one space is dropped with it. */
  function BehindToken(s: string, k: nat): string
    requires k <= |s|
  {
    if k < |s| then s[k + 1..] else ""
  }

  /** The length of the token that r starts with, behind an opening quote, if any. */
  function TokenLength(r: string): (k: nat)
    requires r != ""
    ensures if IsDelim(r[0]) then k < |r| else k <= |r|
  {
    if IsDelim(r[0]) then QuotedLength(r[1..], r[0]) else WordLength(r)
  }

  /** Its text with the escapes resolved, except between single quotes. */
  function TokenValue(r: string): string
    requires r != ""
  {
    var k := TokenLength(r);
    if r[0] == '\'' then r[1..][..k] else if r[0] == '"' then Unescape(r[1..][..k]) else Unescape(r[..k])
  }

  /** What follows it. */
  function TokenRest(r: string): (s: string)
    requires r != ""
    ensures |s| < |r|
  {
    hide QuotedLength;
    BehindToken(if IsDelim(r[0]) then r[1..] else r, TokenLength(r))
  }

  /** The values of up to n tokens of a line. */
  function Tokens(s: string, n: nat): seq<string>
    decreases n
  {
    var r := SkipSpace(s);
    if n == 0 || r == "" then [] else [TokenValue(r)] + Tokens(TokenRest(r), n - 1)
  }

  // ----- a printed command line -----

  /** The arguments, each behind a space and printed as a C string. */
  function Arguments(args: seq<string>): string
    requires forall i :: 0 <= i < |args| ==> Bytes(args[i])
  {
    if args == [] then "" else
      assert Bytes(args[0]);
      " \"" + (Escape(args[0]) + ("\"" + Arguments(args[1..])))
  }

  lemma {:induction false} EscapedLength(z: string, t: string)
    requires Bytes(z)
    ensures QuotedLength(Escape(z) + ("\"" + t), '"') == |Escape(z)|
  {
    hide QuotedLength, EscapeChar;
    var s := Escape(z) + ("\"" + t);
    if z == "" {
      assert s == "\"" + t;
      EndLength(t);
    } else {
      EscapedLength(z[1..], t);
      var e := EscapeChar(z[0]);
      var s1 := Escape(z[1..]) + ("\"" + t);
      assert s == e + s1;
      CharLength(z[0], s1);
    }
  }

  /** A printed byte never ends a quoted token. */
  lemma CharLength(c: char, s: string)
    requires IsByte(c)
    ensures QuotedLength(EscapeChar(c) + s, '"') == |EscapeChar(c)| + QuotedLength(s, '"')
  {
    hide QuotedLength;
    var e := EscapeChar(c);
    if |e| == 1 {
      PlainLength(c, s);
    } else {
      var t := e[2..] + s;
      assert e + s == ['\\', e[1]] + t;
      PairLength(e[1], t);
      if |e| == 2 {
        assert t == s;
      } else {
        assert IsOctal(e[2]) && IsOctal(e[3]);
        PlainLength(e[3], s);
        PlainLength(e[2], [e[3]] + s);
        assert t == [e[2]] + ([e[3]] + s);
      }
    }
  }

  lemma EndLength(t: string)
    ensures QuotedLength("\"" + t, '"') == 0
  {
  }

  lemma PlainLength(c: char, s: string)
    requires c != '"' && c != '\\'
    ensures QuotedLength([c] + s, '"') == 1 + QuotedLength(s, '"')
  {
    assert ([c] + s)[1..] == s;
  }

  lemma PairLength(c: char, s: string)
    ensures QuotedLength(['\\', c] + s, '"') == 2 + QuotedLength(s, '"')
  {
    assert (['\\', c] + s)[2..] == s;
  }

  lemma FirstArgument(z: string, rest: string, n: nat)
    requires Bytes(z) && n > 0
    ensures Tokens(" \"" + (Escape(z) + ("\"" + rest)), n) == [z] + Tokens(rest, n - 1)
  {
    hide Escape, Unescape, QuotedLength, Tokens;
    var t := Escape(z) + ("\"" + rest);
    EscapedLength(z, rest);
    assert t[..|Escape(z)|] == Escape(z) && t[|Escape(z)| + 1..] == rest;
    UnescapeEscape(z);
    QuotedToken(t, |Escape(z)|, n);
  }

  lemma QuotedToken(t: string, k: nat, n: nat)
    requires n > 0 && k == QuotedLength(t, '"') < |t|
    ensures Tokens(" \"" + t, n) == [Unescape(t[..k])] + Tokens(t[k + 1..], n - 1)
  {
    hide Unescape, QuotedLength, WordLength;
    var u := "\"" + t;
    assert " \"" + t == " " + u && (" " + u)[1..] == u && SkipSpace(" " + u) == SkipSpace(u) == u;
    assert u[1..] == t;
  }

  /** Tokenizing the printed arguments gives them back, as many as there is room for. */
  lemma {:induction false} ArgumentsTokens(args: seq<string>, n: nat)
    requires forall i :: 0 <= i < |args| ==> Bytes(args[i])
    ensures Tokens(Arguments(args), n) == if |args| <= n then args else args[..n]
    decreases |args|
  {
    hide Escape, Tokens;
    if args == [] || n == 0 {
      NoTokens(Arguments(args), n);
    } else {
      FirstArgument(args[0], Arguments(args[1..]), n);
      ArgumentsTokens(args[1..], n - 1);
    }
  }

  lemma NoTokens(s: string, n: nat)
    requires s == "" || n == 0
    ensures Tokens(s, n) == []
  {
    hide Unescape, QuotedLength, WordLength;
  }

  /** A command name: one word without quotes at its start or backslashes in it. */
  predicate IsName(w: string) {
    w != "" && !IsDelim(w[0]) && forall i :: 0 <= i < |w| ==> !IsSpace(w[i]) && w[i] != '\\'
  }

  lemma {:induction false} PlainWord(w: string, t: string)
    requires (forall i :: 0 <= i < |w| ==> !IsSpace(w[i]) && w[i] != '\\') && (t != "" ==> IsSpace(t[0]))
    ensures WordLength(w + t) == |w| && Unescape(w) == w
  {
    if w == "" {
      assert w + t == t;
    } else {
      assert (w + t)[1..] == w[1..] + t;
      PlainWord(w[1..], t);
    }
  }

  /** A printed command line is read back as its name and arguments, up to n tokens. */
  lemma LineTokens(name: string, args: seq<string>, n: nat)
    requires IsName(name) && n > 0 && forall i :: 0 <= i < |args| ==> Bytes(args[i])
    ensures Tokens(name + Arguments(args), n) == if |args| < n then [name] + args else [name] + args[..n - 1]
  {
    hide Unescape, QuotedLength, WordLength, Escape, Tokens;
    var t := Arguments(args);
    PlainWord(name, t);
    WordToken(name, t, n);
    ArgumentsTokens(args, n - 1);
    BehindName(name, t, n - 1);
  }

  lemma WordToken(w: string, t: string, n: nat)
    requires n > 0 && w != "" && !IsSpace(w[0]) && !IsDelim(w[0]) && WordLength(w + t) == |w|
    ensures Tokens(w + t, n) == [Unescape(w)] + Tokens(BehindToken(w + t, |w|), n - 1)
  {
    hide Unescape, QuotedLength, WordLength;
    assert (w + t)[..|w|] == w;
  }

  /** The space dropped with a word makes no difference to the tokens behind it. */
  lemma BehindName(name: string, t: string, n: nat)
    requires t != "" ==> IsSpace(t[0])
    ensures Tokens(BehindToken(name + t, |name|), n) == Tokens(t, n)
  {
    hide Unescape, QuotedLength, WordLength;
    if t != "" {
      assert (name + t)[|name| + 1..] == t[1..];
    }
  }

  // ----- by the characters -----

  lemma Classes(c: char)
    ensures IsSpace(c) <==> c as int in [9, 10, 11, 12, 13, 32]
    ensures IsPrint(c) <==> 32 <= c as int <= 126
    ensures IsOctal(c) <==> c in "01234567"
    ensures IsDelim(c) <==> c as int in [34, 39]
  {
  }

  /** How each byte is printed: as it stands, as a letter or itself behind a backslash, or in octal. */
  lemma PrintedAs(c: char)
    requires IsByte(c)
    ensures 32 <= c as int <= 126 && c !in "\"\\" ==> EscapeChar(c) == [c]
    ensures c in "\"\\" ==> EscapeChar(c) == ['\\', c]
    ensures c as int in [9, 10, 13] ==> EscapeChar(c) == ['\\', if c as int == 9 then 't' else if c as int == 10 then 'n' else 'r']
    ensures !(32 <= c as int <= 126) && c as int !in [9, 10, 13] ==>
      var e := EscapeChar(c);
      |e| == 4 && e[0] == '\\' && (forall i :: 1 <= i < 4 ==> IsOctal(e[i])) && OctalValue(e[1..]) == c as int
  {
    hide OctalValue;
    OctalOfByte(c);
    var e := EscapeChar(c);
    assert "\"\\"[0] == '"' && "\"\\"[1] == '\\';
    assert |e| == 4 ==> e[1..] == [e[1], e[2], e[3]];
  }

  /** The letters behind a backslash that stand for other characters, and their codes. */
  const LETTERS := "abtnvfr"

  lemma EscapedLetter(k: nat, t: string)
    requires k < 7
    ensures Unescape(['\\', LETTERS[k]] + t) == [[7, 8, 9, 10, 11, 12, 13][k] as char] + Unescape(t)
  {
    hide Unescape;
    EscapedOne(LETTERS[k], t);
  }

  /** A backslash keeps any other character but an octal digit as it is. */
  lemma EscapedOther(c: char, t: string)
    requires c !in LETTERS && c !in "01234567"
    ensures Unescape(['\\', c] + t) == [c] + Unescape(t)
  {
    hide Unescape;
    assert LETTERS == ['a', 'b', 't', 'n', 'v', 'f', 'r'];
    NoLetter(c);
    EscapedOne(c, t);
  }

  lemma NoLetter(c: char)
    requires c !in LETTERS
    ensures c != 'a' && c != 'b' && c != 't' && c != 'n' && c != 'v' && c != 'f' && c != 'r'
  {
    assert LETTERS[0] == 'a' && LETTERS[1] == 'b' && LETTERS[2] == 't' && LETTERS[3] == 'n';
    assert LETTERS[4] == 'v' && LETTERS[5] == 'f' && LETTERS[6] == 'r';
  }

  lemma EscapedOne(c: char, t: string)
    requires !IsOctal(c)
    ensures Unescape(['\\', c] + t) == [EscapeValue([c] + t)] + Unescape(t)
  {
    var s := ['\\', c] + t;
    hide EscapeValue;
    assert s[1..] == [c] + t && s[2..] == t;
    UnescapeOne(s);
  }

  /** One to three octal digits stand for the byte of that value; more digits are ordinary text. */
  lemma EscapedOctal(d: string, t: string)
    requires 1 <= |d| <= 3 && (forall i :: 0 <= i < |d| ==> IsOctal(d[i]))
    requires |d| == 3 || t == "" || !IsOctal(t[0])
    ensures Unescape("\\" + (d + t)) == [(OctalValue(d) % 256) as char] + Unescape(t)
  {
    var s := "\\" + (d + t);
    hide Unescape, OctalValue;
    assert s[1..] == d + t && (d + t)[..|d|] == d && s[1 + |d|..] == t;
    OctalSize(d, t);
    UnescapeOne(s);
  }

  lemma OctalSize(d: string, t: string)
    requires 1 <= |d| <= 3 && (forall i :: 0 <= i < |d| ==> IsOctal(d[i]))
    requires |d| == 3 || t == "" || !IsOctal(t[0])
    ensures EscapeSize(d + t) == |d|
  {
    var s := d + t;
    assert forall i :: 0 <= i < |d| ==> s[i] == d[i];
    assert t != "" ==> s[|d|] == t[0];
  }

  predicate Blank(w: string) {
    forall i :: 0 <= i < |w| ==> IsSpace(w[i])
  }

  lemma {:induction false} SkipBlank(w: string, s: string)
    requires Blank(w) && (s != "" ==> !IsSpace(s[0]))
    ensures SkipSpace(w + s) == s
  {
    if w == "" {
      assert w + s == s;
    } else {
      assert (w + s)[1..] == w[1..] + s;
      SkipBlank(w[1..], s);
    }
  }

  lemma {:induction false} SingleLength(z: string, t: string)
    requires '\'' !in z && (t != "" ==> t[0] == '\'')
    ensures QuotedLength(z + t, '\'') == |z|
  {
    if z == "" {
      assert z + t == t;
    } else {
      assert (z + t)[1..] == z[1..] + t;
      SingleLength(z[1..], t);
    }
  }

  /** Between single quotes everything stands for itself, backslashes and double quotes included. */
  lemma SingleQuoted(w: string, z: string, rest: string, n: nat)
    requires Blank(w) && '\'' !in z && n > 0
    ensures Tokens(w + ("'" + (z + ("'" + rest))), n) == [z] + Tokens(rest, n - 1)
  {
    hide Unescape, QuotedLength, WordLength, SkipSpace;
    var t := z + ("'" + rest);
    SkipBlank(w, "'" + t);
    SingleLength(z, "'" + rest);
    assert ("'" + t)[1..] == t && t[..|z|] == z && t[|z| + 1..] == rest;
  }

  /** Without a second quote it goes on to the end of the line. */
  lemma SingleOpen(w: string, z: string, n: nat)
    requires Blank(w) && '\'' !in z && n > 0
    ensures Tokens(w + ("'" + z), n) == [z]
  {
    hide Unescape, QuotedLength, WordLength, SkipSpace;
    SkipBlank(w, "'" + z);
    SingleLength(z, "");
    assert ("'" + z)[1..] == z == z + "" == z[..|z|];
    NoTokens("", n - 1);
    assert BehindToken(z, |z|) == "";
    NothingToSkip();
  }

  lemma NothingToSkip()
    ensures SkipSpace("") == ""
  {
  }

  /** No quote that is not behind a backslash, and no backslash left over at the end. */
  predicate Whole(z: string) {
    z == "" || (if z[0] == '\\' then |z| > 1 && Whole(z[2..]) else z[0] != '"' && Whole(z[1..]))
  }

  lemma {:induction false} WholeLength(z: string, t: string)
    requires Whole(z) && (t != "" ==> t[0] == '"')
    ensures QuotedLength(z + t, '"') == |z|
    decreases |z|
  {
    if z == "" {
      assert z + t == t;
    } else if z[0] == '\\' {
      assert (z + t)[2..] == z[2..] + t;
      WholeLength(z[2..], t);
    } else {
      assert (z + t)[1..] == z[1..] + t;
      WholeLength(z[1..], t);
    }
  }

  /** Between double quotes a quote behind a backslash does not end the argument, and escapes are resolved. */
  lemma DoubleQuoted(w: string, z: string, rest: string, n: nat)
    requires Blank(w) && Whole(z) && n > 0
    ensures Tokens(w + ("\"" + (z + ("\"" + rest))), n) == [Unescape(z)] + Tokens(rest, n - 1)
  {
    hide Unescape, QuotedLength, WordLength, SkipSpace, Whole;
    var t := z + ("\"" + rest);
    SkipBlank(w, "\"" + t);
    WholeLength(z, "\"" + rest);
    assert ("\"" + t)[1..] == t && t[..|z|] == z && t[|z| + 1..] == rest;
  }

  /** A word ends at white space only, so quotes inside it belong to it. */
  lemma WordAlone(w: string, v: string, rest: string, n: nat)
    requires Blank(w) && n > 0 && v != "" && v[0] !in "'\"" && (forall i :: 0 <= i < |v| ==> !IsSpace(v[i]))
    requires rest != "" ==> IsSpace(rest[0])
    ensures Tokens(w + (v + rest), n) == [Unescape(v)] + Tokens(rest, n - 1)
  {
    hide Unescape, QuotedLength, WordLength, SkipSpace, Tokens;
    QuoteChars(v[0]);
    SkipBlank(w, v + rest);
    SkipBlank("", v + rest);
    assert "" + (v + rest) == v + rest;
    SameTokens(w + (v + rest), v + rest, n);
    WordEnds(v, rest);
    WordToken(v, rest, n);
    BehindName(v, rest, n - 1);
  }

  lemma QuoteChars(c: char)
    requires c !in "'\""
    ensures !IsDelim(c)
  {
    assert "'\""[0] == '\'' && "'\""[1] == '"';
  }

  lemma SameTokens(a: string, b: string, n: nat)
    requires SkipSpace(a) == SkipSpace(b)
    ensures Tokens(a, n) == Tokens(b, n)
  {
    hide SkipSpace, TokenValue, TokenRest;
  }

  lemma {:induction false} WordEnds(v: string, t: string)
    requires (forall i :: 0 <= i < |v| ==> !IsSpace(v[i])) && (t != "" ==> IsSpace(t[0]))
    ensures WordLength(v + t) == |v|
  {
    if v == "" {
      assert v + t == t;
    } else {
      assert (v + t)[1..] == v[1..] + t;
      WordEnds(v[1..], t);
    }
  }
}
