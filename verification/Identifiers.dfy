/** quoteChar and the growing text buffer that quotes what is appended to it. */
module Identifiers {
  import opened Keywords
  import opened Strings

  // ----- quoteChar -----

  predicate IsAlpha(c: char) {
    'A' <= c <= 'Z' || 'a' <= c <= 'z'
  }

  predicate IsWordChar(c: char) {
    IsAlpha(c) || '0' <= c <= '9' || c == '_'
  }

  /** A name that the tokenizer of SQL reads as one word. */
  predicate IsWord(z: string) {
    z != "" && (IsAlpha(z[0]) || z[0] == '_') && forall i :: 0 <= i < |z| ==> IsWordChar(z[i])
  }

  /** Some entry of the table is z, in any case. */
  ghost predicate IsKeyword(z: string) {
    exists i :: 0 <= i < KEYWORD_COUNT && Compare(Keyword(i), z, 0) == 0
  }

  /** quoteChar: '"' if z has to be quoted, NUL if it can stand as it is. */
  method QuoteChar(z: string) returns (q: char)
    requires '\0' !in z
    ensures q == if IsWord(z) && !IsKeyword(z) then '\0' else '"'
  {
    if z == "" || (!IsAlpha(z[0]) && z[0] != '_') {
      return '"';
    }
    var i := 0;
    while i < |z|
      invariant 0 <= i <= |z| && forall j :: 0 <= j < i ==> IsWordChar(z[j])
    {
      if !IsWordChar(z[i]) {
        return '"';
      }
      i := i + 1;
    }
    var lwr, upr := 0, KEYWORD_COUNT - 1;
    while lwr <= upr
      invariant 0 <= lwr <= upr + 1 <= KEYWORD_COUNT
      invariant forall j :: 0 <= j < lwr ==> Compare(Keyword(j), z, 0) < 0
      invariant forall j :: upr < j < KEYWORD_COUNT ==> Compare(Keyword(j), z, 0) > 0
      decreases upr - lwr
    {
      var mid := (lwr + upr) / 2;
      var c := Compare(Keyword(mid), z, 0);
      if c == 0 {
        return '"';
      }
      if c < 0 {
        AllBefore(mid, z);
        lwr := mid + 1;
      } else {
        AllAfter(mid, z);
        upr := mid - 1;
      }
    }
    return '\0';
  }

  lemma AllBefore(mid: nat, z: string)
    requires '\0' !in z && mid < KEYWORD_COUNT && Compare(Keyword(mid), z, 0) < 0
    ensures forall j :: 0 <= j <= mid ==> Compare(Keyword(j), z, 0) < 0
  {
    hide Keyword, Compare;
    forall j | 0 <= j < mid
      ensures Compare(Keyword(j), z, 0) < 0
    {
      KeywordsSorted(j, mid);
      CompareTransitive(Keyword(j), Keyword(mid), z, 0);
    }
  }

  lemma AllAfter(mid: nat, z: string)
    requires '\0' !in z && mid < KEYWORD_COUNT && Compare(Keyword(mid), z, 0) > 0
    ensures forall j :: mid <= j < KEYWORD_COUNT ==> Compare(Keyword(j), z, 0) > 0
  {
    hide Keyword, Compare;
    forall j | mid < j < KEYWORD_COUNT
      ensures Compare(Keyword(j), z, 0) > 0
    {
      KeywordsSorted(mid, j);
      CompareSwap(Keyword(mid), z, 0);
      CompareTransitive(z, Keyword(mid), Keyword(j), 0);
      CompareSwap(z, Keyword(j), 0);
    }
  }

  // ----- quoted names -----

  function Appended(s: string, q: char): string {
    if q == '\0' then s else [q] + Doubled(s, q) + [q]
  }

  datatype Name = NoName | Name(name: string, rest: string)

  /** Reads a quoted name from behind its opening quote. */
  function Unquote(s: string, q: char): Name {
    if s == "" then NoName
    else if s[0] == q && |s| > 1 && s[1] == q then
      match Unquote(s[2..], q) case NoName => NoName case Name(n, r) => Name([q] + n, r)
    else if s[0] == q then Name("", s[1..])
    else match Unquote(s[1..], q) case NoName => NoName case Name(n, r) => Name([s[0]] + n, r)
  }

  lemma UnquoteOne(c: char, q: char, s: string)
    ensures Unquote((if c == q then [q, q] else [c]) + s, q) ==
      match Unquote(s, q) case NoName => NoName case Name(n, r) => Name([c] + n, r)
  {
    if c == q {
      assert ([q, q] + s)[2..] == s;
    } else {
      assert ([c] + s)[1..] == s;
    }
  }

  lemma UnquoteEnd(q: char, t: string)
    requires t == "" || t[0] != q
    ensures Unquote([q] + t, q) == Name("", t)
  {
    assert ([q] + t)[1..] == t;
  }

  /** Unquoting undoes quoting, wherever the name stands. */
  lemma {:induction false} UnquoteDoubled(s: string, q: char, t: string)
    requires t == "" || t[0] != q
    ensures Unquote(Doubled(s, q) + ([q] + t), q) == Name(s, t)
  {
    hide Unquote;
    if s == "" {
      assert "" + ([q] + t) == [q] + t;
      UnquoteEnd(q, t);
    } else {
      UnquoteDoubled(s[1..], q, t);
      var one := if s[0] == q then [q, q] else [s[0]];
      assert Doubled(s, q) + ([q] + t) == one + (Doubled(s[1..], q) + ([q] + t));
      UnquoteOne(s[0], q, Doubled(s[1..], q) + ([q] + t));
      assert [s[0]] + s[1..] == s;
    }
  }

  /** What is appended for a name is that name again: as a plain word, or by unquoting. */
  lemma AppendedIsName(z: string, q: char, t: string)
    requires q == (if IsWord(z) && !IsKeyword(z) then '\0' else '"')
    requires t == "" || t[0] != '"'
    ensures q == '\0' ==> Appended(z, q) == z && IsWord(z) && !IsKeyword(z)
    ensures q != '\0' ==> Appended(z, q)[0] == '"' && Unquote((Appended(z, q) + t)[1..], '"') == Name(z, t)
  {
    hide IsWord, IsKeyword, Unquote, Doubled;
    if q != '\0' {
      UnquoteDoubled(z, q, t);
      assert (Appended(z, q) + t)[1..] == Doubled(z, q) + ([q] + t);
    }
  }

  lemma DoubledPrefix(s: string, i: nat, q: char)
    requires i <= |s|
    ensures |Doubled(s[..i], q)| <= |Doubled(s, q)| - (|s| - i)
  {
    assert s == s[..i] + s[i..];
    DoubledConcat(s[..i], s[i..], q);
    DoubledNotShorter(s[i..], q);
  }

  // ----- ShellText -----

  class ShellText {
    var z: array<char>
    var n: nat
    var nAlloc: nat

    /** Empty and unallocated, or terminated by a NUL inside the allocation. */
    ghost predicate Valid()
      reads this, z
    {
      z.Length == nAlloc && n <= nAlloc && (nAlloc == 0 ==> n == 0) && (nAlloc > 0 ==> n < nAlloc && z[n] == '\0')
    }

    ghost function Text(): string
      requires Valid()
      reads this, z
    {
      z[..n]
    }

    /** initText. */
    constructor ()
      ensures Valid() && fresh(z) && Text() == "" && nAlloc == 0
    {
      z, n, nAlloc := new char[0], 0, 0;
    }

    /** The loop that counts the quotes in s. */
    method CountQuotes(s: string, quote: char) returns (k: nat)
      ensures |s| + k == |Doubled(s, quote)|
    {
      k := 0;
      var i := 0;
      while i < |s|
        invariant 0 <= i <= |s| && i + k == |Doubled(s[..i], quote)|
      {
        DoubledNext(s, i, quote);
        if s[i] == quote {
          k := k + 1;
        }
        i := i + 1;
      }
      assert s[..i] == s;
    }

    /** realloc to the size that appendText asks for. */
    method Grow(len: nat)
      requires Valid()
      modifies this`z, this`nAlloc
      ensures z.Length == nAlloc && n + len < nAlloc && n == old(n) && z[..n] == old(z[..n])
      ensures z == old(z) || fresh(z)
    {
      if n + len >= nAlloc {
        nAlloc := nAlloc * 2 + len + 20;
        var y := new char[nAlloc];
        forall i | 0 <= i < z.Length {
          y[i] := z[i];
        }
        z := y;
      }
    }

    /** The branch of appendText that writes s between quotes. */
    method PutQuoted(s: string, quote: char)
      requires z.Length == nAlloc && n + |Doubled(s, quote)| + 3 <= nAlloc
      modifies this`n, z
      ensures Valid() && Text() == old(z[..n]) + ([quote] + Doubled(s, quote) + [quote])
    {
      hide Doubled;
      ghost var before := z[..n];
      var zCsr := n;
      z[zCsr] := quote;
      zCsr := zCsr + 1;
      var i := 0;
      DoubledNone(s[..0], quote);
      DoubledPrefix(s, 0, quote);
      assert z[..zCsr] == before + [quote] + [];
      while i < |s|
        invariant 0 <= i <= |s| && n == |before| && n + 1 + |Doubled(s[..i], quote)| == zCsr
        invariant n + |Doubled(s, quote)| + 3 <= nAlloc == z.Length && zCsr <= n + 1 + |Doubled(s, quote)|
        invariant z[..zCsr] == before + [quote] + Doubled(s[..i], quote)
      {
        DoubledNext(s, i, quote);
        DoubledPrefix(s, i + 1, quote);
        DoubledPrefix(s, i, quote);
        ghost var so := z[..zCsr];
        z[zCsr] := s[i];
        zCsr := zCsr + 1;
        assert z[..zCsr] == so + [s[i]];
        if s[i] == quote {
          z[zCsr] := quote;
          zCsr := zCsr + 1;
          assert z[..zCsr] == so + [s[i]] + [quote];
        }
        i := i + 1;
      }
      assert s[..i] == s;
      z[zCsr] := quote;
      zCsr := zCsr + 1;
      n := zCsr;
      z[zCsr] := '\0';
      assert z[..n] == before + [quote] + Doubled(s, quote) + [quote];
    }

    /** The branch that copies s, memcpy and all. */
    method PutPlain(s: string)
      requires z.Length == nAlloc && n + |s| < nAlloc
      modifies this`n, z
      ensures Valid() && Text() == old(z[..n]) + s
    {
      ghost var before := z[..n];
      forall i | 0 <= i < |s| {
        z[n + i] := s[i];
      }
      n := n + |s|;
      z[n] := '\0';
      assert z[..n] == before + s;
    }

    /** appendText: s itself if quote is NUL, else s between quotes with its own quotes doubled. */
    method Append(s: string, quote: char)
      requires Valid()
      modifies this, z
      ensures Valid() && nAlloc > 0 && (z == old(z) || fresh(z))
      ensures Text() == old(Text()) + Appended(s, quote)
    {
      hide Doubled;
      var len := |s| + n + 1;
      if quote != '\0' {
        var k := CountQuotes(s, quote);
        len := len + 2 + k;
      }
      Grow(len);
      if quote != '\0' {
        PutQuoted(s, quote);
      } else {
        PutPlain(s);
      }
    }
  }

  lemma DoubledNone(s: string, q: char)
    requires s == ""
    ensures Doubled(s, q) == []
  {
  }
}
