/** strstr, the replace() function of SQL, and text with doubled quotes. */
module Strings {

  predicate OccursAt(p: string, z: string, i: int) {
    0 <= i && i + |p| <= |z| && z[i..i + |p|] == p
  }

  predicate Occurs(p: string, z: string) {
    exists i :: 0 <= i <= |z| && OccursAt(p, z, i)
  }

  /** Leftmost and non-overlapping, with a replacement of one character. */
  function Replace(s: string, p: string, c: char): string
    decreases |s|
  {
    if s == "" || p == "" then s
    else if p <= s then [c] + Replace(s[|p|..], p, c)
    else [s[0]] + Replace(s[1..], p, c)
  }

  /** Two strings that can start the same text. */
  predicate Compatible(a: string, b: string) {
    a <= b || b <= a
  }

  lemma BothStart(a: string, b: string, s: string)
    requires a <= s && b <= s
    ensures Compatible(a, b)
  {
  }

  lemma OccursLater(p: string, x: char, z: string)
    requires Occurs(p, z)
    ensures Occurs(p, [x] + z)
  {
    var i :| 0 <= i <= |z| && OccursAt(p, z, i);
    assert ([x] + z)[i + 1..i + 1 + |p|] == z[i..i + |p|];
    assert OccursAt(p, [x] + z, i + 1);
  }

  lemma PrefixOccurs(p: string, z: string)
    requires p <= z
    ensures Occurs(p, z)
  {
    assert OccursAt(p, z, 0);
  }

  /** z with p in place of every c and q in place of every d. */
  function Expand(z: string, c: char, p: string, d: char, q: string): string {
    if z == "" then "" else (if z[0] == c then p else if z[0] == d then q else [z[0]]) + Expand(z[1..], c, p, d, q)
  }

  /** No occurrence of p can begin inside p or q, or inside the text and end in p or q. */
  predicate Independent(p: string, q: string) {
    && p != ""
    && (forall k :: 1 <= k < |p| ==> !Compatible(p[k..], p) && !Compatible(p[k..], q))
    && forall j :: 0 <= j < |q| ==> !Compatible(q[j..], p)
  }

  /** A text character starts no occurrence of p that was not already one of z. */
  lemma {:induction false} NoFalseStart(z: string, k: nat, p: string, c: char, d: char, q: string)
    requires Independent(p, q) && k < |p| && (k == 0 ==> z != "" && z[0] != c && z[0] != d)
    requires p[k..] <= Expand(z, c, p, d, q)
    ensures p[k..] <= z
    decreases |z|
  {
    if z == "" || z[0] == c || z[0] == d {
      if z != "" {
        var e := Expand(z, c, p, d, q);
        BothStart(p[k..], if z[0] == c then p else q, e);
      }
    } else {
      var e1 := Expand(z[1..], c, p, d, q);
      assert Expand(z, c, p, d, q) == [z[0]] + e1;
      assert p[k..][0] == z[0];
      if k + 1 < |p| {
        assert p[k..][1..] == p[k + 1..];
        assert ([z[0]] + e1)[1..] == e1;
        assert p[k + 1..] <= e1;
        NoFalseStart(z[1..], k + 1, p, c, d, q);
      }
    }
  }

  /** Behind a placeholder q, everything in it is copied. */
  lemma {:induction false} CopyOther(j: nat, t: string, p: string, c: char, q: string)
    requires Independent(p, q) && j <= |q|
    ensures Replace(q[j..] + t, p, c) == q[j..] + Replace(t, p, c)
    decreases |q| - j
  {
    var s := q[j..] + t;
    if j == |q| {
      assert s == t;
    } else {
      if p <= s {
        BothStart(p, q[j..], s);
      }
      assert s[0] == q[j] && s[1..] == q[j + 1..] + t;
      CopyOther(j + 1, t, p, c, q);
      assert [q[j]] + q[j + 1..] == q[j..];
    }
  }

  /** Replacing p by c undoes the expansion of c and leaves that of d alone. */
  lemma {:induction false} ReplaceUndoes(z: string, c: char, p: string, d: char, q: string)
    requires Independent(p, q) && !Occurs(p, z) && c != d
    ensures Replace(Expand(z, c, p, d, q), p, c) == Expand(z, c, [c], d, q)
    decreases |z|
  {
    if z != "" {
      var e, z1 := Expand(z, c, p, d, q), z[1..];
      var e1 := Expand(z1, c, p, d, q);
      assert z == [z[0]] + z1;
      if Occurs(p, z1) {
        OccursLater(p, z[0], z1);
      }
      ReplaceUndoes(z1, c, p, d, q);
      if z[0] == c {
        assert e == p + e1 && e[|p|..] == e1;
      } else if z[0] == d {
        assert q[0..] == q;
        CopyOther(0, e1, p, c, q);
      } else {
        assert e == [z[0]] + e1 && e[1..] == e1;
        if p <= e {
          assert p[0..] == p;
          NoFalseStart(z, 0, p, c, d, q);
          PrefixOccurs(p, z);
        }
      }
    }
  }

  // ----- doubled quotes -----

  function Doubled(s: string, q: char): string {
    if s == "" then "" else (if s[0] == q then [q, q] else [s[0]]) + Doubled(s[1..], q)
  }

  lemma {:induction false} DoubledConcat(a: string, b: string, q: char)
    ensures Doubled(a + b, q) == Doubled(a, q) + Doubled(b, q)
  {
    if a == "" {
      assert a + b == b;
    } else {
      assert (a + b)[1..] == a[1..] + b;
      DoubledConcat(a[1..], b, q);
    }
  }

  lemma DoubledNext(s: string, i: nat, q: char)
    requires i < |s|
    ensures Doubled(s[..i + 1], q) == Doubled(s[..i], q) + (if s[i] == q then [q, q] else [s[i]])
  {
    assert s[..i + 1] == s[..i] + [s[i]];
    DoubledConcat(s[..i], [s[i]], q);
    assert [s[i]][1..] == "";
  }

  lemma {:induction false} DoubledNotShorter(s: string, q: char)
    ensures |Doubled(s, q)| >= |s|
  {
    if s != "" {
      DoubledNotShorter(s[1..], q);
    }
  }

  // ----- replace -----

  /** A text without the pattern stays as it is. */
  lemma {:induction false} ReplaceNone(s: string, p: string, c: char)
    requires !Occurs(p, s)
    ensures Replace(s, p, c) == s
    decreases |s|
  {
    if s != "" && p != "" {
      NotFirst(s, p);
      ReplaceNone(s[1..], p, c);
    }
  }

  lemma NotFirst(s: string, p: string)
    requires s != "" && !Occurs(p, s)
    ensures !(p <= s) && !Occurs(p, s[1..])
  {
    if p <= s {
      PrefixOccurs(p, s);
    }
    if Occurs(p, s[1..]) {
      TailOccurs(p, s);
    }
  }

  lemma TailOccurs(p: string, s: string)
    requires s != "" && Occurs(p, s[1..])
    ensures Occurs(p, s)
  {
    assert [s[0]] + s[1..] == s;
    OccursLater(p, s[0], s[1..]);
  }

  lemma OccursBehind(p: string, s: string, j: int)
    requires s != "" && 0 <= j
    ensures OccursAt(p, s[1..], j) <==> OccursAt(p, s, j + 1)
  {
    assert j + 1 + |p| <= |s| ==> s[1..][j..j + |p|] == s[j + 1..j + 1 + |p|];
  }

  lemma OccursFirst(p: string, s: string)
    ensures OccursAt(p, s, 0) <==> p <= s
  {
    assert |p| <= |s| ==> s[0..0 + |p|] == s[..|p|];
  }

  lemma ReplaceOne(s: string, p: string, c: char)
    requires p != "" && s != ""
    ensures Replace(s, p, c) == if p <= s then [c] + Replace(s[|p|..], p, c) else [s[0]] + Replace(s[1..], p, c)
  {
  }

  /** The first occurrence is replaced, and then the text behind it is treated in the same way. */
  lemma {:induction false} ReplaceFirst(s: string, p: string, c: char, i: nat)
    requires p != "" && i + |p| <= |s| && OccursAt(p, s, i) && forall j :: 0 <= j < i ==> !OccursAt(p, s, j)
    ensures Replace(s, p, c) == s[..i] + ([c] + Replace(s[i + |p|..], p, c))
    decreases |s|
  {
    hide OccursAt, Replace;
    OccursFirst(p, s);
    ReplaceOne(s, p, c);
    if i > 0 {
      var t := s[1..];
      forall j | 0 <= j < i
        ensures OccursAt(p, t, j) <==> OccursAt(p, s, j + 1)
      {
        OccursBehind(p, s, j);
      }
      ReplaceFirst(t, p, c, i - 1);
      assert t[i - 1 + |p|..] == s[i + |p|..];
      Rejoin(s, i, [c] + Replace(s[i + |p|..], p, c));
    }
  }

  lemma Rejoin(s: string, i: nat, r: string)
    requires 0 < i <= |s|
    ensures [s[0]] + (s[1..][..i - 1] + r) == s[..i] + r
  {
    assert [s[0]] + s[1..][..i - 1] == s[..i];
  }
}
