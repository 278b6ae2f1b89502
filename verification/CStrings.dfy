/** NUL-terminated strings in a buffer of characters. */
module CStrings {

  /** The C string at index i. */
  function CStr(s: string, i: nat): string
    decreases |s| - i
  {
    if i >= |s| || s[i] == '\0' then "" else [s[i]] + CStr(s, i + 1)
  }

  /** n is the first NUL of b at or behind i. */
  predicate EndsAt(b: string, i: nat, n: nat) {
    i <= n < |b| && b[n] == '\0' && forall k :: i <= k < n ==> b[k] != '\0'
  }

  lemma {:induction false} CStrShift(a: string, t: string, i: nat)
    ensures CStr(a + t, |a| + i) == CStr(t, i)
    decreases |t| - i
  {
    if i < |t| {
      assert (a + t)[|a| + i] == t[i];
      CStrShift(a, t, i + 1);
    }
  }

  /** Any NUL behind index i bounds the string there. */
  lemma {:induction false} CStrAt(s: string, i: nat, e: nat)
    requires i <= e < |s| && s[e] == '\0'
    ensures CStr(s, i) == CStr(s[i..e], 0)
    decreases e - i
  {
    if i < e {
      CStrAt(s, i + 1, e);
      var t := s[i..e];
      assert t[0] == s[i] && t == [s[i]] + s[i + 1..e];
      CStrShift([s[i]], s[i + 1..e], 0);
    }
  }

  lemma {:induction false} CStrWhole(z: string, i: nat)
    requires '\0' !in z && i <= |z|
    ensures CStr(z, i) == z[i..]
    decreases |z| - i
  {
    if i < |z| {
      assert z[i] in z;
      CStrWhole(z, i + 1);
    }
  }

  /** A NUL-free text between other texts, read in place. */
  lemma CStrIs(a: string, t: string, r: string)
    requires '\0' !in t
    ensures CStr(a + t + "\0" + r, |a|) == t
  {
    var s := a + t + "\0" + r;
    CStrAt(s, |a|, |a| + |t|);
    assert s[|a|..|a| + |t|] == t;
    CStrWhole(t, 0);
  }
}
