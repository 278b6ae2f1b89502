/** Numbers as the %d and %u formats print them. */
module Decimals {

  function Digit(d: nat): char
    requires d < 10
  {
    (d + '0' as int) as char
  }

  predicate IsDigit(c: char) {
    '0' <= c <= '9'
  }

  lemma DigitChars(c: char)
    ensures IsDigit(c) <==> c in "0123456789"
  {
    if IsDigit(c) {
      assert "0123456789"[c as int - 48] == c;
    }
  }

  function Decimal(n: nat): (s: string)
    ensures s != "" && forall i :: 0 <= i < |s| ==> IsDigit(s[i])
  {
    if n < 10 then [Digit(n)] else Decimal(n / 10) + [Digit(n % 10)]
  }

  function Value(s: string): nat
    requires forall i :: 0 <= i < |s| ==> IsDigit(s[i])
  {
    if s == "" then 0 else
      assert IsDigit(s[|s| - 1]);
      10 * Value(s[..|s| - 1]) + (s[|s| - 1] as int - '0' as int)
  }

  lemma {:induction false} ValueOfDecimal(n: nat)
    ensures Value(Decimal(n)) == n
  {
    var s := Decimal(n);
    if n < 10 {
      assert s[..0] == "";
      assert Value(s[..0]) == 0;
    } else {
      assert s[..|s| - 1] == Decimal(n / 10);
      ValueOfDecimal(n / 10);
    }
  }

  /** Digits without a leading zero: the only text that is printed for their value. */
  predicate IsDecimal(s: string) {
    s != "" && (|s| > 1 ==> s[0] != '0') && forall i :: 0 <= i < |s| ==> s[i] in "0123456789"
  }

  lemma {:induction false} DecimalIsDecimal(n: nat)
    ensures IsDecimal(Decimal(n)) && (n > 0 ==> Decimal(n)[0] != '0')
  {
    if n >= 10 {
      DecimalIsDecimal(n / 10);
      assert Decimal(n)[0] == Decimal(n / 10)[0];
    }
  }

  lemma {:induction false} DecimalOfValue(s: string)
    requires IsDecimal(s)
    ensures (forall i :: 0 <= i < |s| ==> IsDigit(s[i])) && Decimal(Value(s)) == s && (s[0] != '0' ==> Value(s) > 0)
  {
    hide Decimal, Value;
    assert forall i :: 0 <= i < |s| ==> IsDigit(s[i]);
    var n := |s| - 1;
    var a, c := s[..n], s[n];
    assert s == a + [c];
    ValueNext(s);
    if n == 0 {
      NoValue();
    } else {
      assert a[0] == s[0];
      DecimalOfValue(a);
    }
    DecimalStep(Value(a), c, a);
  }

  lemma NoValue()
    ensures Value("") == 0
  {
  }

  lemma ValueNext(s: string)
    requires s != "" && forall i :: 0 <= i < |s| ==> IsDigit(s[i])
    ensures Value(s) == 10 * Value(s[..|s| - 1]) + (s[|s| - 1] as int - '0' as int)
  {
  }

  lemma DecimalStep(m: nat, c: char, a: string)
    requires IsDigit(c) && if a == "" then m == 0 else m > 0 && Decimal(m) == a
    ensures Decimal(10 * m + (c as int - '0' as int)) == a + [c]
  {
    var d := c as int - '0' as int;
    assert (10 * m + d) / 10 == m && (10 * m + d) % 10 == d;
    assert Digit(d) == c;
  }

  /** Different numbers print differently. */
  lemma DecimalInjective(m: nat, n: nat)
    requires Decimal(m) == Decimal(n)
    ensures m == n
  {
    ValueOfDecimal(m);
    ValueOfDecimal(n);
  }

  /** The digits in front of a character that is none are determined by the text. */
  lemma {:induction false} DigitsEnd(a: string, b: string, s: string, t: string)
    requires forall i :: 0 <= i < |a| ==> IsDigit(a[i])
    requires forall i :: 0 <= i < |b| ==> IsDigit(b[i])
    requires s != "" && t != "" && !IsDigit(s[0]) && !IsDigit(t[0]) && a + s == b + t
    ensures a == b && s == t
  {
    assert IsDigit((a + s)[0]) == (a != "") && IsDigit((b + t)[0]) == (b != "");
    if a == "" {
      assert a + s == s && b + t == t;
    } else {
      assert (a + s)[1..] == a[1..] + s && (b + t)[1..] == b[1..] + t;
      DigitsEnd(a[1..], b[1..], s, t);
      assert a == [(a + s)[0]] + a[1..] && b == [(b + t)[0]] + b[1..];
    }
  }

  function Pow10(k: nat): nat {
    if k == 0 then 1 else 10 * Pow10(k - 1)
  }

  lemma {:induction false} DecimalLength(n: nat, k: nat)
    requires k > 0 && n < Pow10(k)
    ensures |Decimal(n)| <= k
  {
    if n >= 10 {
      assert k > 1;
      DecimalLength(n / 10, k - 1);
    }
  }
}
