/** When two names are one keyword, and which characters a word has, letter by letter. */
module KeywordNames {
  import opened Identifiers
  import opened Keywords
  import opened Letters

  lemma LowerSame(c: char, d: char)
    ensures Lower(c) == Lower(d) <==> SameLetter(c, d)
  {
    hide SameLetter;
    SameLetterCodes(c, d);
  }

  lemma {:induction false} CompareFrom(a: string, b: string, i: nat)
    requires '\0' !in a && '\0' !in b && i <= |a| && i <= |b|
    ensures Compare(a, b, i) == 0 <==> |a| == |b| && forall j :: i <= j < |a| ==> SameLetter(a[j], b[j])
    decreases |a| - i
  {
    hide SameLetter;
    if i < |a| && i < |b| {
      LowerSame(a[i], b[i]);
      if At(a, i) == At(b, i) {
        CompareFrom(a, b, i + 1);
      }
    }
  }

  /** Two names compare equal exactly when they are the same up to the case of their letters. */
  lemma CompareEqual(a: string, b: string)
    requires '\0' !in a && '\0' !in b
    ensures Compare(a, b, 0) == 0 <==> SameWord(a, b)
  {
    hide Compare, SameLetter;
    CompareFrom(a, b, 0);
  }

  /** So a name is a keyword exactly when it is an entry of the table up to case. */
  lemma KeywordUpToCase(z: string)
    requires '\0' !in z
    ensures IsKeyword(z) <==> exists i :: 0 <= i < 124 && SameWord(Keyword(i), z)
  {
    hide Keyword, Compare, SameWord;
    forall i | 0 <= i < KEYWORD_COUNT
      ensures Compare(Keyword(i), z, 0) == 0 <==> SameWord(Keyword(i), z)
    {
      CompareEqual(Keyword(i), z);
    }
  }

  /** As "order" is, in lower case, while "title" stands between two entries. */
  lemma KeywordExamples()
    ensures IsKeyword("order") && !IsKeyword("title")
  {
    hide Keyword, Compare, SameWord;
    Order();
    CompareEqual(Keyword(84), "order");
    Title();
    AllBefore(108, "title");
    AllAfter(109, "title");
  }

  lemma Order()
    ensures SameWord(Keyword(84), "order")
  {
    hide SameLetter;
    var a, b := "ORDER", "order";
    forall i | 0 <= i < 5
      ensures SameLetter(a[i], b[i])
    {
      SameLetterCodes(a[i], b[i]);
    }
  }

  lemma Title()
    ensures Compare(Keyword(108), "title", 0) < 0 && Compare(Keyword(109), "title", 0) > 0
  {
    hide Compare;
    Ordered(Keyword(108), "title", 1, 0);
    Ordered("title", Keyword(109), 1, 0);
    CompareSwap("title", Keyword(109), 0);
  }

  // ----- words -----

  /** A name can stand bare when it starts with a letter or _ and goes on in letters, digits and _. */
  lemma WordChars(z: string)
    ensures IsWord(z) <==>
      z != "" && z[0] in UPPER + LOWER + "_" && forall i :: 0 <= i < |z| ==> z[i] in UPPER + LOWER + DIGITS + "_"
  {
    hide UPPER, LOWER, DIGITS, IsAlpha, IsWordChar;
    forall i | 0 <= i < |z|
      ensures IsWordChar(z[i]) <==> z[i] in UPPER + LOWER + DIGITS + "_"
    {
      WordChar(z[i]);
    }
    if z != "" {
      FirstChar(z[0]);
    }
  }

  lemma WordChar(c: char)
    ensures IsWordChar(c) <==> c in UPPER + LOWER + DIGITS + "_"
  {
    hide UPPER, LOWER, DIGITS;
    InUpper(c);
    InLower(c);
    InDigits(c);
    InBoth(c, UPPER, LOWER);
    InBoth(c, UPPER + LOWER, DIGITS);
    InBoth(c, UPPER + LOWER + DIGITS, "_");
  }

  lemma FirstChar(c: char)
    ensures IsAlpha(c) || c == '_' <==> c in UPPER + LOWER + "_"
  {
    hide UPPER, LOWER;
    InUpper(c);
    InLower(c);
    InBoth(c, UPPER, LOWER);
    InBoth(c, UPPER + LOWER, "_");
  }
}
