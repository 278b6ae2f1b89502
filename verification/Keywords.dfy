/** The keyword table of quoteChar, and the order by which it is searched. */
module Keywords {

  function Lower(c: char): int {
    if 'A' <= c <= 'Z' then c as int + 32 else c as int
  }

  /** The character at i as sqlite3_stricmp sees it: lower case, and NUL at the end. */
  function At(a: string, i: nat): int {
    if i < |a| then Lower(a[i]) else 0
  }

  /** sqlite3_stricmp from position i on. */
  function Compare(a: string, b: string, i: nat): int
    decreases |a| - i
  {
    if At(a, i) != At(b, i) || i >= |a| then At(a, i) - At(b, i) else Compare(a, b, i + 1)
  }

  lemma {:induction false} CompareSwap(a: string, b: string, i: nat)
    requires '\0' !in a && '\0' !in b
    ensures Compare(a, b, i) == -Compare(b, a, i)
    decreases |a| - i
  {
    if At(a, i) == At(b, i) && i < |a| {
      CompareSwap(a, b, i + 1);
    }
  }

  lemma {:induction false} CompareTransitive(a: string, b: string, c: string, i: nat)
    requires '\0' !in a && '\0' !in b && '\0' !in c && Compare(a, b, i) < 0 && Compare(b, c, i) < 0
    ensures Compare(a, c, i) < 0
    decreases |a| - i
  {
    if At(a, i) == At(b, i) && At(b, i) == At(c, i) && i < |a| {
      CompareTransitive(a, b, c, i + 1);
    }
  }

  const KEYWORD_COUNT := 124

  function Keyword(i: nat): (w: string)
    requires i < KEYWORD_COUNT
    ensures '\0' !in w
  {
    if i < 16 then Keyword0(i)
    else if i < 32 then Keyword1(i)
    else if i < 48 then Keyword2(i)
    else if i < 64 then Keyword3(i)
    else if i < 80 then Keyword4(i)
    else if i < 96 then Keyword5(i)
    else if i < 112 then Keyword6(i)
    else Keyword7(i)
  }

  function Keyword0(i: nat): (w: string)
    ensures '\0' !in w
  {
    if i == 0 then "ABORT" else if i == 1 then "ACTION" else if i == 2 then "ADD" else if i == 3 then "AFTER" else
    if i == 4 then "ALL" else if i == 5 then "ALTER" else if i == 6 then "ANALYZE" else if i == 7 then "AND" else
    if i == 8 then "AS" else if i == 9 then "ASC" else if i == 10 then "ATTACH" else if i == 11 then "AUTOINCREMENT" else
    if i == 12 then "BEFORE" else if i == 13 then "BEGIN" else if i == 14 then "BETWEEN" else "BY"
  }

  function Keyword1(i: nat): (w: string)
    ensures '\0' !in w
  {
    if i == 16 then "CASCADE" else if i == 17 then "CASE" else if i == 18 then "CAST" else if i == 19 then "CHECK" else
    if i == 20 then "COLLATE" else if i == 21 then "COLUMN" else if i == 22 then "COMMIT" else if i == 23 then "CONFLICT" else
    if i == 24 then "CONSTRAINT" else if i == 25 then "CREATE" else if i == 26 then "CROSS" else if i == 27 then "CURRENT_DATE" else
    if i == 28 then "CURRENT_TIME" else if i == 29 then "CURRENT_TIMESTAMP" else if i == 30 then "DATABASE" else "DEFAULT"
  }

  function Keyword2(i: nat): (w: string)
    ensures '\0' !in w
  {
    if i == 32 then "DEFERRABLE" else if i == 33 then "DEFERRED" else if i == 34 then "DELETE" else if i == 35 then "DESC" else
    if i == 36 then "DETACH" else if i == 37 then "DISTINCT" else if i == 38 then "DROP" else if i == 39 then "EACH" else
    if i == 40 then "ELSE" else if i == 41 then "END" else if i == 42 then "ESCAPE" else if i == 43 then "EXCEPT" else
    if i == 44 then "EXCLUSIVE" else if i == 45 then "EXISTS" else if i == 46 then "EXPLAIN" else "FAIL"
  }

  function Keyword3(i: nat): (w: string)
    ensures '\0' !in w
  {
    if i == 48 then "FOR" else if i == 49 then "FOREIGN" else if i == 50 then "FROM" else if i == 51 then "FULL" else
    if i == 52 then "GLOB" else if i == 53 then "GROUP" else if i == 54 then "HAVING" else if i == 55 then "IF" else
    if i == 56 then "IGNORE" else if i == 57 then "IMMEDIATE" else if i == 58 then "IN" else if i == 59 then "INDEX" else
    if i == 60 then "INDEXED" else if i == 61 then "INITIALLY" else if i == 62 then "INNER" else "INSERT"
  }

  function Keyword4(i: nat): (w: string)
    ensures '\0' !in w
  {
    if i == 64 then "INSTEAD" else if i == 65 then "INTERSECT" else if i == 66 then "INTO" else if i == 67 then "IS" else
    if i == 68 then "ISNULL" else if i == 69 then "JOIN" else if i == 70 then "KEY" else if i == 71 then "LEFT" else
    if i == 72 then "LIKE" else if i == 73 then "LIMIT" else if i == 74 then "MATCH" else if i == 75 then "NATURAL" else
    if i == 76 then "NO" else if i == 77 then "NOT" else if i == 78 then "NOTNULL" else "NULL"
  }

  function Keyword5(i: nat): (w: string)
    ensures '\0' !in w
  {
    if i == 80 then "OF" else if i == 81 then "OFFSET" else if i == 82 then "ON" else if i == 83 then "OR" else
    if i == 84 then "ORDER" else if i == 85 then "OUTER" else if i == 86 then "PLAN" else if i == 87 then "PRAGMA" else
    if i == 88 then "PRIMARY" else if i == 89 then "QUERY" else if i == 90 then "RAISE" else if i == 91 then "RECURSIVE" else
    if i == 92 then "REFERENCES" else if i == 93 then "REGEXP" else if i == 94 then "REINDEX" else "RELEASE"
  }

  function Keyword6(i: nat): (w: string)
    ensures '\0' !in w
  {
    if i == 96 then "RENAME" else if i == 97 then "REPLACE" else if i == 98 then "RESTRICT" else if i == 99 then "RIGHT" else
    if i == 100 then "ROLLBACK" else if i == 101 then "ROW" else if i == 102 then "SAVEPOINT" else if i == 103 then "SELECT" else
    if i == 104 then "SET" else if i == 105 then "TABLE" else if i == 106 then "TEMP" else if i == 107 then "TEMPORARY" else
    if i == 108 then "THEN" else if i == 109 then "TO" else if i == 110 then "TRANSACTION" else "TRIGGER"
  }

  function Keyword7(i: nat): (w: string)
    ensures '\0' !in w
  {
    if i == 112 then "UNION" else if i == 113 then "UNIQUE" else if i == 114 then "UPDATE" else if i == 115 then "USING" else
    if i == 116 then "VACUUM" else if i == 117 then "VALUES" else if i == 118 then "VIEW" else if i == 119 then "VIRTUAL" else
    if i == 120 then "WHEN" else if i == 121 then "WHERE" else if i == 122 then "WITH" else "WITHOUT"
  }

  /** Two words that agree below i and differ there. */
  lemma {:induction false} Ordered(a: string, b: string, i: nat, k: nat)
    requires k <= i <= |a| && (forall j :: k <= j < i ==> At(a, j) == At(b, j)) && At(a, i) < At(b, i)
    ensures Compare(a, b, k) < 0
    decreases i - k
  {
    if k < i {
      Ordered(a, b, i, k + 1);
    }
  }

  lemma SortedBlock0(i: nat)
    requires 0 <= i < 16
    ensures Compare(Keyword(i), Keyword(i + 1), 0) < 0
  {
    hide Compare;
    var d := [1, 1, 1, 1, 2, 1, 2, 1, 2, 1, 1, 0, 2, 2, 1, 0][i - 0];
    Ordered(Keyword(i), Keyword(i + 1), d, 0);
  }

  lemma SortedBlock1(i: nat)
    requires 16 <= i < 24
    ensures Compare(Keyword(i), Keyword(i + 1), 0) < 0
  {
    hide Compare;
    var d := [3, 3, 1, 1, 3, 2, 2, 3][i - 16];
    Ordered(Keyword(i), Keyword(i + 1), d, 0);
  }

  /** The rest of the words with C, of which the last three differ late. */
  lemma SortedCurrent(i: nat)
    requires 24 <= i < 32
    ensures Compare(Keyword(i), Keyword(i + 1), 0) < 0
  {
    hide Compare;
    var d := [1, 2, 1, 8, 12, 0, 1, 3][i - 24];
    Ordered(Keyword(i), Keyword(i + 1), d, 0);
  }

  lemma SortedBlock2(i: nat)
    requires 32 <= i < 48
    ensures Compare(Keyword(i), Keyword(i + 1), 0) < 0
  {
    hide Compare;
    var d := [6, 2, 2, 2, 1, 1, 0, 1, 1, 1, 1, 3, 2, 2, 0, 1][i - 32];
    Ordered(Keyword(i), Keyword(i + 1), d, 0);
  }

  lemma SortedBlock3(i: nat)
    requires 48 <= i < 64
    ensures Compare(Keyword(i), Keyword(i + 1), 0) < 0
  {
    hide Compare;
    var d := [3, 1, 1, 0, 1, 0, 0, 1, 1, 1, 2, 5, 2, 2, 2, 3][i - 48];
    Ordered(Keyword(i), Keyword(i + 1), d, 0);
  }

  lemma SortedBlock4(i: nat)
    requires 64 <= i < 80
    ensures Compare(Keyword(i), Keyword(i + 1), 0) < 0
  {
    hide Compare;
    var d := [2, 3, 1, 2, 0, 0, 0, 1, 2, 0, 0, 1, 2, 3, 1, 0][i - 64];
    Ordered(Keyword(i), Keyword(i + 1), d, 0);
  }

  lemma SortedBlock5(i: nat)
    requires 80 <= i < 96
    ensures Compare(Keyword(i), Keyword(i + 1), 0) < 0
  {
    hide Compare;
    var d := [2, 1, 1, 2, 1, 0, 1, 2, 0, 0, 1, 2, 2, 2, 2, 2][i - 80];
    Ordered(Keyword(i), Keyword(i + 1), d, 0);
  }

  lemma SortedBlock6(i: nat)
    requires 96 <= i < 112
    ensures Compare(Keyword(i), Keyword(i + 1), 0) < 0
  {
    hide Compare;
    var d := [2, 2, 1, 1, 2, 0, 1, 2, 0, 1, 4, 1, 1, 1, 2, 0][i - 96];
    Ordered(Keyword(i), Keyword(i + 1), d, 0);
  }

  lemma SortedBlock7(i: nat)
    requires 112 <= i < 123
    ensures Compare(Keyword(i), Keyword(i + 1), 0) < 0
  {
    hide Compare;
    var d := [3, 1, 1, 0, 2, 1, 2, 0, 3, 1, 4][i - 112];
    Ordered(Keyword(i), Keyword(i + 1), d, 0);
  }

  lemma SortedStep(i: nat)
    requires i + 1 < KEYWORD_COUNT
    ensures Compare(Keyword(i), Keyword(i + 1), 0) < 0
  {
    hide Keyword, Compare;
    if i < 16 {
      SortedBlock0(i);
    } else if i < 24 {
      SortedBlock1(i);
    } else if i < 32 {
      SortedCurrent(i);
    } else if i < 48 {
      SortedBlock2(i);
    } else if i < 64 {
      SortedBlock3(i);
    } else if i < 80 {
      SortedBlock4(i);
    } else if i < 96 {
      SortedBlock5(i);
    } else if i < 112 {
      SortedBlock6(i);
    } else {
      SortedBlock7(i);
    }
  }

  /** The table is sorted without repetition. */
  lemma {:induction false} KeywordsSorted(i: nat, j: nat)
    requires i < j < KEYWORD_COUNT
    ensures Compare(Keyword(i), Keyword(j), 0) < 0
    decreases j - i
  {
    hide Keyword, Compare;
    SortedStep(j - 1);
    if i < j - 1 {
      KeywordsSorted(i, j - 1);
      CompareTransitive(Keyword(i), Keyword(j - 1), Keyword(j), 0);
    }
  }
}
