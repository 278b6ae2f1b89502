/**
 CSV as the shell writes and reads it: the text of a table, and what the reader makes of any
 text.  A character is a byte; EOF is apart from all of them.
 */
module Csv {
  import opened Options
  import opened Strings

  /** What fgetc returns. */
  datatype Read = Eof | Ch(c: char)

  // ----- writing -----

  /** The entries of needCsvQuote that are 1. */
  predicate NeedsQuote(c: char) {
    c <= ' ' || c == '"' || c == '\'' || c >= 127 as char
  }

  /** The test in the scanning loop of output_csv; memcmp looks at the start of z. */
  predicate Special(z: string, i: nat, sep: string)
    requires i < |z|
  {
    NeedsQuote(z[i]) || (sep != "" && z[i] == sep[0] && (|sep| == 1 || sep <= z))
  }

  /** A field is quoted when it is empty or has a special character. */
  function FieldText(z: string, sep: string): string {
    if IsQuoted(z, sep) then "\"" + Doubled(z, '"') + "\"" else z
  }

  /** What is written for a field; a NULL is written as the null value, never between quotes. */
  function ValueText(f: Option<string>, sep: string, nullValue: string): string {
    if f.None? then nullValue else FieldText(f.value, sep)
  }

  /** The fields of a row, then the row end and whatever follows. */
  function RowText(fs: seq<Option<string>>, sep: string, rowEnd: string, nullValue: string, t: string): string
    decreases |fs|
  {
    if fs == [] then rowEnd + t
    else ValueText(fs[0], sep, nullValue) + (if |fs| == 1 then rowEnd + t else sep + RowText(fs[1..], sep, rowEnd, nullValue, t))
  }

  function TableText(rows: seq<seq<Option<string>>>, sep: string, rowEnd: string, nullValue: string): string
    requires forall i :: 0 <= i < |rows| ==> rows[i] != []
  {
    if rows == [] then "" else RowText(rows[0], sep, rowEnd, nullValue, TableText(rows[1..], sep, rowEnd, nullValue))
  }

  /** The scanning loop of output_csv: 0 if z has to be quoted. */
  method Scan(z: string, sep: string) returns (i: nat)
    ensures i == 0 <==> IsQuoted(z, sep)
  {
    i := 0;
    while i < |z|
      invariant 0 <= i <= |z| && forall j :: 0 <= j < i ==> !Special(z, j, sep)
    {
      if Special(z, i, sep) {
        return 0;
      }
      i := i + 1;
    }
  }

  /** The quoting branch of output_csv. */
  method PutQuoted(out: string, z: string) returns (r: string)
    ensures r == out + "\"" + Doubled(z, '"') + "\""
  {
    r := out + "\"";
    var i := 0;
    while i < |z|
      invariant 0 <= i <= |z| && r == out + "\"" + Doubled(z[..i], '"')
    {
      DoubledNext(z, i, '"');
      if z[i] == '"' {
        r := r + "\"";
      }
      r := r + [z[i]];
      i := i + 1;
    }
    assert z[..i] == z;
    r := r + "\"";
  }

  /** output_csv: a field is appended to the output, and the separator if bSep. */
  method OutputCsv(out: string, z: Option<string>, sep: string, nullValue: string, bSep: bool) returns (r: string)
    ensures r == out + ValueText(z, sep, nullValue) + (if bSep then sep else "")
  {
    hide IsQuoted, Doubled;
    if z.None? {
      r := out + nullValue;
    } else {
      var i := Scan(z.value, sep);
      if i == 0 {
        r := PutQuoted(out, z.value);
      } else {
        r := out + z.value;
      }
    }
    if bSep {
      r := r + sep;
    }
  }

  /** A loop of the CSV mode: every field, separators in between, then the row separator. */
  method OutputRow(out: string, fs: seq<Option<string>>, sep: string, rowEnd: string, nullValue: string) returns (r: string)
    ensures r == out + RowText(fs, sep, rowEnd, nullValue, "")
  {
    hide RowText, ValueText;
    r := out;
    var i := 0;
    ghost var goal := out + RowText(fs, sep, rowEnd, nullValue, "");
    assert fs[0..] == fs;
    while i < |fs|
      invariant 0 <= i <= |fs| && r + RowText(fs[i..], sep, rowEnd, nullValue, "") == goal
    {
      RowFrom(r, fs, i, sep, rowEnd, nullValue);
      r := OutputCsv(r, fs[i], sep, nullValue, i < |fs| - 1);
      i := i + 1;
    }
    RowEnds(fs, sep, rowEnd, nullValue);
    r := r + rowEnd;
  }

  lemma RowEnds(fs: seq<Option<string>>, sep: string, rowEnd: string, nullValue: string)
    ensures RowText(fs[|fs|..], sep, rowEnd, nullValue, "") == rowEnd
  {
  }

  lemma RowFrom(r: string, fs: seq<Option<string>>, i: nat, sep: string, rowEnd: string, nullValue: string)
    requires i < |fs|
    ensures r + RowText(fs[i..], sep, rowEnd, nullValue, "") ==
      r + ValueText(fs[i], sep, nullValue) + (if i < |fs| - 1 then sep else "") + RowText(fs[i + 1..], sep, rowEnd, nullValue, "")
  {
    hide ValueText;
    assert fs[i..][1..] == fs[i + 1..];
    var x, y, t := ValueText(fs[i], sep, nullValue), if i < |fs| - 1 then sep else "", RowText(fs[i + 1..], sep, rowEnd, nullValue, "");
    assert r + (x + (y + t)) == r + x + y + t;
  }

  lemma {:induction false} RowThen(fs: seq<Option<string>>, sep: string, rowEnd: string, nullValue: string, t: string)
    ensures RowText(fs, sep, rowEnd, nullValue, t) == RowText(fs, sep, rowEnd, nullValue, "") + t
    decreases |fs|
  {
    if |fs| > 1 {
      RowThen(fs[1..], sep, rowEnd, nullValue, t);
    }
  }

  /** The names of the columns; a missing one is written as an empty field. */
  function Named(cols: seq<Option<string>>): (r: seq<Option<string>>)
    ensures |r| == |cols|
  {
    seq(|cols|, i requires 0 <= i < |cols| => Some(if cols[i].None? then "" else cols[i].value))
  }

  /** The CSV case of the callback: in front of the first row the header, if asked for, then the row. */
  method OutputRecord(out: string, cnt: nat, showHeader: bool, cols: seq<Option<string>>, fs: seq<Option<string>>,
                      sep: string, rowEnd: string, nullValue: string) returns (r: string, n: nat)
    requires |cols| == |fs|
    ensures n == cnt + 1
    ensures r == out + (if cnt == 0 && showHeader then RowText(Named(cols), sep, rowEnd, nullValue, "") else "")
      + (if fs != [] then RowText(fs, sep, rowEnd, nullValue, "") else "")
  {
    hide RowText;
    r, n := out, cnt + 1;
    if cnt == 0 && showHeader {
      r := OutputRow(r, Named(cols), sep, rowEnd, nullValue);
    }
    if |fs| > 0 {
      r := OutputRow(r, fs, sep, rowEnd, nullValue);
    }
  }

  /** The rows of a result, with the header as a first row if it is asked for and there are rows. */
  function Printed(cols: seq<Option<string>>, showHeader: bool, rows: seq<seq<Option<string>>>): seq<seq<Option<string>>> {
    if showHeader && rows != [] then [Named(cols)] + rows else rows
  }

  /** A result with at least one column, row by row. */
  method OutputTable(cols: seq<Option<string>>, showHeader: bool, rows: seq<seq<Option<string>>>,
                     sep: string, rowEnd: string, nullValue: string) returns (r: string)
    requires cols != [] && forall i :: 0 <= i < |rows| ==> |rows[i]| == |cols|
    ensures r == TableText(Printed(cols, showHeader, rows), sep, rowEnd, nullValue)
  {
    hide RowText, TableText;
    r := "";
    var i, cnt := 0, 0;
    ghost var all := Printed(cols, showHeader, rows);
    ghost var head := |all| - |rows|;
    assert all[0..] == all;
    TableEnd(all, sep, rowEnd, nullValue);
    while i < |rows|
      invariant 0 <= i == cnt <= |rows|
      invariant r + TableText(all[if i == 0 then 0 else head + i..], sep, rowEnd, nullValue) == TableText(all, sep, rowEnd, nullValue)
    {
      TableFrom(all, head + i, sep, rowEnd, nullValue);
      if i == 0 && showHeader {
        TableFrom(all, 0, sep, rowEnd, nullValue);
      }
      r, cnt := OutputRecord(r, cnt, showHeader, cols, rows[i], sep, rowEnd, nullValue);
      i := i + 1;
    }
  }

  lemma TableFrom(rows: seq<seq<Option<string>>>, i: nat, sep: string, rowEnd: string, nullValue: string)
    requires i < |rows| && forall j :: 0 <= j < |rows| ==> rows[j] != []
    ensures TableText(rows[i..], sep, rowEnd, nullValue) ==
      RowText(rows[i], sep, rowEnd, nullValue, "") + TableText(rows[i + 1..], sep, rowEnd, nullValue)
  {
    hide RowText;
    assert rows[i..][1..] == rows[i + 1..];
    RowThen(rows[i], sep, rowEnd, nullValue, TableText(rows[i + 1..], sep, rowEnd, nullValue));
  }

  lemma TableEnd(rows: seq<seq<Option<string>>>, sep: string, rowEnd: string, nullValue: string)
    requires forall j :: 0 <= j < |rows| ==> rows[j] != []
    ensures TableText(rows[|rows|..], sep, rowEnd, nullValue) == ""
  {
  }

  // ----- reading one field -----

  /** A field (None at end of file), the character that ended it and the text after that. */
  datatype FieldRead = FieldRead(field: Option<string>, term: Read, rest: string)

  function First(r: string): Read {
    if r == "" then Eof else Ch(r[0])
  }

  function Behind(r: string): string {
    if r == "" then "" else r[1..]
  }

  /** Removes the end of acc, up to and including the last quote. */
  function DropToQuote(acc: string): string {
    if acc == "" then "" else if acc[|acc| - 1] == '"' then acc[..|acc| - 1] else DropToQuote(acc[..|acc| - 1])
  }

  predicate Closes(c: Read, pc: char, ppc: char, sep: char, row: char) {
    (c == Ch(sep) && pc == '"') || (c == Ch(row) && pc == '"') || (c == Ch(row) && pc == '\r' && ppc == '"') || (c == Eof && pc == '"')
  }

  /** The loop over a quoted field, with the text so far and the two characters before. */
  function Quoted(r: string, acc: string, pc: char, ppc: char, sep: char, row: char): FieldRead {
    var c := First(r);
    if c == Ch('"') && pc == '"' then Quoted(r[1..], acc, '\0', ppc, sep, row)
    else if Closes(c, pc, ppc, sep, row) then FieldRead(Some(DropToQuote(acc)), c, Behind(r))
    else if r == "" then FieldRead(Some(acc), Eof, "")
    else Quoted(r[1..], acc + [r[0]], r[0], pc, sep, row)
  }

  /** One CR before a row end belongs to the row end. */
  function DropCr(acc: string): string {
    if acc != "" && acc[|acc| - 1] == '\r' then acc[..|acc| - 1] else acc
  }

  function Plain(r: string, acc: string, sep: char, row: char): FieldRead {
    var c := First(r);
    if r == "" || r[0] == sep || r[0] == row then
      FieldRead(Some(if c == Ch(row) then DropCr(acc) else acc), c, Behind(r))
    else Plain(r[1..], acc + [r[0]], sep, row)
  }

  function ReadField(r: string, sep: char, row: char): FieldRead {
    if r == "" then FieldRead(None, Eof, "")
    else if r[0] == '"' then Quoted(r[1..], "", '\0', '\0', sep, row)
    else Plain(r, "", sep, row)
  }

  // ----- reading rows -----

  /** The fields up to the first that is not ended by the column separator. */
  datatype RowRead = RowRead(fields: seq<Option<string>>, term: Read, rest: string)

  lemma {:induction false} QuotedShortens(r: string, acc: string, pc: char, ppc: char, sep: char, row: char)
    ensures var f := Quoted(r, acc, pc, ppc, sep, row);
      |f.rest| <= |r| && (f.term != Eof ==> |f.rest| < |r|) && (f.term == Eof ==> f.rest == "") && f.field.Some?
    decreases |r|
  {
    var c := First(r);
    if c == Ch('"') && pc == '"' {
      QuotedShortens(r[1..], acc, '\0', ppc, sep, row);
    } else if !Closes(c, pc, ppc, sep, row) && r != "" {
      QuotedShortens(r[1..], acc + [r[0]], r[0], pc, sep, row);
    }
  }

  lemma {:induction false} PlainShortens(r: string, acc: string, sep: char, row: char)
    ensures var f := Plain(r, acc, sep, row);
      |f.rest| <= |r| && (f.term != Eof ==> |f.rest| < |r|) && (f.term == Eof ==> f.rest == "") && f.field.Some?
    decreases |r|
  {
    if r != "" && r[0] != sep && r[0] != row {
      PlainShortens(r[1..], acc + [r[0]], sep, row);
    }
  }

  /** A read consumes input or reports the end of the file. */
  lemma ReadShortens(r: string, sep: char, row: char)
    ensures var f := ReadField(r, sep, row);
      (f.term != Eof ==> |f.rest| < |r|) && (f.term == Eof ==> f.rest == "") && (f.field.None? <==> r == "")
  {
    if r != "" {
      QuotedShortens(r[1..], "", '\0', '\0', sep, row);
      PlainShortens(r, "", sep, row);
    }
  }

  function ReadRow(r: string, sep: char, row: char): RowRead
    decreases |r|
  {
    ReadShortens(r, sep, row);
    var f := ReadField(r, sep, row);
    if f.term == Ch(sep) then
      var more := ReadRow(f.rest, sep, row);
      RowRead([f.field] + more.fields, more.term, more.rest)
    else RowRead([f.field], f.term, f.rest)
  }

  lemma {:induction false} RowShortens(r: string, sep: char, row: char)
    ensures var w := ReadRow(r, sep, row); (w.term != Eof ==> |w.rest| < |r|) && w.fields != []
    decreases |r|
  {
    ReadShortens(r, sep, row);
    var f := ReadField(r, sep, row);
    if f.term == Ch(sep) {
      RowShortens(f.rest, sep, row);
    }
  }

  /** All rows, up to the end of the file. */
  function ReadTable(r: string, sep: char, row: char): seq<seq<Option<string>>>
    decreases |r|
  {
    RowShortens(r, sep, row);
    var w := ReadRow(r, sep, row);
    if r == "" then [] else [w.fields] + (if w.term == Eof then [] else ReadTable(w.rest, sep, row))
  }

  // ----- reading undoes writing -----

  predicate GoodSeparator(sep: char) {
    sep != '"' && sep != '\r' && sep != '\n' && sep != '\0' && sep < 128 as char
  }

  predicate IsQuoted(z: string, sep: string) {
    z == "" || exists i :: 0 <= i < |z| && Special(z, i, sep)
  }

  /** The two characters before show no quote that could be closing. */
  predicate Inside(pc: char, ppc: char) {
    pc != '"' && !(pc == '\r' && ppc == '"')
  }

  /** Inside a quoted field that a writer made, no prefix looks like its end. */
  lemma {:induction false} QuotedBody(z: string, t: string, acc: string, pc: char, ppc: char, sep: char)
    requires GoodSeparator(sep) && Inside(pc, ppc)
    ensures exists p, q :: Inside(p, q) && Quoted(Doubled(z, '"') + t, acc, pc, ppc, sep, '\n') == Quoted(t, acc + z, p, q, sep, '\n')
    decreases |z|
  {
    var r := Doubled(z, '"') + t;
    if z == "" {
      assert r == t && acc + z == acc;
    } else if z[0] == '"' {
      assert r == "\"\"" + (Doubled(z[1..], '"') + t);
      var r1 := r[1..];
      assert r1 == "\"" + (Doubled(z[1..], '"') + t) && r1[1..] == Doubled(z[1..], '"') + t;
      assert Quoted(r, acc, pc, ppc, sep, '\n') == Quoted(r1, acc + ['"'], '"', pc, sep, '\n');
      assert Quoted(r1, acc + ['"'], '"', pc, sep, '\n') == Quoted(r1[1..], acc + ['"'], '\0', pc, sep, '\n');
      QuotedBody(z[1..], t, acc + ['"'], '\0', pc, sep);
      assert acc + ['"'] + z[1..] == acc + z;
    } else {
      assert r[0] == z[0] && r[1..] == Doubled(z[1..], '"') + t;
      assert Quoted(r, acc, pc, ppc, sep, '\n') == Quoted(r[1..], acc + [z[0]], z[0], pc, sep, '\n');
      QuotedBody(z[1..], t, acc + [z[0]], z[0], pc, sep);
      assert acc + [z[0]] + z[1..] == acc + z;
    }
  }

  /** What is behind a field, how the reader takes it, and what is left: a separator, a line end with or without CR, or nothing. */
  predicate Ends(e: string, term: Read, rest: string, sep: char) {
    || (term == Ch(sep) && e == [sep] + rest)
    || (term == Ch('\n') && (e == "\n" + rest || e == "\r\n" + rest))
    || (term == Eof && e == "" && rest == "")
  }

  lemma QuotedStop(r: string, acc: string, p: char, q: char, sep: char)
    requires Closes(First(r), p, q, sep, '\n') && (First(r) == Ch('"') ==> p != '"')
    ensures Quoted(r, acc, p, q, sep, '\n') == FieldRead(Some(DropToQuote(acc)), First(r), Behind(r))
  {
  }

  lemma QuotedGoesOn(r: string, acc: string, p: char, q: char, sep: char)
    requires r != "" && !(r[0] == '"' && p == '"') && !Closes(First(r), p, q, sep, '\n')
    ensures Quoted(r, acc, p, q, sep, '\n') == Quoted(r[1..], acc + [r[0]], r[0], p, sep, '\n')
  {
  }

  /** The ways a written field ends. */
  lemma QuotedEnd(z: string, e: string, term: Read, rest: string, p: char, q: char, sep: char)
    requires GoodSeparator(sep) && Inside(p, q) && Ends(e, term, rest, sep)
    ensures Quoted("\"" + e, z, p, q, sep, '\n') == FieldRead(Some(z), term, rest)
  {
    var r := "\"" + e;
    assert r[1..] == e;
    hide Quoted;
    QuotedGoesOn(r, z, p, q, sep);
    var acc := z + ['"'];
    assert acc[..|z|] == z && DropToQuote(acc) == z;
    if e == "\r\n" + rest && term == Ch('\n') {
      QuotedGoesOn(e, acc, '"', p, sep);
      assert e[1..] == "\n" + rest && ("\n" + rest)[1..] == rest;
      var acc2 := acc + ['\r'];
      assert acc2[..|acc|] == acc && DropToQuote(acc2) == DropToQuote(acc);
      QuotedStop("\n" + rest, acc2, '\r', '"', sep);
    } else {
      QuotedStop(e, acc, '"', p, sep);
      assert e != "" ==> e[1..] == rest;
    }
  }

  lemma {:induction false} PlainBody(z: string, t: string, acc: string, sep: char)
    requires forall i :: 0 <= i < |z| ==> z[i] != sep && z[i] != '\n'
    ensures Plain(z + t, acc, sep, '\n') == Plain(t, acc + z, sep, '\n')
    decreases |z|
  {
    if z == "" {
      assert z + t == t && acc + z == acc;
    } else {
      assert (z + t)[1..] == z[1..] + t;
      PlainBody(z[1..], t, acc + [z[0]], sep);
      assert acc + [z[0]] + z[1..] == acc + z;
    }
  }

  lemma QuotedThen(z: string, t: string, sep: char) returns (p: char, q: char)
    requires GoodSeparator(sep) && IsQuoted(z, [sep])
    ensures Inside(p, q) && ReadField(FieldText(z, [sep]) + t, sep, '\n') == Quoted("\"" + t, z, p, q, sep, '\n')
  {
    hide Quoted, Doubled, IsQuoted;
    var r := FieldText(z, [sep]) + t;
    assert r[0] == '"' && r[1..] == Doubled(z, '"') + ("\"" + t);
    QuotedBody(z, "\"" + t, "", '\0', '\0', sep);
    assert "" + z == z;
    p, q :| Inside(p, q) && Quoted(Doubled(z, '"') + ("\"" + t), "", '\0', '\0', sep, '\n') == Quoted("\"" + t, z, p, q, sep, '\n');
  }

  /** A text that can stand without quotes, also at the end of a row. */
  predicate Unquoted(z: string, sep: char) {
    && (forall i :: 0 <= i < |z| ==> z[i] != sep && z[i] != '\n')
    && (z != "" ==> z[0] != '"' && z[|z| - 1] != '\r')
  }

  lemma NotQuoted(z: string, sep: char)
    requires !IsQuoted(z, [sep])
    ensures FieldText(z, [sep]) == z && Unquoted(z, sep)
  {
    forall i | 0 <= i < |z|
      ensures z[i] != sep && z[i] != '\n' && z[i] != '\r' && z[i] != '"'
    {
      assert !Special(z, i, [sep]);
    }
  }

  lemma PlainThen(z: string, t: string, sep: char)
    requires Unquoted(z, sep) && (z == "" ==> t != "" && t[0] != '"')
    ensures ReadField(z + t, sep, '\n') == Plain(t, z, sep, '\n')
  {
    hide Plain, Quoted;
    assert (z + t)[0] == if z == "" then t[0] else z[0];
    PlainBody(z, t, "", sep);
    assert "" + z == z;
  }

  /** A text without quotes is read back as it was; only an empty one cannot end the file. */
  lemma UnquotedRoundTrip(z: string, e: string, term: Read, rest: string, sep: char)
    requires GoodSeparator(sep) && Unquoted(z, sep) && Ends(e, term, rest, sep) && (z == "" ==> e != "")
    ensures ReadField(z + e, sep, '\n') == FieldRead(Some(z), term, rest)
  {
    hide ReadField;
    PlainThen(z, e, sep);
    PlainEnd(z, e, term, rest, sep);
  }

  /** A written field is read back as it was, whatever ends it. */
  lemma FieldRoundTrip(z: string, e: string, term: Read, rest: string, sep: char)
    requires GoodSeparator(sep) && Ends(e, term, rest, sep)
    ensures ReadField(FieldText(z, [sep]) + e, sep, '\n') == FieldRead(Some(z), term, rest)
  {
    if IsQuoted(z, [sep]) {
      hide Quoted, ReadField, Ends;
      var p, q := QuotedThen(z, e, sep);
      QuotedEnd(z, e, term, rest, p, q, sep);
    } else {
      NotQuoted(z, sep);
      hide ReadField, Ends;
      UnquotedRoundTrip(z, e, term, rest, sep);
    }
  }

  lemma PlainEnd(z: string, e: string, term: Read, rest: string, sep: char)
    requires GoodSeparator(sep) && (z != "" ==> z[|z| - 1] != '\r') && Ends(e, term, rest, sep)
    ensures Plain(e, z, sep, '\n') == FieldRead(Some(z), term, rest)
  {
    hide Plain;
    if e == "" {
      PlainAtEnd(z, sep);
    } else if e == "\r\n" + rest && term == Ch('\n') {
      assert e[1..] == "\n" + rest && ("\n" + rest)[1..] == rest;
      PlainGoesOn(e, z, sep);
      PlainStop("\n" + rest, z + ['\r'], sep);
      assert (z + ['\r'])[..|z|] == z;
    } else {
      assert e[1..] == rest;
      PlainStop(e, z, sep);
    }
  }

  lemma PlainAtEnd(acc: string, sep: char)
    ensures Plain("", acc, sep, '\n') == FieldRead(Some(acc), Eof, "")
  {
  }

  lemma PlainStop(r: string, acc: string, sep: char)
    requires r != "" && (r[0] == sep || r[0] == '\n') && sep != '\n'
    ensures Plain(r, acc, sep, '\n') == FieldRead(Some(if r[0] == '\n' then DropCr(acc) else acc), Ch(r[0]), r[1..])
  {
  }

  lemma PlainGoesOn(r: string, acc: string, sep: char)
    requires r != "" && r[0] != sep && r[0] != '\n'
    ensures Plain(r, acc, sep, '\n') == Plain(r[1..], acc + [r[0]], sep, '\n')
  {
  }

  /** What a reader can know of a row: its NULLs have become the null value. */
  function ReadBack(fs: seq<Option<string>>, nullValue: string): (r: seq<Option<string>>)
    ensures |r| == |fs|
  {
    seq(|fs|, i requires 0 <= i < |fs| => Some(if fs[i].None? then nullValue else fs[i].value))
  }

  lemma ValueRoundTrip(f: Option<string>, nullValue: string, e: string, term: Read, rest: string, sep: char)
    requires GoodSeparator(sep) && Unquoted(nullValue, sep) && Ends(e, term, rest, sep)
    requires f.None? && nullValue == "" ==> e != ""
    ensures ReadField(ValueText(f, [sep], nullValue) + e, sep, '\n') ==
      FieldRead(Some(if f.None? then nullValue else f.value), term, rest)
  {
    hide ReadField, FieldText, Unquoted, Ends;
    if f.None? {
      UnquotedRoundTrip(nullValue, e, term, rest, sep);
    } else {
      FieldRoundTrip(f.value, e, term, rest, sep);
    }
  }

  /** A row that the text may break off behind: its last field is not written as nothing. */
  predicate CanEndFile(fs: seq<Option<string>>, nullValue: string) {
    fs != [] && (fs[|fs| - 1].None? ==> nullValue != "")
  }

  /** A written row is read back, whatever ends it; rowEnd + t is what follows its last field. */
  lemma {:induction false} RowRoundTrip(fs: seq<Option<string>>, nullValue: string, rowEnd: string, t: string, term: Read, rest: string, sep: char)
    requires fs != [] && GoodSeparator(sep) && Unquoted(nullValue, sep) && term != Ch(sep) && Ends(rowEnd + t, term, rest, sep)
    requires rowEnd + t == "" ==> CanEndFile(fs, nullValue)
    ensures ReadRow(RowText(fs, [sep], rowEnd, nullValue, t), sep, '\n') == RowRead(ReadBack(fs, nullValue), term, rest)
    decreases |fs|
  {
    hide ReadField, ValueText, Unquoted;
    if |fs| == 1 {
      ValueRoundTrip(fs[0], nullValue, rowEnd + t, term, rest, sep);
    } else {
      var more := RowText(fs[1..], [sep], rowEnd, nullValue, t);
      ValueRoundTrip(fs[0], nullValue, [sep] + more, Ch(sep), more, sep);
      RowRoundTrip(fs[1..], nullValue, rowEnd, t, term, rest, sep);
      assert ReadBack(fs, nullValue) == [Some(if fs[0].None? then nullValue else fs[0].value)] + ReadBack(fs[1..], nullValue);
    }
  }

  function AllReadBack(rows: seq<seq<Option<string>>>, nullValue: string): seq<seq<Option<string>>> {
    seq(|rows|, i requires 0 <= i < |rows| => ReadBack(rows[i], nullValue))
  }

  /** A line end, as RFC 4180 has it or as most files do. */
  predicate IsLineEnd(e: string) {
    e == "\r\n" || e == "\n"
  }

  /**
   Reading a written table gives its fields, row boundaries and row count.  A NULL is read as the
   null value, which must be able to stand without quotes.
   */
  lemma {:induction false} TableRoundTrip(rows: seq<seq<Option<string>>>, rowEnd: string, nullValue: string, sep: char)
    requires IsLineEnd(rowEnd) && GoodSeparator(sep) && Unquoted(nullValue, sep) && forall i :: 0 <= i < |rows| ==> rows[i] != []
    ensures ReadTable(TableText(rows, [sep], rowEnd, nullValue), sep, '\n') == AllReadBack(rows, nullValue)
  {
    hide Unquoted, ReadRow;
    if rows != [] {
      var t := TableText(rows[1..], [sep], rowEnd, nullValue);
      RowRoundTrip(rows[0], nullValue, rowEnd, t, Ch('\n'), t, sep);
      TableRoundTrip(rows[1..], rowEnd, nullValue, sep);
      RowNotEmpty(rows[0], rowEnd, nullValue, t, sep);
      assert AllReadBack(rows, nullValue) == [ReadBack(rows[0], nullValue)] + AllReadBack(rows[1..], nullValue);
    }
  }

  /** A table whose last row ends with the file. */
  function OpenTableText(rows: seq<seq<Option<string>>>, sep: string, rowEnd: string, nullValue: string): string
    requires rows != [] && forall i :: 0 <= i < |rows| ==> rows[i] != []
  {
    if |rows| == 1 then RowText(rows[0], sep, "", nullValue, "")
    else RowText(rows[0], sep, rowEnd, nullValue, OpenTableText(rows[1..], sep, rowEnd, nullValue))
  }

  /** That table is read back as well, if its last field is not written as nothing. */
  lemma {:induction false} OpenTableRoundTrip(rows: seq<seq<Option<string>>>, rowEnd: string, nullValue: string, sep: char)
    requires rows != [] && IsLineEnd(rowEnd) && GoodSeparator(sep) && Unquoted(nullValue, sep)
    requires (forall i :: 0 <= i < |rows| ==> rows[i] != []) && CanEndFile(rows[|rows| - 1], nullValue)
    ensures ReadTable(OpenTableText(rows, [sep], rowEnd, nullValue), sep, '\n') == AllReadBack(rows, nullValue)
    decreases |rows|
  {
    hide Unquoted, ReadRow;
    if |rows| == 1 {
      RowRoundTrip(rows[0], nullValue, "", "", Eof, "", sep);
      RowNotNothing(rows[0], nullValue, sep);
      assert AllReadBack(rows, nullValue) == [ReadBack(rows[0], nullValue)];
    } else {
      var t := OpenTableText(rows[1..], [sep], rowEnd, nullValue);
      RowRoundTrip(rows[0], nullValue, rowEnd, t, Ch('\n'), t, sep);
      OpenTableRoundTrip(rows[1..], rowEnd, nullValue, sep);
      RowNotEmpty(rows[0], rowEnd, nullValue, t, sep);
      assert AllReadBack(rows, nullValue) == [ReadBack(rows[0], nullValue)] + AllReadBack(rows[1..], nullValue);
    }
  }

  /** Without NULLs the table that is read is the table itself. */
  lemma NoNulls(rows: seq<seq<Option<string>>>, nullValue: string)
    requires forall i, j :: 0 <= i < |rows| && 0 <= j < |rows[i]| ==> rows[i][j].Some?
    ensures AllReadBack(rows, nullValue) == rows
  {
    forall i | 0 <= i < |rows|
      ensures ReadBack(rows[i], nullValue) == rows[i]
    {
      assert forall j :: 0 <= j < |rows[i]| ==> rows[i][j].Some?;
    }
  }

  lemma RowNotEmpty(fs: seq<Option<string>>, rowEnd: string, nullValue: string, t: string, sep: char)
    requires rowEnd != ""
    ensures RowText(fs, [sep], rowEnd, nullValue, t) != ""
  {
  }

  lemma RowNotNothing(fs: seq<Option<string>>, nullValue: string, sep: char)
    requires CanEndFile(fs, nullValue)
    ensures RowText(fs, [sep], "", nullValue, "") != ""
  {
  }

  // ----- fields that no writer made -----

  /** A single quote inside a quoted field, with an ordinary character behind it, is text. */
  lemma StrayQuote(a: string, c: char, b: string, e: string, term: Read, rest: string, sep: char)
    requires GoodSeparator(sep) && Ends(e, term, rest, sep) && c != '"' && c != sep && c != '\n' && c != '\r'
    ensures ReadField("\"" + (Doubled(a, '"') + ("\"" + ([c] + (Doubled(b, '"') + ("\"" + e))))), sep, '\n') ==
      FieldRead(Some(a + "\"" + [c] + b), term, rest)
  {
    hide Quoted, Doubled, Ends;
    var end := "\"" + e;
    var more := Doubled(b, '"') + end;
    var tail := "\"" + ([c] + more);
    var r := "\"" + (Doubled(a, '"') + tail);
    assert r[1..] == Doubled(a, '"') + tail && "" + a == a;
    QuotedBody(a, tail, "", '\0', '\0', sep);
    var p, q :| Inside(p, q) && Quoted(r[1..], "", '\0', '\0', sep, '\n') == Quoted(tail, a, p, q, sep, '\n');
    assert tail[1..] == [c] + more && ([c] + more)[1..] == more;
    QuotedGoesOn(tail, a, p, q, sep);
    QuotedGoesOn([c] + more, a + ['"'], '"', p, sep);
    var acc := a + "\"" + [c];
    assert a + ['"'] + [c] == acc;
    QuotedBody(b, end, acc, c, '"', sep);
    p, q :| Inside(p, q) && Quoted(more, acc, c, '"', sep, '\n') == Quoted(end, acc + b, p, q, sep, '\n');
    QuotedEnd(acc + b, e, term, rest, p, q, sep);
  }

  /** So is one with a CR behind it that no LF follows, even in front of a separator. */
  lemma StrayQuoteCr(a: string, c: char, b: string, e: string, term: Read, rest: string, sep: char)
    requires GoodSeparator(sep) && Ends(e, term, rest, sep) && c != '"' && c != '\n'
    ensures ReadField("\"" + (Doubled(a, '"') + ("\"\r" + ([c] + (Doubled(b, '"') + ("\"" + e))))), sep, '\n') ==
      FieldRead(Some(a + "\"\r" + [c] + b), term, rest)
  {
    hide Quoted, Doubled, Ends;
    var end := "\"" + e;
    var more := Doubled(b, '"') + end;
    var tail := "\"\r" + ([c] + more);
    var r := "\"" + (Doubled(a, '"') + tail);
    assert r[1..] == Doubled(a, '"') + tail && "" + a == a;
    QuotedBody(a, tail, "", '\0', '\0', sep);
    var p, q :| Inside(p, q) && Quoted(r[1..], "", '\0', '\0', sep, '\n') == Quoted(tail, a, p, q, sep, '\n');
    assert tail[1..] == "\r" + ([c] + more) && ("\r" + ([c] + more))[1..] == [c] + more && ([c] + more)[1..] == more;
    QuotedGoesOn(tail, a, p, q, sep);
    QuotedGoesOn("\r" + ([c] + more), a + ['"'], '"', p, sep);
    QuotedGoesOn([c] + more, a + ['"'] + ['\r'], '\r', '"', sep);
    var acc := a + "\"\r" + [c];
    assert a + ['"'] + ['\r'] + [c] == acc;
    QuotedBody(b, end, acc, c, '\r', sep);
    p, q :| Inside(p, q) && Quoted(more, acc, c, '\r', sep, '\n') == Quoted(end, acc + b, p, q, sep, '\n');
    QuotedEnd(acc + b, e, term, rest, p, q, sep);
  }

  /** A field without quotes that ends in CR keeps it, except in front of an LF. */
  lemma TrailingCr(z: string, rest: string, sep: char)
    requires GoodSeparator(sep) && (forall i :: 0 <= i < |z| ==> z[i] != sep && z[i] != '\n') && (z != "" ==> z[0] != '"')
    ensures ReadField(z + "\r", sep, '\n') == FieldRead(Some(z + "\r"), Eof, "")
    ensures ReadField(z + "\r" + ([sep] + rest), sep, '\n') == FieldRead(Some(z + "\r"), Ch(sep), rest)
    ensures ReadField(z + "\r" + ("\n" + rest), sep, '\n') == FieldRead(Some(z), Ch('\n'), rest)
  {
    hide Plain, Quoted;
    var y := z + "\r";
    assert forall i :: 0 <= i < |y| ==> y[i] == if i < |z| then z[i] else '\r';
    assert y + "" == y && "" + y == y && y[..|z|] == z;
    PlainFrom(y, "", sep);
    PlainFrom(y, [sep] + rest, sep);
    PlainFrom(y, "\n" + rest, sep);
    assert ([sep] + rest)[1..] == rest && ("\n" + rest)[1..] == rest;
    PlainStops("", y, sep);
    PlainStops([sep] + rest, y, sep);
    PlainStops("\n" + rest, y, sep);
  }

  lemma PlainFrom(y: string, t: string, sep: char)
    requires y != "" && y[0] != '"' && forall i :: 0 <= i < |y| ==> y[i] != sep && y[i] != '\n'
    ensures ReadField(y + t, sep, '\n') == Plain(t, y, sep, '\n')
  {
    hide Plain, Quoted;
    assert (y + t)[0] == y[0];
    PlainBody(y, t, "", sep);
    assert "" + y == y;
  }

  lemma PlainStops(t: string, acc: string, sep: char)
    requires t == "" || t[0] == sep || t[0] == '\n'
    ensures Plain(t, acc, sep, '\n') == FieldRead(Some(if First(t) == Ch('\n') then DropCr(acc) else acc), First(t), Behind(t))
  {
  }

  /** A quoted field that is never closed goes on to the end of the file. */
  lemma NeverClosed(z: string, sep: char)
    requires GoodSeparator(sep)
    ensures ReadField("\"" + Doubled(z, '"'), sep, '\n') == FieldRead(Some(z), Eof, "")
  {
    hide Quoted, Doubled;
    var r := "\"" + Doubled(z, '"');
    assert r[1..] == Doubled(z, '"') + "" && "" + z == z;
    QuotedBody(z, "", "", '\0', '\0', sep);
    var p, q :| Inside(p, q) && Quoted(r[1..], "", '\0', '\0', sep, '\n') == Quoted("", z, p, q, sep, '\n');
    QuotedNothing(z, p, q, sep);
  }

  lemma QuotedNothing(acc: string, p: char, q: char, sep: char)
    requires p != '"'
    ensures Quoted("", acc, p, q, sep, '\n') == FieldRead(Some(acc), Eof, "")
  {
  }

  // ----- what is quoted -----

  /** A field stands without quotes exactly when it is not empty and all of it is printable, and neither blank, quote nor separator. */
  predicate Bare(z: string, sep: char) {
    z != "" && forall i :: 0 <= i < |z| ==> '!' <= z[i] <= '~' && z[i] != '"' && z[i] != '\'' && z[i] != sep
  }

  lemma BareFields(z: string, sep: char)
    ensures FieldText(z, [sep]) == z <==> Bare(z, sep)
  {
    hide Doubled;
    if z != "" && !Bare(z, sep) {
      var i :| 0 <= i < |z| && !('!' <= z[i] <= '~' && z[i] != '"' && z[i] != '\'' && z[i] != sep);
      assert Special(z, i, [sep]);
    }
    DoubledNotShorter(z, '"');
  }
}
