/**
 The row loop of .import in CSV mode.  The prepared INSERT is an object whose bindings survive a
 reset, so that what a row inserts depends on which parameters its iteration has bound.
 */
module CsvImport {
  import opened Options
  import opened CStrings
  import opened Csv
  import opened CsvReader

  function Bound(f: Option<string>): Option<string> {
    if f.None? then None else Some(CStr(f.value, 0))
  }

  // ----- what an import inserts -----

  /** A row cut or filled with NULLs to n columns. */
  function Fit(fs: seq<Option<string>>, n: nat): (r: seq<Option<string>>)
    ensures |r| == n
  {
    seq(n, i requires 0 <= i < n => if i < |fs| then Bound(fs[i]) else None)
  }

  /** Fields beyond the columns are dropped, and columns without a field are NULL. */
  lemma FitCases(fs: seq<Option<string>>, more: seq<Option<string>>, k: nat)
    requires forall i :: 0 <= i < |fs| && fs[i].Some? ==> '\0' !in fs[i].value
    ensures Fit(fs + more, |fs|) == fs && Fit(fs, |fs| + k) == fs + seq(k, _ => None)
  {
    forall i | 0 <= i < |fs|
      ensures Bound(fs[i]) == fs[i]
    {
      if fs[i].Some? {
        CStrWhole(fs[i].value, 0);
      }
    }
  }

  /** The rows inserted from the text r. */
  function Inserted(r: string, sep: char, row: char, nCol: nat): seq<seq<Option<string>>>
    decreases |r|
  {
    RowShortens(r, sep, row);
    var w := ReadRow(r, sep, row);
    if r == "" then [] else [Fit(w.fields, nCol)] + (if w.term == Eof then [] else Inserted(w.rest, sep, row, nCol))
  }

  /** An import inserts exactly the rows of the table, each fitted to the columns. */
  lemma {:induction false} InsertedRows(r: string, sep: char, row: char, nCol: nat)
    ensures var t := ReadTable(r, sep, row);
      |Inserted(r, sep, row, nCol)| == |t| && forall i :: 0 <= i < |t| ==> Inserted(r, sep, row, nCol)[i] == Fit(t[i], nCol)
    decreases |r|
  {
    RowShortens(r, sep, row);
    var w := ReadRow(r, sep, row);
    if r != "" && w.term != Eof {
      InsertedRows(w.rest, sep, row, nCol);
    }
  }

  /** Strings of the engine, of which every row has nCol; none has a NUL in it. */
  predicate Importable(rows: seq<seq<Option<string>>>, nullValue: string, nCol: nat) {
    && '\0' !in nullValue
    && (forall i :: 0 <= i < |rows| ==> |rows[i]| == nCol)
    && forall i, j :: 0 <= i < |rows| && 0 <= j < nCol && rows[i][j].Some? ==> '\0' !in rows[i][j].value
  }

  lemma ReadBackInserted(r: string, rows: seq<seq<Option<string>>>, nullValue: string, sep: char, nCol: nat)
    requires Importable(rows, nullValue, nCol) && ReadTable(r, sep, '\n') == AllReadBack(rows, nullValue)
    ensures Inserted(r, sep, '\n', nCol) == AllReadBack(rows, nullValue)
  {
    InsertedRows(r, sep, '\n', nCol);
    forall i | 0 <= i < |rows|
      ensures Inserted(r, sep, '\n', nCol)[i] == ReadBack(rows[i], nullValue)
    {
      var fs := ReadBack(rows[i], nullValue);
      forall j | 0 <= j < nCol
        ensures Fit(fs, nCol)[j] == fs[j]
      {
        CStrWhole(fs[j].value, 0);
      }
    }
  }

  /** Importing a written table of nCol columns inserts that table, with NULLs as the null value. */
  lemma ImportRoundTrip(rows: seq<seq<Option<string>>>, rowEnd: string, nullValue: string, sep: char, nCol: nat)
    requires IsLineEnd(rowEnd) && GoodSeparator(sep) && Unquoted(nullValue, sep) && nCol > 0 && Importable(rows, nullValue, nCol)
    ensures Inserted(TableText(rows, [sep], rowEnd, nullValue), sep, '\n', nCol) == AllReadBack(rows, nullValue)
  {
    hide Unquoted;
    TableRoundTrip(rows, rowEnd, nullValue, sep);
    ReadBackInserted(TableText(rows, [sep], rowEnd, nullValue), rows, nullValue, sep, nCol);
  }

  /** The same for a file that breaks off behind the last field. */
  lemma ImportOpenRoundTrip(rows: seq<seq<Option<string>>>, rowEnd: string, nullValue: string, sep: char, nCol: nat)
    requires IsLineEnd(rowEnd) && GoodSeparator(sep) && Unquoted(nullValue, sep) && nCol > 0 && Importable(rows, nullValue, nCol)
    requires rows != [] && CanEndFile(rows[|rows| - 1], nullValue)
    ensures Inserted(OpenTableText(rows, [sep], rowEnd, nullValue), sep, '\n', nCol) == AllReadBack(rows, nullValue)
  {
    hide Unquoted;
    OpenTableRoundTrip(rows, rowEnd, nullValue, sep);
    ReadBackInserted(OpenTableText(rows, [sep], rowEnd, nullValue), rows, nullValue, sep, nCol);
  }

  // ----- the prepared statement -----

  class Statement {
    const nCol: nat
    var params: seq<Option<string>>
    var rows: seq<seq<Option<string>>>
    /** How often each parameter has been bound since the last step. */
    ghost var times: seq<nat>

    ghost predicate Valid()
      reads this
    {
      |params| == |times| == nCol
    }

    constructor (nCol: nat)
      ensures Valid() && this.nCol == nCol && rows == [] && times == seq(nCol, _ => 0)
    {
      this.nCol := nCol;
      params, rows := seq(nCol, _ => None), [];
      times := seq(nCol, _ => 0);
    }

    /** sqlite3_bind_text and, with None, sqlite3_bind_null; parameters count from 1. */
    method Bind(i: nat, v: Option<string>)
      requires Valid() && 1 <= i <= nCol
      modifies this`params, this`times
      ensures Valid() && params == old(params)[i - 1 := v] && times == old(times)[i - 1 := old(times)[i - 1] + 1]
    {
      params := params[i - 1 := v];
      times := times[i - 1 := times[i - 1] + 1];
    }

    /** A step and a reset: the bindings stay.  Every parameter has been bound once for this row. */
    method Step()
      requires Valid() && forall i :: 0 <= i < nCol ==> times[i] == 1
      modifies this`rows, this`times
      ensures Valid() && rows == old(rows) + [params] && times == seq(nCol, _ => 0)
    {
      rows := rows + [params];
      times := seq(nCol, _ => 0);
    }
  }

  // ----- the loop -----

  /** The first i parameters hold the first i fields, bound once each; the others are untouched. */
  ghost predicate BoundTo(s: Statement, fs: seq<Option<string>>, i: nat)
    requires i <= s.nCol
    reads s
  {
    && s.Valid()
    && (forall j :: 0 <= j < i ==> s.times[j] == 1 && s.params[j] == Fit(fs, s.nCol)[j])
    && forall j :: i <= j < s.nCol ==> s.times[j] == 0
  }

  /** The rest of a row, after its first fields fs of which the last was ended by term. */
  ghost predicate Continues(w: RowRead, fs: seq<Option<string>>, term: Read, ahead: string, sep: char, row: char) {
    if term == Ch(sep) then
      var more := ReadRow(ahead, sep, row);
      w == RowRead(fs + more.fields, more.term, more.rest)
    else w == RowRead(fs, term, ahead)
  }

  lemma ContinuesNext(w: RowRead, fs: seq<Option<string>>, ahead: string, sep: char, row: char)
    requires Continues(w, fs, Ch(sep), ahead, sep, row)
    ensures var f := ReadField(ahead, sep, row); Continues(w, fs + [f.field], f.term, f.rest, sep, row)
  {
    hide ReadField;
    var f := ReadField(ahead, sep, row);
    if f.term == Ch(sep) {
      assert fs + ([f.field] + ReadRow(f.rest, sep, row).fields) == fs + [f.field] + ReadRow(f.rest, sep, row).fields;
    }
  }

  /** The loop that binds the parameters from i on to NULL. */
  method FillWithNull(s: Statement, from: nat, ghost fs: seq<Option<string>>) returns (i: nat)
    requires 1 <= from <= s.nCol && |fs| < from && BoundTo(s, fs, from - 1)
    modifies s`params, s`times
    ensures i == s.nCol + 1 && BoundTo(s, fs, s.nCol)
  {
    hide Fit;
    i := from;
    while i <= s.nCol
      invariant from <= i <= s.nCol + 1 && BoundTo(s, fs, i - 1)
    {
      NullField(fs, i - 1, s.nCol);
      s.Bind(i, None);
      i := i + 1;
    }
  }

  /** The loop that reads and drops the fields of an over-long row. */
  method SkipExtras(cx: ImportCtx, from: nat, ghost w: RowRead, ghost fs0: seq<Option<string>>) returns (i: nat)
    requires cx.Valid() && Continues(w, fs0, Ch(cx.cColSep), cx.Ahead(), cx.cColSep, cx.cRowSep)
    modifies cx, cx.z
    ensures cx.Valid() && (cx.z == old(cx.z) || fresh(cx.z)) && cx.cTerm == w.term && cx.Ahead() == w.rest && i > from
  {
    hide ReadField, ReadRow;
    i := from;
    ghost var fs := fs0;
    while true
      invariant cx.Valid() && (cx.z == old(cx.z) || fresh(cx.z)) && i >= from
      invariant Continues(w, fs, Ch(cx.cColSep), cx.Ahead(), cx.cColSep, cx.cRowSep)
      decreases |cx.Ahead()|
    {
      ContinuesNext(w, fs, cx.Ahead(), cx.cColSep, cx.cRowSep);
      ReadShortens(cx.Ahead(), cx.cColSep, cx.cRowSep);
      fs := fs + [ReadField(cx.Ahead(), cx.cColSep, cx.cRowSep).field];
      var _ := cx.ReadOneField();
      i := i + 1;
      if cx.cTerm != Ch(cx.cColSep) {
        break;
      }
    }
  }

  /** One turn of the do loop: at the end of the file nothing, else a row with every parameter bound once. */
  method ImportRow(cx: ImportCtx, s: Statement)
    requires cx.Valid() && s.Valid() && s.nCol > 0 && s.times == seq(s.nCol, _ => 0)
    modifies cx, cx.z, s
    ensures cx.Valid() && (cx.z == old(cx.z) || fresh(cx.z)) && s.Valid() && s.times == seq(s.nCol, _ => 0)
    ensures var w := ReadRow(old(cx.Ahead()), cx.cColSep, cx.cRowSep);
      && s.rows == old(s.rows) + (if old(cx.Ahead()) == "" then [] else [Fit(w.fields, s.nCol)])
      && cx.cTerm == w.term && cx.Ahead() == w.rest
  {
    hide ReadField, ReadRow, Fit, Continues, CStr;
    var nCol := s.nCol;
    ghost var w := ReadRow(cx.Ahead(), cx.cColSep, cx.cRowSep);
    ghost var fs: seq<Option<string>> := [];
    var i := 0;
    ReadShortens(cx.Ahead(), cx.cColSep, cx.cRowSep);
    ContinuesStart(w, cx.Ahead(), cx.cColSep, cx.cRowSep);
    while i < nCol
      invariant cx.Valid() && (cx.z == old(cx.z) || fresh(cx.z))
      invariant BoundTo(s, w.fields, if i < nCol then i else nCol) && s.rows == old(s.rows)
      invariant Continues(w, fs, if i == 0 then Ch(cx.cColSep) else cx.cTerm, cx.Ahead(), cx.cColSep, cx.cRowSep)
      invariant |fs| == i || (i > nCol && cx.cTerm != Ch(cx.cColSep))
      invariant i > 0 && i < nCol ==> cx.cTerm == Ch(cx.cColSep)
      invariant i == 0 ==> cx.Ahead() == old(cx.Ahead())
      invariant i > 0 ==> old(cx.Ahead()) != ""
    {
      ContinuesNext(w, fs, cx.Ahead(), cx.cColSep, cx.cRowSep);
      var ok := cx.ReadOneField();
      var z := if ok then Some(CStr(cx.z[..cx.n], 0)) else None;
      ghost var f := if ok then Some(cx.Text()) else None;
      fs := fs + [f];
      if !ok && i == 0 {
        break;
      }
      s.Bind(i + 1, z);
      BoundField(w, fs, i, nCol, cx.cTerm, cx.Ahead(), cx.cColSep, cx.cRowSep);
      if i < nCol - 1 && cx.cTerm != Ch(cx.cColSep) {
        i := FillWithNull(s, i + 2, w.fields);
      }
      i := i + 1;
    }
    if cx.cTerm == Ch(cx.cColSep) {
      i := SkipExtras(cx, i, w, fs);
    } else {
      ContinuesEnd(w, fs, cx.cTerm, cx.Ahead(), cx.cColSep, cx.cRowSep);
    }
    if i >= nCol {
      assert s.params == Fit(w.fields, nCol);
      s.Step();
    }
  }

  lemma ContinuesEnd(w: RowRead, fs: seq<Option<string>>, term: Read, ahead: string, sep: char, row: char)
    requires Continues(w, fs, term, ahead, sep, row) && term != Ch(sep)
    ensures w == RowRead(fs, term, ahead)
  {
  }

  lemma ContinuesStart(w: RowRead, ahead: string, sep: char, row: char)
    requires w == ReadRow(ahead, sep, row)
    ensures Continues(w, [], Ch(sep), ahead, sep, row)
  {
    assert [] + w.fields == w.fields;
  }

  lemma BoundField(w: RowRead, fs: seq<Option<string>>, i: nat, nCol: nat, term: Read, ahead: string, sep: char, row: char)
    requires |fs| == i + 1 && i < nCol && Continues(w, fs, term, ahead, sep, row)
    ensures Fit(w.fields, nCol)[i] == Bound(fs[i]) && (term != Ch(sep) ==> |w.fields| == i + 1)
  {
  }

  lemma NullField(fs: seq<Option<string>>, j: nat, nCol: nat)
    requires |fs| <= j < nCol
    ensures Fit(fs, nCol)[j] == None
  {
  }

  /** The whole loop of .import over the text of a file. */
  method Import(data: string, sep: char, row: char, nCol: nat) returns (s: Statement)
    requires nCol > 0
    ensures fresh(s) && s.nCol == nCol && s.rows == Inserted(data, sep, row, nCol)
  {
    hide ReadRow, Fit, Inserted;
    var cx := new ImportCtx(data, sep, row);
    s := new Statement(nCol);
    ghost var all := Inserted(data, sep, row, nCol);
    assert s.rows + all == all;
    var more := true;
    while more
      invariant cx.Valid() && fresh(cx) && fresh(cx.z) && s.Valid() && fresh(s) && s.times == seq(nCol, _ => 0)
      invariant s.nCol == nCol && cx.cColSep == sep && cx.cRowSep == row
      invariant s.rows + (if more then Inserted(cx.Ahead(), sep, row, nCol) else []) == all
      decreases more, |cx.Ahead()|
    {
      more := ImportStep(cx, s, all);
    }
  }

  /** The body of the do loop and its test. */
  method ImportStep(cx: ImportCtx, s: Statement, ghost all: seq<seq<Option<string>>>) returns (more: bool)
    requires cx.Valid() && s.Valid() && s.nCol > 0 && s.times == seq(s.nCol, _ => 0)
    requires s.rows + Inserted(cx.Ahead(), cx.cColSep, cx.cRowSep, s.nCol) == all
    modifies cx, cx.z, s
    ensures cx.Valid() && (cx.z == old(cx.z) || fresh(cx.z)) && s.Valid() && s.times == seq(s.nCol, _ => 0)
    ensures s.rows + (if more then Inserted(cx.Ahead(), cx.cColSep, cx.cRowSep, s.nCol) else []) == all
    ensures more ==> |cx.Ahead()| < |old(cx.Ahead())|
  {
    hide ReadRow, Fit, Inserted;
    ghost var r, before := cx.Ahead(), s.rows;
    RowShortens(r, cx.cColSep, cx.cRowSep);
    InsertedNext(r, cx.cColSep, cx.cRowSep, s.nCol);
    ImportRow(cx, s);
    more := cx.cTerm != Eof;
    ghost var one := if r == "" then [] else [Fit(ReadRow(r, cx.cColSep, cx.cRowSep).fields, s.nCol)];
    ghost var rest := if more then Inserted(cx.Ahead(), cx.cColSep, cx.cRowSep, s.nCol) else [];
    assert before + (one + rest) == (before + one) + rest;
  }

  lemma InsertedNext(r: string, sep: char, row: char, nCol: nat)
    ensures var w := ReadRow(r, sep, row);
      Inserted(r, sep, row, nCol) ==
        (if r == "" then [] else [Fit(w.fields, nCol)]) + (if w.term == Eof then [] else Inserted(w.rest, sep, row, nCol))
    ensures r == "" ==> ReadRow(r, sep, row).term == Eof
  {
  }
}
