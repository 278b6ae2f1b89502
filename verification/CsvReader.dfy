/**
 The reader behind .import: one field at a time into a buffer that grows as needed, with two
 characters of lookback to find the closing quote.
 */
module CsvReader {
  import opened Options
  import opened Csv

  function Count(s: string, c: char): nat {
    if s == "" then 0 else (if s[|s| - 1] == c then 1 else 0) + Count(s[..|s| - 1], c)
  }

  /** What the lookback says about the text so far: a closing quote is where it is looked for. */
  predicate Lookback(acc: string, pc: char, ppc: char) {
    && (pc == '"' ==> acc != "" && acc[|acc| - 1] == '"')
    && (pc == '\r' && ppc == '"' ==> |acc| >= 2 && acc[|acc| - 1] == '\r' && acc[|acc| - 2] == '"')
  }

  lemma DropLast(acc: string)
    requires acc != ""
    ensures DropToQuote(acc) == if acc[|acc| - 1] == '"' then acc[..|acc| - 1] else DropToQuote(acc[..|acc| - 1])
  {
  }

  /** A closed field loses its closing quote, or that quote and one CR, and nothing else. */
  lemma ClosingQuoteDropped(acc: string, c: Read, pc: char, ppc: char, sep: char, row: char)
    requires Lookback(acc, pc, ppc) && Closes(c, pc, ppc, sep, row)
    ensures '"' in acc && acc == DropToQuote(acc) + (if pc == '"' then "\"" else "\"\r")
  {
    hide DropToQuote;
    DropLast(acc);
    if pc == '"' {
      assert acc == acc[..|acc| - 1] + [acc[|acc| - 1]];
    } else {
      var b := acc[..|acc| - 1];
      DropLast(b);
      assert b[..|acc| - 2] == acc[..|acc| - 2];
      assert acc == acc[..|acc| - 2] + [acc[|acc| - 2], acc[|acc| - 1]];
    }
  }

  /** One turn of the loop over a quoted field. */
  lemma QuotedNext(r: string, acc: string, pc: char, ppc: char, sep: char, row: char)
    ensures var c := First(r);
      Quoted(r, acc, pc, ppc, sep, row) ==
        if c == Ch('"') && pc == '"' then Quoted(Behind(r), acc, '\0', ppc, sep, row)
        else if Closes(c, pc, ppc, sep, row) then FieldRead(Some(DropToQuote(acc)), c, Behind(r))
        else if c == Eof then FieldRead(Some(acc), Eof, "")
        else Quoted(Behind(r), acc + [c.c], c.c, pc, sep, row)
  {
  }

  lemma PlainNext(r: string, acc: string, sep: char, row: char)
    ensures var c := First(r);
      Plain(r, acc, sep, row) ==
        if c == Eof || c == Ch(sep) || c == Ch(row) then FieldRead(Some(if c == Ch(row) then DropCr(acc) else acc), c, Behind(r))
        else Plain(Behind(r), acc + [c.c], sep, row)
  {
  }

  lemma CountNone(s: string, c: char)
    requires s == ""
    ensures Count(s, c) == 0
  {
  }

  lemma CountNext(s: string, i: nat, j: nat, c: char)
    requires i <= j < |s|
    ensures Count(s[i..j + 1], c) == Count(s[i..j], c) + (if s[j] == c then 1 else 0)
  {
    assert s[i..j + 1][..j - i] == s[i..j];
  }

  class ImportCtx {
    const data: string
    const cColSep: char
    const cRowSep: char
    var pos: nat
    var z: array<char>
    var n: nat
    var nAlloc: nat
    var nLine: nat
    var cTerm: Read

    /** The buffer always has room for one more character, the final NUL. */
    ghost predicate Valid()
      reads this
    {
      pos <= |data| && z.Length == nAlloc && n < nAlloc
    }

    ghost function Ahead(): string
      requires Valid()
      reads this
    {
      data[pos..]
    }

    ghost function Text(): string
      requires Valid()
      reads this, z
    {
      z[..n]
    }

    /** A context opened by .import, which appends one NUL so that the buffer exists. */
    constructor (data: string, cColSep: char, cRowSep: char)
      ensures Valid() && fresh(z) && Ahead() == data && nLine == 1
      ensures this.data == data && this.cColSep == cColSep && this.cRowSep == cRowSep
    {
      this.data, this.cColSep, this.cRowSep := data, cColSep, cRowSep;
      pos, n, nAlloc, nLine, cTerm := 0, 0, 0, 1, Ch('\0');
      z := new char[0];
      new;
      AppendChar('\0');
    }

    method Fgetc() returns (c: Read)
      requires Valid()
      modifies this`pos
      ensures Valid() && c == First(old(Ahead())) && Ahead() == Behind(old(Ahead()))
      ensures pos == old(pos) + (if c == Eof then 0 else 1)
    {
      if pos == |data| {
        c := Eof;
      } else {
        c := Ch(data[pos]);
        pos := pos + 1;
      }
    }

    /** import_append_char, with realloc keeping the bytes that were there. */
    method AppendChar(c: char)
      requires pos <= |data| && z.Length == nAlloc && n <= nAlloc
      modifies this`z, this`n, this`nAlloc, z
      ensures Valid() && Text() == old(z[..n]) + [c]
      ensures z == old(z) || fresh(z)
    {
      if n + 1 >= nAlloc {
        nAlloc := nAlloc + nAlloc + 100;
        var y := new char[nAlloc];
        forall i | 0 <= i < z.Length {
          y[i] := z[i];
        }
        z := y;
      }
      z[n] := c;
      n := n + 1;
    }

    /** csv_read_one_field; ok is false where the source returns a null pointer. */
    method ReadOneField() returns (ok: bool)
      requires Valid()
      modifies this`pos, this`z, this`n, this`nAlloc, this`nLine, this`cTerm, z
      ensures Valid() && (z == old(z) || fresh(z)) && old(pos) <= pos
      ensures var f := ReadField(old(Ahead()), cColSep, cRowSep);
        && ok == f.field.Some? && cTerm == f.term && Ahead() == f.rest
        && (ok ==> Text() == f.field.value && z[n] == '\0')
      ensures cRowSep != '"' ==> nLine == old(nLine) + Count(data[old(pos)..pos], cRowSep)
    {
      n := 0;
      var c := Fgetc();
      if c == Eof {
        cTerm := Eof;
        assert data[old(pos)..pos] == "";
        return false;
      }
      if c == Ch('"') {
        ReadQuoted(old(pos));
      } else {
        ReadPlain(c.c, old(pos));
      }
      z[n] := '\0';
      ok := true;
    }

    /** Backs up over the last quote of the text, which has to have one. */
    method DropClosingQuote()
      requires Valid() && '"' in Text()
      modifies this`n
      ensures Valid() && Text() == DropToQuote(old(Text()))
    {
      hide DropToQuote;
      ghost var acc := Text();
      n := n - 1;
      assert acc[..n + 1] == acc;
      while z[n] != '"'
        invariant 0 <= n < |acc| < nAlloc && '"' in acc[..n + 1] && DropToQuote(acc) == DropToQuote(acc[..n + 1])
        decreases n
      {
        DropLast(acc[..n + 1]);
        assert acc[..n + 1][..n] == acc[..n] && acc[..n + 1] == acc[..n] + [acc[n]];
        n := n - 1;
      }
      DropLast(acc[..n + 1]);
      assert acc[..n + 1][..n] == acc[..n];
    }

    /** The loop over a quoted field, entered behind the opening quote. */
    method ReadQuoted(ghost start: nat)
      requires Valid() && n == 0 && start + 1 == pos && data[start] == '"'
      modifies this`pos, this`z, this`n, this`nAlloc, this`nLine, this`cTerm, z
      ensures Valid() && (z == old(z) || fresh(z)) && start <= pos
      ensures FieldRead(Some(Text()), cTerm, Ahead()) == Quoted(old(Ahead()), "", '\0', '\0', cColSep, cRowSep)
      ensures cRowSep != '"' ==> nLine == old(nLine) + Count(data[start..pos], cRowSep)
    {
      hide Quoted, Plain, DropToQuote, Closes, Count;
      CountNone(data[start..start], cRowSep);
      var pc, ppc := '\0', '\0';
      ghost var goal := Quoted(Ahead(), "", pc, ppc, cColSep, cRowSep);
      CountNext(data, start, start, cRowSep);
      while true
        invariant Valid() && (z == old(z) || fresh(z)) && start < pos
        invariant goal == Quoted(Ahead(), Text(), pc, ppc, cColSep, cRowSep)
        invariant Lookback(Text(), pc, ppc)
        invariant cRowSep != '"' ==> nLine == old(nLine) + Count(data[start..pos], cRowSep)
        decreases |Ahead()|
      {
        ghost var acc := Text();
        QuotedNext(Ahead(), acc, pc, ppc, cColSep, cRowSep);
        if pos < |data| {
          CountNext(data, start, pos, cRowSep);
        }
        var c := Fgetc();
        if c == Ch(cRowSep) {
          nLine := nLine + 1;
        }
        if c == Ch('"') {
          if pc == '"' {
            pc := '\0';
            continue;
          }
        }
        if Closes(c, pc, ppc, cColSep, cRowSep) {
          ClosingQuoteDropped(acc, c, pc, ppc, cColSep, cRowSep);
          DropClosingQuote();
          cTerm := c;
          break;
        }
        if c == Eof {
          cTerm := c;
          break;
        }
        AppendChar(c.c);
        ppc := pc;
        pc := c.c;
      }
    }

    /** The loop over an unquoted field whose first character has been read. */
    method ReadPlain(first: char, ghost start: nat)
      requires Valid() && n == 0 && start + 1 == pos && data[start] == first
      modifies this`pos, this`z, this`n, this`nAlloc, this`nLine, this`cTerm, z
      ensures Valid() && (z == old(z) || fresh(z)) && start <= pos
      ensures FieldRead(Some(Text()), cTerm, Ahead()) == Plain(data[start..], "", cColSep, cRowSep)
      ensures nLine == old(nLine) + Count(data[start..pos], cRowSep)
    {
      hide Plain, Count;
      CountNone(data[start..start], cRowSep);
      var c := Ch(first);
      ghost var from := start;
      ghost var goal := Plain(data[start..], "", cColSep, cRowSep);
      while c != Eof && c != Ch(cColSep) && c != Ch(cRowSep)
        invariant Valid() && (z == old(z) || fresh(z)) && start <= from <= pos && nLine == old(nLine)
        invariant c == First(data[from..]) && Ahead() == Behind(data[from..]) && pos == from + (if c == Eof then 0 else 1)
        invariant goal == Plain(data[from..], Text(), cColSep, cRowSep)
        invariant Count(data[start..from], cRowSep) == 0
        decreases |data| - from
      {
        PlainNext(data[from..], Text(), cColSep, cRowSep);
        CountNext(data, start, from, cRowSep);
        AppendChar(c.c);
        from := pos;
        c := Fgetc();
      }
      PlainNext(data[from..], Text(), cColSep, cRowSep);
      if c != Eof {
        CountNext(data, start, from, cRowSep);
      }
      EndPlain(c);
    }

    /** What follows the loop: a CR in front of the row separator is dropped. */
    method EndPlain(c: Read)
      requires Valid()
      modifies this`n, this`nLine, this`cTerm
      ensures Valid() && cTerm == c && nLine == old(nLine) + (if c == Ch(cRowSep) then 1 else 0)
      ensures var acc := old(Text());
        Text() == if c == Ch(cRowSep) then DropCr(acc) else acc
    {
      ghost var acc := Text();
      if c == Ch(cRowSep) {
        nLine := nLine + 1;
        if n > 0 && z[n - 1] == '\r' {
          n := n - 1;
          assert Text() == acc[..|acc| - 1];
        }
      }
      cTerm := c;
    }
  }
}
