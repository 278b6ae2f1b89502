/**
 sha3_query: running the statements and hashing their stream.  What the engine delivers, the
 prepared statements and their rows, comes in as a value.
 */
module QueryHash {
  import opened Options
  import opened Decimals
  import opened Fips202
  import opened Sponge
  import opened SpongeLoading
  import opened Sha3Context
  import opened QueryStream

  /** What preparing the next statement gives; sql is absent for a comment or blank text. */
  datatype Prepared =
    | Failed
    | Statement(readonly: bool, sql: Option<seq<bv8>>, nCol: nat, rows: seq<seq<Value>>)

  datatype Outcome = BadSize | PrepareError(statement: nat) | NonQuery(statement: nat) | Hash(z: seq<bv8>)

  // ----- what is hashed -----

  predicate FitsInt(z: seq<bv8>) {
    |z| < 0x8000_0000
  }

  predicate SmallValue(v: Value) {
    match v
    case Text(z) => FitsInt(z)
    case Blob(z) => FitsInt(z)
    case _ => true
  }

  predicate SmallRow(row: seq<Value>, nCol: nat) {
    |row| == nCol && forall i :: 0 <= i < |row| ==> SmallValue(row[i])
  }

  /** Sizes are C ints, and each row has a value for each column. */
  predicate FromEngine(p: Prepared) {
    p.Statement? ==>
      (p.sql.Some? ==> FitsInt(p.sql.value)) && forall i :: 0 <= i < |p.rows| ==> SmallRow(p.rows[i], p.nCol)
  }

  /** The statements that are hashed. */
  function Queries(ps: seq<Prepared>): seq<Query> {
    if ps == [] then []
    else if ps[0].Statement? && ps[0].sql.Some? then [Query(ps[0].sql.value, ps[0].rows)] + Queries(ps[1..])
    else Queries(ps[1..])
  }

  predicate Hashable(p: Prepared) {
    p.Statement? && p.readonly
  }

  // ----- one update after the other -----

  /** The context has been fed the bytes done since it was initialised. */
  ghost predicate Fed(cx: Context, done: seq<bv8>)
    reads cx, cx.u
  {
    cx.Valid() && cx.Value() == LoadAll(Loading(Zero(), 0), done, cx.nRate)
  }

  method Feed(cx: Context, p: seq<bv8>, ghost done: seq<bv8>)
    requires Fed(cx, done)
    modifies cx`nLoaded, cx.u
    ensures Fed(cx, done + p) && cx.nRate == old(cx.nRate)
  {
    hide LoadAll, Zero;
    LoadConcat(Loading(Zero(), 0), done, p, cx.nRate);
    var aligned: bool := *;
    cx.Update(p, aligned);
  }

  const ZBUF_SIZE := 50

  /** hash_step_vformat with a format of one tag and "%d:"; zBuf cuts longer texts off. */
  method HashStepVformat(cx: Context, tag: bv8, n: nat, ghost done: seq<bv8>)
    requires Fed(cx, done) && n < 0x8000_0000
    modifies cx`nLoaded, cx.u
    ensures Fed(cx, done + ([tag] + Count(n))) && cx.nRate == old(cx.nRate)
  {
    var zBuf := [tag] + Count(n);
    var len := if |zBuf| < ZBUF_SIZE then |zBuf| else ZBUF_SIZE - 1;
    CountFits(n);
    assert zBuf[..len] == zBuf;
    Feed(cx, zBuf[..len], done);
  }

  lemma CountFits(n: nat)
    requires n < 0x8000_0000
    ensures |Count(n)| <= 11
  {
    assert Pow10(10) == 10_000_000_000 by {
      assert Pow10(5) == 100_000;
    }
    DecimalLength(n, 10);
  }

  // ----- numbers -----

  /** The number without its last byte. */
  function Shr8(u: bv64): bv64 {
    u >> 8
  }

  /** Its last byte. */
  function LowByte(u: bv64): bv8 {
    (u & 0xff) as bv8
  }

  /** v without its last k bytes. */
  function Dropped(v: bv64, k: nat): bv64 {
    if k == 0 then v else if k == 1 then v >> 8 else if k == 2 then v >> 16 else if k == 3 then v >> 24
    else if k == 4 then v >> 32 else if k == 5 then v >> 40 else if k == 6 then v >> 48 else if k == 7 then v >> 56 else 0
  }

  lemma ByteOf(v: bv64, k: nat)
    requires k < 8
    ensures LowByte(Dropped(v, k)) == LaneByte(Lane(v), k)
  {
    hide LowByte, Dropped, LaneByte;
    if k == 0 { Byte0(v); } else if k == 1 { Byte1(v); } else if k == 2 { Byte2(v); } else if k == 3 { Byte3(v); }
    else if k == 4 { Byte4(v); } else if k == 5 { Byte5(v); } else if k == 6 { Byte6(v); } else { Byte7(v); }
  }

  lemma DropOne(v: bv64, k: nat)
    requires k < 8
    ensures Shr8(Dropped(v, k)) == Dropped(v, k + 1)
  {
    hide Shr8, Dropped;
    if k == 0 { Drop0(v); } else if k == 1 { Drop1(v); } else if k == 2 { Drop2(v); } else if k == 3 { Drop3(v); }
    else if k == 4 { Drop4(v); } else if k == 5 { Drop5(v); } else if k == 6 { Drop6(v); } else { Drop7(v); }
  }

  lemma Byte0(v: bv64)
    ensures LowByte(Dropped(v, 0)) == LaneByte(Lane(v), 0)
  {
  }

  lemma Drop0(v: bv64)
    ensures Shr8(Dropped(v, 0)) == Dropped(v, 1)
  {
  }

  lemma Byte1(v: bv64)
    ensures LowByte(Dropped(v, 1)) == LaneByte(Lane(v), 1)
  {
  }

  lemma Drop1(v: bv64)
    ensures Shr8(Dropped(v, 1)) == Dropped(v, 2)
  {
  }

  lemma Byte2(v: bv64)
    ensures LowByte(Dropped(v, 2)) == LaneByte(Lane(v), 2)
  {
  }

  lemma Drop2(v: bv64)
    ensures Shr8(Dropped(v, 2)) == Dropped(v, 3)
  {
  }

  lemma Byte3(v: bv64)
    ensures LowByte(Dropped(v, 3)) == LaneByte(Lane(v), 3)
  {
  }

  lemma Drop3(v: bv64)
    ensures Shr8(Dropped(v, 3)) == Dropped(v, 4)
  {
  }

  lemma Byte4(v: bv64)
    ensures LowByte(Dropped(v, 4)) == LaneByte(Lane(v), 4)
  {
  }

  lemma Drop4(v: bv64)
    ensures Shr8(Dropped(v, 4)) == Dropped(v, 5)
  {
  }

  lemma Byte5(v: bv64)
    ensures LowByte(Dropped(v, 5)) == LaneByte(Lane(v), 5)
  {
  }

  lemma Drop5(v: bv64)
    ensures Shr8(Dropped(v, 5)) == Dropped(v, 6)
  {
  }

  lemma Byte6(v: bv64)
    ensures LowByte(Dropped(v, 6)) == LaneByte(Lane(v), 6)
  {
  }

  lemma Drop6(v: bv64)
    ensures Shr8(Dropped(v, 6)) == Dropped(v, 7)
  {
  }

  lemma Byte7(v: bv64)
    ensures LowByte(Dropped(v, 7)) == LaneByte(Lane(v), 7)
  {
  }

  lemma Drop7(v: bv64)
    ensures Shr8(Dropped(v, 7)) == Dropped(v, 8)
  {
  }

  /** The loop that stores a number behind its tag, from its last byte to its first. */
  method NumberBytes(tag: bv8, v: bv64) returns (x: seq<bv8>)
    ensures x == [tag] + EightBytes(v)
  {
    hide LaneByte, Shr8, LowByte, Dropped;
    assert Dropped(v, 0) == v by { NoneDropped(v); }
    var u := v;
    var a := new bv8[9];
    var j := 8;
    while j >= 1
      invariant 0 <= j <= 8 && u == Dropped(v, 8 - j)
      invariant forall k :: j < k <= 8 ==> a[k] == LaneByte(Lane(v), 8 - k)
    {
      ByteOf(v, 8 - j);
      DropOne(v, 8 - j);
      a[j] := LowByte(u);
      u := Shr8(u);
      j := j - 1;
    }
    a[0] := tag;
    x := a[..];
  }

  lemma NoneDropped(v: bv64)
    ensures Dropped(v, 0) == v
  {
  }

  // ----- sha3_query -----

  /** The switch on the type of a column. */
  method HashValue(cx: Context, v: Value, ghost done: seq<bv8>)
    requires Fed(cx, done) && SmallValue(v)
    modifies cx`nLoaded, cx.u
    ensures Fed(cx, done + Segment(v)) && cx.nRate == old(cx.nRate)
  {
    hide Fed, Count, EightBytes;
    match v {
      case Null => Feed(cx, [TAG_NULL], done);
      case Integer(v) =>
        var x := NumberBytes(TAG_INTEGER, v);
        Feed(cx, x, done);
      case Float(v) =>
        var x := NumberBytes(TAG_FLOAT, v);
        Feed(cx, x, done);
      case Text(z) => HashSized(cx, TAG_TEXT, z, done);
      case Blob(z) => HashSized(cx, TAG_BLOB, z, done);
    }
  }

  /** A count and then its bytes. */
  method HashSized(cx: Context, tag: bv8, z: seq<bv8>, ghost done: seq<bv8>)
    requires Fed(cx, done) && FitsInt(z)
    modifies cx`nLoaded, cx.u
    ensures Fed(cx, done + Sized(tag, z)) && cx.nRate == old(cx.nRate)
  {
    hide Fed, Count;
    HashStepVformat(cx, tag, |z|, done);
    Feed(cx, z, done + ([tag] + Count(|z|)));
    assert done + ([tag] + Count(|z|)) + z == done + Sized(tag, z);
  }

  lemma {:induction false} ValuesNext(vs: seq<Value>, i: nat)
    requires i < |vs|
    ensures Values(vs[..i + 1]) == Values(vs[..i]) + Segment(vs[i])
  {
    hide Segment;
    if i == 0 {
      assert vs[..1] == [vs[0]] && [vs[0]][1..] == [] && vs[..0] == [];
    } else {
      ValuesNext(vs[1..], i - 1);
      assert vs[..i + 1][1..] == vs[1..][..i] && vs[..i][1..] == vs[1..][..i - 1];
    }
  }

  /** The loop over the columns of a row. */
  method HashRow(cx: Context, row: seq<Value>, nCol: nat, ghost done: seq<bv8>)
    requires Fed(cx, done) && SmallRow(row, nCol)
    modifies cx`nLoaded, cx.u
    ensures Fed(cx, done + ([TAG_ROW] + Values(row))) && cx.nRate == old(cx.nRate)
  {
    hide Fed, Segment, SmallValue;
    Feed(cx, [TAG_ROW], done);
    ghost var start := done + [TAG_ROW];
    var i := 0;
    assert start + Values(row[..0]) == start;
    while i < nCol
      invariant 0 <= i <= nCol && cx.nRate == old(cx.nRate)
      invariant Fed(cx, start + Values(row[..i]))
    {
      HashValue(cx, row[i], start + Values(row[..i]));
      ValuesNext(row, i);
      assert start + Values(row[..i]) + Segment(row[i]) == start + Values(row[..i + 1]);
      i := i + 1;
    }
    assert row[..nCol] == row;
    assert start + Values(row) == done + ([TAG_ROW] + Values(row));
  }

  lemma {:induction false} RowsNext(rows: seq<seq<Value>>, i: nat)
    requires i < |rows|
    ensures Rows(rows[..i + 1]) == Rows(rows[..i]) + ([TAG_ROW] + Values(rows[i]))
  {
    hide Values;
    if i == 0 {
      assert rows[..1] == [rows[0]] && [rows[0]][1..] == [] && rows[..0] == [];
    } else {
      RowsNext(rows[1..], i - 1);
      assert rows[..i + 1][1..] == rows[1..][..i] && rows[..i][1..] == rows[1..][..i - 1];
    }
  }

  /** One statement: its text and the rows that stepping it yields. */
  method HashQuery(cx: Context, sql: seq<bv8>, nCol: nat, rows: seq<seq<Value>>, ghost done: seq<bv8>)
    requires Fed(cx, done) && FitsInt(sql) && forall i :: 0 <= i < |rows| ==> SmallRow(rows[i], nCol)
    modifies cx`nLoaded, cx.u
    ensures Fed(cx, done + (Sized(TAG_SQL, sql) + Rows(rows))) && cx.nRate == old(cx.nRate)
  {
    hide Fed, Sized, Values, SmallRow;
    HashSized(cx, TAG_SQL, sql, done);
    ghost var start := done + Sized(TAG_SQL, sql);
    var i := 0;
    assert start + Rows(rows[..0]) == start;
    while i < |rows|
      invariant 0 <= i <= |rows| && cx.nRate == old(cx.nRate)
      invariant Fed(cx, start + Rows(rows[..i]))
    {
      HashRow(cx, rows[i], nCol, start + Rows(rows[..i]));
      RowsNext(rows, i);
      assert start + Rows(rows[..i]) + ([TAG_ROW] + Values(rows[i])) == start + Rows(rows[..i + 1]);
      i := i + 1;
    }
    assert rows[..i] == rows;
    assert start + Rows(rows) == done + (Sized(TAG_SQL, sql) + Rows(rows));
  }

  const SIZES: set<int> := {224, 256, 384, 512}

  predicate AllHashable(ps: seq<Prepared>, n: nat)
    requires n <= |ps|
  {
    forall i :: 0 <= i < n ==> Hashable(ps[i])
  }

  /** out is the answer to ps: the first error there is, or the digest of the stream. */
  predicate Answers(out: Outcome, ps: seq<Prepared>, iSize: int) {
    match out
    case BadSize => iSize !in SIZES
    case PrepareError(k) => iSize in SIZES && k < |ps| && ps[k].Failed? && AllHashable(ps, k)
    case NonQuery(k) => iSize in SIZES && k < |ps| && ps[k].Statement? && !ps[k].readonly && AllHashable(ps, k)
    case Hash(z) =>
      && iSize in SIZES
      && AllHashable(ps, |ps|)
      && z == Sha3(Stream(Queries(ps)), iSize)
  }

  /**
   sha3QueryFunc with a size argument; ps are the statements that its text is cut into.  A digest
   of the stream comes out exactly when the size is one of the four and every statement prepares
   and is read-only.
   */
  method Sha3Query(ps: seq<Prepared>, iSize: int, order: ByteOrder, bigEndian: bool) returns (out: Outcome)
    requires (order == Known1234 ==> !bigEndian) && (order == Known4321 ==> bigEndian)
    requires forall i :: 0 <= i < |ps| ==> FromEngine(ps[i])
    ensures Answers(out, ps, iSize)
  {
    hide Fed, FromEngine, Queries, Sha3, Stream, Sized, Rows, Zero, LoadAll;
    if iSize != 224 && iSize != 256 && iSize != 384 && iSize != 512 {
      return BadSize;
    }
    var cx := new Context(iSize, order, bigEndian);
    assert Fed(cx, []) by { FedNothing(cx); }
    ghost var done: seq<bv8> := [];
    var i := 0;
    while i < |ps|
      invariant 0 <= i <= |ps| && fresh(cx.u) && cx.nRate == Rate(iSize) && Fed(cx, done)
      invariant AllHashable(ps, i)
      invariant done + Stream(Queries(ps[i..])) == Stream(Queries(ps))
    {
      var p := ps[i];
      if p.Failed? {
        return PrepareError(i);
      }
      if !p.readonly {
        return NonQuery(i);
      }
      QueriesNext(ps, i);
      if p.sql.Some? {
        EngineSizes(p);
        HashQuery(cx, p.sql.value, p.nCol, p.rows, done);
        done := done + (Sized(TAG_SQL, p.sql.value) + Rows(p.rows));
      }
      i := i + 1;
    }
    assert ps[i..] == [] && done + Stream(Queries(ps[i..])) == done by { NoQueries(); }
    FedAll(cx, done);
    var z := DigestBytes(cx, done, iSize);
    out := Hash(z);
  }

  lemma FedNothing(cx: Context)
    requires cx.Valid() && cx.Value() == Loading(Zero(), 0)
    ensures Fed(cx, [])
  {
  }

  lemma FedAll(cx: Context, done: seq<bv8>)
    requires Fed(cx, done)
    ensures cx.Valid() && cx.Value() == LoadAll(Loading(Zero(), 0), done, cx.nRate)
  {
  }

  lemma NoQueries()
    ensures Stream(Queries([])) == []
  {
  }

  lemma EngineSizes(p: Prepared)
    requires FromEngine(p) && p.Statement? && p.sql.Some?
    ensures FitsInt(p.sql.value) && forall i :: 0 <= i < |p.rows| ==> SmallRow(p.rows[i], p.nCol)
  {
  }

  lemma QueriesNext(ps: seq<Prepared>, i: nat)
    requires i < |ps| && ps[i].Statement?
    ensures Stream(Queries(ps[i..])) ==
      if ps[i].sql.Some? then Sized(TAG_SQL, ps[i].sql.value) + Rows(ps[i].rows) + Stream(Queries(ps[i + 1..]))
      else Stream(Queries(ps[i + 1..]))
  {
    hide Sized, Rows;
    assert ps[i..][1..] == ps[i + 1..];
    if ps[i].sql.Some? {
      var qs := Queries(ps[i..]);
      assert qs[1..] == Queries(ps[i + 1..]);
      assert Sized(TAG_SQL, qs[0].sql) + (Rows(qs[0].rows) + Stream(qs[1..])) ==
        Sized(TAG_SQL, qs[0].sql) + Rows(qs[0].rows) + Stream(qs[1..]);
    }
  }
}
