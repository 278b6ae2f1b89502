/**
 The byte stream that sha3_query hashes: for each statement its text, and for each row of its
 result the values of the row, with nothing between them.
 */
module QueryStream {
  import opened Decimals
  import opened Fips202
  import opened Sponge

  /** A column value as the engine delivers it; numbers are their 64 bits. */
  datatype Value = Null | Integer(v: bv64) | Float(v: bv64) | Text(z: seq<bv8>) | Blob(z: seq<bv8>)

  datatype Query = Query(sql: seq<bv8>, rows: seq<seq<Value>>)

  const TAG_BLOB: bv8 := 0x42
  const TAG_FLOAT: bv8 := 0x46
  const TAG_INTEGER: bv8 := 0x49
  const TAG_NULL: bv8 := 0x4e
  const TAG_ROW: bv8 := 0x52
  const TAG_SQL: bv8 := 0x53
  const TAG_TEXT: bv8 := 0x54

  // ----- the stream -----

  /** The ASCII code of a digit or a colon. */
  function Code(c: char): bv8 {
    if c == '0' then 0x30 else if c == '1' then 0x31 else if c == '2' then 0x32 else if c == '3' then 0x33
    else if c == '4' then 0x34 else if c == '5' then 0x35 else if c == '6' then 0x36 else if c == '7' then 0x37
    else if c == '8' then 0x38 else if c == '9' then 0x39 else 0x3a
  }

  /** The bytes of "%d:". */
  function Count(n: nat): seq<bv8> {
    var s := Decimal(n) + ":";
    seq(|s|, i requires 0 <= i < |s| => Code(s[i]))
  }

  function Sized(tag: bv8, z: seq<bv8>): seq<bv8> {
    [tag] + (Count(|z|) + z)
  }

  /** Most significant byte first. */
  function EightBytes(v: bv64): (r: seq<bv8>)
    ensures |r| == 8
  {
    var w := Lane(v);
    [LaneByte(w, 7), LaneByte(w, 6), LaneByte(w, 5), LaneByte(w, 4), LaneByte(w, 3), LaneByte(w, 2), LaneByte(w, 1), LaneByte(w, 0)]
  }

  function Segment(v: Value): (r: seq<bv8>)
    ensures r != [] && r[0] == Tag(v)
  {
    match v
    case Null => [TAG_NULL]
    case Integer(v) => [TAG_INTEGER] + EightBytes(v)
    case Float(v) => [TAG_FLOAT] + EightBytes(v)
    case Text(z) => Sized(TAG_TEXT, z)
    case Blob(z) => Sized(TAG_BLOB, z)
  }

  function Tag(v: Value): bv8 {
    match v
    case Null => TAG_NULL
    case Integer(_) => TAG_INTEGER
    case Float(_) => TAG_FLOAT
    case Text(_) => TAG_TEXT
    case Blob(_) => TAG_BLOB
  }

  function Values(vs: seq<Value>): seq<bv8> {
    if vs == [] then [] else Segment(vs[0]) + Values(vs[1..])
  }

  function Rows(rows: seq<seq<Value>>): seq<bv8> {
    if rows == [] then [] else [TAG_ROW] + (Values(rows[0]) + Rows(rows[1..]))
  }

  function Stream(qs: seq<Query>): seq<bv8> {
    if qs == [] then [] else Sized(TAG_SQL, qs[0].sql) + (Rows(qs[0].rows) + Stream(qs[1..]))
  }

  // ----- reading it back -----

  lemma CodeInjective(c: char, d: char)
    requires (IsDigit(c) || c == ':') && (IsDigit(d) || d == ':') && Code(c) == Code(d)
    ensures c == d
  {
  }

  /** A count ends at its colon, whatever follows. */
  lemma CountEnds(m: nat, n: nat, x: seq<bv8>, y: seq<bv8>)
    requires Count(m) + x == Count(n) + y
    ensures m == n && x == y
  {
    hide Code;
    var a, b := Decimal(m), Decimal(n);
    var p, q := Count(m) + x, Count(n) + y;
    var k := if |a| <= |b| then |a| else |b|;
    forall i | 0 <= i <= k
      ensures (a + ":")[i] == (b + ":")[i]
    {
      assert p[i] == Code((a + ":")[i]) && q[i] == Code((b + ":")[i]);
      CodeInjective((a + ":")[i], (b + ":")[i]);
    }
    assert (a + ":")[k] == (b + ":")[k];
    assert |a| == |b|;
    assert a == (a + ":")[..|a|] == (b + ":")[..|a|] == b;
    DecimalInjective(m, n);
    assert x == p[|Count(m)|..] && y == q[|Count(n)|..];
  }

  lemma SizedEnds(tag: bv8, z: seq<bv8>, y: seq<bv8>, r: seq<bv8>, t: seq<bv8>)
    requires Sized(tag, z) + r == Sized(tag, y) + t
    ensures z == y && r == t
  {
    hide Count;
    assert (Sized(tag, z) + r)[1..] == Count(|z|) + (z + r);
    assert (Sized(tag, y) + t)[1..] == Count(|y|) + (y + t);
    CountEnds(|z|, |y|, z + r, y + t);
    assert z == (z + r)[..|z|] && y == (y + t)[..|y|] && r == (z + r)[|z|..] && t == (y + t)[|y|..];
  }

  lemma EightBytesInjective(v: bv64, w: bv64)
    requires EightBytes(v) == EightBytes(w)
    ensures v == w
  {
    hide LaneByte;
    var a, b := EightBytes(v), EightBytes(w);
    assert a[0] == b[0] && a[1] == b[1] && a[2] == b[2] && a[3] == b[3] && a[4] == b[4] && a[5] == b[5] && a[6] == b[6] && a[7] == b[7];
    BytesMakeLane(Lane(v), Lane(w));
  }

  lemma BytesMakeLane(v: Lane, w: Lane)
    requires LaneByte(v, 0) == LaneByte(w, 0) && LaneByte(v, 1) == LaneByte(w, 1)
    requires LaneByte(v, 2) == LaneByte(w, 2) && LaneByte(v, 3) == LaneByte(w, 3)
    requires LaneByte(v, 4) == LaneByte(w, 4) && LaneByte(v, 5) == LaneByte(w, 5)
    requires LaneByte(v, 6) == LaneByte(w, 6) && LaneByte(v, 7) == LaneByte(w, 7)
    ensures v == w
  {
  }

  lemma EightEnds(tag: bv8, v: bv64, w: bv64, r: seq<bv8>, t: seq<bv8>)
    requires [tag] + EightBytes(v) + r == [tag] + EightBytes(w) + t
    ensures v == w && r == t
  {
    hide EightBytes;
    var a, b := [tag] + EightBytes(v) + r, [tag] + EightBytes(w) + t;
    assert a[1..9] == EightBytes(v) && b[1..9] == EightBytes(w) && a[9..] == r && b[9..] == t;
    EightBytesInjective(v, w);
  }

  /** The first byte tells the type of a value, and the type where it ends. */
  lemma SegmentEnds(v: Value, w: Value, r: seq<bv8>, t: seq<bv8>)
    requires Segment(v) + r == Segment(w) + t
    ensures v == w && r == t
  {
    hide EightBytes, Sized;
    assert (Segment(v) + r)[0] == Tag(v) && (Segment(w) + t)[0] == Tag(w);
    match v
    case Null =>
      assert (Segment(v) + r)[1..] == r && (Segment(w) + t)[1..] == t;
    case Integer(a) => EightEnds(TAG_INTEGER, a, w.v, r, t);
    case Float(a) => EightEnds(TAG_FLOAT, a, w.v, r, t);
    case Text(z) => SizedEnds(TAG_TEXT, z, w.z, r, t);
    case Blob(z) => SizedEnds(TAG_BLOB, z, w.z, r, t);
  }

  /** What can follow the last value of a row. */
  predicate NoValue(r: seq<bv8>) {
    r == [] || r[0] == TAG_ROW || r[0] == TAG_SQL
  }

  lemma {:induction false} ValuesEnd(a: seq<Value>, b: seq<Value>, r: seq<bv8>, t: seq<bv8>)
    requires NoValue(r) && NoValue(t) && Values(a) + r == Values(b) + t
    ensures a == b && r == t
    decreases |a|
  {
    hide Segment;
    ValuesStart(a, r);
    ValuesStart(b, t);
    if a == [] {
      assert Values(a) + r == r && Values(b) + t == t;
    } else {
      assert Values(a) + r == Segment(a[0]) + (Values(a[1..]) + r);
      assert Values(b) + t == Segment(b[0]) + (Values(b[1..]) + t);
      SegmentEnds(a[0], b[0], Values(a[1..]) + r, Values(b[1..]) + t);
      ValuesEnd(a[1..], b[1..], r, t);
    }
  }

  lemma ValuesStart(a: seq<Value>, r: seq<bv8>)
    requires NoValue(r)
    ensures a == [] <==> NoValue(Values(a) + r)
  {
    hide Segment;
    if a == [] {
      assert Values(a) + r == r;
    } else {
      assert (Values(a) + r)[0] == Segment(a[0])[0];
    }
  }

  /** What can follow the last row of a result. */
  predicate NoRow(r: seq<bv8>) {
    r == [] || r[0] == TAG_SQL
  }

  lemma {:induction false} RowsEnd(a: seq<seq<Value>>, b: seq<seq<Value>>, r: seq<bv8>, t: seq<bv8>)
    requires NoRow(r) && NoRow(t) && Rows(a) + r == Rows(b) + t
    ensures a == b && r == t
    decreases |a|
  {
    hide Values;
    RowsStart(a, r);
    RowsStart(b, t);
    if a == [] {
      assert Rows(a) + r == r && Rows(b) + t == t;
    } else {
      var r1, t1 := Rows(a[1..]) + r, Rows(b[1..]) + t;
      RowsStart(a[1..], r);
      RowsStart(b[1..], t);
      assert (Rows(a) + r)[1..] == Values(a[0]) + r1;
      assert (Rows(b) + t)[1..] == Values(b[0]) + t1;
      ValuesEnd(a[0], b[0], r1, t1);
      RowsEnd(a[1..], b[1..], r, t);
    }
  }

  lemma RowsStart(a: seq<seq<Value>>, r: seq<bv8>)
    requires NoRow(r)
    ensures NoValue(Rows(a) + r) && (a == [] <==> NoRow(Rows(a) + r))
  {
    hide Values;
    if a == [] {
      assert Rows(a) + r == r;
    } else {
      assert (Rows(a) + r)[0] == TAG_ROW;
    }
  }

  /** Different queries or results make different streams, although no column counts are in them. */
  lemma {:induction false} StreamInjective(a: seq<Query>, b: seq<Query>)
    requires Stream(a) == Stream(b)
    ensures a == b
    decreases |a|
  {
    hide Sized, Rows;
    StreamStart(a);
    StreamStart(b);
    if a != [] {
      SizedEnds(TAG_SQL, a[0].sql, b[0].sql, Rows(a[0].rows) + Stream(a[1..]), Rows(b[0].rows) + Stream(b[1..]));
      StreamStart(a[1..]);
      StreamStart(b[1..]);
      RowsEnd(a[0].rows, b[0].rows, Stream(a[1..]), Stream(b[1..]));
      StreamInjective(a[1..], b[1..]);
      assert a == [a[0]] + a[1..] && b == [b[0]] + b[1..];
    }
  }

  lemma StreamStart(a: seq<Query>)
    ensures NoRow(Stream(a)) && (a == [] <==> Stream(a) == [])
  {
    hide Rows, Count;
  }
}
