/**
 The hashed stream by its bytes: numbers are written in base 256, most significant byte first, sizes
 in ASCII digits, and each value starts with the letter of its type.
 */
module StreamBytes {
  import opened Decimals
  import opened Fips202
  import opened QueryStream
  import opened Sponge

  // ----- numbers -----

  /** The number with one byte more behind it. */
  function Push(n: bv64, b: bv8): bv64 {
    256 * n + (b as bv64)
  }

  /** The number that bytes stand for in base 256, the first one counting most. */
  function Number(b: seq<bv8>): bv64 {
    if b == [] then 0 else Push(Number(b[..|b| - 1]), b[|b| - 1])
  }

  /** v without its last k bytes. */
  function Upper(v: bv64, k: nat): bv64 {
    if k == 0 then v else if k == 1 then v >> 8 else if k == 2 then v >> 16 else if k == 3 then v >> 24
    else if k == 4 then v >> 32 else if k == 5 then v >> 40 else if k == 6 then v >> 48 else if k == 7 then v >> 56 else 0
  }

  lemma Push0(v: bv64)
    ensures Push(Upper(v, 1), LaneByte(Lane(v), 0)) == Upper(v, 0)
  {
  }

  lemma Push1(v: bv64)
    ensures Push(Upper(v, 2), LaneByte(Lane(v), 1)) == Upper(v, 1)
  {
  }

  lemma Push2(v: bv64)
    ensures Push(Upper(v, 3), LaneByte(Lane(v), 2)) == Upper(v, 2)
  {
  }

  lemma Push3(v: bv64)
    ensures Push(Upper(v, 4), LaneByte(Lane(v), 3)) == Upper(v, 3)
  {
  }

  lemma Push4(v: bv64)
    ensures Push(Upper(v, 5), LaneByte(Lane(v), 4)) == Upper(v, 4)
  {
  }

  lemma Push5(v: bv64)
    ensures Push(Upper(v, 6), LaneByte(Lane(v), 5)) == Upper(v, 5)
  {
  }

  lemma Push6(v: bv64)
    ensures Push(Upper(v, 7), LaneByte(Lane(v), 6)) == Upper(v, 6)
  {
  }

  lemma Push7(v: bv64)
    ensures Push(Upper(v, 8), LaneByte(Lane(v), 7)) == Upper(v, 7)
  {
  }

  lemma PushByte(v: bv64, k: nat)
    requires k < 8
    ensures Push(Upper(v, k + 1), LaneByte(Lane(v), k)) == Upper(v, k)
  {
    hide Push, Upper, LaneByte;
    if k == 0 { Push0(v); } else if k == 1 { Push1(v); } else if k == 2 { Push2(v); } else if k == 3 { Push3(v); }
    else if k == 4 { Push4(v); } else if k == 5 { Push5(v); } else if k == 6 { Push6(v); } else { Push7(v); }
  }

  lemma UpperEnds(v: bv64)
    ensures Upper(v, 8) == 0 && Upper(v, 0) == v
  {
  }

  lemma ByteAt(v: bv64, k: nat)
    requires k < 8
    ensures EightBytes(v)[k] == LaneByte(Lane(v), 7 - k)
  {
    hide LaneByte;
  }

  lemma {:induction false} NumberOfFirst(v: bv64, k: nat)
    requires k <= 8
    ensures Number(EightBytes(v)[..k]) == Upper(v, 8 - k)
  {
    hide Push, Upper, LaneByte, EightBytes;
    if k == 0 {
      UpperEnds(v);
    } else {
      NumberOfFirst(v, k - 1);
      PushByte(v, 8 - k);
      assert EightBytes(v)[..k][..k - 1] == EightBytes(v)[..k - 1];
      ByteAt(v, k - 1);
    }
  }

  /** The eight bytes of a number stand for it. */
  lemma NumberOfEightBytes(v: bv64)
    ensures |EightBytes(v)| == 8 && Number(EightBytes(v)) == v
  {
    hide Number, EightBytes, Upper;
    NumberOfFirst(v, 8);
    UpperEnds(v);
    assert EightBytes(v)[..8] == EightBytes(v);
  }

  // ----- sizes -----

  /** Digits and the colon are written in ASCII. */
  lemma CodeIsAscii(c: char)
    requires c in "0123456789:"
    ensures Code(c) as int == c as int
  {
  }

  /** A size is its decimal digits without leading zeros, and a colon. */
  lemma CountDigits(s: string)
    requires IsDecimal(s)
    ensures (forall i :: 0 <= i < |s| ==> IsDigit(s[i])) && var b := Count(Decimals.Value(s));
      |b| == |s| + 1 && b[|s|] == 0x3a && forall i :: 0 <= i < |s| ==> b[i] as int == s[i] as int
  {
    DecimalOfValue(s);
    hide Code, Decimals.Value, Decimal;
    var b := Count(Decimals.Value(s));
    assert Code(':') == 0x3a by { Colon(); }
    forall i | 0 <= i < |s|
      ensures b[i] as int == s[i] as int
    {
      assert b[i] == Code(s[i]);
      CodeIsAscii(s[i]);
    }
  }

  lemma Colon()
    ensures Code(':') == 0x3a
  {
  }

  // ----- segments -----

  /** A value is its letter and, where it has any, its eight bytes or its size and bytes. */
  lemma SegmentBytes(v: bv64, z: seq<bv8>)
    ensures Segment(Null) == [0x4e]
    ensures Segment(Integer(v)) == [0x49] + EightBytes(v) && Segment(Float(v)) == [0x46] + EightBytes(v)
    ensures Segment(Text(z)) == [0x54] + (Count(|z|) + z) && Segment(Blob(z)) == [0x42] + (Count(|z|) + z)
  {
    hide EightBytes, Count;
  }

  lemma TwelveBytes()
    ensures Count(12) == [0x31, 0x32, 0x3a]
  {
    assert Decimal(12) == "12" by { assert Decimal(1) == "1"; }
    assert Decimal(12) + ":" == "12:";
  }

  /** The statement x whose only row is a NULL and a text of twelve bytes. */
  lemma StreamExample(z: seq<bv8>)
    requires |z| == 12
    ensures Stream([Query([0x78], [[Null, Text(z)]])]) ==
      [0x53, 0x31, 0x3a, 0x78, 0x52, 0x4e, 0x54, 0x31, 0x32, 0x3a] + z
  {
    hide Count, EightBytes, Segment;
    TwelveBytes();
    OneByte();
    SegmentBytes(0, z);
    var row: seq<QueryStream.Value> := [Null, Text(z)];
    assert row[1..] == [Text(z)] && [Text(z)][1..] == [];
    assert Values([]) == [];
    assert Values([Text(z)]) == Segment(Text(z)) + [];
    assert Values(row) == [0x4e, 0x54, 0x31, 0x32, 0x3a] + z;
    assert [row][1..] == [] && Rows([]) == [];
    assert Rows([row]) == [0x52] + (Values(row) + []);
    var q := Query([0x78], [row]);
    assert [q][1..] == [] && Stream([]) == [];
    assert Stream([q]) == Sized(TAG_SQL, [0x78]) + (Rows([row]) + []);
  }

  lemma OneByte()
    ensures Count(1) == [0x31, 0x3a]
  {
    assert Decimal(1) == "1";
    assert Decimal(1) + ":" == "1:";
  }
}
