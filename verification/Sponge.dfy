/**
 The sponge construction and the SHA-3 hash functions of FIPS 202 (sections 4, 5.1 and 6.1) on
 byte strings.  The state is kept as the 25 lanes in the order of the standard's state string
 (section 3.1.2); byte i of that string is byte i%8, counted from the low end, of lane i/8.
 */
module Sponge {
  import opened Fips202

  ghost predicate IsFlat(s: seq<Lane>) {
    |s| == 25
  }

  type Flat = s: seq<Lane> | IsFlat(s) ghost witness seq(25, _ => Lane(0))

  // ----- bytes of a lane -----

  /** The byte b moved to position j of a lane. */
  function Place(b: bv8, j: nat): bv64 {
    if j == 0 then b as bv64 else if j == 1 then (b as bv64) << 8
    else if j == 2 then (b as bv64) << 16 else if j == 3 then (b as bv64) << 24
    else if j == 4 then (b as bv64) << 32 else if j == 5 then (b as bv64) << 40
    else if j == 6 then (b as bv64) << 48 else (b as bv64) << 56
  }

  /** Byte j of a lane, 0 being the least significant. */
  function LaneByte(w: Lane, j: nat): bv8 {
    if j == 0 then (w.word & 0xff) as bv8 else if j == 1 then ((w.word >> 8) & 0xff) as bv8
    else if j == 2 then ((w.word >> 16) & 0xff) as bv8 else if j == 3 then ((w.word >> 24) & 0xff) as bv8
    else if j == 4 then ((w.word >> 32) & 0xff) as bv8 else if j == 5 then ((w.word >> 40) & 0xff) as bv8
    else if j == 6 then ((w.word >> 48) & 0xff) as bv8 else ((w.word >> 56) & 0xff) as bv8
  }

  function Xor8(a: bv8, b: bv8): bv8 {
    a ^ b
  }

  function XorByte(w: Lane, j: nat, b: bv8): Lane {
    Lane(w.word ^ Place(b, j))
  }

  /** Storing byte v at position j of a lane. */
  function SetByte(w: Lane, j: nat, v: bv8): Lane {
    Lane((w.word & !Place(0xff, j)) | Place(v, j))
  }

  lemma SetThenGet(w: Lane, j: nat, v: bv8, i: nat)
    requires j < 8 && i < 8
    ensures LaneByte(SetByte(w, j, v), i) == if i == j then v else LaneByte(w, i)
  {
    hide LaneByte, SetByte;
    if j == 0 { Set0(w, v); } else if j == 1 { Set1(w, v); } else if j == 2 { Set2(w, v); } else if j == 3 { Set3(w, v); }
    else if j == 4 { Set4(w, v); } else if j == 5 { Set5(w, v); } else if j == 6 { Set6(w, v); } else { Set7(w, v); }
  }

  lemma XorInPlace(w: Lane, j: nat, b: bv8)
    requires j < 8
    ensures SetByte(w, j, Xor8(LaneByte(w, j), b)) == XorByte(w, j, b)
  {
    hide LaneByte, SetByte, XorByte, Xor8;
    if j == 0 { Xor0(w, b); } else if j == 1 { Xor1(w, b); } else if j == 2 { Xor2(w, b); } else if j == 3 { Xor3(w, b); }
    else if j == 4 { Xor4(w, b); } else if j == 5 { Xor5(w, b); } else if j == 6 { Xor6(w, b); } else { Xor7(w, b); }
  }

  lemma Xor0(w: Lane, b: bv8)
    ensures SetByte(w, 0, Xor8(LaneByte(w, 0), b)) == XorByte(w, 0, b)
  {
  }

  lemma Set0(w: Lane, v: bv8)
    ensures var r := SetByte(w, 0, v);
      && LaneByte(r, 0) == v && LaneByte(r, 1) == LaneByte(w, 1) && LaneByte(r, 2) == LaneByte(w, 2)
      && LaneByte(r, 3) == LaneByte(w, 3) && LaneByte(r, 4) == LaneByte(w, 4) && LaneByte(r, 5) == LaneByte(w, 5)
      && LaneByte(r, 6) == LaneByte(w, 6) && LaneByte(r, 7) == LaneByte(w, 7)
  {
  }

  lemma Xor1(w: Lane, b: bv8)
    ensures SetByte(w, 1, Xor8(LaneByte(w, 1), b)) == XorByte(w, 1, b)
  {
  }

  lemma Set1(w: Lane, v: bv8)
    ensures var r := SetByte(w, 1, v);
      && LaneByte(r, 0) == LaneByte(w, 0) && LaneByte(r, 1) == v && LaneByte(r, 2) == LaneByte(w, 2)
      && LaneByte(r, 3) == LaneByte(w, 3) && LaneByte(r, 4) == LaneByte(w, 4) && LaneByte(r, 5) == LaneByte(w, 5)
      && LaneByte(r, 6) == LaneByte(w, 6) && LaneByte(r, 7) == LaneByte(w, 7)
  {
  }

  lemma Xor2(w: Lane, b: bv8)
    ensures SetByte(w, 2, Xor8(LaneByte(w, 2), b)) == XorByte(w, 2, b)
  {
  }

  lemma Set2(w: Lane, v: bv8)
    ensures var r := SetByte(w, 2, v);
      && LaneByte(r, 0) == LaneByte(w, 0) && LaneByte(r, 1) == LaneByte(w, 1) && LaneByte(r, 2) == v
      && LaneByte(r, 3) == LaneByte(w, 3) && LaneByte(r, 4) == LaneByte(w, 4) && LaneByte(r, 5) == LaneByte(w, 5)
      && LaneByte(r, 6) == LaneByte(w, 6) && LaneByte(r, 7) == LaneByte(w, 7)
  {
  }

  lemma Xor3(w: Lane, b: bv8)
    ensures SetByte(w, 3, Xor8(LaneByte(w, 3), b)) == XorByte(w, 3, b)
  {
  }

  lemma Set3(w: Lane, v: bv8)
    ensures var r := SetByte(w, 3, v);
      && LaneByte(r, 0) == LaneByte(w, 0) && LaneByte(r, 1) == LaneByte(w, 1) && LaneByte(r, 2) == LaneByte(w, 2)
      && LaneByte(r, 3) == v && LaneByte(r, 4) == LaneByte(w, 4) && LaneByte(r, 5) == LaneByte(w, 5)
      && LaneByte(r, 6) == LaneByte(w, 6) && LaneByte(r, 7) == LaneByte(w, 7)
  {
  }

  lemma Xor4(w: Lane, b: bv8)
    ensures SetByte(w, 4, Xor8(LaneByte(w, 4), b)) == XorByte(w, 4, b)
  {
  }

  lemma Set4(w: Lane, v: bv8)
    ensures var r := SetByte(w, 4, v);
      && LaneByte(r, 0) == LaneByte(w, 0) && LaneByte(r, 1) == LaneByte(w, 1) && LaneByte(r, 2) == LaneByte(w, 2)
      && LaneByte(r, 3) == LaneByte(w, 3) && LaneByte(r, 4) == v && LaneByte(r, 5) == LaneByte(w, 5)
      && LaneByte(r, 6) == LaneByte(w, 6) && LaneByte(r, 7) == LaneByte(w, 7)
  {
  }

  lemma Xor5(w: Lane, b: bv8)
    ensures SetByte(w, 5, Xor8(LaneByte(w, 5), b)) == XorByte(w, 5, b)
  {
  }

  lemma Set5(w: Lane, v: bv8)
    ensures var r := SetByte(w, 5, v);
      && LaneByte(r, 0) == LaneByte(w, 0) && LaneByte(r, 1) == LaneByte(w, 1) && LaneByte(r, 2) == LaneByte(w, 2)
      && LaneByte(r, 3) == LaneByte(w, 3) && LaneByte(r, 4) == LaneByte(w, 4) && LaneByte(r, 5) == v
      && LaneByte(r, 6) == LaneByte(w, 6) && LaneByte(r, 7) == LaneByte(w, 7)
  {
  }

  lemma Xor6(w: Lane, b: bv8)
    ensures SetByte(w, 6, Xor8(LaneByte(w, 6), b)) == XorByte(w, 6, b)
  {
  }

  lemma Set6(w: Lane, v: bv8)
    ensures var r := SetByte(w, 6, v);
      && LaneByte(r, 0) == LaneByte(w, 0) && LaneByte(r, 1) == LaneByte(w, 1) && LaneByte(r, 2) == LaneByte(w, 2)
      && LaneByte(r, 3) == LaneByte(w, 3) && LaneByte(r, 4) == LaneByte(w, 4) && LaneByte(r, 5) == LaneByte(w, 5)
      && LaneByte(r, 6) == v && LaneByte(r, 7) == LaneByte(w, 7)
  {
  }

  lemma Xor7(w: Lane, b: bv8)
    ensures SetByte(w, 7, Xor8(LaneByte(w, 7), b)) == XorByte(w, 7, b)
  {
  }

  lemma Set7(w: Lane, v: bv8)
    ensures var r := SetByte(w, 7, v);
      && LaneByte(r, 0) == LaneByte(w, 0) && LaneByte(r, 1) == LaneByte(w, 1) && LaneByte(r, 2) == LaneByte(w, 2)
      && LaneByte(r, 3) == LaneByte(w, 3) && LaneByte(r, 4) == LaneByte(w, 4) && LaneByte(r, 5) == LaneByte(w, 5)
      && LaneByte(r, 6) == LaneByte(w, 6) && LaneByte(r, 7) == v
  {
  }

  /** Eight bytes read as a little-endian word. */
  function Word(p: seq<bv8>): Lane
    requires |p| == 8
  {
    Lane(Place(p[0], 0) | Place(p[1], 1) | Place(p[2], 2) | Place(p[3], 3) |
         Place(p[4], 4) | Place(p[5], 5) | Place(p[6], 6) | Place(p[7], 7))
  }

  /** A lane with the bytes p xored in from the low end. */
  function LaneBytes(w: Lane, p: seq<bv8>): Lane
    requires |p| <= 8
  {
    if p == [] then w else XorByte(LaneBytes(w, p[..|p| - 1]), |p| - 1, p[|p| - 1])
  }

  lemma LaneBytesNext(w: Lane, p: seq<bv8>, k: nat)
    requires k < |p| <= 8
    ensures LaneBytes(w, p[..k + 1]) == XorByte(LaneBytes(w, p[..k]), k, p[k])
  {
    assert p[..k + 1][..k] == p[..k];
  }

  /** Xoring a word is xoring its eight bytes one after the other. */
  lemma XorWord(w: Lane, p: seq<bv8>)
    requires |p| == 8
    ensures Xor(w, Word(p)) == LaneBytes(w, p)
  {
    hide LaneBytes, XorByte, Xor, Word;
    LaneBytesNext(w, p, 0); LaneBytesNext(w, p, 1); LaneBytesNext(w, p, 2); LaneBytesNext(w, p, 3);
    LaneBytesNext(w, p, 4); LaneBytesNext(w, p, 5); LaneBytesNext(w, p, 6); LaneBytesNext(w, p, 7);
    assert p[..8] == p;
    LaneNone(w, p[..0]);
    XorEight(w, p[0], p[1], p[2], p[3], p[4], p[5], p[6], p[7]);
    WordOf(p);
  }

  lemma LaneNone(w: Lane, p: seq<bv8>)
    requires p == []
    ensures LaneBytes(w, p) == w
  {
  }

  lemma WordOf(p: seq<bv8>)
    requires |p| == 8
    ensures Word(p) == Word([p[0], p[1], p[2], p[3], p[4], p[5], p[6], p[7]])
  {
    assert p == [p[0], p[1], p[2], p[3], p[4], p[5], p[6], p[7]];
  }

  lemma XorEight(w: Lane, b0: bv8, b1: bv8, b2: bv8, b3: bv8, b4: bv8, b5: bv8, b6: bv8, b7: bv8)
    ensures Xor(w, Word([b0, b1, b2, b3, b4, b5, b6, b7])) ==
      XorByte(XorByte(XorByte(XorByte(XorByte(XorByte(XorByte(XorByte(w, 0, b0), 1, b1), 2, b2), 3, b3), 4, b4), 5, b5), 6, b6), 7, b7)
  {
  }

  // ----- the state string and the permutation -----

  function Unflatten(s: Flat): State {
    seq(5, x requires 0 <= x < 5 => seq(5, y requires 0 <= y < 5 => s[5 * y + x]))
  }

  function Flatten(a: State): Flat {
    seq(25, i requires 0 <= i < 25 => a[i % 5][i / 5])
  }

  function Permute(s: Flat): Flat {
    Flatten(KeccakF(Unflatten(s)))
  }

  function StateByte(s: Flat, i: nat): bv8
    requires i < 200
  {
    LaneByte(s[i / 8], i % 8)
  }

  function XorAt(s: Flat, i: nat, b: bv8): Flat
    requires i < 200
  {
    s[i / 8 := XorByte(s[i / 8], i % 8, b)]
  }

  /** S with the string p xored in from byte i on. */
  function XorFrom(s: Flat, i: nat, p: seq<bv8>): Flat
    requires i + |p| <= 200
  {
    if p == [] then s else XorAt(XorFrom(s, i, p[..|p| - 1]), i + |p| - 1, p[|p| - 1])
  }

  // ----- the sponge (Algorithm 8) with blocks of rate bytes -----

  function Absorb(s: Flat, p: seq<bv8>, rate: nat): Flat
    requires 0 < rate <= 200
    decreases |p|
  {
    if |p| < rate then s else Absorb(Permute(XorFrom(s, 0, p[..rate])), p[rate..], rate)
  }

  /** The first n bytes of the state, which suffice while n is at most the rate. */
  function Output(s: Flat, n: nat): seq<bv8>
    requires n <= 200
  {
    seq(n, i requires 0 <= i < n => StateByte(s, i))
  }

  function Zero(): Flat {
    seq(25, _ => Lane(0))
  }

  // ----- SHA-3 (section 6.1): capacity 2d, suffix 01, pad10*1 -----

  function Rate(d: nat): nat
    requires d < 800 && d % 32 == 0
  {
    (1600 - 2 * d) / 8
  }

  /** The block sizes of the four functions, in bytes. */
  lemma RateValues()
    ensures Rate(224) == 144 && Rate(256) == 136 && Rate(384) == 104 && Rate(512) == 72
  {
  }

  function Zeros(n: nat): seq<bv8> {
    seq(n, _ => 0)
  }

  function PadBytes(m: nat, rate: nat): seq<bv8>
    requires rate > 1
  {
    if m % rate == rate - 1 then [0x86] else [0x06] + Zeros(rate - 2 - m % rate) + [0x80]
  }

  function Sha3(m: seq<bv8>, d: nat): seq<bv8>
    requires d in {224, 256, 384, 512}
  {
    Output(Absorb(Zero(), m + PadBytes(|m|, Rate(d)), Rate(d)), d / 8)
  }

  // ----- the padding, bit by bit -----

  /** The bits of a byte, least significant first (Appendix B.1). */
  function ByteBits(b: bv8): (r: seq<bool>)
    ensures |r| == 8
  {
    [b & 1 != 0, b & 2 != 0, b & 4 != 0, b & 8 != 0, b & 16 != 0, b & 32 != 0, b & 64 != 0, b & 128 != 0]
  }

  function Bits(p: seq<bv8>): (r: seq<bool>)
    ensures |r| == 8 * |p|
  {
    if p == [] then [] else Bits(p[..|p| - 1]) + ByteBits(p[|p| - 1])
  }

  lemma ModRange(a: int, x: int)
    requires x > 0
    ensures 0 <= a % x < x
  {
  }

  /** Algorithm 9: a string of length m followed by this has a length divisible by x. */
  function Pad101(x: nat, m: nat): seq<bool>
    requires x > 0
  {
    var zeros: int := -(m as int) - 2;
    ModRange(zeros, x);
    [true] + seq(zeros % x, _ => false) + [true]
  }

  lemma {:induction false} BitsConcat(p: seq<bv8>, q: seq<bv8>)
    ensures Bits(p + q) == Bits(p) + Bits(q)
  {
    if q == [] {
      assert p + q == p;
    } else {
      assert (p + q)[..|p + q| - 1] == p + q[..|q| - 1];
      BitsConcat(p, q[..|q| - 1]);
    }
  }

  lemma {:induction false} BitsOfZeros(n: nat)
    ensures Bits(Zeros(n)) == seq(8 * n, _ => false)
  {
    if n > 0 {
      assert Zeros(n)[..n - 1] == Zeros(n - 1);
      BitsOfZeros(n - 1);
      ZeroBits();
    }
  }

  lemma ZeroBits()
    ensures ByteBits(0) == seq(8, _ => false)
  {
  }

  lemma MarkerBits()
    ensures ByteBits(0x86) == [false, true] + [true, false, false, false, false, true]
    ensures ByteBits(0x06) == [false, true] + [true, false, false, false, false, false]
    ensures ByteBits(0x80) == seq(7, _ => false) + [true]
  {
  }

  lemma PadLength(m: nat, rate: nat)
    requires rate > 1
    ensures (-(8 * m + 2) - 2) % (8 * rate) == if m % rate == rate - 1 then 4 else 8 * (rate - 1 - m % rate) + 4
  {
    var q, r := m / rate, m % rate;
    assert m == q * rate + r;
    var k := if r == rate - 1 then 4 else 8 * (rate - 1 - r) + 4;
    assert 8 * (rate - 1 - r) + 4 == k;
    assert -(8 * m + 2) - 2 == (8 * rate) * (-q - 1) + k by {
      assert 8 * m == 8 * (q * rate) + 8 * r;
      assert (8 * rate) * (-q - 1) == -8 * (q * rate) - 8 * rate;
    }
    ModUnique(-(8 * m + 2) - 2, 8 * rate, -q - 1, k);
  }

  lemma ModUnique(a: int, x: int, q: int, k: int)
    requires 0 <= k < x && a == x * q + k
    ensures a % x == k
  {
    var d := a / x - q;
    assert x * (a / x) == x * q + x * d;
    SmallMultiple(x, d);
  }

  lemma SmallMultiple(x: int, d: int)
    requires -x < x * d < x
    ensures d == 0
  {
    if d >= 1 {
      Multiple(x, d);
    } else if d <= -1 {
      Multiple(x, -d);
    }
  }

  lemma Multiple(x: int, d: int)
    requires x > 0 && d >= 1
    ensures x * d >= x && x * -d <= -x
  {
    assert x * d == x + x * (d - 1);
  }

  lemma PadBits(m: nat, rate: nat)
    requires rate > 1
    ensures Bits(PadBytes(m, rate)) == [false, true] + Pad101(8 * rate, 8 * m + 2)
  {
    hide ByteBits, Bits;
    var r := m % rate;
    PadLength(m, rate);
    MarkerBits();
    if r == rate - 1 {
      BitsOfByte(0x86);
      assert [true] + seq(4, _ => false) + [true] == [true, false, false, false, false, true];
    } else {
      var z := rate - 2 - r;
      BitsOfByte(0x06);
      BitsOfByte(0x80);
      BitsConcat([0x06] + Zeros(z), [0x80]);
      BitsConcat([0x06], Zeros(z));
      BitsOfZeros(z);
      RunOfZeros(z);
    }
  }

  lemma RunOfZeros(z: nat)
    ensures [false, true] + [true, false, false, false, false, false] + seq(8 * z, _ => false) + (seq(7, _ => false) + [true])
      == [false, true] + ([true] + seq(8 * (z + 1) + 4, _ => false) + [true])
  {
  }

  lemma PadTotal(m: nat, rate: nat)
    requires rate > 1
    ensures (m + |PadBytes(m, rate)|) % rate == 0
  {
    var r := m % rate;
    assert m == m / rate * rate + r;
    ModUnique(m + (rate - r), rate, m / rate + 1, 0);
  }

  /** The one-byte and the many-byte padding both are the bits 01 and pad10*1. */
  lemma PaddingBits(m: seq<bv8>, rate: nat)
    requires rate > 1
    ensures Bits(m + PadBytes(|m|, rate)) == Bits(m) + ([false, true] + Pad101(8 * rate, |Bits(m)| + 2))
    ensures |m + PadBytes(|m|, rate)| % rate == 0
  {
    hide ByteBits, PadBytes, Pad101;
    BitsConcat(m, PadBytes(|m|, rate));
    PadBits(|m|, rate);
    PadTotal(|m|, rate);
  }

  lemma BitsOfByte(b: bv8)
    ensures Bits([b]) == ByteBits(b)
  {
    assert [b][..0] == [];
    assert Bits([b][..0]) == [];
  }
}
