/**
 The reference bit by bit: what the operations on lanes and the step mappings do to each bit
 A[x,y,z], in the terms of sections 3.2.1 to 3.2.5 of FIPS 202.
 */
module LaneBits {
  import opened Fips202
  import opened Sponge

  // ----- the bits of a lane -----

  /** The lane in which only bit z is set. */
  function Mask(z: nat): Lane {
    Lane(if z < 16 then Mask0(z) else if z < 32 then Mask16(z) else if z < 48 then Mask32(z) else Mask48(z))
  }

  function Mask0(z: nat): bv64 {
    if z == 0 then 0x1 else if z == 1 then 0x2 else if z == 2 then 0x4 else if z == 3 then 0x8 else
    if z == 4 then 0x10 else if z == 5 then 0x20 else if z == 6 then 0x40 else if z == 7 then 0x80 else
    if z == 8 then 0x100 else if z == 9 then 0x200 else if z == 10 then 0x400 else if z == 11 then 0x800 else
    if z == 12 then 0x1000 else if z == 13 then 0x2000 else if z == 14 then 0x4000 else 0x8000
  }

  function Mask16(z: nat): bv64 {
    if z == 16 then 0x10000 else if z == 17 then 0x20000 else if z == 18 then 0x40000 else if z == 19 then 0x80000 else
    if z == 20 then 0x100000 else if z == 21 then 0x200000 else if z == 22 then 0x400000 else if z == 23 then 0x800000 else
    if z == 24 then 0x1000000 else if z == 25 then 0x2000000 else if z == 26 then 0x4000000 else if z == 27 then 0x8000000 else
    if z == 28 then 0x10000000 else if z == 29 then 0x20000000 else if z == 30 then 0x40000000 else 0x80000000
  }

  function Mask32(z: nat): bv64 {
    if z == 32 then 0x100000000 else if z == 33 then 0x200000000 else if z == 34 then 0x400000000 else if z == 35 then 0x800000000 else
    if z == 36 then 0x1000000000 else if z == 37 then 0x2000000000 else if z == 38 then 0x4000000000 else if z == 39 then 0x8000000000 else
    if z == 40 then 0x10000000000 else if z == 41 then 0x20000000000 else if z == 42 then 0x40000000000 else if z == 43 then 0x80000000000 else
    if z == 44 then 0x100000000000 else if z == 45 then 0x200000000000 else if z == 46 then 0x400000000000 else 0x800000000000
  }

  function Mask48(z: nat): bv64 {
    if z == 48 then 0x1000000000000 else if z == 49 then 0x2000000000000 else if z == 50 then 0x4000000000000 else if z == 51 then 0x8000000000000 else
    if z == 52 then 0x10000000000000 else if z == 53 then 0x20000000000000 else if z == 54 then 0x40000000000000 else if z == 55 then 0x80000000000000 else
    if z == 56 then 0x100000000000000 else if z == 57 then 0x200000000000000 else if z == 58 then 0x400000000000000 else if z == 59 then 0x800000000000000 else
    if z == 60 then 0x1000000000000000 else if z == 61 then 0x2000000000000000 else if z == 62 then 0x4000000000000000 else 0x8000000000000000
  }

  function And(a: Lane, b: Lane): Lane {
    Lane(a.word & b.word)
  }

  predicate IsZero(a: Lane) {
    a.word == 0
  }

  /** The lanes have a set bit in common. */
  predicate Meet(a: Lane, m: Lane) {
    !IsZero(And(a, m))
  }

  predicate Bit(a: Lane, z: nat) {
    Meet(a, Mask(z))
  }

  predicate OneBit(m: Lane) {
    m.word != 0 && m.word & (m.word - 1) == 0
  }

  predicate TopClear(m: Lane) {
    m.word & 0x8000000000000000 == 0
  }

  predicate LowClear(m: Lane) {
    m.word & 1 == 0
  }

  /** n has the bit behind that of m. */
  predicate Behind(m: Lane, n: Lane) {
    TopClear(m) && LowClear(n) && n == Left(m) && m == Right(n)
  }

  lemma MaskIsOneBit(z: nat)
    requires z < 64
    ensures OneBit(Mask(z))
  {
    hide Mask0, Mask16, Mask32, Mask48, OneBit;
    if z < 16 { OneBit0(z); } else if z < 32 { OneBit16(z); } else if z < 48 { OneBit32(z); } else { OneBit48(z); }
  }

  lemma OneBit0(z: nat)
    requires 0 <= z < 16
    ensures OneBit(Lane(Mask0(z)))
  {
  }

  lemma OneBit16(z: nat)
    requires 16 <= z < 32
    ensures OneBit(Lane(Mask16(z)))
  {
  }

  lemma OneBit32(z: nat)
    requires 32 <= z < 48
    ensures OneBit(Lane(Mask32(z)))
  {
  }

  lemma OneBit48(z: nat)
    requires 48 <= z < 64
    ensures OneBit(Lane(Mask48(z)))
  {
  }

  lemma MaskNext(z: nat)
    requires z < 63
    ensures Behind(Mask(z), Mask(z + 1))
  {
    hide Mask0, Mask16, Mask32, Mask48, Behind;
    Seams();
    if z < 15 { Next0(z); } else if 16 <= z < 31 { Next16(z); } else if 32 <= z < 47 { Next32(z); } else if 48 <= z { Next48(z); }
  }

  lemma Seams()
    ensures Behind(Lane(Mask0(15)), Lane(Mask16(16)))
    ensures Behind(Lane(Mask16(31)), Lane(Mask32(32)))
    ensures Behind(Lane(Mask32(47)), Lane(Mask48(48)))
  {
  }

  lemma Next0(z: nat)
    requires 0 <= z < 15
    ensures Behind(Lane(Mask0(z)), Lane(Mask0(z + 1)))
  {
  }

  lemma Next16(z: nat)
    requires 16 <= z < 31
    ensures Behind(Lane(Mask16(z)), Lane(Mask16(z + 1)))
  {
  }

  lemma Next32(z: nat)
    requires 32 <= z < 47
    ensures Behind(Lane(Mask32(z)), Lane(Mask32(z + 1)))
  {
  }

  lemma Next48(z: nat)
    requires 48 <= z < 63
    ensures Behind(Lane(Mask48(z)), Lane(Mask48(z + 1)))
  {
  }

  // ----- shifting and rotating -----

  lemma AndLeft(a: Lane, m: Lane)
    ensures And(Left(a), Left(m)) == Left(And(a, m)) && And(Right(a), Right(m)) == Right(And(a, m))
  {
  }

  lemma AndClears(a: Lane, m: Lane)
    ensures (TopClear(m) ==> TopClear(And(a, m))) && (LowClear(m) ==> LowClear(And(a, m)))
  {
  }

  lemma ShiftedZero(a: Lane)
    ensures TopClear(a) ==> IsZero(Left(a)) == IsZero(a)
    ensures LowClear(a) ==> IsZero(Right(a)) == IsZero(a)
  {
  }

  lemma MeetBehind(a: Lane, m: Lane, n: Lane)
    requires Behind(m, n)
    ensures Meet(Left(a), n) == Meet(a, m) && Meet(Right(a), m) == Meet(a, n)
  {
    hide And, IsZero, Left, Right, TopClear, LowClear;
    AndLeft(a, m);
    AndLeft(a, n);
    AndClears(a, m);
    AndClears(a, n);
    ShiftedZero(And(a, m));
    ShiftedZero(And(a, n));
  }

  lemma NoneShiftedIn(a: Lane)
    ensures !Bit(Left(a), 0) && !Bit(Right(a), 63)
  {
  }

  lemma {:induction false} BitOfShl(a: Lane, n: nat, z: nat)
    requires z < 64
    ensures Bit(Shl(a, n), z) == (z >= n && Bit(a, z - n))
    decreases n
  {
    hide Mask, Meet, Left, Behind;
    if n > 0 {
      if z == 0 {
        NoneShiftedIn(Shl(a, n - 1));
      } else {
        MaskNext(z - 1);
        MeetBehind(Shl(a, n - 1), Mask(z - 1), Mask(z));
        BitOfShl(a, n - 1, z - 1);
      }
    }
  }

  lemma {:induction false} BitOfShr(a: Lane, n: nat, z: nat)
    requires z < 64
    ensures Bit(Shr(a, n), z) == (z + n < 64 && Bit(a, z + n))
    decreases n
  {
    hide Mask, Meet, Right, Behind;
    if n > 0 {
      if z == 63 {
        NoneShiftedIn(Shr(a, n - 1));
      } else {
        MaskNext(z);
        MeetBehind(Shr(a, n - 1), Mask(z), Mask(z + 1));
        BitOfShr(a, n - 1, z + 1);
      }
    }
  }

  lemma AndOr(a: Lane, b: Lane, m: Lane)
    ensures And(Or(a, b), m) == Or(And(a, m), And(b, m))
  {
  }

  lemma ZeroOr(a: Lane, b: Lane)
    ensures IsZero(Or(a, b)) <==> IsZero(a) && IsZero(b)
  {
  }

  lemma MeetOr(a: Lane, b: Lane, m: Lane)
    ensures Meet(Or(a, b), m) == (Meet(a, m) || Meet(b, m))
  {
    hide And, Or, IsZero;
    AndOr(a, b, m);
    ZeroOr(And(a, m), And(b, m));
  }

  /** Rotating by n moves every bit n places up, and the last n to the front. */
  lemma BitOfRotate(a: Lane, n: nat, z: nat)
    requires n < 64 && z < 64
    ensures Bit(Rotate(a, n), (z + n) % 64) == Bit(a, z)
  {
    hide Mask, Meet, Shl, Shr, Or;
    if n > 0 {
      var t := (z + n) % 64;
      MeetOr(Shl(a, n), Shr(a, 64 - n), Mask(t));
      BitOfShl(a, n, t);
      BitOfShr(a, 64 - n, t);
    }
  }

  // ----- the other operations -----

  /** A bit is in a lane or not. */
  lemma AllOrNone(a: Lane, m: Lane)
    requires OneBit(m)
    ensures (IsZero(And(a, m)) || And(a, m) == m) && !IsZero(m)
  {
  }

  lemma AndXor(a: Lane, b: Lane, m: Lane)
    ensures And(Xor(a, b), m) == Xor(And(a, m), And(b, m))
  {
  }

  lemma XorOfZero(a: Lane, b: Lane)
    ensures (IsZero(a) ==> Xor(a, b) == b) && (IsZero(b) ==> Xor(a, b) == a) && IsZero(Xor(a, a))
  {
  }

  lemma MeetXor(a: Lane, b: Lane, m: Lane)
    requires OneBit(m)
    ensures Meet(Xor(a, b), m) == (Meet(a, m) != Meet(b, m))
  {
    hide And, Xor, IsZero, OneBit;
    AllOrNone(a, m);
    AllOrNone(b, m);
    AndXor(a, b, m);
    XorOfZero(And(a, m), And(b, m));
  }

  lemma BitOfXor(a: Lane, b: Lane, z: nat)
    requires z < 64
    ensures Bit(Xor(a, b), z) == (Bit(a, z) != Bit(b, z))
  {
    hide Mask, Meet, Xor, OneBit;
    MaskIsOneBit(z);
    MeetXor(a, b, Mask(z));
  }

  predicate Odd(a: bool, b: bool, c: bool, d: bool, e: bool) {
    (((a != b) != c) != d) != e
  }

  lemma BitOfParity(a: Lane, b: Lane, c: Lane, d: Lane, e: Lane, z: nat)
    requires z < 64
    ensures Bit(Parity(a, b, c, d, e), z) == Odd(Bit(a, z), Bit(b, z), Bit(c, z), Bit(d, z), Bit(e, z))
  {
    hide Bit, Xor;
    BitOfXor(a, b, z);
    BitOfXor(Xor(a, b), c, z);
    BitOfXor(Xor(Xor(a, b), c), d, z);
    BitOfXor(Xor(Xor(Xor(a, b), c), d), e, z);
  }

  function NotAnd(b: Lane, c: Lane): Lane {
    Lane(!b.word & c.word)
  }

  lemma AndNotAnd(b: Lane, c: Lane, m: Lane)
    ensures And(NotAnd(b, c), m) == NotAnd(And(b, m), And(c, m))
  {
  }

  lemma NotAndOfZero(b: Lane, c: Lane)
    ensures (IsZero(b) ==> NotAnd(b, c) == c) && (IsZero(c) ==> IsZero(NotAnd(b, c))) && IsZero(NotAnd(c, c))
  {
  }

  lemma MeetNotAnd(b: Lane, c: Lane, m: Lane)
    requires OneBit(m)
    ensures Meet(NotAnd(b, c), m) == (!Meet(b, m) && Meet(c, m))
  {
    hide And, NotAnd, IsZero, OneBit;
    AllOrNone(b, m);
    AllOrNone(c, m);
    AndNotAnd(b, c, m);
    NotAndOfZero(And(b, m), And(c, m));
  }

  lemma ChiLaneIsXor(a: Lane, b: Lane, c: Lane)
    ensures ChiLane(a, b, c) == Xor(a, NotAnd(b, c))
  {
  }

  lemma BitOfChiLane(a: Lane, b: Lane, c: Lane, z: nat)
    requires z < 64
    ensures Bit(ChiLane(a, b, c), z) == (Bit(a, z) != (!Bit(b, z) && Bit(c, z)))
  {
    hide Mask, Meet, Xor, NotAnd, ChiLane, OneBit;
    MaskIsOneBit(z);
    ChiLaneIsXor(a, b, c);
    MeetXor(a, NotAnd(b, c), Mask(z));
    MeetNotAnd(b, c, Mask(z));
  }

  // ----- the step mappings -----

  /** The bit A[x,y,z]. */
  predicate A(a: State, x: nat, y: nat, z: nat)
    requires x < 5 && y < 5
  {
    Bit(a[x][y], z)
  }

  /** The parity of column (x,z). */
  predicate Column(a: State, x: nat, z: nat)
    requires x < 5
  {
    Odd(A(a, x, 0, z), A(a, x, 1, z), A(a, x, 2, z), A(a, x, 3, z), A(a, x, 4, z))
  }

  lemma BitOfTheta(a: State, x: nat, y: nat, z: nat)
    requires x < 5 && y < 5 && z < 64
    ensures A(Theta(a), x, y, z) == (A(a, x, y, z) != (Column(a, (x + 4) % 5, z) != Column(a, (x + 1) % 5, (z + 63) % 64)))
  {
    hide Bit, Rotate, Xor, Parity;
    var l, r := (x + 4) % 5, (x + 1) % 5;
    var before := (z + 63) % 64;
    BitOfXor(a[x][y], ThetaEffect(a, x), z);
    BitOfXor(ColumnParity(a, l), Rotate(ColumnParity(a, r), 1), z);
    BitOfParity(a[l][0], a[l][1], a[l][2], a[l][3], a[l][4], z);
    BitOfRotate(ColumnParity(a, r), 1, before);
    BitOfParity(a[r][0], a[r][1], a[r][2], a[r][3], a[r][4], before);
  }

  lemma BitOfRho(a: State, x: nat, y: nat, z: nat)
    requires x < 5 && y < 5 && z < 64
    ensures A(Rho(a), x, y, (z + RhoOffset(x, y)) % 64) == A(a, x, y, z)
  {
    hide Bit, Rotate, RhoOffset;
    BitOfRotate(a[x][y], RhoOffset(x, y), z);
  }

  lemma BitOfPi(a: State, x: nat, y: nat, z: nat)
    requires x < 5 && y < 5 && z < 64
    ensures A(Pi(a), x, y, z) == A(a, (x + 3 * y) % 5, x, z)
  {
    hide Bit;
  }

  lemma BitOfChi(a: State, x: nat, y: nat, z: nat)
    requires x < 5 && y < 5 && z < 64
    ensures A(Chi(a), x, y, z) == (A(a, x, y, z) != (!A(a, (x + 1) % 5, y, z) && A(a, (x + 2) % 5, y, z)))
  {
    hide Bit, ChiLane;
    BitOfChiLane(a[x][y], a[(x + 1) % 5][y], a[(x + 2) % 5][y], z);
  }

  lemma BitOfIota(a: State, rc: Lane, x: nat, y: nat, z: nat)
    requires x < 5 && y < 5 && z < 64
    ensures A(Iota(a, rc), x, y, z) == if x == 0 && y == 0 then A(a, x, y, z) != Bit(rc, z) else A(a, x, y, z)
  {
    hide Bit, Xor;
    BitOfXor(a[0][0], rc, z);
  }

  // ----- the bytes of a lane -----

  function EightBits(w: Lane, z: nat): seq<bool> {
    [Bit(w, z), Bit(w, z + 1), Bit(w, z + 2), Bit(w, z + 3), Bit(w, z + 4), Bit(w, z + 5), Bit(w, z + 6), Bit(w, z + 7)]
  }

  /** Byte j of a lane, least significant bit first, is the bits from 8j on (Appendix B.1). */
  lemma BitOfLaneByte(w: Lane, j: nat)
    requires j < 8
    ensures ByteBits(LaneByte(w, j)) == EightBits(w, 8 * j)
  {
    hide ByteBits, LaneByte, EightBits;
    if j == 0 { Byte0(w); } else if j == 1 { Byte1(w); } else if j == 2 { Byte2(w); } else if j == 3 { Byte3(w); }
    else if j == 4 { Byte4(w); } else if j == 5 { Byte5(w); } else if j == 6 { Byte6(w); } else { Byte7(w); }
  }

  /** So bit 8i+k of the state string is bit (8i+k)%64 of lane (8i+k)/64 (section 3.1.2). */
  lemma BitOfStateByte(s: Flat, i: nat, k: nat)
    requires i < 200 && k < 8
    ensures ByteBits(StateByte(s, i))[k] == Bit(s[(8 * i + k) / 64], (8 * i + k) % 64)
  {
    hide ByteBits, LaneByte, Bit;
    var l, j := i / 8, i % 8;
    assert (8 * i + k) / 64 == l && (8 * i + k) % 64 == 8 * j + k;
    BitOfLaneByte(s[l], j);
  }

  lemma Byte0(w: Lane)
    ensures ByteBits(LaneByte(w, 0)) == EightBits(w, 0)
  {
  }

  lemma Byte1(w: Lane)
    ensures ByteBits(LaneByte(w, 1)) == EightBits(w, 8)
  {
  }

  lemma Byte2(w: Lane)
    ensures ByteBits(LaneByte(w, 2)) == EightBits(w, 16)
  {
  }

  lemma Byte3(w: Lane)
    ensures ByteBits(LaneByte(w, 3)) == EightBits(w, 24)
  {
  }

  lemma Byte4(w: Lane)
    ensures ByteBits(LaneByte(w, 4)) == EightBits(w, 32)
  {
  }

  lemma Byte5(w: Lane)
    ensures ByteBits(LaneByte(w, 5)) == EightBits(w, 40)
  {
  }

  lemma Byte6(w: Lane)
    ensures ByteBits(LaneByte(w, 6)) == EightBits(w, 48)
  {
  }

  lemma Byte7(w: Lane)
    ensures ByteBits(LaneByte(w, 7)) == EightBits(w, 56)
  {
  }

  /** Loading a byte is an exclusive or of the lane with that byte at its place and zero bytes elsewhere. */
  lemma LoadedByte(w: Lane, j: nat, b: bv8, i: nat)
    requires j < 8 && i < 8
    ensures XorByte(w, j, b) == Xor(w, Lane(Place(b, j)))
    ensures LaneByte(Lane(Place(b, j)), i) == if i == j then b else 0
  {
    hide Place, LaneByte, SetByte, XorByte, Xor;
    XorPlaced(w, j, b);
    PlacedAlone(b, j);
    SetThenGet(Lane(0), j, b, i);
    NoBytes(i);
  }

  lemma XorPlaced(w: Lane, j: nat, b: bv8)
    ensures XorByte(w, j, b) == Xor(w, Lane(Place(b, j)))
  {
    hide Place;
  }

  lemma PlacedAlone(b: bv8, j: nat)
    ensures SetByte(Lane(0), j, b) == Lane(Place(b, j))
  {
    hide Place;
  }

  lemma NoBytes(i: nat)
    ensures LaneByte(Lane(0), i) == 0
  {
  }
}
