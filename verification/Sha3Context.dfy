/**
 SHA3Context and its three operations.  The union of lanes and bytes is an array of 200 lanes, of
 which byte i lies in lane i/8, from its low end on a little-endian machine and from its high end
 on a big-endian one.
 */
module Sha3Context {
  import opened Fips202
  import opened Sponge
  import opened SpongeLoading
  import Keccak

  /** The compile-time setting SHA3_BYTEORDER: 1234, 4321 or 0. */
  datatype ByteOrder = Known1234 | Known4321 | Probed

  lemma FlattenUnflatten(s: Flat)
    ensures Flatten(Unflatten(s)) == s
  {
    forall i | 0 <= i < 25
      ensures Flatten(Unflatten(s))[i] == s[i]
    {
      assert 5 * (i / 5) + i % 5 == i;
    }
  }

  lemma ViewIsUnflatten(s: seq<Lane>)
    requires |s| >= 25
    ensures Keccak.View(s, 0) == Unflatten(s[..25])
  {
    Keccak.SameState(Keccak.View(s, 0), Unflatten(s[..25]));
  }

  /** nLoaded ^ ixMask for the masks 0 and 7. */
  function Masked(i: nat, mask: nat): (j: nat)
    requires mask == 0 || mask == 7
    ensures j / 8 == i / 8
  {
    if mask == 0 then i else i / 8 * 8 + (7 - i % 8)
  }

  lemma MaskedIsXor(i: bv32)
    ensures i ^ 7 == i / 8 * 8 + (7 - i % 8) && i ^ 0 == i
  {
  }

  lemma LoadEmpty(st: Loading, p: seq<bv8>, rate: nat)
    requires st.n < rate <= 200 && p == []
    ensures LoadAll(st, p, rate) == st
  {
  }

  lemma LoadNext(st: Loading, p: seq<bv8>, i: nat, rate: nat)
    requires st.n < rate <= 200 && i < |p|
    ensures LoadAll(st, p[..i + 1], rate) == Load(LoadAll(st, p[..i], rate), p[i], rate)
  {
    assert p[..i + 1][..i] == p[..i];
  }

  class Context {
    const order: ByteOrder
    const bigEndian: bool
    const u: array<Lane>
    var nRate: nat
    var nLoaded: nat
    var ixMask: nat

    ghost predicate Valid()
      reads this
    {
      && u.Length == 200
      && nRate % 8 == 0 && 72 <= nRate <= 168
      && nLoaded < nRate
      && (order == Known1234 ==> !bigEndian) && (order == Known4321 ==> bigEndian)
      && ixMask == if bigEndian then 7 else 0
    }

    /** The sponge that the context stands for, whatever the byte order. */
    ghost function Value(): Loading
      requires Valid()
      reads this, u
    {
      Loading(u[..25], nLoaded)
    }

    /** The byte u.x[i]. */
    function X(i: nat): bv8
      requires u.Length == 200 && i < 1600
      reads u
    {
      LaneByte(u[i / 8], if bigEndian then 7 - i % 8 else i % 8)
    }

    method SetX(i: nat, v: bv8)
      requires u.Length == 200 && i < 1600
      modifies u
      ensures forall k :: 0 <= k < 1600 ==> X(k) == if k == i then v else old(X(k))
      ensures forall l :: 0 <= l < 200 && l != i / 8 ==> u[l] == old(u[l])
      ensures u[i / 8] == SetByte(old(u[i / 8]), if bigEndian then 7 - i % 8 else i % 8, v)
    {
      hide LaneByte, SetByte;
      var j := if bigEndian then 7 - i % 8 else i % 8;
      ghost var w := u[i / 8];
      u[i / 8] := SetByte(u[i / 8], j, v);
      forall k | 0 <= k < 1600
        ensures X(k) == if k == i then v else old(X(k))
      {
        if k / 8 == i / 8 {
          SetThenGet(w, j, v, if bigEndian then 7 - k % 8 else k % 8);
        }
      }
    }

    /** SHA3Init. */
    constructor (iSize: int, order: ByteOrder, bigEndian: bool)
      requires (order == Known1234 ==> !bigEndian) && (order == Known4321 ==> bigEndian)
      ensures Valid() && fresh(u) && this.order == order && this.bigEndian == bigEndian
      ensures Value() == Loading(Zero(), 0)
      ensures iSize in {224, 256, 384, 512} ==> nRate == Rate(iSize)
      ensures iSize == 0 ==> nRate == Rate(256)
    {
      this.order, this.bigEndian := order, bigEndian;
      u := new Lane[200](_ => Lane(0));
      nLoaded := 0;
      if 128 <= iSize <= 512 {
        nRate := (1600 - (iSize + 31) / 32 * 32 * 2) / 8;
      } else {
        nRate := (1600 - 2 * 256) / 8;
      }
      ixMask := if order == Known4321 || (order == Probed && bigEndian) then 7 else 0;
    }

    method KeccakF1600Step()
      requires u.Length == 200
      modifies u
      ensures u[..25] == Permute(old(u[..25]))
    {
      hide KeccakF, Flatten, Unflatten, Keccak.View;
      ViewIsUnflatten(u[..25]);
      ghost var s := u[..25];
      assert s[..25] == s;
      Keccak.KeccakF1600Step(u);
      ghost var t := u[..25];
      assert t[..25] == t;
      ViewIsUnflatten(t);
      FlattenUnflatten(t);
    }

    /** Xors b into the byte at nLoaded, through the mask; at the end of a block the state is permuted. */
    method LoadByte(b: bv8)
      requires Valid()
      modifies this`nLoaded, u
      ensures Valid() && nRate == old(nRate)
      ensures Value() == Load(old(Value()), b, nRate)
    {
      hide LaneByte, SetByte, XorByte, Xor8, Permute;
      var i := match order
        case Known1234 => nLoaded
        case Known4321 => Masked(nLoaded, 7)
        case Probed => Masked(nLoaded, ixMask);
      ghost var s := u[..25];
      XorInPlace(u[nLoaded / 8], nLoaded % 8, b);
      SetX(i, Xor8(X(i), b));
      assert u[..25] == XorAt(s, nLoaded, b);
      nLoaded := nLoaded + 1;
      if nLoaded == nRate {
        KeccakF1600Step();
        nLoaded := 0;
      }
    }

    /** Xors eight bytes at once into the lane at nLoaded; at the end of a block the state is permuted. */
    method LoadEight(p: seq<bv8>)
      requires Valid() && !bigEndian && |p| == 8 && nLoaded % 8 == 0
      modifies this`nLoaded, u
      ensures Valid() && nRate == old(nRate) && nLoaded % 8 == 0
      ensures Value() == LoadAll(old(Value()), p, nRate)
    {
      hide Xor, Word, Permute, LoadAll;
      LoadWord(Value(), p, nRate);
      ghost var s := u[..25];
      u[nLoaded / 8] := Xor(u[nLoaded / 8], Word(p));
      assert u[..25] == s[nLoaded / 8 := Xor(s[nLoaded / 8], Word(p))];
      nLoaded := nLoaded + 8;
      if nLoaded >= nRate {
        KeccakF1600Step();
        nLoaded := 0;
      }
    }

    /** SHA3Update.  aligned tells whether the address of aData is a multiple of 8. */
    method Update(aData: seq<bv8>, aligned: bool)
      requires Valid()
      modifies this`nLoaded, u
      ensures Valid() && nRate == old(nRate)
      ensures Value() == LoadAll(old(Value()), aData, nRate)
    {
      hide Load, LoadAll, Permute;
      var nData := |aData|;
      var i := 0;
      ghost var st := Value();
      LoadEmpty(st, aData[..0], nRate);
      if order == Known1234 && nLoaded % 8 == 0 && aligned {
        while i + 7 < nData
          invariant 0 <= i <= nData && Valid() && nRate == old(nRate) && nLoaded % 8 == 0
          invariant Value() == LoadAll(st, aData[..i], nRate)
          decreases nData - i
        {
          LoadConcat(st, aData[..i], aData[i..i + 8], nRate);
          assert aData[..i] + aData[i..i + 8] == aData[..i + 8];
          LoadEight(aData[i..i + 8]);
          i := i + 8;
        }
      }
      while i < nData
        invariant 0 <= i <= nData && Valid() && nRate == old(nRate)
        invariant Value() == LoadAll(st, aData[..i], nRate)
      {
        LoadNext(st, aData, i, nRate);
        LoadByte(aData[i]);
        i := i + 1;
      }
      assert aData[..nData] == aData;
    }

    /** The padding half of SHA3Final. */
    method Pad()
      requires Valid()
      modifies this`nLoaded, u
      ensures Valid() && nRate == old(nRate)
      ensures Value() == LoadAll(old(Value()), PadBytes(old(nLoaded), nRate), nRate)
    {
      hide Load, LoadAll, Permute;
      ghost var st := Value();
      PadCases(nLoaded, nRate);
      if nLoaded == nRate - 1 {
        Update([0x86], false);
      } else {
        PadLoaded(st, nRate);
        Update([0x06], false);
        nLoaded := nRate - 1;
        Update([0x80], false);
      }
    }

    lemma MaskedByte(k: nat)
      requires Valid() && k < nRate
      ensures Masked(k, ixMask) < nRate && X(Masked(k, ixMask)) == StateByte(u[..25], k)
    {
    }

    /** The copying half of SHA3Final: the rate bytes go, in order, behind the rate bytes. */
    method CopyHash()
      requires Valid()
      modifies u
      ensures forall i :: 0 <= i < nRate ==> X(nRate + i) == old(StateByte(u[..25], i))
    {
      hide LaneByte, SetByte, StateByte, Masked;
      forall k | 0 <= k < nRate
        ensures Masked(k, ixMask) < nRate && X(Masked(k, ixMask)) == StateByte(u[..25], k)
      {
        MaskedByte(k);
      }
      var i := 0;
      while i < nRate
        invariant 0 <= i <= nRate
        invariant forall k :: 0 <= k < nRate ==> X(k) == old(X(k))
        invariant forall k :: nRate <= k < nRate + i ==> X(k) == old(StateByte(u[..25], k - nRate))
      {
        var b := X(Masked(i, ixMask));
        SetX(i + nRate, b);
        i := i + 1;
      }
    }

    /** SHA3Final; the result is the index of the first byte of the hash value. */
    method Final() returns (z: nat)
      requires Valid()
      modifies this`nLoaded, u
      ensures z == nRate == old(nRate) && z + nRate <= 1600
      ensures forall i :: 0 <= i < nRate ==>
        X(z + i) == StateByte(LoadAll(old(Value()), PadBytes(old(nLoaded), nRate), nRate).s, i)
    {
      hide LoadAll, PadBytes, LaneByte, StateByte, X;
      Pad();
      CopyHash();
      z := nRate;
    }
  }

  lemma PadCases(n: nat, rate: nat)
    requires n < rate && rate > 1
    ensures PadBytes(n, rate) == if n == rate - 1 then [0x86] else [0x06] + Zeros(rate - 2 - n) + [0x80]
  {
    NoWrap(n, rate);
  }

  lemma NoWrap(n: nat, rate: nat)
    requires n < rate
    ensures n % rate == n
  {
  }

  /** Jumping nLoaded to the last byte of the block loads the zeros in between. */
  lemma PadLoaded(st: Loading, rate: nat)
    requires st.n + 1 < rate <= 200
    ensures var first := LoadAll(st, [0x06], rate);
      LoadAll(st, [0x06] + Zeros(rate - 2 - st.n) + [0x80], rate) == LoadAll(Loading(first.s, rate - 1), [0x80], rate)
  {
    hide LoadAll;
    var z := rate - 2 - st.n;
    LoadConcat(st, [0x06] + Zeros(z), [0x80], rate);
    LoadConcat(st, [0x06], Zeros(z), rate);
    LoadOne(st, 0x06, rate);
    LoadZeros(LoadAll(st, [0x06], rate), z, rate);
  }

  lemma LoadOne(st: Loading, b: bv8, rate: nat)
    requires st.n < rate <= 200
    ensures LoadAll(st, [b], rate) == Load(st, b, rate)
  {
    assert [b][..0] == [];
    assert LoadAll(st, [b][..0], rate) == st;
  }

  function Concat(chunks: seq<seq<bv8>>): seq<bv8> {
    if chunks == [] then [] else Concat(chunks[..|chunks| - 1]) + chunks[|chunks| - 1]
  }

  /** The bytes loaded so far, counted modulo the block size. */
  lemma {:induction false} LoadedCount(st: Loading, p: seq<bv8>, rate: nat)
    requires st.n < rate <= 200
    ensures LoadAll(st, p, rate).n == (st.n + |p|) % rate
  {
    hide Permute, XorAt;
    if p == [] {
      NoWrap(st.n, rate);
    } else {
      LoadedCount(st, p[..|p| - 1], rate);
      CountNext(st.n + |p| - 1, rate);
    }
  }

  lemma CountNext(m: nat, rate: nat)
    requires rate > 0
    ensures (m + 1) % rate == if m % rate + 1 == rate then 0 else m % rate + 1
  {
    if m % rate + 1 == rate {
      ModUnique(m + 1, rate, m / rate + 1, 0);
    } else {
      ModUnique(m + 1, rate, m / rate, m % rate + 1);
    }
  }

  lemma PaddedIsAbsorbed(m: seq<bv8>, rate: nat)
    requires 1 < rate <= 200
    ensures var st := LoadAll(Loading(Zero(), 0), m, rate);
      LoadAll(st, PadBytes(st.n, rate), rate).s == Absorb(Zero(), m + PadBytes(|m|, rate), rate)
  {
    hide LoadAll, Absorb, Zero;
    var st := LoadAll(Loading(Zero(), 0), m, rate);
    LoadedCount(Loading(Zero(), 0), m, rate);
    var pad := PadBytes(|m|, rate);
    NoWrap(st.n, rate);
    LoadConcat(Loading(Zero(), 0), m, pad, rate);
    PadTotal(|m|, rate);
    var blocks := Quotient(|m| + |pad|, rate);
    LoadIsAbsorb(Zero(), m + pad, blocks, rate);
  }

  lemma Quotient(n: nat, rate: nat) returns (q: nat)
    requires rate > 0 && n % rate == 0
    ensures n == q * rate
  {
    q := n / rate;
  }

  /** Padding whatever the updates left in the block gives the hash of the whole message. */
  lemma DigestOf(m: seq<bv8>, d: nat)
    requires d in {224, 256, 384, 512}
    ensures var st := LoadAll(Loading(Zero(), 0), m, Rate(d));
      Output(LoadAll(st, PadBytes(st.n, Rate(d)), Rate(d)).s, d / 8) == Sha3(m, d)
  {
    hide LoadAll, Absorb, Zero, Output, PadBytes;
    PaddedIsAbsorbed(m, Rate(d));
  }

  /** Any sequence of updates between Init and Final computes the hash of their concatenation. */
  method Digest(chunks: seq<seq<bv8>>, aligned: seq<bool>, d: nat, order: ByteOrder, bigEndian: bool) returns (hash: seq<bv8>)
    requires d in {224, 256, 384, 512} && |aligned| == |chunks|
    requires (order == Known1234 ==> !bigEndian) && (order == Known4321 ==> bigEndian)
    ensures hash == Sha3(Concat(chunks), d)
  {
    hide LoadAll, PadBytes, Sha3, Zero, LaneByte;
    var cx := new Context(d, order, bigEndian);
    var i := 0;
    ghost var st := cx.Value();
    LoadEmpty(st, Concat(chunks[..0]), cx.nRate);
    while i < |chunks|
      invariant 0 <= i <= |chunks| && cx.Valid() && fresh(cx.u) && cx.nRate == Rate(d)
      invariant cx.Value() == LoadAll(st, Concat(chunks[..i]), Rate(d))
    {
      LoadConcat(st, Concat(chunks[..i]), chunks[i], Rate(d));
      assert chunks[..i + 1][..i] == chunks[..i];
      cx.Update(chunks[i], aligned[i]);
      i := i + 1;
    }
    assert chunks[..i] == chunks;
    hash := DigestBytes(cx, Concat(chunks), d);
  }

  /** The result of sha3 and sha3_query: the first d/8 bytes that Final returns, after the bytes m. */
  method DigestBytes(cx: Context, ghost m: seq<bv8>, d: nat) returns (hash: seq<bv8>)
    requires d in {224, 256, 384, 512} && cx.Valid() && cx.nRate == Rate(d)
    requires cx.Value() == LoadAll(Loading(Zero(), 0), m, Rate(d))
    modifies cx`nLoaded, cx.u
    ensures hash == Sha3(m, d)
  {
    hide LoadAll, PadBytes, Sha3, Zero, LaneByte;
    DigestOf(m, d);
    var z := cx.Final();
    hash := seq(d / 8, k requires 0 <= k < d / 8 && z + d / 8 <= 1600 && cx.u.Length == 200 reads cx.u => cx.X(z + k));
  }
}
