/**
 The SHA-3 context of shell.c: bytes are xored into the state as they arrive, one at a time or a
 word at a time, and the permutation runs whenever a block is full.
 */
module SpongeLoading {
  import opened Fips202
  import opened Sponge

  // ----- what an update does, byte by byte -----

  /** A sponge with the first n bytes of the current block loaded. */
  datatype Loading = Loading(s: Flat, n: nat)

  function Load(st: Loading, b: bv8, rate: nat): Loading
    requires st.n < rate <= 200
  {
    var s := XorAt(st.s, st.n, b);
    if st.n + 1 == rate then Loading(Permute(s), 0) else Loading(s, st.n + 1)
  }

  function LoadAll(st: Loading, p: seq<bv8>, rate: nat): (r: Loading)
    requires st.n < rate <= 200
    ensures r.n < rate
  {
    if p == [] then st else Load(LoadAll(st, p[..|p| - 1], rate), p[|p| - 1], rate)
  }

  /** How a message is cut into updates makes no difference. */
  lemma {:induction false} LoadConcat(st: Loading, p: seq<bv8>, q: seq<bv8>, rate: nat)
    requires st.n < rate <= 200
    ensures LoadAll(st, p + q, rate) == LoadAll(LoadAll(st, p, rate), q, rate)
  {
    if q == [] {
      assert p + q == p;
    } else {
      assert (p + q)[..|p + q| - 1] == p + q[..|q| - 1];
      LoadConcat(st, p, q[..|q| - 1], rate);
    }
  }

  /** Within a block, loading is xoring. */
  lemma {:induction false} LoadSome(st: Loading, p: seq<bv8>, rate: nat)
    requires st.n + |p| < rate <= 200
    ensures LoadAll(st, p, rate) == Loading(XorFrom(st.s, st.n, p), st.n + |p|)
  {
    hide XorAt, Permute;
    if p != [] {
      LoadSome(st, p[..|p| - 1], rate);
    }
  }

  lemma LoadBlock(s: Flat, p: seq<bv8>, rate: nat)
    requires |p| == rate && 0 < rate <= 200
    ensures LoadAll(Loading(s, 0), p, rate) == Loading(Permute(XorFrom(s, 0, p)), 0)
  {
    hide Permute, XorAt;
    LoadSome(Loading(s, 0), p[..rate - 1], rate);
  }

  /** Loading whole blocks is absorbing them. */
  lemma {:induction false} LoadIsAbsorb(s: Flat, p: seq<bv8>, blocks: nat, rate: nat)
    requires 0 < rate <= 200 && |p| == blocks * rate
    ensures LoadAll(Loading(s, 0), p, rate) == Loading(Absorb(s, p, rate), 0)
    decreases blocks
  {
    hide Permute, XorFrom, Load, Absorb, LoadAll;
    if blocks == 0 {
      LoadNone(s, p, rate);
    } else {
      assert blocks * rate == (blocks - 1) * rate + rate;
      var b, q := p[..rate], p[rate..];
      assert p == b + q;
      LoadConcat(Loading(s, 0), b, q, rate);
      LoadBlock(s, b, rate);
      LoadIsAbsorb(Permute(XorFrom(s, 0, b)), q, blocks - 1, rate);
      AbsorbBlock(s, p, rate);
    }
  }

  lemma LoadNone(s: Flat, p: seq<bv8>, rate: nat)
    requires 0 < rate <= 200 && p == []
    ensures LoadAll(Loading(s, 0), p, rate) == Loading(s, 0) && Absorb(s, p, rate) == s
  {
  }

  lemma AbsorbBlock(s: Flat, p: seq<bv8>, rate: nat)
    requires 0 < rate <= 200 && |p| >= rate
    ensures Absorb(s, p, rate) == Absorb(Permute(XorFrom(s, 0, p[..rate])), p[rate..], rate)
  {
  }

  lemma {:induction false} LoadZeros(st: Loading, k: nat, rate: nat)
    requires st.n + k < rate <= 200
    ensures LoadAll(st, Zeros(k), rate) == Loading(st.s, st.n + k)
  {
    hide XorByte, Permute;
    if k > 0 {
      var z := Zeros(k);
      assert z[..k - 1] == Zeros(k - 1);
      LoadZeros(st, k - 1, rate);
      XorNothing(st.s, st.n + k - 1);
    }
  }

  lemma XorNothing(s: Flat, i: nat)
    requires i < 200
    ensures XorAt(s, i, 0) == s
  {
    XorZero(s[i / 8], i % 8);
  }

  lemma XorZero(w: Lane, j: nat)
    requires j < 8
    ensures XorByte(w, j, 0) == w
  {
    PlaceZero(j);
  }

  lemma PlaceZero(j: nat)
    ensures Place(0, j) == 0
  {
  }

  // ----- a word at a time -----

  /** At a word boundary, loading eight bytes is xoring one little-endian word. */
  lemma LoadWord(st: Loading, p: seq<bv8>, rate: nat)
    requires |p| == 8 && st.n % 8 == 0 && st.n + 8 <= rate <= 200
    ensures var s := st.s[st.n / 8 := Xor(st.s[st.n / 8], Word(p))];
      LoadAll(st, p, rate) == if st.n + 8 == rate then Loading(Permute(s), 0) else Loading(s, st.n + 8)
  {
    hide XorAt, XorByte, Permute, Xor, Word, XorFrom, LaneBytes;
    XorWord(st.s[st.n / 8], p);
    LoadSome(st, p[..7], rate);
    XorFromLast(st.s, st.n, p);
    BytesOfLane(st.s, st.n / 8, p);
  }

  lemma XorFromLast(s: Flat, i: nat, p: seq<bv8>)
    requires 0 < |p| && i + |p| <= 200
    ensures XorFrom(s, i, p) == XorAt(XorFrom(s, i, p[..|p| - 1]), i + |p| - 1, p[|p| - 1])
  {
  }

  lemma {:induction false} BytesOfLane(s: Flat, l: nat, p: seq<bv8>)
    requires l < 25 && |p| <= 8
    ensures XorFrom(s, 8 * l, p) == s[l := LaneBytes(s[l], p)]
  {
    hide XorByte;
    if p != [] {
      BytesOfLane(s, l, p[..|p| - 1]);
    }
  }
}
