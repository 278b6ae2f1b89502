/**
 The 24-round Keccak permutation of shell.c, which updates the 25 lanes where they are.
 A block of the unrolled code reads five scattered lanes, the ones that make a row of the new
 state, and writes that row back over the same five lanes.  No lane is ever moved home, so that
 after k rounds of a four-round block, logical lane (x,y) sits at the k-fold image of (x,y)
 under (x,y) -> (x, x+2y mod 5).
 */
module Keccak {
  import opened Fips202

  const A00 := 0 const A01 := 1 const A02 := 2 const A03 := 3 const A04 := 4
  const A10 := 5 const A11 := 6 const A12 := 7 const A13 := 8 const A14 := 9
  const A20 := 10 const A21 := 11 const A22 := 12 const A23 := 13 const A24 := 14
  const A30 := 15 const A31 := 16 const A32 := 17 const A33 := 18 const A34 := 19
  const A40 := 20 const A41 := 21 const A42 := 22 const A43 := 23 const A44 := 24

  const RC: seq<bv64> := [
    0x0000000000000001, 0x0000000000008082, 0x800000000000808a, 0x8000000080008000,
    0x000000000000808b, 0x0000000080000001, 0x8000000080008081, 0x8000000000008009,
    0x000000000000008a, 0x0000000000000088, 0x0000000080008009, 0x000000008000000a,
    0x000000008000808b, 0x800000000000008b, 0x8000000000008089, 0x8000000000008003,
    0x8000000000008002, 0x8000000000000080, 0x000000000000800a, 0x800000008000000a,
    0x8000000080008081, 0x8000000000008080, 0x0000000080000001, 0x8000000080008008 ]

  // ----- where the lanes are -----

  /** The row holding logical lane (x,y) after k rounds of a block. */
  function Row(k: nat, x: nat, y: nat): (r: nat)
    requires x < 5 && y < 5
    ensures r < 5
  {
    if k == 0 then y else (x + 2 * Row(k - 1, x, y)) % 5
  }

  /** The storage index of logical lane (x,y) after k rounds. */
  function Home(k: nat, x: nat, y: nat): (i: nat)
    requires x < 5 && y < 5
    ensures i < 25
  {
    5 * Row(k, x, y) + x
  }

  /** The state that the stored lanes s stand for after k rounds of a block. */
  function View(s: seq<Lane>, k: nat): State
    requires |s| >= 25
  {
    seq(5, x requires 0 <= x < 5 => seq(5, y requires 0 <= y < 5 => s[Home(k, x, y)]))
  }

  lemma Mod5(a: nat, b: nat, d: nat)
    requires a == b + 5 * d
    ensures a % 5 == b % 5
  {
  }

  lemma RowNext(k: nat, x: nat, y: nat, q: nat, r: nat, d: nat)
    requires x < 5 && y < 5 && Row(k, x, y) == q % 5 && x + 2 * q == r + 5 * d
    ensures Row(k + 1, x, y) == r % 5
  {
    Mod5(x + 2 * q, r, d);
    Mod5(x + 2 * q, x + 2 * (q % 5), 2 * (q / 5));
  }

  /** The k-fold image of (x,y), in closed form. */
  function RowClosed(k: nat, x: nat, y: nat): nat
    requires x < 5 && y < 5
  {
    if k == 0 || k == 4 then y
    else if k == 1 then (x + 2 * y) % 5
    else if k == 2 then (3 * x + 4 * y) % 5
    else (2 * x + 3 * y) % 5
  }

  /** The map has order four, so that a block of four rounds ends in the layout it began with. */
  lemma RowValues(k: nat, x: nat, y: nat)
    requires x < 5 && y < 5 && k <= 4
    ensures Row(k, x, y) == RowClosed(k, x, y)
  {
    hide Row;
    RowZero(x, y);
    if k > 0 { RowNext(0, x, y, y, x + 2 * y, 0); }
    if k > 1 { RowNext(1, x, y, x + 2 * y, 3 * x + 4 * y, 0); }
    if k > 2 { RowNext(2, x, y, 3 * x + 4 * y, 2 * x + 3 * y, x + y); }
    if k > 3 { RowNext(3, x, y, 2 * x + 3 * y, y, x + y); }
  }

  lemma RowZero(x: nat, y: nat)
    requires x < 5 && y < 5
    ensures Row(0, x, y) == y == y % 5
  {
  }

  lemma ViewFour(s: seq<Lane>)
    requires |s| >= 25
    ensures View(s, 4) == View(s, 0)
  {
    hide Row;
    forall x, y | 0 <= x < 5 && 0 <= y < 5
      ensures Home(4, x, y) == Home(0, x, y)
    {
      RowValues(4, x, y);
      RowValues(0, x, y);
    }
    SameState(View(s, 4), View(s, 0));
  }

  /** Two lanes of a column never share a home. */
  lemma {:induction false} HomesDistinct(k: nat, x: nat, y: nat, x': nat, y': nat)
    requires x < 5 && y < 5 && x' < 5 && y' < 5 && Home(k, x, y) == Home(k, x', y')
    ensures x == x' && y == y'
  {
    if k > 0 {
      assert Row(k, x, y) == Row(k, x, y') == (x + 2 * Row(k - 1, x, y)) % 5 == (x + 2 * Row(k - 1, x, y')) % 5;
      DoublingInjective(x, Row(k - 1, x, y), Row(k - 1, x, y'));
      HomesDistinct(k - 1, x, y, x, y');
    }
  }

  lemma DoublingInjective(x: nat, p: nat, q: nat)
    requires x < 5 && p < 5 && q < 5 && (x + 2 * p) % 5 == (x + 2 * q) % 5
    ensures p == q
  {
  }

  /** The lane that round k+1 reads for column c of its row y is the one that it overwrites. */
  lemma {:induction false} HomeOfInput(k: nat, c: nat, y: nat)
    requires c < 5 && y < 5
    ensures Home(k, c, (c + 2 * y) % 5) == Home(k + 1, c, y)
  {
    var m := (c + 2 * y) % 5;
    if k > 0 {
      HomeOfInput(k - 1, c, y);
      assert Row(k, c, m) == (c + 2 * Row(k - 1, c, m)) % 5;
      assert Row(k + 1, c, y) == (c + 2 * Row(k, c, y)) % 5;
    } else {
      assert Row(1, c, y) == (c + 2 * Row(0, c, y)) % 5;
    }
  }

  /** Storage while round k of a block runs: rows below n hold c's, the others still hold a's. */
  ghost predicate Progress(s: seq<Lane>, k: nat, a: State, c: State, n: nat)
    requires |s| >= 25
  {
    forall x, y :: 0 <= x < 5 && 0 <= y < 5 ==>
      s[Home(k, x, y)] == if y < n then c[x][y] else a[x][(x + 2 * y) % 5]
  }

  lemma ProgressStart(s: seq<Lane>, k: nat, c: State)
    requires |s| >= 25 && k > 0
    ensures Progress(s, k, View(s, k - 1), c, 0)
  {
    hide Row, Home;
    forall x, y | 0 <= x < 5 && 0 <= y < 5
      ensures s[Home(k, x, y)] == View(s, k - 1)[x][(x + 2 * y) % 5]
    {
      HomeOfInput(k - 1, x, y);
    }
  }

  lemma ProgressEnd(s: seq<Lane>, k: nat, a: State, c: State)
    requires |s| >= 25 && Progress(s, k, a, c, 5)
    ensures View(s, k) == c
  {
    hide Row, Home;
    SameState(View(s, k), c);
  }

  /** A state is its 25 lanes. */
  lemma SameState(a: State, b: State)
    requires forall x, y :: 0 <= x < 5 && 0 <= y < 5 ==> a[x][y] == b[x][y]
    ensures a == b
  {
    assert forall x :: 0 <= x < 5 ==> a[x] == b[x];
  }

  // ----- one row of one round -----

  /** The lanes of a row after theta, rho and pi. */
  lemma AfterPi(a: State, x: nat, y: nat, c: nat)
    requires x < 5 && y < 5 && c == (x + 3 * y) % 5
    ensures Pi(Rho(Theta(a)))[x][y] == Rotate(Xor(a[c][x], ThetaEffect(a, c)), RhoTable(c, x))
  {
    hide RhoTable, Rotate, Xor, ThetaEffect;
    RhoOffsetValues(c, x);
  }

  lemma ChiRow(b: State, y: nat)
    requires y < 5
    ensures var c := Chi(b);
      && c[0][y] == ChiLane(b[0][y], b[1][y], b[2][y]) && c[1][y] == ChiLane(b[1][y], b[2][y], b[3][y])
      && c[2][y] == ChiLane(b[2][y], b[3][y], b[4][y]) && c[3][y] == ChiLane(b[3][y], b[4][y], b[0][y])
      && c[4][y] == ChiLane(b[4][y], b[0][y], b[1][y])
  {
    hide ChiLane;
  }

  /** Where lane Bj of a block comes from: the stored lane, the column effect and the rotation. */
  datatype Input = Input(lane: nat, effect: Lane, rotation: nat)

  datatype Five = Five(o0: nat, o1: nat, o2: nat, o3: nat, o4: nat) {
    function At(x: nat): nat {
      if x == 0 then o0 else if x == 1 then o1 else if x == 2 then o2 else if x == 3 then o3 else o4
    }
  }

  /** Row y is stored at the lanes of out after k rounds. */
  ghost predicate RowHomes(k: nat, y: nat, out: Five)
    requires y < 5
  {
    && out.o0 == Home(k, 0, y) && out.o1 == Home(k, 1, y) && out.o2 == Home(k, 2, y)
    && out.o3 == Home(k, 3, y) && out.o4 == Home(k, 4, y)
  }

  ghost predicate Feeds(b: Input, out: Five, a: State, x: nat, y: nat)
    requires x < 5 && y < 5
  {
    var c := (x + 3 * y) % 5;
    b.lane == out.At(c) && b.effect == ThetaEffect(a, c) && b.rotation == RhoTable(c, x)
  }

  lemma HomeInRow(k: nat, y: nat, out: Five, x: nat)
    requires y < 5 && x < 5 && RowHomes(k, y, out)
    ensures out.At(x) == Home(k, x, y)
  {
    hide Home;
  }

  lemma InputLane(s: seq<Lane>, b: Input, out: Five, k: nat, a: State, c: State, x: nat, y: nat)
    requires |s| >= 25 && x < 5 && y < 5
    requires RowHomes(k, y, out)
    requires Feeds(b, out, a, x, y) && Progress(s, k, a, c, y)
    ensures b.lane < 25 && b.rotation < 64
    ensures Rotate(Xor(s[b.lane], b.effect), b.rotation) == Pi(Rho(Theta(a)))[x][y]
  {
    hide RhoTable, Rotate, Xor, ThetaEffect, Theta, Rho, Pi, Row, Home, RowHomes;
    var col := (x + 3 * y) % 5;
    Mod5(col + 2 * y, x, y - (x + 3 * y) / 5);
    var i := Home(k, col, y);
    HomeInRow(k, y, out, col);
    assert s[i] == a[col][x];
    AfterPi(a, x, y, col);
    RhoOffsetValues(col, x);
  }

  /**
   One block of the unrolled loop: forms lanes B0..B4, which are row y of the state after
   theta, rho and pi, and writes the row that chi makes of them to the lanes o0..o4.
   */
  method Block(u: array<Lane>, b0: Input, b1: Input, b2: Input, b3: Input, b4: Input,
               o0: nat, o1: nat, o2: nat, o3: nat, o4: nat, ghost k: nat, ghost a: State, ghost c: State, ghost y: nat)
    requires u.Length >= 25 && y < 5
    requires RowHomes(k, y, Five(o0, o1, o2, o3, o4))
    requires var out := Five(o0, o1, o2, o3, o4);
      Feeds(b0, out, a, 0, y) && Feeds(b1, out, a, 1, y) && Feeds(b2, out, a, 2, y) && Feeds(b3, out, a, 3, y) && Feeds(b4, out, a, 4, y)
    requires Progress(u[..25], k, a, c, y)
    requires forall x :: 0 <= x < 5 ==> c[x][y] == Chi(Pi(Rho(Theta(a))))[x][y]
    modifies u
    ensures Progress(u[..25], k, a, c, y + 1)
    ensures u[25..] == old(u[25..])
  {
    hide RhoTable, Rotate, Xor, ChiLane, Theta, Rho, Pi, Chi, Row, Home, Feeds, Progress;
    ghost var s, out, b := u[..25], Five(o0, o1, o2, o3, o4), Pi(Rho(Theta(a)));
    InputLane(s, b0, out, k, a, c, 0, y);
    InputLane(s, b1, out, k, a, c, 1, y);
    InputLane(s, b2, out, k, a, c, 2, y);
    InputLane(s, b3, out, k, a, c, 3, y);
    InputLane(s, b4, out, k, a, c, 4, y);
    var B0 := Rotate(Xor(u[b0.lane], b0.effect), b0.rotation);
    var B1 := Rotate(Xor(u[b1.lane], b1.effect), b1.rotation);
    var B2 := Rotate(Xor(u[b2.lane], b2.effect), b2.rotation);
    var B3 := Rotate(Xor(u[b3.lane], b3.effect), b3.rotation);
    var B4 := Rotate(Xor(u[b4.lane], b4.effect), b4.rotation);
    assert B0 == b[0][y] && B1 == b[1][y] && B2 == b[2][y] && B3 == b[3][y] && B4 == b[4][y];
    ChiRow(b, y);
    u[o0] := ChiLane(B0, B1, B2);
    assert u[..25] == s[o0 := ChiLane(B0, B1, B2)];
    ghost var s1 := u[..25];
    u[o1] := ChiLane(B1, B2, B3);
    assert u[..25] == s1[o1 := ChiLane(B1, B2, B3)];
    ghost var s2 := u[..25];
    u[o2] := ChiLane(B2, B3, B4);
    assert u[..25] == s2[o2 := ChiLane(B2, B3, B4)];
    ghost var s3 := u[..25];
    u[o3] := ChiLane(B3, B4, B0);
    assert u[..25] == s3[o3 := ChiLane(B3, B4, B0)];
    ghost var s4 := u[..25];
    u[o4] := ChiLane(B4, B0, B1);
    assert u[..25] == s4[o4 := ChiLane(B4, B0, B1)];
    RowWritten(s, k, a, c, y, ChiLane(B0, B1, B2), ChiLane(B1, B2, B3), ChiLane(B2, B3, B4), ChiLane(B3, B4, B0), ChiLane(B4, B0, B1));
  }

  lemma RowWritten(s: seq<Lane>, k: nat, a: State, c: State, y: nat, v0: Lane, v1: Lane, v2: Lane, v3: Lane, v4: Lane)
    requires |s| >= 25 && y < 5 && Progress(s, k, a, c, y)
    requires v0 == c[0][y] && v1 == c[1][y] && v2 == c[2][y] && v3 == c[3][y] && v4 == c[4][y]
    ensures Progress(s[Home(k, 0, y) := v0][Home(k, 1, y) := v1][Home(k, 2, y) := v2][Home(k, 3, y) := v3][Home(k, 4, y) := v4], k, a, c, y + 1)
  {
    hide Row, Home;
    var t := s[Home(k, 0, y) := v0][Home(k, 1, y) := v1][Home(k, 2, y) := v2][Home(k, 3, y) := v3][Home(k, 4, y) := v4];
    forall x, y' | 0 <= x < 5 && 0 <= y' < 5
      ensures t[Home(k, x, y')] == if y' < y + 1 then c[x][y'] else a[x][(x + 2 * y') % 5]
    {
      forall x' | 0 <= x' < 5 && Home(k, x, y') == Home(k, x', y)
        ensures x' == x && y' == y
      {
        HomesDistinct(k, x, y', x', y);
      }
      if y' == y {
        forall x' | 0 <= x' < 5 && Home(k, x, y) == Home(k, x', y)
          ensures x' == x
        {
          HomesDistinct(k, x, y, x', y);
        }
      }
    }
  }

  // ----- the four rounds of a block -----

  lemma HomeAt(k: nat, x: nat, y: nat, i: nat)
    requires k <= 4 && x < 5 && y < 5
    requires i == 5 * RowClosed(k, x, y) + x
    ensures Home(k, x, y) == i
  {
    hide Row;
    RowValues(k, x, y);
  }

  lemma RowAt(k: nat, y: nat, out: Five)
    requires k <= 4 && y < 5
    requires out.o0 == 5 * RowClosed(k, 0, y) && out.o1 == 5 * RowClosed(k, 1, y) + 1 && out.o2 == 5 * RowClosed(k, 2, y) + 2
    requires out.o3 == 5 * RowClosed(k, 3, y) + 3 && out.o4 == 5 * RowClosed(k, 4, y) + 4
    ensures RowHomes(k, y, out)
  {
    hide Home, RowClosed;
    HomeAt(k, 0, y, out.o0);
    HomeAt(k, 1, y, out.o1);
    HomeAt(k, 2, y, out.o2);
    HomeAt(k, 3, y, out.o3);
    HomeAt(k, 4, y, out.o4);
  }

  lemma ViewAt(s: seq<Lane>, k: nat, x: nat, y: nat, i: nat)
    requires |s| >= 25 && k <= 4 && x < 5 && y < 5
    requires i == 5 * RowClosed(k, x, y) + x
    ensures i < 25 && View(s, k)[x][y] == s[i]
  {
    hide Home, Row;
    HomeAt(k, x, y, i);
  }

  method Theta0(u: array<Lane>) returns (D0: Lane, D1: Lane, D2: Lane, D3: Lane, D4: Lane)
    requires u.Length >= 25
    ensures var a := View(u[..25], 0);
      D0 == ThetaEffect(a, 0) && D1 == ThetaEffect(a, 1) && D2 == ThetaEffect(a, 2) && D3 == ThetaEffect(a, 3) && D4 == ThetaEffect(a, 4)
  {
    hide RhoTable, Rotate, Xor, Parity, RhoOffset, View, Row, Home;
    ghost var k, s := 0, u[..25];
    ViewAt(s, k, 0, 0, A00); ViewAt(s, k, 1, 0, A01); ViewAt(s, k, 2, 0, A02); ViewAt(s, k, 3, 0, A03); ViewAt(s, k, 4, 0, A04);
    ViewAt(s, k, 0, 1, A10); ViewAt(s, k, 1, 1, A11); ViewAt(s, k, 2, 1, A12); ViewAt(s, k, 3, 1, A13); ViewAt(s, k, 4, 1, A14);
    ViewAt(s, k, 0, 2, A20); ViewAt(s, k, 1, 2, A21); ViewAt(s, k, 2, 2, A22); ViewAt(s, k, 3, 2, A23); ViewAt(s, k, 4, 2, A24);
    ViewAt(s, k, 0, 3, A30); ViewAt(s, k, 1, 3, A31); ViewAt(s, k, 2, 3, A32); ViewAt(s, k, 3, 3, A33); ViewAt(s, k, 4, 3, A34);
    ViewAt(s, k, 0, 4, A40); ViewAt(s, k, 1, 4, A41); ViewAt(s, k, 2, 4, A42); ViewAt(s, k, 3, 4, A43); ViewAt(s, k, 4, 4, A44);
    var C0 := Parity(u[A00], u[A10], u[A20], u[A30], u[A40]);
    var C1 := Parity(u[A01], u[A11], u[A21], u[A31], u[A41]);
    var C2 := Parity(u[A02], u[A12], u[A22], u[A32], u[A42]);
    var C3 := Parity(u[A03], u[A13], u[A23], u[A33], u[A43]);
    var C4 := Parity(u[A04], u[A14], u[A24], u[A34], u[A44]);
    D0 := Xor(C4, Rotate(C1, 1));
    D1 := Xor(C0, Rotate(C2, 1));
    D2 := Xor(C1, Rotate(C3, 1));
    D3 := Xor(C2, Rotate(C4, 1));
    D4 := Xor(C3, Rotate(C0, 1));
  }

  method Round0(u: array<Lane>, rc: Lane)
    requires u.Length >= 25
    modifies u
    ensures View(u[..25], 1) == Round(View(old(u[..25]), 0), rc)
    ensures u[25..] == old(u[25..])
  {
    hide Rotate, Xor, Parity, ChiLane, ThetaEffect, ColumnParity, RhoOffset;
    hide Theta, Rho, Pi, Chi, Iota, Round, View, Row, Home, RowHomes, Progress, IsState;
    var D0, D1, D2, D3, D4 := Theta0(u);
    ghost var a := View(u[..25], 0);
    ghost var b := Chi(Pi(Rho(Theta(a))));
    ghost var c := Iota(b, rc);
    ghost var k := 1;
    ProgressStart(u[..25], k, b);
    HomeAt(k, 0, 0, A00);
    RowAt(k, 0, Five(A00, A11, A22, A33, A44));
    RowAt(k, 1, Five(A20, A31, A42, A03, A14));
    RowAt(k, 2, Five(A40, A01, A12, A23, A34));
    RowAt(k, 3, Five(A10, A21, A32, A43, A04));
    RowAt(k, 4, Five(A30, A41, A02, A13, A24));
    Block(u, Input(A00, D0, 0), Input(A11, D1, 44), Input(A22, D2, 43), Input(A33, D3, 21), Input(A44, D4, 14),
          A00, A11, A22, A33, A44, k, a, b, 0);
    ghost var s := u[..25];
    u[A00] := Xor(u[A00], rc);
    assert u[..25] == s[0 := Xor(s[0], rc)];
    ConstantAdded(s, k, a, b, rc);
    Block(u, Input(A03, D3, 28), Input(A14, D4, 20), Input(A20, D0, 3), Input(A31, D1, 45), Input(A42, D2, 61),
          A20, A31, A42, A03, A14, k, a, c, 1);
    Block(u, Input(A01, D1, 1), Input(A12, D2, 6), Input(A23, D3, 25), Input(A34, D4, 8), Input(A40, D0, 18),
          A40, A01, A12, A23, A34, k, a, c, 2);
    Block(u, Input(A04, D4, 27), Input(A10, D0, 36), Input(A21, D1, 10), Input(A32, D2, 15), Input(A43, D3, 56),
          A10, A21, A32, A43, A04, k, a, c, 3);
    Block(u, Input(A02, D2, 62), Input(A13, D3, 55), Input(A24, D4, 39), Input(A30, D0, 41), Input(A41, D1, 2),
          A30, A41, A02, A13, A24, k, a, c, 4);
    ProgressEnd(u[..25], k, a, c);
    RoundDef(a, rc);
  }

  method Theta1(u: array<Lane>) returns (D0: Lane, D1: Lane, D2: Lane, D3: Lane, D4: Lane)
    requires u.Length >= 25
    ensures var a := View(u[..25], 1);
      D0 == ThetaEffect(a, 0) && D1 == ThetaEffect(a, 1) && D2 == ThetaEffect(a, 2) && D3 == ThetaEffect(a, 3) && D4 == ThetaEffect(a, 4)
  {
    hide RhoTable, Rotate, Xor, Parity, RhoOffset, View, Row, Home;
    ghost var k, s := 1, u[..25];
    ViewAt(s, k, 0, 0, A00); ViewAt(s, k, 1, 0, A11); ViewAt(s, k, 2, 0, A22); ViewAt(s, k, 3, 0, A33); ViewAt(s, k, 4, 0, A44);
    ViewAt(s, k, 0, 1, A20); ViewAt(s, k, 1, 1, A31); ViewAt(s, k, 2, 1, A42); ViewAt(s, k, 3, 1, A03); ViewAt(s, k, 4, 1, A14);
    ViewAt(s, k, 0, 2, A40); ViewAt(s, k, 1, 2, A01); ViewAt(s, k, 2, 2, A12); ViewAt(s, k, 3, 2, A23); ViewAt(s, k, 4, 2, A34);
    ViewAt(s, k, 0, 3, A10); ViewAt(s, k, 1, 3, A21); ViewAt(s, k, 2, 3, A32); ViewAt(s, k, 3, 3, A43); ViewAt(s, k, 4, 3, A04);
    ViewAt(s, k, 0, 4, A30); ViewAt(s, k, 1, 4, A41); ViewAt(s, k, 2, 4, A02); ViewAt(s, k, 3, 4, A13); ViewAt(s, k, 4, 4, A24);
    var C0 := Parity(u[A00], u[A20], u[A40], u[A10], u[A30]);
    var C1 := Parity(u[A11], u[A31], u[A01], u[A21], u[A41]);
    var C2 := Parity(u[A22], u[A42], u[A12], u[A32], u[A02]);
    var C3 := Parity(u[A33], u[A03], u[A23], u[A43], u[A13]);
    var C4 := Parity(u[A44], u[A14], u[A34], u[A04], u[A24]);
    D0 := Xor(C4, Rotate(C1, 1));
    D1 := Xor(C0, Rotate(C2, 1));
    D2 := Xor(C1, Rotate(C3, 1));
    D3 := Xor(C2, Rotate(C4, 1));
    D4 := Xor(C3, Rotate(C0, 1));
  }

  method Round1(u: array<Lane>, rc: Lane)
    requires u.Length >= 25
    modifies u
    ensures View(u[..25], 2) == Round(View(old(u[..25]), 1), rc)
    ensures u[25..] == old(u[25..])
  {
    hide Rotate, Xor, Parity, ChiLane, ThetaEffect, ColumnParity, RhoOffset;
    hide Theta, Rho, Pi, Chi, Iota, Round, View, Row, Home, RowHomes, Progress, IsState;
    var D0, D1, D2, D3, D4 := Theta1(u);
    ghost var a := View(u[..25], 1);
    ghost var b := Chi(Pi(Rho(Theta(a))));
    ghost var c := Iota(b, rc);
    ghost var k := 2;
    ProgressStart(u[..25], k, b);
    HomeAt(k, 0, 0, A00);
    RowAt(k, 0, Five(A00, A31, A12, A43, A24));
    RowAt(k, 1, Five(A40, A21, A02, A33, A14));
    RowAt(k, 2, Five(A30, A11, A42, A23, A04));
    RowAt(k, 3, Five(A20, A01, A32, A13, A44));
    RowAt(k, 4, Five(A10, A41, A22, A03, A34));
    Block(u, Input(A00, D0, 0), Input(A31, D1, 44), Input(A12, D2, 43), Input(A43, D3, 21), Input(A24, D4, 14),
          A00, A31, A12, A43, A24, k, a, b, 0);
    ghost var s := u[..25];
    u[A00] := Xor(u[A00], rc);
    assert u[..25] == s[0 := Xor(s[0], rc)];
    ConstantAdded(s, k, a, b, rc);
    Block(u, Input(A33, D3, 28), Input(A14, D4, 20), Input(A40, D0, 3), Input(A21, D1, 45), Input(A02, D2, 61),
          A40, A21, A02, A33, A14, k, a, c, 1);
    Block(u, Input(A11, D1, 1), Input(A42, D2, 6), Input(A23, D3, 25), Input(A04, D4, 8), Input(A30, D0, 18),
          A30, A11, A42, A23, A04, k, a, c, 2);
    Block(u, Input(A44, D4, 27), Input(A20, D0, 36), Input(A01, D1, 10), Input(A32, D2, 15), Input(A13, D3, 56),
          A20, A01, A32, A13, A44, k, a, c, 3);
    Block(u, Input(A22, D2, 62), Input(A03, D3, 55), Input(A34, D4, 39), Input(A10, D0, 41), Input(A41, D1, 2),
          A10, A41, A22, A03, A34, k, a, c, 4);
    ProgressEnd(u[..25], k, a, c);
    RoundDef(a, rc);
  }

  method Theta2(u: array<Lane>) returns (D0: Lane, D1: Lane, D2: Lane, D3: Lane, D4: Lane)
    requires u.Length >= 25
    ensures var a := View(u[..25], 2);
      D0 == ThetaEffect(a, 0) && D1 == ThetaEffect(a, 1) && D2 == ThetaEffect(a, 2) && D3 == ThetaEffect(a, 3) && D4 == ThetaEffect(a, 4)
  {
    hide RhoTable, Rotate, Xor, Parity, RhoOffset, View, Row, Home;
    ghost var k, s := 2, u[..25];
    ViewAt(s, k, 0, 0, A00); ViewAt(s, k, 1, 0, A31); ViewAt(s, k, 2, 0, A12); ViewAt(s, k, 3, 0, A43); ViewAt(s, k, 4, 0, A24);
    ViewAt(s, k, 0, 1, A40); ViewAt(s, k, 1, 1, A21); ViewAt(s, k, 2, 1, A02); ViewAt(s, k, 3, 1, A33); ViewAt(s, k, 4, 1, A14);
    ViewAt(s, k, 0, 2, A30); ViewAt(s, k, 1, 2, A11); ViewAt(s, k, 2, 2, A42); ViewAt(s, k, 3, 2, A23); ViewAt(s, k, 4, 2, A04);
    ViewAt(s, k, 0, 3, A20); ViewAt(s, k, 1, 3, A01); ViewAt(s, k, 2, 3, A32); ViewAt(s, k, 3, 3, A13); ViewAt(s, k, 4, 3, A44);
    ViewAt(s, k, 0, 4, A10); ViewAt(s, k, 1, 4, A41); ViewAt(s, k, 2, 4, A22); ViewAt(s, k, 3, 4, A03); ViewAt(s, k, 4, 4, A34);
    var C0 := Parity(u[A00], u[A40], u[A30], u[A20], u[A10]);
    var C1 := Parity(u[A31], u[A21], u[A11], u[A01], u[A41]);
    var C2 := Parity(u[A12], u[A02], u[A42], u[A32], u[A22]);
    var C3 := Parity(u[A43], u[A33], u[A23], u[A13], u[A03]);
    var C4 := Parity(u[A24], u[A14], u[A04], u[A44], u[A34]);
    D0 := Xor(C4, Rotate(C1, 1));
    D1 := Xor(C0, Rotate(C2, 1));
    D2 := Xor(C1, Rotate(C3, 1));
    D3 := Xor(C2, Rotate(C4, 1));
    D4 := Xor(C3, Rotate(C0, 1));
  }

  method Round2(u: array<Lane>, rc: Lane)
    requires u.Length >= 25
    modifies u
    ensures View(u[..25], 3) == Round(View(old(u[..25]), 2), rc)
    ensures u[25..] == old(u[25..])
  {
    hide Rotate, Xor, Parity, ChiLane, ThetaEffect, ColumnParity, RhoOffset;
    hide Theta, Rho, Pi, Chi, Iota, Round, View, Row, Home, RowHomes, Progress, IsState;
    var D0, D1, D2, D3, D4 := Theta2(u);
    ghost var a := View(u[..25], 2);
    ghost var b := Chi(Pi(Rho(Theta(a))));
    ghost var c := Iota(b, rc);
    ghost var k := 3;
    ProgressStart(u[..25], k, b);
    HomeAt(k, 0, 0, A00);
    RowAt(k, 0, Five(A00, A21, A42, A13, A34));
    RowAt(k, 1, Five(A30, A01, A22, A43, A14));
    RowAt(k, 2, Five(A10, A31, A02, A23, A44));
    RowAt(k, 3, Five(A40, A11, A32, A03, A24));
    RowAt(k, 4, Five(A20, A41, A12, A33, A04));
    Block(u, Input(A00, D0, 0), Input(A21, D1, 44), Input(A42, D2, 43), Input(A13, D3, 21), Input(A34, D4, 14),
          A00, A21, A42, A13, A34, k, a, b, 0);
    ghost var s := u[..25];
    u[A00] := Xor(u[A00], rc);
    assert u[..25] == s[0 := Xor(s[0], rc)];
    ConstantAdded(s, k, a, b, rc);
    Block(u, Input(A43, D3, 28), Input(A14, D4, 20), Input(A30, D0, 3), Input(A01, D1, 45), Input(A22, D2, 61),
          A30, A01, A22, A43, A14, k, a, c, 1);
    Block(u, Input(A31, D1, 1), Input(A02, D2, 6), Input(A23, D3, 25), Input(A44, D4, 8), Input(A10, D0, 18),
          A10, A31, A02, A23, A44, k, a, c, 2);
    Block(u, Input(A24, D4, 27), Input(A40, D0, 36), Input(A11, D1, 10), Input(A32, D2, 15), Input(A03, D3, 56),
          A40, A11, A32, A03, A24, k, a, c, 3);
    Block(u, Input(A12, D2, 62), Input(A33, D3, 55), Input(A04, D4, 39), Input(A20, D0, 41), Input(A41, D1, 2),
          A20, A41, A12, A33, A04, k, a, c, 4);
    ProgressEnd(u[..25], k, a, c);
    RoundDef(a, rc);
  }

  method Theta3(u: array<Lane>) returns (D0: Lane, D1: Lane, D2: Lane, D3: Lane, D4: Lane)
    requires u.Length >= 25
    ensures var a := View(u[..25], 3);
      D0 == ThetaEffect(a, 0) && D1 == ThetaEffect(a, 1) && D2 == ThetaEffect(a, 2) && D3 == ThetaEffect(a, 3) && D4 == ThetaEffect(a, 4)
  {
    hide RhoTable, Rotate, Xor, Parity, RhoOffset, View, Row, Home;
    ghost var k, s := 3, u[..25];
    ViewAt(s, k, 0, 0, A00); ViewAt(s, k, 1, 0, A21); ViewAt(s, k, 2, 0, A42); ViewAt(s, k, 3, 0, A13); ViewAt(s, k, 4, 0, A34);
    ViewAt(s, k, 0, 1, A30); ViewAt(s, k, 1, 1, A01); ViewAt(s, k, 2, 1, A22); ViewAt(s, k, 3, 1, A43); ViewAt(s, k, 4, 1, A14);
    ViewAt(s, k, 0, 2, A10); ViewAt(s, k, 1, 2, A31); ViewAt(s, k, 2, 2, A02); ViewAt(s, k, 3, 2, A23); ViewAt(s, k, 4, 2, A44);
    ViewAt(s, k, 0, 3, A40); ViewAt(s, k, 1, 3, A11); ViewAt(s, k, 2, 3, A32); ViewAt(s, k, 3, 3, A03); ViewAt(s, k, 4, 3, A24);
    ViewAt(s, k, 0, 4, A20); ViewAt(s, k, 1, 4, A41); ViewAt(s, k, 2, 4, A12); ViewAt(s, k, 3, 4, A33); ViewAt(s, k, 4, 4, A04);
    var C0 := Parity(u[A00], u[A30], u[A10], u[A40], u[A20]);
    var C1 := Parity(u[A21], u[A01], u[A31], u[A11], u[A41]);
    var C2 := Parity(u[A42], u[A22], u[A02], u[A32], u[A12]);
    var C3 := Parity(u[A13], u[A43], u[A23], u[A03], u[A33]);
    var C4 := Parity(u[A34], u[A14], u[A44], u[A24], u[A04]);
    D0 := Xor(C4, Rotate(C1, 1));
    D1 := Xor(C0, Rotate(C2, 1));
    D2 := Xor(C1, Rotate(C3, 1));
    D3 := Xor(C2, Rotate(C4, 1));
    D4 := Xor(C3, Rotate(C0, 1));
  }

  method Round3(u: array<Lane>, rc: Lane)
    requires u.Length >= 25
    modifies u
    ensures View(u[..25], 4) == Round(View(old(u[..25]), 3), rc)
    ensures u[25..] == old(u[25..])
  {
    hide Rotate, Xor, Parity, ChiLane, ThetaEffect, ColumnParity, RhoOffset;
    hide Theta, Rho, Pi, Chi, Iota, Round, View, Row, Home, RowHomes, Progress, IsState;
    var D0, D1, D2, D3, D4 := Theta3(u);
    ghost var a := View(u[..25], 3);
    ghost var b := Chi(Pi(Rho(Theta(a))));
    ghost var c := Iota(b, rc);
    ghost var k := 4;
    ProgressStart(u[..25], k, b);
    HomeAt(k, 0, 0, A00);
    RowAt(k, 0, Five(A00, A01, A02, A03, A04));
    RowAt(k, 1, Five(A10, A11, A12, A13, A14));
    RowAt(k, 2, Five(A20, A21, A22, A23, A24));
    RowAt(k, 3, Five(A30, A31, A32, A33, A34));
    RowAt(k, 4, Five(A40, A41, A42, A43, A44));
    Block(u, Input(A00, D0, 0), Input(A01, D1, 44), Input(A02, D2, 43), Input(A03, D3, 21), Input(A04, D4, 14),
          A00, A01, A02, A03, A04, k, a, b, 0);
    ghost var s := u[..25];
    u[A00] := Xor(u[A00], rc);
    assert u[..25] == s[0 := Xor(s[0], rc)];
    ConstantAdded(s, k, a, b, rc);
    Block(u, Input(A13, D3, 28), Input(A14, D4, 20), Input(A10, D0, 3), Input(A11, D1, 45), Input(A12, D2, 61),
          A10, A11, A12, A13, A14, k, a, c, 1);
    Block(u, Input(A21, D1, 1), Input(A22, D2, 6), Input(A23, D3, 25), Input(A24, D4, 8), Input(A20, D0, 18),
          A20, A21, A22, A23, A24, k, a, c, 2);
    Block(u, Input(A34, D4, 27), Input(A30, D0, 36), Input(A31, D1, 10), Input(A32, D2, 15), Input(A33, D3, 56),
          A30, A31, A32, A33, A34, k, a, c, 3);
    Block(u, Input(A42, D2, 62), Input(A43, D3, 55), Input(A44, D4, 39), Input(A40, D0, 41), Input(A41, D1, 2),
          A40, A41, A42, A43, A44, k, a, c, 4);
    ProgressEnd(u[..25], k, a, c);
    RoundDef(a, rc);
  }

  lemma RoundDef(a: State, rc: Lane)
    ensures Round(a, rc) == Iota(Chi(Pi(Rho(Theta(a)))), rc)
  {
  }

  lemma ConstantAdded(s: seq<Lane>, k: nat, a: State, b: State, rc: Lane)
    requires |s| >= 25 && Home(k, 0, 0) == 0 && Progress(s, k, a, b, 1)
    ensures Progress(s[0 := Xor(s[0], rc)], k, a, Iota(b, rc), 1)
    ensures forall x, y :: 0 <= x < 5 && 0 < y < 5 ==> Iota(b, rc)[x][y] == b[x][y]
  {
    hide Row, Home;
    var t := s[0 := Xor(s[0], rc)];
    var c := Iota(b, rc);
    forall x, y | 0 <= x < 5 && 0 <= y < 5
      ensures t[Home(k, x, y)] == if y < 1 then c[x][y] else a[x][(x + 2 * y) % 5]
    {
      if Home(k, x, y) == 0 {
        HomesDistinct(k, x, y, 0, 0);
      }
    }
  }

  // ----- the permutation -----

  /** The register of Algorithm 5 at the start of each round. */
  const REGISTER: seq<bv8> := [
    0x01, 0x80, 0xd8, 0x1a, 0xdf, 0x09, 0x35, 0x4f, 0xca, 0x70, 0x41, 0xec,
    0xd5, 0xcd, 0x63, 0xab, 0xaa, 0x2a, 0xf2, 0xe8, 0x37, 0x3e, 0x0b, 0x44, 0x8e ]

  lemma RegisterStep(ir: nat)
    requires ir < 24
    ensures SevenSteps(REGISTER[ir]) == REGISTER[ir + 1] && RoundConstantFrom(REGISTER[ir]) == RC[ir]
    ensures |RC| == 24
  {
    hide SevenSteps, RoundConstantFrom;
    if ir < 6 { RegisterStep0(ir); } else if ir < 12 { RegisterStep6(ir); } else if ir < 18 { RegisterStep12(ir); } else { RegisterStep18(ir); }
  }

  lemma RegisterStep0(ir: nat)
    requires 0 <= ir < 6
    ensures SevenSteps(REGISTER[ir]) == REGISTER[ir + 1] && RoundConstantFrom(REGISTER[ir]) == RC[ir]
  {
  }

  lemma RegisterStep6(ir: nat)
    requires 6 <= ir < 12
    ensures SevenSteps(REGISTER[ir]) == REGISTER[ir + 1] && RoundConstantFrom(REGISTER[ir]) == RC[ir]
  {
  }

  lemma RegisterStep12(ir: nat)
    requires 12 <= ir < 18
    ensures SevenSteps(REGISTER[ir]) == REGISTER[ir + 1] && RoundConstantFrom(REGISTER[ir]) == RC[ir]
  {
  }

  lemma RegisterStep18(ir: nat)
    requires 18 <= ir < 24
    ensures SevenSteps(REGISTER[ir]) == REGISTER[ir + 1] && RoundConstantFrom(REGISTER[ir]) == RC[ir]
  {
  }

  /** The table of round constants is what Algorithms 5 and 6 compute. */
  lemma {:induction false} RoundConstants(ir: nat)
    requires ir < 24
    ensures |RC| == 24 && RC[ir] == RoundConstant(ir)
  {
    hide RhoTable, RoundConstantFrom, SevenSteps, RoundConstant, RC;
    Register(ir);
    RegisterStep(ir);
    RoundConstantStep(ir);
  }

  lemma {:induction false} Register(ir: nat)
    requires ir <= 24
    ensures Lfsr(7 * ir) == REGISTER[ir]
  {
    hide RhoTable, RoundConstantFrom, SevenSteps, RoundConstant, RC;
    if ir > 0 {
      Register(ir - 1);
      RegisterStep(ir - 1);
      RoundConstantStep(ir - 1);
    }
  }

  lemma RoundsNone(a: State)
    ensures Rounds(a, 0) == a
  {
  }

  lemma RoundsNext(a: State, n: nat)
    ensures Rounds(a, n + 1) == Round(Rounds(a, n), Lane(RoundConstant(n)))
  {
  }

  /** KeccakF1600Step: six times four rounds, in place. */
  method KeccakF1600Step(u: array<Lane>)
    requires u.Length >= 25
    modifies u
    ensures View(u[..25], 0) == KeccakF(View(old(u[..25]), 0))
    ensures u[25..] == old(u[25..])
  {
    hide Round, Rounds, View, RoundConstant, RC;
    ghost var a := View(u[..25], 0);
    RoundsNone(a);
    var i := 0;
    while i < 24
      invariant 0 <= i <= 24 && i % 4 == 0
      invariant View(u[..25], 0) == Rounds(a, i)
      invariant u[25..] == old(u[25..])
    {
      RoundConstants(i); RoundConstants(i + 1); RoundConstants(i + 2); RoundConstants(i + 3);
      RoundsNext(a, i); RoundsNext(a, i + 1); RoundsNext(a, i + 2); RoundsNext(a, i + 3);
      var rc0, rc1, rc2, rc3 := Lane(RC[i]), Lane(RC[i + 1]), Lane(RC[i + 2]), Lane(RC[i + 3]);
      Round0(u, rc0);
      assert View(u[..25], 1) == Rounds(a, i + 1);
      Round1(u, rc1);
      assert View(u[..25], 2) == Rounds(a, i + 2);
      Round2(u, rc2);
      assert View(u[..25], 3) == Rounds(a, i + 3);
      Round3(u, rc3);
      ViewFour(u[..25]);
      i := i + 4;
    }
  }
}
