/**
 The reference: FIPS 202, "SHA-3 Standard: Permutation-Based Hash and Extendable-Output
 Functions".  A lane is a 64-bit word whose bit z is the bit A[x,y,z] of the standard, and a
 state a holds lane (x,y) at a[x][y] (section 3.1).
 */
module Fips202 {

  datatype Lane = Lane(word: bv64)

  ghost predicate IsState(a: seq<seq<Lane>>) {
    |a| == 5 && forall x :: 0 <= x < 5 ==> |a[x]| == 5
  }

  type State = a: seq<seq<Lane>> | IsState(a) ghost witness seq(5, _ => seq(5, _ => Lane(0)))

  // ----- the operations on lanes -----

  function Left(a: Lane): Lane {
    Lane(a.word << 1)
  }

  function Right(a: Lane): Lane {
    Lane(a.word >> 1)
  }

  function Or(a: Lane, b: Lane): Lane {
    Lane(a.word | b.word)
  }

  /** The left shift by n places, one after the other. */
  function Shl(a: Lane, n: nat): Lane {
    if n == 0 then a else Left(Shl(a, n - 1))
  }

  /** The right shift by n places. */
  function Shr(a: Lane, n: nat): Lane {
    if n == 0 then a else Right(Shr(a, n - 1))
  }

  /** Moves bit z of a lane to bit (z+n) mod 64. */
  function Rotate(a: Lane, n: nat): Lane
    requires n < 64
  {
    if n == 0 then a else Or(Shl(a, n), Shr(a, 64 - n))
  }

  function Xor(a: Lane, b: Lane): Lane {
    Lane(a.word ^ b.word)
  }

  function Parity(a: Lane, b: Lane, c: Lane, d: Lane, e: Lane): Lane {
    Xor(Xor(Xor(Xor(a, b), c), d), e)
  }

  /** A row's nonlinear mix of three neighbouring lanes (section 3.2.4). */
  function ChiLane(a: Lane, b: Lane, c: Lane): Lane {
    Lane(a.word ^ (!b.word & c.word))
  }

  // ----- the step mappings (sections 3.2.1 to 3.2.5) -----

  function ColumnParity(a: State, x: nat): Lane
    requires x < 5
  {
    Parity(a[x][0], a[x][1], a[x][2], a[x][3], a[x][4])
  }

  function ThetaEffect(a: State, x: nat): Lane
    requires x < 5
  {
    Xor(ColumnParity(a, (x + 4) % 5), Rotate(ColumnParity(a, (x + 1) % 5), 1))
  }

  function Theta(a: State): State {
    seq(5, x requires 0 <= x < 5 => seq(5, y requires 0 <= y < 5 => Xor(a[x][y], ThetaEffect(a, x))))
  }

  /** The walk of section 3.2.2: from (1,0), (x,y) goes to (y, 2x+3y) for t = 0..23. */
  function RhoWalk(t: nat): (p: (nat, nat))
    ensures p.0 < 5 && p.1 < 5
  {
    if t == 0 then (1, 0) else
      var p := RhoWalk(t - 1);
      (p.1, (2 * p.0 + 3 * p.1) % 5)
  }

  /** The offset of lane (x,y): (t+1)(t+2)/2 for the step t of the walk that visits it. */
  function RhoOffset(x: nat, y: nat, t: nat := 0): (n: nat)
    ensures n < 64
    decreases 24 - t
  {
    if t >= 24 then 0
    else if RhoWalk(t) == (x, y) then (t + 1) * (t + 2) / 2 % 64
    else RhoOffset(x, y, t + 1)
  }

  function Rho(a: State): State {
    seq(5, x requires 0 <= x < 5 => seq(5, y requires 0 <= y < 5 => Rotate(a[x][y], RhoOffset(x, y))))
  }

  function PiAt(a: State, x: nat, y: nat): Lane
    requires x < 5 && y < 5
  {
    a[(x + 3 * y) % 5][x]
  }

  function Pi(a: State): State {
    seq(5, x requires 0 <= x < 5 => seq(5, y requires 0 <= y < 5 => PiAt(a, x, y)))
  }

  function ChiAt(a: State, x: nat, y: nat): Lane
    requires x < 5 && y < 5
  {
    ChiLane(a[x][y], a[(x + 1) % 5][y], a[(x + 2) % 5][y])
  }

  function Chi(a: State): State {
    seq(5, x requires 0 <= x < 5 => seq(5, y requires 0 <= y < 5 => ChiAt(a, x, y)))
  }

  function LfsrStep(r: bv8): bv8 {
    (r << 1) ^ (if r & 0x80 == 0 then 0 else 0x71)
  }

  /** The register of Algorithm 5 after t steps, bit i holding R[i]. */
  function Lfsr(t: nat): bv8 {
    if t == 0 then 1 else
      LfsrStep(Lfsr(t - 1))
  }

  function Rc(t: nat): bv64 {
    (Lfsr(t % 255) & 1) as bv64
  }

  /** Algorithm 6: bit 2^j - 1 of the round constant is rc(j + 7 ir). */
  function RoundConstant(ir: nat): bv64 {
    Rc(7 * ir) | (Rc(7 * ir + 1) << 1) | (Rc(7 * ir + 2) << 3) | (Rc(7 * ir + 3) << 7) |
    (Rc(7 * ir + 4) << 15) | (Rc(7 * ir + 5) << 31) | (Rc(7 * ir + 6) << 63)
  }

  function Iota(a: State, rc: Lane): State {
    a[0 := a[0][0 := Xor(a[0][0], rc)]]
  }

  function Round(a: State, rc: Lane): State {
    Iota(Chi(Pi(Rho(Theta(a)))), rc)
  }

  /** The first n rounds of KECCAK-p[1600, 24] (section 3.3). */
  function Rounds(a: State, n: nat): State {
    if n == 0 then a else Round(Rounds(a, n - 1), Lane(RoundConstant(n - 1)))
  }

  function KeccakF(a: State): State {
    Rounds(a, 24)
  }

  // ----- the constants, computed -----

  /** Algorithm 6 run from the register r that Algorithm 5 has reached. */
  function RoundConstantFrom(r: bv8): bv64 {
    var r1 := LfsrStep(r); var r2 := LfsrStep(r1); var r3 := LfsrStep(r2);
    var r4 := LfsrStep(r3); var r5 := LfsrStep(r4); var r6 := LfsrStep(r5);
    ((r & 1) as bv64) | (((r1 & 1) as bv64) << 1) | (((r2 & 1) as bv64) << 3) | (((r3 & 1) as bv64) << 7) |
    (((r4 & 1) as bv64) << 15) | (((r5 & 1) as bv64) << 31) | (((r6 & 1) as bv64) << 63)
  }

  function SevenSteps(r: bv8): bv8 {
    LfsrStep(LfsrStep(LfsrStep(LfsrStep(LfsrStep(LfsrStep(LfsrStep(r)))))))
  }

  lemma LfsrNext(t: nat)
    ensures Lfsr(t + 1) == LfsrStep(Lfsr(t))
  {
  }

  lemma RoundConstantStep(ir: nat)
    requires ir < 24
    ensures RoundConstant(ir) == RoundConstantFrom(Lfsr(7 * ir))
    ensures Lfsr(7 * (ir + 1)) == SevenSteps(Lfsr(7 * ir))
  {
    hide LfsrStep, Lfsr;
    var t := 7 * ir;
    LfsrNext(t); LfsrNext(t + 1); LfsrNext(t + 2); LfsrNext(t + 3);
    LfsrNext(t + 4); LfsrNext(t + 5); LfsrNext(t + 6);
    NoWrap(t); NoWrap(t + 1); NoWrap(t + 2); NoWrap(t + 3); NoWrap(t + 4); NoWrap(t + 5); NoWrap(t + 6);
  }

  lemma NoWrap(t: nat)
    requires t < 255
    ensures t % 255 == t
  {
  }

  /** What the walk of section 3.2.2 assigns to lane (x,y). */
  function RhoTable(x: nat, y: nat): nat {
    if y == 0 then (if x == 0 then 0 else if x == 1 then 1 else if x == 2 then 62 else if x == 3 then 28 else 27)
    else if y == 1 then (if x == 0 then 36 else if x == 1 then 44 else if x == 2 then 6 else if x == 3 then 55 else 20)
    else if y == 2 then (if x == 0 then 3 else if x == 1 then 10 else if x == 2 then 43 else if x == 3 then 25 else 39)
    else if y == 3 then (if x == 0 then 41 else if x == 1 then 45 else if x == 2 then 15 else if x == 3 then 21 else 8)
    else (if x == 0 then 18 else if x == 1 then 2 else if x == 2 then 61 else if x == 3 then 56 else 14)
  }

  /** The walk's x-coordinates: step t is at (RHO_X[t], RHO_X[t+1]). */
  const RHO_X: seq<nat> := [1, 0, 2, 1, 2, 3, 3, 0, 1, 3, 1, 4, 4, 0, 3, 4, 3, 2, 2, 0, 4, 2, 4, 1, 1]

  /** The step of the walk that visits lane i (lane 0 is never visited). */
  const RHO_STEP: seq<nat> := [0, 0, 18, 6, 12, 7, 23, 2, 9, 22, 1, 3, 17, 16, 20, 13, 8, 4, 5, 15, 19, 10, 21, 14, 11]

  lemma RhoXNext(t: nat)
    requires t < 23
    ensures RHO_X[t + 2] == (2 * RHO_X[t] + 3 * RHO_X[t + 1]) % 5
  {
  }

  lemma {:induction false} RhoWalkValues(t: nat)
    requires t < 24
    ensures RhoWalk(t) == (RHO_X[t], RHO_X[t + 1])
  {
    if t > 0 {
      RhoWalkValues(t - 1);
      RhoXNext(t - 1);
    }
  }

  /** No lane is visited twice, and the origin not at all. */
  lemma RhoWalkInjective(t: nat)
    requires t < 24
    ensures RHO_STEP[RHO_X[t] + 5 * RHO_X[t + 1]] == t && RHO_X[t] + 5 * RHO_X[t + 1] != 0
  {
  }

  lemma RhoStepValues(i: nat)
    requires 0 < i < 25
    ensures RHO_STEP[i] < 24 && RHO_X[RHO_STEP[i]] == i % 5 && RHO_X[RHO_STEP[i] + 1] == i / 5
  {
  }

  lemma RhoOffsetAtStep(i: nat)
    requires 0 < i < 25
    ensures (RHO_STEP[i] + 1) * (RHO_STEP[i] + 2) / 2 % 64 == RhoTable(i % 5, i / 5)
  {
  }

  /** Searching from step t, a lane visited only by a later step k gets its offset from k. */
  lemma {:induction false} RhoOffsetFound(x: nat, y: nat, t: nat, k: nat)
    requires t <= k < 24 && x == RHO_X[k] && y == RHO_X[k + 1]
    requires forall j :: t <= j < k ==> RHO_X[j] != x || RHO_X[j + 1] != y
    ensures RhoOffset(x, y, t) == (k + 1) * (k + 2) / 2 % 64
    decreases k - t
  {
    RhoWalkValues(t);
    if t < k {
      RhoOffsetFound(x, y, t + 1, k);
    }
  }

  lemma {:induction false} RhoOffsetNone(x: nat, y: nat, t: nat)
    requires t <= 24 && x + 5 * y == 0
    ensures RhoOffset(x, y, t) == 0
    decreases 24 - t
  {
    if t < 24 {
      RhoWalkValues(t);
      RhoWalkInjective(t);
      RhoOffsetNone(x, y, t + 1);
    }
  }

  lemma RhoOffsetValues(x: nat, y: nat)
    requires x < 5 && y < 5
    ensures RhoOffset(x, y) == RhoTable(x, y)
  {
    var i := 5 * y + x;
    if i == 0 {
      RhoOffsetNone(x, y, 0);
    } else {
      var k := RHO_STEP[i];
      RhoStepValues(i);
      RhoOffsetAtStep(i);
      forall j | 0 <= j < k
        ensures RHO_X[j] != x || RHO_X[j + 1] != y
      {
        RhoWalkInjective(j);
        RhoWalkInjective(k);
      }
      RhoOffsetFound(x, y, 0, k);
    }
  }
}
