/** The tables of Keccak-f[1600] follow from their definitions in FIPS 202. */
module KeccakTables {
  import opened KeccakF
  import opened Keccak

  // ── rotation offsets, section 3.2.2 ─────────────────────────────────────────

  datatype Point = Point(x: nat, y: nat)

  /** The walk over the lanes that starts at (1, 0). */
  function Walk(t: nat): Point {
    if t == 0 then Point(1, 0) else var p := Walk(t - 1); Point(p.y, (2 * p.x + 3 * p.y) % 5)
  }

  function Stop(t: nat): nat { Walk(t).x + 5 * Walk(t).y }

  function Sum(n: nat): nat { if n == 0 then 0 else n + Sum(n - 1) }

  /** The offset set at step `t`. */
  function StepOffset(t: nat): nat { (t + 1) * (t + 2) / 2 % 64 }

  function Triangle(t: nat): nat { Sum(t + 1) % 64 }

  lemma TriangleIsProduct(t: nat)
    ensures Triangle(t) == StepOffset(t)
  {
    SumIsHalf(t + 1);
  }

  lemma {:induction false} SumIsHalf(n: nat)
    ensures Sum(n) * 2 == n * (n + 1)
  {
    if n > 0 { SumIsHalf(n - 1); }
  }

  /** The offset of lane `i` after `n` steps of the walk, each of which sets one. */
  function WalkOffset(i: nat, n: nat): nat {
    if n == 0 then 0 else if Stop(n - 1) == i then StepOffset(n - 1) else WalkOffset(i, n - 1)
  }

  /** The column at step `t`; the row is the next step's column. */
  function Column(t: nat): (x: nat)
    ensures x < 5
  {
    if t < 5 then (if t == 0 then 1 else if t == 1 then 0 else if t == 2 then 2 else if t == 3 then 1 else 2)
    else if t < 10 then (if t == 5 then 3 else if t == 6 then 3 else if t == 7 then 0 else if t == 8 then 1 else 3)
    else if t < 15 then (if t == 10 then 1 else if t == 11 then 4 else if t == 12 then 4 else if t == 13 then 0 else 3)
    else if t < 20 then (if t == 15 then 4 else if t == 16 then 3 else if t == 17 then 2 else if t == 18 then 2 else 0)
    else if t < 25 then (if t == 20 then 4 else if t == 21 then 2 else if t == 22 then 4 else if t == 23 then 1 else 1)
    else 0
  }

  function LaneAt(t: nat): (i: nat)
    ensures i < 25
  {
    Column(t) + 5 * Column(t + 1)
  }

  /** A table of columns that takes step `t` of the walk. */
  predicate Takes(column: nat -> nat, t: nat) { column(t + 2) == (2 * column(t) + 3 * column(t + 1)) % 5 }

  /** Offsets along a table of columns that add up at step `t`. */
  predicate AddsUp(column: nat -> nat, offset: nat -> nat, t: nat) {
    offset(column(t + 1) + 5 * column(t + 2)) == (offset(column(t) + 5 * column(t + 1)) + t + 2) % 64
  }

  predicate Hop(t: nat) { Takes(Column, t) && AddsUp(Column, Offset, t) && LaneAt(t) != 0 }

  lemma Hops0(t: nat)
    requires 0 <= t < 4
    ensures Hop(t)
  {}

  lemma Hops4(t: nat)
    requires 4 <= t < 8
    ensures Hop(t)
  {}

  lemma Hops8(t: nat)
    requires 8 <= t < 12
    ensures Hop(t)
  {}

  lemma Hops12(t: nat)
    requires 12 <= t < 14
    ensures Hop(t)
  {}

  lemma Hops14(t: nat)
    requires 14 <= t < 16
    ensures Hop(t)
  {}

  lemma Hops16(t: nat)
    requires 16 <= t < 20
    ensures Hop(t)
  {}

  lemma Hops20(t: nat)
    requires 20 <= t < 23
    ensures Hop(t)
  {}

  lemma HopAt(t: nat)
    requires t < 23
    ensures Hop(t)
  {
    if t < 4 { Hops0(t); } else if t < 8 { Hops4(t); } else if t < 12 { Hops8(t); }
    else if t < 14 { Hops12(t); } else if t < 16 { Hops14(t); } else if t < 20 { Hops16(t); } else { Hops20(t); }
  }

  lemma {:induction false} TableWalks(column: nat -> nat, t: nat)
    requires column(0) == 1 && column(1) == 0 && forall u: nat :: u < t ==> Takes(column, u)
    ensures Walk(t) == Point(column(t), column(t + 1))
  {
    if t > 0 {
      TableWalks(column, t - 1);
      assert Takes(column, t - 1);
    }
  }

  lemma {:induction false} OffsetsAddUp(column: nat -> nat, offset: nat -> nat, t: nat)
    requires column(0) == 1 && column(1) == 0 && offset(1) == 1 && forall u: nat :: u < t ==> AddsUp(column, offset, u)
    ensures offset(column(t) + 5 * column(t + 1)) == Triangle(t)
  {
    if t > 0 {
      OffsetsAddUp(column, offset, t - 1);
      assert AddsUp(column, offset, t - 1);
      TriangleStep(t);
    }
  }

  lemma TriangleStep(t: nat)
    requires t > 0
    ensures Triangle(t) == (Triangle(t - 1) + t + 1) % 64
  {
    AddModulo(Sum(t), t + 1);
  }

  lemma ColumnsWalk(t: nat)
    requires t < 24
    ensures Stop(t) == LaneAt(t) && Offset(Stop(t)) == Triangle(t)
  {
    forall u: nat | u < t ensures Takes(Column, u) && AddsUp(Column, Offset, u) { HopAt(u); }
    TableWalks(Column, t);
    OffsetsAddUp(Column, Offset, t);
  }

  lemma StopOffset(t: nat)
    requires t < 24
    ensures Stop(t) == LaneAt(t) && Offset(Stop(t)) == StepOffset(t)
  {
    ColumnsWalk(t);
    TriangleIsProduct(t);
  }

  lemma AddModulo(a: nat, b: nat)
    ensures (a % 64 + b) % 64 == (b + a) % 64
  {}

  /** The step that meets lane `i`. */
  function Met(i: nat): (t: nat)
    ensures t < 24
  {
    if i < 5 then (if i == 0 then 0 else if i == 1 then 0 else if i == 2 then 18 else if i == 3 then 6 else 12)
    else if i < 10 then (if i == 5 then 7 else if i == 6 then 23 else if i == 7 then 2 else if i == 8 then 9 else 22)
    else if i < 15 then (if i == 10 then 1 else if i == 11 then 3 else if i == 12 then 17 else if i == 13 then 16
                         else 20)
    else if i < 20 then (if i == 15 then 13 else if i == 16 then 8 else if i == 17 then 4 else if i == 18 then 5
                         else 15)
    else if i == 20 then 19 else if i == 21 then 10 else if i == 22 then 21 else if i == 23 then 14 else 11
  }

  lemma Meets0(i: nat)
    requires 1 <= i < 5
    ensures LaneAt(Met(i)) == i
  {}

  lemma Meets1(i: nat)
    requires 5 <= i < 10
    ensures LaneAt(Met(i)) == i
  {}

  lemma Meets2(i: nat)
    requires 10 <= i < 15
    ensures LaneAt(Met(i)) == i
  {}

  lemma Meets3(i: nat)
    requires 15 <= i < 20
    ensures LaneAt(Met(i)) == i
  {}

  lemma Meets4(i: nat)
    requires 20 <= i < 25
    ensures LaneAt(Met(i)) == i
  {}

  lemma {:induction false} WalkSets(offset: nat -> nat, i: nat, n: nat, t: nat)
    requires t < n && Stop(t) == i && forall u: nat :: u < n ==> offset(Stop(u)) == StepOffset(u)
    ensures WalkOffset(i, n) == offset(i)
  {
    if Stop(n - 1) != i { WalkSets(offset, i, n - 1, t); }
  }

  lemma {:induction false} WalkSkips(i: nat, n: nat)
    requires forall u: nat :: u < n ==> Stop(u) != i
    ensures WalkOffset(i, n) == 0
  {
    if n > 0 { WalkSkips(i, n - 1); }
  }

  /** The rotation offsets of the code are the ones that the 24 steps of the walk set. */
  lemma OffsetsFollowWalk(i: nat)
    requires i < 25
    ensures Offset(i) == WalkOffset(i, 24)
  {
    forall t: nat | t < 24 ensures Stop(t) == LaneAt(t) && Offset(Stop(t)) == StepOffset(t) { StopOffset(t); }
    if i == 0 {
      forall t: nat | t < 24 ensures Stop(t) != 0 { NotOrigin(t); }
      WalkSkips(0, 24);
    } else {
      Meets(i);
      WalkSets(Offset, i, 24, Met(i));
    }
  }

  lemma NotOrigin(t: nat)
    requires t < 24
    ensures LaneAt(t) != 0
  {
    if t < 23 { HopAt(t); }
  }

  lemma Meets(i: nat)
    requires 0 < i < 25
    ensures LaneAt(Met(i)) == i
  {
    if i < 5 { Meets0(i); } else if i < 10 { Meets1(i); } else if i < 15 { Meets2(i); }
    else if i < 20 { Meets3(i); } else { Meets4(i); }
  }

  // ── round constants, section 3.2.5 ──────────────────────────────────────────

  /** One clock of the shift register; bit i of the vector is R[i]. */
  function Clock(r: bv8): bv8 { if r & 0x80 != 0 then (r << 1) ^ 0x71 else r << 1 }

  function Clocks(r: bv8, n: nat): bv8 { if n == 0 then r else Clock(Clocks(r, n - 1)) }

  predicate Low(r: bv8) { r & 1 != 0 }

  /** The bit rc(t) of the standard. */
  predicate Rc(t: nat) { Low(Clocks(1, t % 255)) }

  function At(bit: bool, w: bv64): bv64 { if bit then w else 0 }

  /** The word with bit j of seven at position 2^j - 1. */
  function Word(b0: bool, b1: bool, b2: bool, b3: bool, b4: bool, b5: bool, b6: bool): bv64 {
    At(b0, 0x1) | At(b1, 0x2) | At(b2, 0x8) | At(b3, 0x80) | At(b4, 0x8000) | At(b5, 0x8000_0000)
    | At(b6, 0x8000_0000_0000_0000)
  }

  function RoundConstant(i: nat): bv64 {
    var t := 7 * i;
    Word(Rc(t), Rc(t + 1), Rc(t + 2), Rc(t + 3), Rc(t + 4), Rc(t + 5), Rc(t + 6))
  }

  /** The register stands at `r` before round `i`. */
  predicate Stands(i: nat, r: bv8) { Clocks(1, 7 * i) == r }

  function Clock7(r: bv8): bv8 { Clock(Clock(Clock(Clock(Clock(Clock(Clock(r))))))) }

  /** The constant read off a register that stands at `r` before the round. */
  function WordOf(r: bv8): bv64 {
    var r1 := Clock(r); var r2 := Clock(r1); var r3 := Clock(r2);
    var r4 := Clock(r3); var r5 := Clock(r4); var r6 := Clock(r5);
    Word(Low(r), Low(r1), Low(r2), Low(r3), Low(r4), Low(r5), Low(r6))
  }

  lemma ConstantOfRegister(i: nat, r: bv8)
    requires i < 24 && Stands(i, r)
    ensures RoundConstant(i) == WordOf(r) && Stands(i + 1, Clock7(r))
  {
    var t := 7 * i;
    SmallRc(t); SmallRc(t + 1); SmallRc(t + 2); SmallRc(t + 3); SmallRc(t + 4); SmallRc(t + 5); SmallRc(t + 6);
    SevenMore(t, r);
    assert 7 * (i + 1) == t + 7;
  }

  lemma SevenMore(t: nat, r: bv8)
    requires Clocks(1, t) == r
    ensures var r3 := Clock(Clock(Clock(r)));
            && Clocks(1, t + 1) == Clock(r) && Clocks(1, t + 2) == Clock(Clock(r)) && Clocks(1, t + 3) == r3
            && Clocks(1, t + 4) == Clock(r3) && Clocks(1, t + 5) == Clock(Clock(r3))
            && Clocks(1, t + 6) == Clock(Clock(Clock(r3))) && Clocks(1, t + 7) == Clock7(r)
  {}

  lemma SmallRc(t: nat)
    requires t < 255
    ensures Rc(t) == Low(Clocks(1, t))
  {}

  /** The register before round `i`. */
  function Register(i: nat): bv8 {
    if i < 4 then (if i == 0 then 0x01 else if i == 1 then 0x80 else if i == 2 then 0xd8 else 0x1a)
    else if i < 8 then (if i == 4 then 0xdf else if i == 5 then 0x09 else if i == 6 then 0x35 else 0x4f)
    else if i < 12 then (if i == 8 then 0xca else if i == 9 then 0x70 else if i == 10 then 0x41 else 0xec)
    else if i < 16 then (if i == 12 then 0xd5 else if i == 13 then 0xcd else if i == 14 then 0x63 else 0xab)
    else if i < 20 then (if i == 16 then 0xaa else if i == 17 then 0x2a else if i == 18 then 0xf2 else 0xe8)
    else if i < 24 then (if i == 20 then 0x37 else if i == 21 then 0x3e else if i == 22 then 0x0b else 0x44)
    else 0x8e
  }

  /** Round `i` clocks the register seven times and reads the code's constant off it. */
  predicate Turn(i: nat) {
    i < 24 && ROUND_CONSTANTS[i] == WordOf(Register(i)) && Clock7(Register(i)) == Register(i + 1)
  }

  lemma Turns0(i: nat)
    requires 0 <= i < 4
    ensures Turn(i)
  {}

  lemma Turns4(i: nat)
    requires 4 <= i < 8
    ensures Turn(i)
  {}

  lemma Turns8(i: nat)
    requires 8 <= i < 12
    ensures Turn(i)
  {}

  lemma Turns12(i: nat)
    requires 12 <= i < 16
    ensures Turn(i)
  {}

  lemma Turns16(i: nat)
    requires 16 <= i < 20
    ensures Turn(i)
  {}

  lemma Turns20(i: nat)
    requires 20 <= i < 24
    ensures Turn(i)
  {}

  lemma TurnAt(i: nat)
    requires i < 24
    ensures Turn(i)
  {
    if i < 4 { Turns0(i); } else if i < 8 { Turns4(i); } else if i < 12 { Turns8(i); }
    else if i < 16 { Turns12(i); } else if i < 20 { Turns16(i); } else { Turns20(i); }
  }

  lemma {:induction false} RegisterStands(i: nat)
    requires i <= 24
    ensures Stands(i, Register(i))
  {
    if i > 0 {
      RegisterStands(i - 1);
      TurnAt(i - 1);
      ConstantOfRegister(i - 1, Register(i - 1));
    }
  }

  /** The round constants of the code are the ones that the shift register makes. */
  lemma ConstantsFollowRegister(i: nat)
    requires i < 24
    ensures ROUND_CONSTANTS[i] == RoundConstant(i)
  {
    RegisterStands(i);
    TurnAt(i);
    ConstantOfRegister(i, Register(i));
  }
}
