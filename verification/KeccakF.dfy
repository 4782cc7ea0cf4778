/** Keccak-f[1600] over an arbitrary word algebra: the unrolled rounds of src/crypto/Keccak.cpp against FIPS 202. */
module KeccakF {

  /** The word operations the permutation is built from. */
  datatype Ops<!W> = Ops(xor: (W, W) -> W, and_: (W, W) -> W, not: W -> W, rotl: (W, nat) -> W)

  // ── reference step mappings, section 3.2 of FIPS 202 ────────────────────────

  function Lane<W>(a: seq<W>, x: int, y: int): W
    requires |a| == 25
  {
    a[x % 5 + 5 * (y % 5)]
  }

  function Parity<W>(o: Ops<W>, a: seq<W>, x: int): W
    requires |a| == 25
  {
    o.xor(o.xor(o.xor(o.xor(Lane(a, x, 0), Lane(a, x, 1)), Lane(a, x, 2)), Lane(a, x, 3)), Lane(a, x, 4))
  }

  function Mix<W>(o: Ops<W>, a: seq<W>, x: int): W
    requires |a| == 25
  {
    o.xor(Parity(o, a, x - 1), o.rotl(Parity(o, a, x + 1), 1))
  }

  function ThetaWords<W>(o: Ops<W>, a: seq<W>): (d: seq<W>)
    requires |a| == 25
    ensures |d| == 5
  {
    [Mix(o, a, 0), Mix(o, a, 1), Mix(o, a, 2), Mix(o, a, 3), Mix(o, a, 4)]
  }

  function Theta<W>(o: Ops<W>, a: seq<W>): (r: seq<W>)
    requires |a| == 25
    ensures |r| == 25
  {
    var d := ThetaWords(o, a);
    seq(25, i requires 0 <= i < 25 => o.xor(a[i], d[i % 5]))
  }

  /** Rotation offset of lane x + 5y, table 2 of FIPS 202 modulo 64. */
  function Offset(i: nat): nat {
    if i < 5 then (if i == 0 then 0 else if i == 1 then 1 else if i == 2 then 62 else if i == 3 then 28 else 27)
    else if i < 10 then (if i == 5 then 36 else if i == 6 then 44 else if i == 7 then 6 else if i == 8 then 55 else 20)
    else if i < 15 then (if i == 10 then 3 else if i == 11 then 10 else if i == 12 then 43 else if i == 13 then 25
                         else 39)
    else if i < 20 then (if i == 15 then 41 else if i == 16 then 45 else if i == 17 then 15 else if i == 18 then 21
                         else 8)
    else (if i == 20 then 18 else if i == 21 then 2 else if i == 22 then 61 else if i == 23 then 56 else 14)
  }

  function Rotated<W>(o: Ops<W>, w: W, n: nat): W { if n == 0 then w else o.rotl(w, n) }

  function Rho<W>(o: Ops<W>, a: seq<W>): (r: seq<W>)
    requires |a| == 25
    ensures |r| == 25
  {
    seq(25, i requires 0 <= i < 25 => Rotated(o, a[i], Offset(i)))
  }

  function Pi<W>(a: seq<W>): (r: seq<W>)
    requires |a| == 25
    ensures |r| == 25
  {
    seq(25, i requires 0 <= i < 25 => Lane(a, i % 5 + 3 * (i / 5), i % 5))
  }

  /** Chi works on each row of five lanes by itself. */
  function RowChi<W>(o: Ops<W>, r: seq<W>): (t: seq<W>)
    requires |r| == 5
    ensures |t| == 5
  {
    [o.xor(r[0], o.and_(o.not(r[1]), r[2])),
     o.xor(r[1], o.and_(o.not(r[2]), r[3])),
     o.xor(r[2], o.and_(o.not(r[3]), r[4])),
     o.xor(r[3], o.and_(o.not(r[4]), r[0])),
     o.xor(r[4], o.and_(o.not(r[0]), r[1]))]
  }

  function Chi<W>(o: Ops<W>, a: seq<W>): (r: seq<W>)
    requires |a| == 25
    ensures |r| == 25
  {
    RowChi(o, a[..5]) + RowChi(o, a[5..10]) + RowChi(o, a[10..15]) + RowChi(o, a[15..20]) + RowChi(o, a[20..])
  }

  function Iota<W>(o: Ops<W>, a: seq<W>, rc: W): seq<W>
    requires |a| == 25
  {
    a[0 := o.xor(a[0], rc)]
  }

  function Round<W>(o: Ops<W>, a: seq<W>, rc: W): seq<W>
    requires |a| == 25
  {
    Iota(o, Chi(o, Pi(Rho(o, Theta(o, a)))), rc)
  }

  // ── the unrolled round ──────────────────────────────────────────────────────

  /** Where the lane at position `i` after pi comes from. */
  function Source(i: nat): (j: nat)
    requires i < 25
    ensures j < 25
  {
    (i % 5 + 3 * (i / 5)) % 5 + 5 * (i % 5)
  }

  /** The lane that lands at position `i` after theta, rho and pi. */
  function Mixed<W>(o: Ops<W>, s: seq<W>, d: seq<W>, i: nat): W
    requires |s| == 25 && |d| == 5 && i < 25
  {
    Rotated(o, o.xor(s[Source(i)], d[Source(i) % 5]), Offset(Source(i)))
  }

  lemma PiAt<W>(a: seq<W>, i: nat)
    requires |a| == 25 && i < 25
    ensures Pi(a)[i] == a[Source(i)]
  {
    assert i % 5 % 5 == i % 5 by { Residue(i % 5); }
  }

  lemma Residue(y: nat)
    requires y < 5
    ensures y % 5 == y
  {}

  lemma MixedIsPiRhoTheta<W>(o: Ops<W>, s: seq<W>, i: nat)
    requires |s| == 25 && i < 25
    ensures Pi(Rho(o, Theta(o, s)))[i] == Mixed(o, s, ThetaWords(o, s), i)
  {
    PiAt(Rho(o, Theta(o, s)), i);
  }

  /** The five column parities and the theta words d0 to d4. */
  method ThetaParities<W>(o: Ops<W>, s: seq<W>) returns (d0: W, d1: W, d2: W, d3: W, d4: W)
    requires |s| == 25
    ensures [d0, d1, d2, d3, d4] == ThetaWords(o, s)
  {
    var c0 := o.xor(o.xor(o.xor(o.xor(s[0], s[5]), s[10]), s[15]), s[20]);
    var c1 := o.xor(o.xor(o.xor(o.xor(s[1], s[6]), s[11]), s[16]), s[21]);
    var c2 := o.xor(o.xor(o.xor(o.xor(s[2], s[7]), s[12]), s[17]), s[22]);
    var c3 := o.xor(o.xor(o.xor(o.xor(s[3], s[8]), s[13]), s[18]), s[23]);
    var c4 := o.xor(o.xor(o.xor(o.xor(s[4], s[9]), s[14]), s[19]), s[24]);
    d0 := o.xor(c4, o.rotl(c1, 1));
    d1 := o.xor(c0, o.rotl(c2, 1));
    d2 := o.xor(c1, o.rotl(c3, 1));
    d3 := o.xor(c2, o.rotl(c4, 1));
    d4 := o.xor(c3, o.rotl(c0, 1));
  }

  lemma MixedAt<W>(o: Ops<W>, s: seq<W>, d: seq<W>, i: nat, from: nat, n: nat)
    requires |s| == 25 && |d| == 5 && i < 25 && from == Source(i) && n == Offset(from)
    ensures Mixed(o, s, d, i) == Rotated(o, o.xor(s[from], d[from % 5]), n)
  {}

  function MixedRow<W>(o: Ops<W>, s: seq<W>, d: seq<W>, at: nat): (r: seq<W>)
    requires |s| == 25 && |d| == 5 && at <= 20
    ensures |r| == 5
  {
    [Mixed(o, s, d, at), Mixed(o, s, d, at + 1), Mixed(o, s, d, at + 2), Mixed(o, s, d, at + 3), Mixed(o, s, d, at + 4)]
  }

  method RhoPiRow0<W>(o: Ops<W>, s: seq<W>, d0: W, d1: W, d2: W, d3: W, d4: W) returns (b: seq<W>)
    requires |s| == 25
    ensures b == MixedRow(o, s, [d0, d1, d2, d3, d4], 0)
  {
    ghost var d := [d0, d1, d2, d3, d4];
    MixedAt(o, s, d, 0, 0, 0); MixedAt(o, s, d, 1, 6, 44); MixedAt(o, s, d, 2, 12, 43);
    MixedAt(o, s, d, 3, 18, 21); MixedAt(o, s, d, 4, 24, 14);
    b := [o.xor(s[0], d0), o.rotl(o.xor(s[6], d1), 44), o.rotl(o.xor(s[12], d2), 43),
          o.rotl(o.xor(s[18], d3), 21), o.rotl(o.xor(s[24], d4), 14)];
  }

  method RhoPiRow1<W>(o: Ops<W>, s: seq<W>, d0: W, d1: W, d2: W, d3: W, d4: W) returns (b: seq<W>)
    requires |s| == 25
    ensures b == MixedRow(o, s, [d0, d1, d2, d3, d4], 5)
  {
    ghost var d := [d0, d1, d2, d3, d4];
    MixedAt(o, s, d, 5, 3, 28); MixedAt(o, s, d, 6, 9, 20); MixedAt(o, s, d, 7, 10, 3);
    MixedAt(o, s, d, 8, 16, 45); MixedAt(o, s, d, 9, 22, 61);
    b := [o.rotl(o.xor(s[3], d3), 28), o.rotl(o.xor(s[9], d4), 20), o.rotl(o.xor(s[10], d0), 3),
          o.rotl(o.xor(s[16], d1), 45), o.rotl(o.xor(s[22], d2), 61)];
  }

  method RhoPiRow2<W>(o: Ops<W>, s: seq<W>, d0: W, d1: W, d2: W, d3: W, d4: W) returns (b: seq<W>)
    requires |s| == 25
    ensures b == MixedRow(o, s, [d0, d1, d2, d3, d4], 10)
  {
    ghost var d := [d0, d1, d2, d3, d4];
    MixedAt(o, s, d, 10, 1, 1); MixedAt(o, s, d, 11, 7, 6); MixedAt(o, s, d, 12, 13, 25);
    MixedAt(o, s, d, 13, 19, 8); MixedAt(o, s, d, 14, 20, 18);
    b := [o.rotl(o.xor(s[1], d1), 1), o.rotl(o.xor(s[7], d2), 6), o.rotl(o.xor(s[13], d3), 25),
          o.rotl(o.xor(s[19], d4), 8), o.rotl(o.xor(s[20], d0), 18)];
  }

  method RhoPiRow3<W>(o: Ops<W>, s: seq<W>, d0: W, d1: W, d2: W, d3: W, d4: W) returns (b: seq<W>)
    requires |s| == 25
    ensures b == MixedRow(o, s, [d0, d1, d2, d3, d4], 15)
  {
    ghost var d := [d0, d1, d2, d3, d4];
    MixedAt(o, s, d, 15, 4, 27); MixedAt(o, s, d, 16, 5, 36); MixedAt(o, s, d, 17, 11, 10);
    MixedAt(o, s, d, 18, 17, 15); MixedAt(o, s, d, 19, 23, 56);
    b := [o.rotl(o.xor(s[4], d4), 27), o.rotl(o.xor(s[5], d0), 36), o.rotl(o.xor(s[11], d1), 10),
          o.rotl(o.xor(s[17], d2), 15), o.rotl(o.xor(s[23], d3), 56)];
  }

  method RhoPiRow4<W>(o: Ops<W>, s: seq<W>, d0: W, d1: W, d2: W, d3: W, d4: W) returns (b: seq<W>)
    requires |s| == 25
    ensures b == MixedRow(o, s, [d0, d1, d2, d3, d4], 20)
  {
    ghost var d := [d0, d1, d2, d3, d4];
    MixedAt(o, s, d, 20, 2, 62); MixedAt(o, s, d, 21, 8, 55); MixedAt(o, s, d, 22, 14, 39);
    MixedAt(o, s, d, 23, 15, 41); MixedAt(o, s, d, 24, 21, 2);
    b := [o.rotl(o.xor(s[2], d2), 62), o.rotl(o.xor(s[8], d3), 55), o.rotl(o.xor(s[14], d4), 39),
          o.rotl(o.xor(s[15], d0), 41), o.rotl(o.xor(s[21], d1), 2)];
  }

  /** The scratch lanes b0 to b24. */
  method RhoPiLanes<W>(o: Ops<W>, s: seq<W>, d0: W, d1: W, d2: W, d3: W, d4: W) returns (b: seq<W>)
    requires |s| == 25
    ensures b == MixedLanes(o, s, [d0, d1, d2, d3, d4])
  {
    var r0 := RhoPiRow0(o, s, d0, d1, d2, d3, d4);
    var r1 := RhoPiRow1(o, s, d0, d1, d2, d3, d4);
    var r2 := RhoPiRow2(o, s, d0, d1, d2, d3, d4);
    var r3 := RhoPiRow3(o, s, d0, d1, d2, d3, d4);
    var r4 := RhoPiRow4(o, s, d0, d1, d2, d3, d4);
    b := r0 + r1 + r2 + r3 + r4;
    ghost var d := [d0, d1, d2, d3, d4];
    AllRows(o, s, d);
  }

  function MixedLanes<W>(o: Ops<W>, s: seq<W>, d: seq<W>): (r: seq<W>)
    requires |s| == 25 && |d| == 5
    ensures |r| == 25
  {
    seq(25, i requires 0 <= i < 25 => Mixed(o, s, d, i))
  }

  lemma RowOfLanes<W>(o: Ops<W>, s: seq<W>, d: seq<W>, at: nat)
    requires |s| == 25 && |d| == 5 && at <= 20
    ensures MixedRow(o, s, d, at) == MixedLanes(o, s, d)[at..at + 5]
  {}

  lemma AllRows<W>(o: Ops<W>, s: seq<W>, d: seq<W>)
    requires |s| == 25 && |d| == 5
    ensures MixedLanes(o, s, d) == MixedRow(o, s, d, 0) + MixedRow(o, s, d, 5) + MixedRow(o, s, d, 10)
                                   + MixedRow(o, s, d, 15) + MixedRow(o, s, d, 20)
  {
    RowOfLanes(o, s, d, 0);
    RowOfLanes(o, s, d, 5);
    RowOfLanes(o, s, d, 10);
    RowOfLanes(o, s, d, 15);
    RowOfLanes(o, s, d, 20);
    FiveRows(MixedLanes(o, s, d));
  }

  lemma FiveRows<W>(a: seq<W>)
    requires |a| == 25
    ensures a[0..5] + a[5..10] + a[10..15] + a[15..20] + a[20..25] == a
  {}

  /** The five chi writes of one row. */
  method ChiRow<W>(o: Ops<W>, b: seq<W>, s: array<W>, at: nat)
    requires |b| == 25 && s.Length == 25 && at <= 20
    modifies s
    ensures s[..at + 5] == old(s[..at]) + RowChi(o, b[at..at + 5])
  {
    ghost var before := s[..at];
    s[at] := o.xor(b[at], o.and_(o.not(b[at + 1]), b[at + 2]));
    s[at + 1] := o.xor(b[at + 1], o.and_(o.not(b[at + 2]), b[at + 3]));
    s[at + 2] := o.xor(b[at + 2], o.and_(o.not(b[at + 3]), b[at + 4]));
    s[at + 3] := o.xor(b[at + 3], o.and_(o.not(b[at + 4]), b[at]));
    s[at + 4] := o.xor(b[at + 4], o.and_(o.not(b[at]), b[at + 1]));
    ghost var r := b[at..at + 5];
    assert r == [b[at], b[at + 1], b[at + 2], b[at + 3], b[at + 4]];
    assert s[..at] == before;
    assert s[..at + 5] == s[..at] + [s[at], s[at + 1], s[at + 2], s[at + 3], s[at + 4]];
  }

  method ChiIota<W>(o: Ops<W>, b: seq<W>, s: array<W>, rc: W)
    requires |b| == 25 && s.Length == 25
    modifies s
    ensures s[..] == Iota(o, Chi(o, b), rc)
  {
    ChiRow(o, b, s, 0);
    ChiRow(o, b, s, 5);
    ChiRow(o, b, s, 10);
    ChiRow(o, b, s, 15);
    ChiRow(o, b, s, 20);
    assert s[..0] == [] && s[..25] == s[..] && b[0..5] == b[..5] && b[20..25] == b[20..];
    assert s[..] == Chi(o, b);
    s[0] := o.xor(s[0], rc);
  }

  /** One unrolled round equals the composition of the five reference step mappings. */
  method UnrolledRound<W>(o: Ops<W>, s: array<W>, rc: W)
    requires s.Length == 25
    modifies s
    ensures s[..] == Round(o, old(s[..]), rc)
  {
    ghost var a := s[..];
    var d0, d1, d2, d3, d4 := ThetaParities(o, s[..]);
    var b := RhoPiLanes(o, s[..], d0, d1, d2, d3, d4);
    forall i | 0 <= i < 25 ensures b[i] == Pi(Rho(o, Theta(o, a)))[i] {
      MixedIsPiRhoTheta(o, a, i);
    }
    assert b == Pi(Rho(o, Theta(o, a)));
    ChiIota(o, b, s, rc);
  }

  function Rounds<W>(o: Ops<W>, a: seq<W>, rcs: seq<W>): (r: seq<W>)
    requires |a| == 25
    ensures |r| == 25
    decreases |rcs|
  {
    if rcs == [] then a else Round(o, Rounds(o, a, rcs[..|rcs| - 1]), rcs[|rcs| - 1])
  }

  lemma {:induction false} RoundsStep<W>(o: Ops<W>, a: seq<W>, rcs: seq<W>, i: nat)
    requires |a| == 25 && i < |rcs|
    ensures Rounds(o, a, rcs[..i + 1]) == Round(o, Rounds(o, a, rcs[..i]), rcs[i])
  {
    assert rcs[..i + 1][..i] == rcs[..i];
  }

  /** The whole permutation: one unrolled round per round constant. */
  method Permute<W>(o: Ops<W>, s: array<W>, rcs: seq<W>)
    requires s.Length == 25
    modifies s
    ensures s[..] == Rounds(o, old(s[..]), rcs)
  {
    ghost var a := s[..];
    ghost var cur := a;
    for i := 0 to |rcs|
      invariant s[..] == cur && cur == Rounds(o, a, rcs[..i])
    {
      UnrolledRound(o, s, rcs[i]);
      RoundsStep(o, a, rcs, i);
      cur := s[..];
    }
    assert rcs[..|rcs|] == rcs;
  }
}
