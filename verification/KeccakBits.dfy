/** What the 64-bit lane operations of Keccak do bit by bit, and how lanes and bytes correspond. */
module KeccakBits {
  import opened Basics
  import opened Sponge
  import opened Keccak

  // ── bits of a lane ──────────────────────────────────────────────────────────

  /** Bit `i`, the least significant first. */
  predicate Bit(w: bv64, i: nat) {
    if i < 8 then (if i < 4 then BitFrom0(w, i) else BitFrom4(w, i))
    else if i < 16 then (if i < 12 then BitFrom8(w, i) else BitFrom12(w, i))
    else if i < 24 then (if i < 20 then BitFrom16(w, i) else BitFrom20(w, i))
    else if i < 32 then (if i < 28 then BitFrom24(w, i) else BitFrom28(w, i))
    else if i < 40 then (if i < 36 then BitFrom32(w, i) else BitFrom36(w, i))
    else if i < 48 then (if i < 44 then BitFrom40(w, i) else BitFrom44(w, i))
    else if i < 56 then (if i < 52 then BitFrom48(w, i) else BitFrom52(w, i))
    else if i < 60 then BitFrom56(w, i) else BitFrom60(w, i)
  }

  predicate BitFrom0(w: bv64, i: nat) {
    if i == 0 then w & 0x1 != 0 else if i == 1 then w & 0x2 != 0
    else if i == 2 then w & 0x4 != 0 else w & 0x8 != 0
  }

  predicate BitFrom4(w: bv64, i: nat) {
    if i == 4 then w & 0x10 != 0 else if i == 5 then w & 0x20 != 0
    else if i == 6 then w & 0x40 != 0 else w & 0x80 != 0
  }

  predicate BitFrom8(w: bv64, i: nat) {
    if i == 8 then w & 0x100 != 0 else if i == 9 then w & 0x200 != 0
    else if i == 10 then w & 0x400 != 0 else w & 0x800 != 0
  }

  predicate BitFrom12(w: bv64, i: nat) {
    if i == 12 then w & 0x1000 != 0 else if i == 13 then w & 0x2000 != 0
    else if i == 14 then w & 0x4000 != 0 else w & 0x8000 != 0
  }

  predicate BitFrom16(w: bv64, i: nat) {
    if i == 16 then w & 0x10000 != 0 else if i == 17 then w & 0x20000 != 0
    else if i == 18 then w & 0x40000 != 0 else w & 0x80000 != 0
  }

  predicate BitFrom20(w: bv64, i: nat) {
    if i == 20 then w & 0x100000 != 0 else if i == 21 then w & 0x200000 != 0
    else if i == 22 then w & 0x400000 != 0 else w & 0x800000 != 0
  }

  predicate BitFrom24(w: bv64, i: nat) {
    if i == 24 then w & 0x1000000 != 0 else if i == 25 then w & 0x2000000 != 0
    else if i == 26 then w & 0x4000000 != 0 else w & 0x8000000 != 0
  }

  predicate BitFrom28(w: bv64, i: nat) {
    if i == 28 then w & 0x10000000 != 0 else if i == 29 then w & 0x20000000 != 0
    else if i == 30 then w & 0x40000000 != 0 else w & 0x80000000 != 0
  }

  predicate BitFrom32(w: bv64, i: nat) {
    if i == 32 then w & 0x100000000 != 0 else if i == 33 then w & 0x200000000 != 0
    else if i == 34 then w & 0x400000000 != 0 else w & 0x800000000 != 0
  }

  predicate BitFrom36(w: bv64, i: nat) {
    if i == 36 then w & 0x1000000000 != 0 else if i == 37 then w & 0x2000000000 != 0
    else if i == 38 then w & 0x4000000000 != 0 else w & 0x8000000000 != 0
  }

  predicate BitFrom40(w: bv64, i: nat) {
    if i == 40 then w & 0x10000000000 != 0 else if i == 41 then w & 0x20000000000 != 0
    else if i == 42 then w & 0x40000000000 != 0 else w & 0x80000000000 != 0
  }

  predicate BitFrom44(w: bv64, i: nat) {
    if i == 44 then w & 0x100000000000 != 0 else if i == 45 then w & 0x200000000000 != 0
    else if i == 46 then w & 0x400000000000 != 0 else w & 0x800000000000 != 0
  }

  predicate BitFrom48(w: bv64, i: nat) {
    if i == 48 then w & 0x1000000000000 != 0 else if i == 49 then w & 0x2000000000000 != 0
    else if i == 50 then w & 0x4000000000000 != 0 else w & 0x8000000000000 != 0
  }

  predicate BitFrom52(w: bv64, i: nat) {
    if i == 52 then w & 0x10000000000000 != 0 else if i == 53 then w & 0x20000000000000 != 0
    else if i == 54 then w & 0x40000000000000 != 0 else w & 0x80000000000000 != 0
  }

  predicate BitFrom56(w: bv64, i: nat) {
    if i == 56 then w & 0x100000000000000 != 0 else if i == 57 then w & 0x200000000000000 != 0
    else if i == 58 then w & 0x400000000000000 != 0 else w & 0x800000000000000 != 0
  }

  predicate BitFrom60(w: bv64, i: nat) {
    if i == 60 then w & 0x1000000000000000 != 0 else if i == 61 then w & 0x2000000000000000 != 0
    else if i == 62 then w & 0x4000000000000000 != 0 else w & 0x8000000000000000 != 0
  }

  lemma Xor0(v: bv64, w: bv64, i: nat)
    ensures BitFrom0(v ^ w, i) <==> BitFrom0(v, i) != BitFrom0(w, i)
  {}

  lemma And0(v: bv64, w: bv64, i: nat)
    ensures BitFrom0(v & w, i) <==> BitFrom0(v, i) && BitFrom0(w, i)
  {}

  lemma Not0(v: bv64, i: nat)
    ensures BitFrom0(!v, i) <==> !BitFrom0(v, i)
  {}

  lemma Xor4(v: bv64, w: bv64, i: nat)
    ensures BitFrom4(v ^ w, i) <==> BitFrom4(v, i) != BitFrom4(w, i)
  {}

  lemma And4(v: bv64, w: bv64, i: nat)
    ensures BitFrom4(v & w, i) <==> BitFrom4(v, i) && BitFrom4(w, i)
  {}

  lemma Not4(v: bv64, i: nat)
    ensures BitFrom4(!v, i) <==> !BitFrom4(v, i)
  {}

  lemma Xor8(v: bv64, w: bv64, i: nat)
    ensures BitFrom8(v ^ w, i) <==> BitFrom8(v, i) != BitFrom8(w, i)
  {}

  lemma And8(v: bv64, w: bv64, i: nat)
    ensures BitFrom8(v & w, i) <==> BitFrom8(v, i) && BitFrom8(w, i)
  {}

  lemma Not8(v: bv64, i: nat)
    ensures BitFrom8(!v, i) <==> !BitFrom8(v, i)
  {}

  lemma Xor12(v: bv64, w: bv64, i: nat)
    ensures BitFrom12(v ^ w, i) <==> BitFrom12(v, i) != BitFrom12(w, i)
  {}

  lemma And12(v: bv64, w: bv64, i: nat)
    ensures BitFrom12(v & w, i) <==> BitFrom12(v, i) && BitFrom12(w, i)
  {}

  lemma Not12(v: bv64, i: nat)
    ensures BitFrom12(!v, i) <==> !BitFrom12(v, i)
  {}

  lemma Xor16(v: bv64, w: bv64, i: nat)
    ensures BitFrom16(v ^ w, i) <==> BitFrom16(v, i) != BitFrom16(w, i)
  {}

  lemma And16(v: bv64, w: bv64, i: nat)
    ensures BitFrom16(v & w, i) <==> BitFrom16(v, i) && BitFrom16(w, i)
  {}

  lemma Not16(v: bv64, i: nat)
    ensures BitFrom16(!v, i) <==> !BitFrom16(v, i)
  {}

  lemma Xor20(v: bv64, w: bv64, i: nat)
    ensures BitFrom20(v ^ w, i) <==> BitFrom20(v, i) != BitFrom20(w, i)
  {}

  lemma And20(v: bv64, w: bv64, i: nat)
    ensures BitFrom20(v & w, i) <==> BitFrom20(v, i) && BitFrom20(w, i)
  {}

  lemma Not20(v: bv64, i: nat)
    ensures BitFrom20(!v, i) <==> !BitFrom20(v, i)
  {}

  lemma Xor24(v: bv64, w: bv64, i: nat)
    ensures BitFrom24(v ^ w, i) <==> BitFrom24(v, i) != BitFrom24(w, i)
  {}

  lemma And24(v: bv64, w: bv64, i: nat)
    ensures BitFrom24(v & w, i) <==> BitFrom24(v, i) && BitFrom24(w, i)
  {}

  lemma Not24(v: bv64, i: nat)
    ensures BitFrom24(!v, i) <==> !BitFrom24(v, i)
  {}

  lemma Xor28(v: bv64, w: bv64, i: nat)
    ensures BitFrom28(v ^ w, i) <==> BitFrom28(v, i) != BitFrom28(w, i)
  {}

  lemma And28(v: bv64, w: bv64, i: nat)
    ensures BitFrom28(v & w, i) <==> BitFrom28(v, i) && BitFrom28(w, i)
  {}

  lemma Not28(v: bv64, i: nat)
    ensures BitFrom28(!v, i) <==> !BitFrom28(v, i)
  {}

  lemma Xor32(v: bv64, w: bv64, i: nat)
    ensures BitFrom32(v ^ w, i) <==> BitFrom32(v, i) != BitFrom32(w, i)
  {}

  lemma And32(v: bv64, w: bv64, i: nat)
    ensures BitFrom32(v & w, i) <==> BitFrom32(v, i) && BitFrom32(w, i)
  {}

  lemma Not32(v: bv64, i: nat)
    ensures BitFrom32(!v, i) <==> !BitFrom32(v, i)
  {}

  lemma Xor36(v: bv64, w: bv64, i: nat)
    ensures BitFrom36(v ^ w, i) <==> BitFrom36(v, i) != BitFrom36(w, i)
  {}

  lemma And36(v: bv64, w: bv64, i: nat)
    ensures BitFrom36(v & w, i) <==> BitFrom36(v, i) && BitFrom36(w, i)
  {}

  lemma Not36(v: bv64, i: nat)
    ensures BitFrom36(!v, i) <==> !BitFrom36(v, i)
  {}

  lemma Xor40(v: bv64, w: bv64, i: nat)
    ensures BitFrom40(v ^ w, i) <==> BitFrom40(v, i) != BitFrom40(w, i)
  {}

  lemma And40(v: bv64, w: bv64, i: nat)
    ensures BitFrom40(v & w, i) <==> BitFrom40(v, i) && BitFrom40(w, i)
  {}

  lemma Not40(v: bv64, i: nat)
    ensures BitFrom40(!v, i) <==> !BitFrom40(v, i)
  {}

  lemma Xor44(v: bv64, w: bv64, i: nat)
    ensures BitFrom44(v ^ w, i) <==> BitFrom44(v, i) != BitFrom44(w, i)
  {}

  lemma And44(v: bv64, w: bv64, i: nat)
    ensures BitFrom44(v & w, i) <==> BitFrom44(v, i) && BitFrom44(w, i)
  {}

  lemma Not44(v: bv64, i: nat)
    ensures BitFrom44(!v, i) <==> !BitFrom44(v, i)
  {}

  lemma Xor48(v: bv64, w: bv64, i: nat)
    ensures BitFrom48(v ^ w, i) <==> BitFrom48(v, i) != BitFrom48(w, i)
  {}

  lemma And48(v: bv64, w: bv64, i: nat)
    ensures BitFrom48(v & w, i) <==> BitFrom48(v, i) && BitFrom48(w, i)
  {}

  lemma Not48(v: bv64, i: nat)
    ensures BitFrom48(!v, i) <==> !BitFrom48(v, i)
  {}

  lemma Xor52(v: bv64, w: bv64, i: nat)
    ensures BitFrom52(v ^ w, i) <==> BitFrom52(v, i) != BitFrom52(w, i)
  {}

  lemma And52(v: bv64, w: bv64, i: nat)
    ensures BitFrom52(v & w, i) <==> BitFrom52(v, i) && BitFrom52(w, i)
  {}

  lemma Not52(v: bv64, i: nat)
    ensures BitFrom52(!v, i) <==> !BitFrom52(v, i)
  {}

  lemma Xor56(v: bv64, w: bv64, i: nat)
    ensures BitFrom56(v ^ w, i) <==> BitFrom56(v, i) != BitFrom56(w, i)
  {}

  lemma And56(v: bv64, w: bv64, i: nat)
    ensures BitFrom56(v & w, i) <==> BitFrom56(v, i) && BitFrom56(w, i)
  {}

  lemma Not56(v: bv64, i: nat)
    ensures BitFrom56(!v, i) <==> !BitFrom56(v, i)
  {}

  lemma Xor60(v: bv64, w: bv64, i: nat)
    ensures BitFrom60(v ^ w, i) <==> BitFrom60(v, i) != BitFrom60(w, i)
  {}

  lemma And60(v: bv64, w: bv64, i: nat)
    ensures BitFrom60(v & w, i) <==> BitFrom60(v, i) && BitFrom60(w, i)
  {}

  lemma Not60(v: bv64, i: nat)
    ensures BitFrom60(!v, i) <==> !BitFrom60(v, i)
  {}

  lemma Turn0(w: bv64, i: nat)
    requires 0 <= i < 4
    ensures Bit(Rotl1(w), i + 1) <==> Bit(w, i)
  {}

  lemma Turn4(w: bv64, i: nat)
    requires 4 <= i < 8
    ensures Bit(Rotl1(w), i + 1) <==> Bit(w, i)
  {}

  lemma Turn8(w: bv64, i: nat)
    requires 8 <= i < 12
    ensures Bit(Rotl1(w), i + 1) <==> Bit(w, i)
  {}

  lemma Turn12(w: bv64, i: nat)
    requires 12 <= i < 16
    ensures Bit(Rotl1(w), i + 1) <==> Bit(w, i)
  {}

  lemma Turn16(w: bv64, i: nat)
    requires 16 <= i < 20
    ensures Bit(Rotl1(w), i + 1) <==> Bit(w, i)
  {}

  lemma Turn20(w: bv64, i: nat)
    requires 20 <= i < 24
    ensures Bit(Rotl1(w), i + 1) <==> Bit(w, i)
  {}

  lemma Turn24(w: bv64, i: nat)
    requires 24 <= i < 28
    ensures Bit(Rotl1(w), i + 1) <==> Bit(w, i)
  {}

  lemma Turn28(w: bv64, i: nat)
    requires 28 <= i < 32
    ensures Bit(Rotl1(w), i + 1) <==> Bit(w, i)
  {}

  lemma Turn32(w: bv64, i: nat)
    requires 32 <= i < 36
    ensures Bit(Rotl1(w), i + 1) <==> Bit(w, i)
  {}

  lemma Turn36(w: bv64, i: nat)
    requires 36 <= i < 40
    ensures Bit(Rotl1(w), i + 1) <==> Bit(w, i)
  {}

  lemma Turn40(w: bv64, i: nat)
    requires 40 <= i < 44
    ensures Bit(Rotl1(w), i + 1) <==> Bit(w, i)
  {}

  lemma Turn44(w: bv64, i: nat)
    requires 44 <= i < 48
    ensures Bit(Rotl1(w), i + 1) <==> Bit(w, i)
  {}

  lemma Turn48(w: bv64, i: nat)
    requires 48 <= i < 52
    ensures Bit(Rotl1(w), i + 1) <==> Bit(w, i)
  {}

  lemma Turn52(w: bv64, i: nat)
    requires 52 <= i < 56
    ensures Bit(Rotl1(w), i + 1) <==> Bit(w, i)
  {}

  lemma Turn56(w: bv64, i: nat)
    requires 56 <= i < 60
    ensures Bit(Rotl1(w), i + 1) <==> Bit(w, i)
  {}

  lemma Turn60(w: bv64, i: nat)
    requires 60 <= i < 63
    ensures Bit(Rotl1(w), i + 1) <==> Bit(w, i)
  {}

  lemma TurnTop(w: bv64)
    ensures Bit(Rotl1(w), 0) <==> Bit(w, 63)
  {}

  lemma XorBit(v: bv64, w: bv64, i: nat)
    ensures Bit(v ^ w, i) <==> Bit(v, i) != Bit(w, i)
  {
    if i < 4 { Xor0(v, w, i); } else if i < 8 { Xor4(v, w, i); }
    else if i < 12 { Xor8(v, w, i); } else if i < 16 { Xor12(v, w, i); }
    else if i < 20 { Xor16(v, w, i); } else if i < 24 { Xor20(v, w, i); }
    else if i < 28 { Xor24(v, w, i); } else if i < 32 { Xor28(v, w, i); }
    else if i < 36 { Xor32(v, w, i); } else if i < 40 { Xor36(v, w, i); }
    else if i < 44 { Xor40(v, w, i); } else if i < 48 { Xor44(v, w, i); }
    else if i < 52 { Xor48(v, w, i); } else if i < 56 { Xor52(v, w, i); }
    else if i < 60 { Xor56(v, w, i); } else { Xor60(v, w, i); }
  }

  lemma AndBit(v: bv64, w: bv64, i: nat)
    ensures Bit(v & w, i) <==> Bit(v, i) && Bit(w, i)
  {
    if i < 4 { And0(v, w, i); } else if i < 8 { And4(v, w, i); }
    else if i < 12 { And8(v, w, i); } else if i < 16 { And12(v, w, i); }
    else if i < 20 { And16(v, w, i); } else if i < 24 { And20(v, w, i); }
    else if i < 28 { And24(v, w, i); } else if i < 32 { And28(v, w, i); }
    else if i < 36 { And32(v, w, i); } else if i < 40 { And36(v, w, i); }
    else if i < 44 { And40(v, w, i); } else if i < 48 { And44(v, w, i); }
    else if i < 52 { And48(v, w, i); } else if i < 56 { And52(v, w, i); }
    else if i < 60 { And56(v, w, i); } else { And60(v, w, i); }
  }

  lemma NotBit(v: bv64, i: nat)
    ensures Bit(!v, i) <==> !Bit(v, i)
  {
    if i < 4 { Not0(v, i); } else if i < 8 { Not4(v, i); }
    else if i < 12 { Not8(v, i); } else if i < 16 { Not12(v, i); }
    else if i < 20 { Not16(v, i); } else if i < 24 { Not20(v, i); }
    else if i < 28 { Not24(v, i); } else if i < 32 { Not28(v, i); }
    else if i < 36 { Not32(v, i); } else if i < 40 { Not36(v, i); }
    else if i < 44 { Not40(v, i); } else if i < 48 { Not44(v, i); }
    else if i < 52 { Not48(v, i); } else if i < 56 { Not52(v, i); }
    else if i < 60 { Not56(v, i); } else { Not60(v, i); }
  }

  lemma Turn(w: bv64, i: nat)
    requires i < 63
    ensures Bit(Rotl1(w), i + 1) <==> Bit(w, i)
  {
    if i < 4 { Turn0(w, i); } else if i < 8 { Turn4(w, i); }
    else if i < 12 { Turn8(w, i); } else if i < 16 { Turn12(w, i); }
    else if i < 20 { Turn16(w, i); } else if i < 24 { Turn20(w, i); }
    else if i < 28 { Turn24(w, i); } else if i < 32 { Turn28(w, i); }
    else if i < 36 { Turn32(w, i); } else if i < 40 { Turn36(w, i); }
    else if i < 44 { Turn40(w, i); } else if i < 48 { Turn44(w, i); }
    else if i < 52 { Turn48(w, i); } else if i < 56 { Turn52(w, i); }
    else if i < 60 { Turn56(w, i); } else { Turn60(w, i); }
  }

  lemma LanesXor(v: bv64, w: bv64, i: nat)
    ensures Bit(LANES.xor(v, w), i) <==> Bit(v, i) != Bit(w, i)
  {
    assert LANES.xor(v, w) == v ^ w;
    XorBit(v, w, i);
  }

  lemma LanesAnd(v: bv64, w: bv64, i: nat)
    ensures Bit(LANES.and_(v, w), i) <==> Bit(v, i) && Bit(w, i)
  {
    assert LANES.and_(v, w) == v & w;
    AndBit(v, w, i);
  }

  lemma LanesNot(v: bv64, i: nat)
    ensures Bit(LANES.not(v), i) <==> !Bit(v, i)
  {
    assert LANES.not(v) == !v;
    NotBit(v, i);
  }

  /** A step that moves each bit one place moves it n places when repeated. */
  lemma {:induction false} Repeats<W(!new)>(step: W -> W, bit: (W, nat) -> bool, w: W, n: nat, i: nat)
    requires i < 64 && forall v, k: nat {:trigger Moves(step, bit, v, k)} :: k < 64 ==> Moves(step, bit, v, k)
    ensures bit(Repeat(step, w, n), (i + n) % 64) == bit(w, i)
  {
    if n > 0 {
      Repeats(step, bit, w, n - 1, i);
      assert Moves(step, bit, Repeat(step, w, n - 1), (i + (n - 1)) % 64);
      NextPlace(i + (n - 1));
    }
  }

  predicate Moves<W>(step: W -> W, bit: (W, nat) -> bool, v: W, k: nat) { bit(step(v), (k + 1) % 64) == bit(v, k) }

  lemma NextPlace(k: nat)
    ensures (k % 64 + 1) % 64 == (k + 1) % 64
  {}

  lemma RotlMoves(v: bv64, k: nat)
    requires k < 64
    ensures Moves(Rotl1, Bit, v, k)
  {
    if k < 63 {
      assert (k + 1) % 64 == k + 1;
      Turn(v, k);
    } else {
      assert (k + 1) % 64 == 0 && k == 63;
      TurnTop(v);
    }
  }

  /** Rotation by n moves bit i to place i + n modulo 64. */
  lemma LanesRotateLeft(w: bv64, n: nat, i: nat)
    requires i < 64
    ensures Bit(LANES.rotl(w, n), (i + n) % 64) <==> Bit(w, i)
  {
    forall v, k: nat | k < 64 ensures Moves(Rotl1, Bit, v, k) { RotlMoves(v, k); }
    Repeats(Rotl1, Bit, w, n % 64, i);
    SamePlace(i, n);
  }

  lemma SamePlace(i: nat, n: nat)
    ensures (i + n % 64) % 64 == (i + n) % 64
  {}

  // ── lanes and bytes, section 3.1.2 of FIPS 202 ──────────────────────────────

  /** Bit `k` of a byte, the least significant first. */
  predicate OctetBit(b: Octet, k: nat) {
    if k == 0 then b & 1 != 0 else if k == 1 then b & 2 != 0 else if k == 2 then b & 4 != 0
    else if k == 3 then b & 8 != 0 else if k == 4 then b & 16 != 0 else if k == 5 then b & 32 != 0
    else if k == 6 then b & 64 != 0 else b & 128 != 0
  }

  lemma Byte0(w: bv64, k: nat)
    requires k < 8
    ensures OctetBit(LowByte(w), k) <==> Bit(w, 0 + k)
  {}

  lemma Byte1(w: bv64, k: nat)
    requires k < 8
    ensures OctetBit(LowByte(w >> 8), k) <==> Bit(w, 8 + k)
  {}

  lemma Byte2(w: bv64, k: nat)
    requires k < 8
    ensures OctetBit(LowByte(w >> 16), k) <==> Bit(w, 16 + k)
  {}

  lemma Byte3(w: bv64, k: nat)
    requires k < 8
    ensures OctetBit(LowByte(w >> 24), k) <==> Bit(w, 24 + k)
  {}

  lemma Byte4(w: bv64, k: nat)
    requires k < 8
    ensures OctetBit(LowByte(w >> 32), k) <==> Bit(w, 32 + k)
  {}

  lemma Byte5(w: bv64, k: nat)
    requires k < 8
    ensures OctetBit(LowByte(w >> 40), k) <==> Bit(w, 40 + k)
  {}

  lemma Byte6(w: bv64, k: nat)
    requires k < 8
    ensures OctetBit(LowByte(w >> 48), k) <==> Bit(w, 48 + k)
  {}

  lemma Byte7(w: bv64, k: nat)
    requires k < 8
    ensures OctetBit(LowByte(w >> 56), k) <==> Bit(w, 56 + k)
  {}

  lemma Stored0(w: bv64, k: nat)
    requires k < 8
    ensures OctetBit(StoreLane(w)[0], k) <==> Bit(w, 0 + k)
  {
    Byte0(w, k);
  }

  lemma Stored1(w: bv64, k: nat)
    requires k < 8
    ensures OctetBit(StoreLane(w)[1], k) <==> Bit(w, 8 + k)
  {
    Byte1(w, k);
  }

  lemma Stored2(w: bv64, k: nat)
    requires k < 8
    ensures OctetBit(StoreLane(w)[2], k) <==> Bit(w, 16 + k)
  {
    Byte2(w, k);
  }

  lemma Stored3(w: bv64, k: nat)
    requires k < 8
    ensures OctetBit(StoreLane(w)[3], k) <==> Bit(w, 24 + k)
  {
    Byte3(w, k);
  }

  lemma Stored4(w: bv64, k: nat)
    requires k < 8
    ensures OctetBit(StoreLane(w)[4], k) <==> Bit(w, 32 + k)
  {
    Byte4(w, k);
  }

  lemma Stored5(w: bv64, k: nat)
    requires k < 8
    ensures OctetBit(StoreLane(w)[5], k) <==> Bit(w, 40 + k)
  {
    Byte5(w, k);
  }

  lemma Stored6(w: bv64, k: nat)
    requires k < 8
    ensures OctetBit(StoreLane(w)[6], k) <==> Bit(w, 48 + k)
  {
    Byte6(w, k);
  }

  lemma Stored7(w: bv64, k: nat)
    requires k < 8
    ensures OctetBit(StoreLane(w)[7], k) <==> Bit(w, 56 + k)
  {
    Byte7(w, k);
  }

  /** Bit k of byte j of a stored lane is bit 8j + k of the lane. */
  lemma StoredBits(w: bv64, j: nat, k: nat)
    requires j < 8 && k < 8
    ensures OctetBit(StoreLane(w)[j], k) <==> Bit(w, 8 * j + k)
  {
    if j < 4 { StoredLow(w, j, k); } else { StoredHigh(w, j, k); }
  }

  lemma StoredLow(w: bv64, j: nat, k: nat)
    requires j < 4 && k < 8
    ensures OctetBit(StoreLane(w)[j], k) <==> Bit(w, 8 * j + k)
  {
    if j == 0 { Stored0(w, k); } else if j == 1 { Stored1(w, k); } else if j == 2 { Stored2(w, k); }
    else { Stored3(w, k); }
  }

  lemma StoredHigh(w: bv64, j: nat, k: nat)
    requires 4 <= j < 8 && k < 8
    ensures OctetBit(StoreLane(w)[j], k) <==> Bit(w, 8 * j + k)
  {
    if j == 4 { Stored4(w, k); } else if j == 5 { Stored5(w, k); } else if j == 6 { Stored6(w, k); }
    else { Stored7(w, k); }
  }

  /** Loading and storing are inverse, so bit k of byte 8i + j of a block is bit 8j + k of lane i. */
  lemma LoadStore(a: Octet, b: Octet, c: Octet, d: Octet, e: Octet, f: Octet, g: Octet, h: Octet)
    ensures StoreLane(LoadLane([a, b, c, d, e, f, g, h], 0)) == [a, b, c, d, e, f, g, h]
  {}

  lemma LoadFrom(block: seq<Octet>, i: nat)
    requires 8 * i + 8 <= |block|
    ensures LoadLane(block, i) == LoadLane(block[8 * i..8 * i + 8], 0)
  {}

  lemma LoadedLane(block: seq<Octet>, i: nat)
    requires 8 * i + 8 <= |block|
    ensures StoreLane(LoadLane(block, i)) == block[8 * i..8 * i + 8]
  {
    var s := block[8 * i..8 * i + 8];
    LoadFrom(block, i);
    LoadStore(s[0], s[1], s[2], s[3], s[4], s[5], s[6], s[7]);
    assert s == [s[0], s[1], s[2], s[3], s[4], s[5], s[6], s[7]];
  }

  /** Bit k of byte 8i + j of a block is bit 8j + k of the lane loaded from it. */
  lemma LoadedBits(block: seq<Octet>, i: nat, j: nat, k: nat)
    requires 8 * i + 8 <= |block| && j < 8 && k < 8
    ensures Bit(LoadLane(block, i), 8 * j + k) <==> OctetBit(block[8 * i + j], k)
  {
    LoadedLane(block, i);
    StoredBits(LoadLane(block, i), j, k);
    assert block[8 * i..8 * i + 8][j] == block[8 * i + j];
  }

  /** The digest is lanes 0 to 3 of the state, stored one after the other. */
  lemma SqueezedLanes(s: State, i: nat)
    requires i < 4
    ensures Squeeze(s)[8 * i..8 * i + 8] == StoreLane(s[i])
  {
    FourLanes(StoreLane(s[0]), StoreLane(s[1]), StoreLane(s[2]), StoreLane(s[3]), i);
  }

  lemma FourLanes<T>(a: seq<T>, b: seq<T>, c: seq<T>, d: seq<T>, i: nat)
    requires |a| == |b| == |c| == |d| == 8 && i < 4
    ensures (a + b + c + d)[8 * i..8 * i + 8] == if i == 0 then a else if i == 1 then b else if i == 2 then c else d
  {}

  /** Bit k of byte 8i + j of the digest is bit 8j + k of lane i. */
  lemma SqueezedBits(s: State, i: nat, j: nat, k: nat)
    requires i < 4 && j < 8 && k < 8
    ensures OctetBit(Squeeze(s)[8 * i + j], k) <==> Bit(s[i], 8 * j + k)
  {
    SqueezedLanes(s, i);
    StoredBits(s[i], j, k);
    assert Squeeze(s)[8 * i..8 * i + 8][j] == Squeeze(s)[8 * i + j];
  }

  // ── padding, section 5.1 of FIPS 202 with the original Keccak suffix ────────

  /** A one bit, zeros and a one bit fill the last block of 136 bytes. */
  lemma PadIsOneZerosOne(length: nat)
    ensures var p := Pad(length);
            && 1 <= |p| <= 136 && (length + |p|) % 136 == 0
            && forall i, k: nat :: 0 <= i < |p| && k < 8 ==>
                 (OctetBit(p[i], k) <==> (i == 0 && k == 0) || (i == |p| - 1 && k == 7))
  {}
}
