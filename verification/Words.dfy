/** Machine words as bounded integers: 64-bit limbs, masks and little-endian limb sums. */
module Words {

  type U64 = x: int | 0 <= x < 0x1_0000_0000_0000_0000

  /** Bitwise operators, defined bit by bit on non-negative integers. */
  function And(x: nat, y: nat): nat
    decreases x
  {
    if x == 0 || y == 0 then 0 else 2 * And(x / 2, y / 2) + (if x % 2 == 1 && y % 2 == 1 then 1 else 0)
  }

  function Or(x: nat, y: nat): nat
    decreases x
  {
    if x == 0 then y else if y == 0 then x
    else 2 * Or(x / 2, y / 2) + (if x % 2 + y % 2 == 0 then 0 else 1)
  }

  function Not(x: U64): U64 { 0xFFFF_FFFF_FFFF_FFFF - x }

  /** Two's complement negation: the all-ones / all-zeros mask of a 0/1 flag. */
  function Neg(x: U64): U64 { (0 - x) % 0x1_0000_0000_0000_0000 }

  function Flag(b: bool): U64 { if b then 1 else 0 }

  function Pow2(k: nat): (p: int)
    ensures p >= 1
  {
    if k == 0 then 1 else 2 * Pow2(k - 1)
  }

  lemma {:induction false} Pow2Add(i: nat, k: nat)
    ensures Pow2(i + k) == Pow2(i) * Pow2(k)
  {
    if k > 0 {
      Pow2Add(i, k - 1);
      assert 2 * (Pow2(i) * Pow2(k - 1)) == Pow2(i) * (2 * Pow2(k - 1));
    }
  }

  lemma {:induction false} Pow2Double(k: nat, v: int)
    requires Pow2(k) == v
    ensures Pow2(k + k) == v * v
  {
    Pow2Add(k, k);
  }

  lemma Pow2At64()
    ensures Pow2(64) == 0x1_0000_0000_0000_0000
  {
    assert Pow2(4) == 16;
    Pow2Double(4, 16);
    Pow2Double(8, 0x100);
    Pow2Double(16, 0x1_0000);
    Pow2Double(32, 0x1_0000_0000);
  }

  lemma {:induction false} AndOnes(x: nat, k: nat)
    requires x < Pow2(k)
    ensures And(x, Pow2(k) - 1) == x
  {
    if x != 0 {
      AndOnes(x / 2, k - 1);
      assert (Pow2(k) - 1) / 2 == Pow2(k - 1) - 1;
    }
  }

  lemma {:induction false} AndMask(x: U64)
    ensures And(x, 0) == 0
    ensures And(x, 0xFFFF_FFFF_FFFF_FFFF) == x
  {
    Pow2At64();
    AndOnes(x, 64);
  }

  lemma {:induction false} OrIsZero(x: nat, y: nat)
    ensures Or(x, y) == 0 <==> x == 0 && y == 0
  {
    if x != 0 && y != 0 { OrIsZero(x / 2, y / 2); }
  }

  /** Branch-free choice: `x` under an all-ones mask, `y` under an all-zeros mask. */
  method Select(keep: U64, x: U64, y: U64) returns (r: U64)
    requires keep == Neg(0) || keep == Neg(1)
    ensures r == if keep == 0 then y else x
  {
    AndMask(x); AndMask(y);
    r := Or(And(x, keep), And(y, Not(keep)));
  }

  /** x · 2^(64·i). */
  ghost function Shift(x: int, i: nat): int {
    if i == 0 then x else 0x1_0000000000000000 * Shift(x, i - 1)
  }

  lemma {:induction false} ShiftAdd(x: int, y: int, i: nat)
    ensures Shift(x + y, i) == Shift(x, i) + Shift(y, i)
  {
    if i > 0 { ShiftAdd(x, y, i - 1); }
  }

  lemma {:induction false} ShiftCarry(x: int, i: nat)
    ensures Shift(0x1_0000000000000000 * x, i) == Shift(x, i + 1)
  {
    if i > 0 { ShiftCarry(x, i - 1); }
  }

  lemma {:induction false} ShiftMul(x: int, y: int, i: nat)
    ensures x * Shift(y, i) == Shift(x * y, i)
  {
    if i > 0 {
      ShiftMul(x, y, i - 1);
      assert x * (0x1_0000000000000000 * Shift(y, i - 1)) == 0x1_0000000000000000 * (x * Shift(y, i - 1));
    }
  }

  lemma {:induction false} ShiftShift(x: int, i: nat, j: nat)
    ensures Shift(Shift(x, i), j) == Shift(x, i + j)
  {
    if j > 0 { ShiftShift(x, i, j - 1); }
  }

  /** A column sum and its carry weigh the same before and after the carry moves up. */
  lemma {:induction false} CarryUp(sum: int, lo: int, hi: int, i: nat)
    requires sum == lo + hi * 0x1_0000000000000000
    ensures Shift(sum, i) == Shift(lo, i) + Shift(hi, i + 1)
  {
    ShiftAdd(lo, hi * 0x1_0000000000000000, i);
    ShiftCarry(hi, i);
  }

  /** Little-endian value of the first `k` limbs. */
  ghost function Low(s: seq<U64>, k: nat): int
    requires k <= |s|
  {
    if k == 0 then 0 else Low(s, k - 1) + Shift(s[k - 1], k - 1)
  }

  lemma {:induction false} LowFrame(s: seq<U64>, t: seq<U64>, k: nat)
    requires k <= |s| && k <= |t|
    requires forall i :: 0 <= i < k ==> s[i] == t[i]
    ensures Low(s, k) == Low(t, k)
  {
    if k > 0 { LowFrame(s, t, k - 1); }
  }

  lemma {:induction false} ShiftSmall(x: int)
    ensures Shift(x, 0) == x
    ensures Shift(x, 1) == x * 0x1_0000000000000000
    ensures Shift(x, 2) == x * 0x1_0000000000000000_0000000000000000
    ensures Shift(x, 3) == x * 0x1_0000000000000000_0000000000000000_0000000000000000
    ensures Shift(x, 4) == x * 0x1_0000000000000000_0000000000000000_0000000000000000_0000000000000000
  {
    assert Shift(x, 2) == 0x1_0000000000000000 * Shift(x, 1);
    assert Shift(x, 3) == 0x1_0000000000000000 * Shift(x, 2);
    assert Shift(x, 4) == 0x1_0000000000000000 * Shift(x, 3);
  }

  lemma {:induction false} LowFour(s: seq<U64>)
    requires |s| >= 4
    ensures Low(s, 4) == Compose4(s[0], s[1], s[2], s[3])
  {
    assert Low(s, 1) == Shift(s[0], 0);
    assert Low(s, 2) == Low(s, 1) + Shift(s[1], 1);
    assert Low(s, 3) == Low(s, 2) + Shift(s[2], 2);
    ShiftSmall(s[1]); ShiftSmall(s[2]); ShiftSmall(s[3]);
  }

  /** Low word and high part of a double-width value. */
  method Split(t: int) returns (lo: U64, hi: int)
    ensures t == lo + hi * 0x1_0000000000000000
  {
    lo := t % 0x1_0000000000000000;
    hi := t / 0x1_0000000000000000;
  }

  /** 64-bit addition: the sum wraps at 2^64. */
  method AddWrap(x: U64, y: U64) returns (s: U64)
    ensures s == if x + y < 0x1_0000000000000000 then x + y else x + y - 0x1_0000000000000000
  {
    s := (x + y) % 0x1_0000000000000000;
  }

  /** One column of a 128-bit subtraction: bit 64 of the wrapped difference is the next borrow. */
  method SubWord(x: U64, y: U64, borrow: U64) returns (lo: U64, borrow': U64)
    requires borrow <= 1
    ensures borrow' <= 1
    ensures lo == x - y - borrow + borrow' * 0x1_0000000000000000
  {
    var d := x - y - borrow;
    if d < 0 { d := d + 0x1_0000000000000000_0000000000000000; }
    lo := d % 0x1_0000000000000000;
    borrow' := (d / 0x1_0000000000000000) % 2;
  }

  ghost function Compose3(a0: int, a1: int, a2: int): int {
    a0 + a1 * 0x1_0000000000000000 + a2 * 0x1_0000000000000000_0000000000000000
  }

  ghost function Compose4(a0: int, a1: int, a2: int, a3: int): int {
    Compose3(a0, a1, a2) + a3 * 0x1_0000000000000000_0000000000000000_0000000000000000
  }
}
