/** Arithmetic modulo the secp256k1 group order on four 64-bit limbs (src/crypto/Scalar.h). */
module Scalar {
  import opened Residues
  import opened Words

  type Limbs = s: seq<U64> | |s| == 4 witness [0, 0, 0, 0]

  const ORDER_N: Limbs := [0xBFD25E8CD0364141, 0xBAAEDCE6AF48A03B, 0xFFFFFFFFFFFFFFFE, 0xFFFFFFFFFFFFFFFF]
  const ORDER_HALF: Limbs := [0xDFE92F46681B20A0, 0x5D576E7357A4501D, 0xFFFFFFFFFFFFFFFF, 0x7FFFFFFFFFFFFFFF]
  const C0: U64 := 0x402DA1732FC9BEBF
  const C1: U64 := 0x4551231950B75FC4

  /** The group order and 2^256 as numbers. */
  const N: int := 0xFFFFFFFFFFFFFFFFFFFFFFFFFFFFFFFEBAAEDCE6AF48A03BBFD25E8CD0364141
  const TWO256: int := 0x1_0000000000000000_0000000000000000_0000000000000000_0000000000000000

  ghost function Val(a: Limbs): (v: int)
    ensures 0 <= v < TWO256
  {
    LowFour(a);
    Low(a, |a|)
  }

  lemma OrderLimbs()
    ensures Val(ORDER_N) == N
    ensures Val(ORDER_HALF) == (N - 1) / 2
    ensures TWO256 == N + Compose3(C0, C1, 1)
  {
    LowFour(ORDER_N); LowFour(ORDER_HALF);
  }

  lemma ModOnce(v: int)
    requires 0 <= v < 2 * N
    ensures v % N == if v < N then v else v - N
  {}

  method Sub(a: Limbs, b: Limbs) returns (r: Limbs, borrow: U64)
    ensures borrow == if Val(a) < Val(b) then 1 else 0
    ensures Val(r) == Val(a) - Val(b) + borrow * TWO256
  {
    borrow := 0;
    r := [0, 0, 0, 0];
    for i := 0 to 4
      invariant borrow <= 1
      invariant Low(r, i) + Low(b, i) == Low(a, i) + Shift(borrow, i)
    {
      var d, next := SubWord(a[i], b[i], borrow);
      CarryUp(d + b[i] + borrow, a[i], next, i);
      ShiftAdd(d + b[i], borrow, i); ShiftAdd(d, b[i], i);
      LowFrame(r, r[i := d], i);
      r, borrow := r[i := d], next;
    }
    LowFour(a); LowFour(b); LowFour(r);
    ShiftSmall(borrow);
  }

  /** The masked limb loop shared by the conditional corrections. */
  method SelectLimbs(keep: U64, x: Limbs, y: Limbs) returns (r: Limbs)
    requires keep == Neg(0) || keep == Neg(1)
    ensures r == if keep == 0 then y else x
  {
    r := [0, 0, 0, 0];
    for i := 0 to 4
      invariant forall k :: 0 <= k < i ==> r[k] == if keep == 0 then y[k] else x[k]
    {
      var w := Select(keep, x[i], y[i]);
      r := r[i := w];
    }
  }

  method CondSubN(a: Limbs) returns (r: Limbs)
    ensures Val(r) == Val(a) % N
  {
    OrderLimbs();
    var t, borrow := Sub(a, ORDER_N);
    r := SelectLimbs(Neg(borrow), a, t);
    ModOnce(Val(a));
  }

  method LessThan(a: Limbs, b: Limbs) returns (less: bool)
    ensures less <==> Val(a) < Val(b)
  {
    var t, borrow := Sub(a, b);
    less := borrow != 0;
  }

  /** The 257-bit sum as four limbs and a carry. */
  method AddWide(a: Limbs, b: Limbs) returns (sum: Limbs, carry: U64)
    ensures carry <= 1 && Val(sum) + carry * TWO256 == Val(a) + Val(b)
  {
    sum := [0, 0, 0, 0];
    carry := 0;
    for i := 0 to 4
      invariant carry <= 1
      invariant Low(sum, i) + Shift(carry, i) == Low(a, i) + Low(b, i)
    {
      var t, next := Split(a[i] + b[i] + carry);
      ghost var x: int, y: int := a[i], b[i];
      CarryUp(x + y + carry, t, next, i);
      ShiftAdd(x + y, carry, i); ShiftAdd(x, y, i);
      LowFrame(sum, sum[i := t], i);
      sum, carry := sum[i := t], next;
    }
    LowFour(a); LowFour(b); LowFour(sum);
    ShiftSmall(carry);
  }

  method AddMod(a: Limbs, b: Limbs) returns (r: Limbs)
    requires Val(a) < N && Val(b) < N
    ensures Val(r) == (Val(a) + Val(b)) % N
  {
    var sum, carry := AddWide(a, b);
    OrderLimbs();
    var diff, borrow := Sub(sum, ORDER_N);
    r := SelectLimbs(Neg(Flag(borrow == 1 && carry == 0)), sum, diff);
    ModOnce(Val(a) + Val(b));
  }

  ghost function Wrap192(x: int): int {
    if x < 0x1_0000000000000000_0000000000000000_0000000000000000 then x
    else x - 0x1_0000000000000000_0000000000000000_0000000000000000
  }

  /** 192-bit column accumulator w0 + w1·2^64 + w2·2^128; it wraps silently at 2^192. */
  class Acc {
    var w0: U64
    var w1: U64
    var w2: U64

    ghost function Value(): (v: int)
      reads this
      ensures 0 <= v < 0x1_0000000000000000_0000000000000000_0000000000000000
    {
      Compose3(w0, w1, w2)
    }

    constructor ()
      ensures Value() == 0
    {
      w0, w1, w2 := 0, 0, 0;
    }

    method Mul(a: U64, b: U64)
      modifies this
      ensures Value() == Wrap192(old(Value()) + a * b)
    {
      ProductBound(a, b, 0xFFFF_FFFF_FFFF_FFFF, 0xFFFF_FFFF_FFFF_FFFF);
      var lo, hi := Split(a * b);
      w0 := AddWrap(w0, lo);
      hi := hi + Flag(w0 < lo);
      w1 := AddWrap(w1, hi);
      w2 := AddWrap(w2, Flag(w1 < hi));
    }

    method Add(a: U64)
      modifies this
      ensures Value() == Wrap192(old(Value()) + a)
    {
      w0 := AddWrap(w0, a);
      var over := Flag(w0 < a);
      w1 := AddWrap(w1, over);
      w2 := AddWrap(w2, Flag(w1 < over));
    }

    method Extract() returns (out: U64)
      modifies this
      ensures old(Value()) == out + 0x1_0000000000000000 * Value()
      ensures Value() < 0x1_0000000000000000_0000000000000000
    {
      out := w0;
      w0 := w1;
      w1 := w2;
      w2 := 0;
    }
  }

  ghost function Compose7(m: seq<U64>): int
    requires |m| == 7
  {
    Compose4(m[0], m[1], m[2], m[3])
    + Compose3(m[4], m[5], m[6]) * 0x1_0000000000000000_0000000000000000_0000000000000000_0000000000000000
  }

  /** One output limb of a fold by C = C0 + C1·2^64 + 2^128. Operands the code leaves out are passed as zero. */
  method Column(a: Acc, x: U64, u: U64, v: U64, y: U64) returns (out: U64)
    requires a.Value() < 0x1_0000000000000000
    modifies a
    ensures a.Value() < 0x1_0000000000000000
    ensures out + 0x1_0000000000000000 * a.Value()
            == old(a.Value()) + x + u * 0x402DA1732FC9BEBF + v * 0x4551231950B75FC4 + y
  {
    a.Add(x);
    a.Mul(u, C0);
    a.Mul(v, C1);
    a.Add(y);
    out := a.Extract();
  }

  /** Stage 1: l + h·C, at most 386 bits, in seven limbs; the accumulator ends empty. */
  method Fold1(l: seq<U64>, a: Acc) returns (m: seq<U64>)
    requires |l| == 8 && a.Value() == 0
    modifies a
    ensures |m| == 7 && a.Value() == 0 && m[6] <= 3
    ensures Compose7(m) == Compose4(l[0], l[1], l[2], l[3])
                           + Compose4(l[4], l[5], l[6], l[7]) * 0x1_4551231950B75FC4_402DA1732FC9BEBF
  {
    var h0, h1, h2, h3 := l[4], l[5], l[6], l[7];
    var m0 := Column(a, l[0], h0, 0, 0);
    var m1 := Column(a, l[1], h1, h0, 0);
    var m2 := Column(a, l[2], h2, h1, h0);
    var m3 := Column(a, l[3], h3, h2, h1);
    var m4 := Column(a, 0, 0, h3, h2);
    assert a.Value() <= 0x4551231950B75FC4 + 2;
    var m5 := Column(a, 0, 0, 0, h3);
    assert a.Value() <= 1;
    var m6 := a.Extract();
    m := [m0, m1, m2, m3, m4, m5, m6];
  }

  ghost function Compose5(p: seq<U64>): int
    requires |p| == 5
  {
    Compose4(p[0], p[1], p[2], p[3])
    + Compose3(p[4], 0, 0) * 0x1_0000000000000000_0000000000000000_0000000000000000_0000000000000000
  }

  /** Stage 2: the low four limbs plus (m4, m5, m6)·C, at most 259 bits. */
  method Fold2(m: seq<U64>, a: Acc) returns (p: seq<U64>)
    requires |m| == 7 && a.Value() == 0 && m[6] <= 3
    modifies a
    ensures |p| == 5 && a.Value() == 0 && p[4] <= 7
    ensures Compose5(p) == Compose4(m[0], m[1], m[2], m[3])
                           + Compose3(m[4], m[5], m[6]) * 0x1_4551231950B75FC4_402DA1732FC9BEBF
  {
    var p0 := Column(a, m[0], m[4], 0, 0);
    var p1 := Column(a, m[1], m[5], m[4], 0);
    var p2 := Column(a, m[2], m[6], m[5], m[4]);
    var p3 := Column(a, m[3], 0, m[6], m[5]);
    a.Add(m[6]);
    var p4 := a.Extract();
    p := [p0, p1, p2, p3, p4];
  }

  /** Adds c·C to four limbs with a running carry, as the last two folds do. */
  method FoldWord(p: Limbs, c: U64) returns (r: Limbs, overflow: U64)
    requires c <= 7
    ensures overflow <= 1
    ensures Val(r) + overflow * TWO256 == Val(p) + c * 0x1_4551231950B75FC4_402DA1732FC9BEBF
  {
    var r0, t0 := Split(p[0] + c * C0);
    var r1, t1 := Split(p[1] + c * C1 + t0);
    var r2, t2 := Split(p[2] + c + t1);
    var r3, t3 := Split(p[3] + t2);
    r := [r0, r1, r2, r3];
    overflow := t3;
    LowFour(p); LowFour(r);
  }

  /** Stage 3 and the last carry fold, which cannot overflow again. */
  method Fold3(p: seq<U64>) returns (f: Limbs, ghost overflow: int)
    requires |p| == 5 && p[4] <= 7
    ensures Val(f) == Compose5(p) - (p[4] + overflow) * N
  {
    var q, over := FoldWord(p[..4], p[4]);
    overflow := over;
    var last: U64;
    f, last := FoldWord(q, over);
    LowFour(p[..4]);
    assert last == 0;
  }

  /** Each fold replaces 2^256 by C = 2^256 - n, so only a multiple of n is dropped. */
  method Fold512(l: seq<U64>) returns (f: Limbs, ghost dropped: int)
    requires |l| == 8
    ensures Compose4(l[0], l[1], l[2], l[3]) + Compose4(l[4], l[5], l[6], l[7]) * TWO256 == dropped * N + Val(f)
  {
    var a := new Acc();
    var m := Fold1(l, a);
    var p := Fold2(m, a);
    ghost var overflow;
    f, overflow := Fold3(p);
    dropped := Compose4(l[4], l[5], l[6], l[7]) + Compose3(m[4], m[5], m[6]) + p[4] + overflow;
  }

  /** Any 512-bit value modulo n: after the folds one conditional subtraction is enough. */
  method Reduce512(l: seq<U64>) returns (r: Limbs)
    requires |l| == 8
    ensures Val(r) == (Compose4(l[0], l[1], l[2], l[3]) + Compose4(l[4], l[5], l[6], l[7]) * TWO256) % N
  {
    ghost var x := Compose4(l[0], l[1], l[2], l[3]) + Compose4(l[4], l[5], l[6], l[7]) * TWO256;
    ghost var k;
    var f;
    f, k := Fold512(l);
    r := CondSubN(f);
    SameResidue(x, k, Val(f));
  }

  lemma SameResidue(x: int, k: int, f: int)
    requires x == k * N + f && 0 <= f < 2 * N
    ensures x % N == f % N
  {
    ModOnce(f);
    if f < N {
      DivModUnique(x, k, f, N);
    } else {
      DivModUnique(x, k + 1, f - N, N);
    }
  }

  /** Row i of the schoolbook product: adds x·b·2^(64·i) into the running product. */
  method MulRow(x: U64, b: Limbs, prod: array<U64>, i: nat)
    requires prod.Length == 8 && i < 4
    modifies prod
    ensures Low(prod[..], i + 5) == old(Low(prod[..], i + 4)) + Shift(x * Low(b, 4), i)
  {
    var carry: U64 := 0;
    ghost var p0 := prod[..];
    for j := 0 to 4
      invariant Low(prod[..], i + j) + Shift(carry, i + j) == Low(p0, i + j) + Shift(x * Low(b, j), i)
      invariant forall k :: i + j <= k < 8 ==> prod[k] == p0[k]
    {
      ghost var before := prod[..];
      ProductBound(x, b[j], 0xFFFF_FFFF_FFFF_FFFF, 0xFFFF_FFFF_FFFF_FFFF);
      var lo, hi := Split(x * b[j] + prod[i + j] + carry);
      RowStep(x, b, j, prod[i + j], carry, lo, hi, i);
      prod[i + j] := lo;
      carry := hi;
      LowFrame(before, prod[..], i + j);
    }
    ghost var before := prod[..];
    prod[i + 4] := carry;
    LowFrame(before, prod[..], i + 4);
  }

  lemma {:induction false} RowStep(x: int, b: Limbs, j: nat, p: int, c: int, lo: int, hi: int, i: nat)
    requires j < 4 && x * b[j] + p + c == lo + hi * 0x1_0000000000000000
    ensures Shift(lo, i + j) + Shift(hi, i + j + 1) + Shift(x * Low(b, j), i)
            == Shift(p, i + j) + Shift(c, i + j) + Shift(x * Low(b, j + 1), i)
  {
    CarryUp(x * b[j] + p + c, lo, hi, i + j);
    ShiftAdd(x * b[j] + p, c, i + j); ShiftAdd(x * b[j], p, i + j);
    ShiftMul(x, b[j], j);
    assert x * Low(b, j + 1) == x * Low(b, j) + x * Shift(b[j], j);
    ShiftAdd(x * Low(b, j), Shift(x * b[j], j), i);
    ShiftShift(x * b[j], j, i);
  }

  /** Sum of the first `i` rows of the schoolbook product with a multiplicand of value `v`. */
  ghost function Rows(a: Limbs, i: nat, v: int): int
    requires i <= 4
  {
    if i == 0 then 0 else Rows(a, i - 1, v) + Shift(a[i - 1] * v, i - 1)
  }

  lemma {:induction false} RowsAreProduct(a: Limbs, i: nat, v: int)
    requires i <= 4
    ensures Rows(a, i, v) == Low(a, i) * v
  {
    if i > 0 {
      RowsAreProduct(a, i - 1, v);
      ShiftMul(v, a[i - 1], i - 1);
    }
  }

  /** The exact 512-bit product. */
  method MulWide(a: Limbs, b: Limbs) returns (wide: seq<U64>)
    ensures |wide| == 8 && Low(wide, 8) == Rows(a, 4, Low(b, 4))
  {
    var prod := new U64[8](_ => 0);
    assert Low(prod[..], 4) == 0 by { LowFour(prod[..]); }
    for i := 0 to 4
      invariant Low(prod[..], i + 4) == Rows(a, i, Low(b, 4))
    {
      MulRow(a[i], b, prod, i);
    }
    wide := prod[..];
  }

  lemma ValProduct(a: Limbs, b: Limbs)
    ensures Rows(a, 4, Low(b, 4)) == Val(a) * Val(b)
  {
    LowFour(a); LowFour(b);
    RowsAreProduct(a, 4, Low(b, 4));
  }

  method MulMod(a: Limbs, b: Limbs) returns (r: Limbs)
    ensures Val(r) == (Val(a) * Val(b)) % N
  {
    var prod := MulWide(a, b);
    EightLimbs(prod);
    r := Reduce512(prod);
    ValProduct(a, b);
  }

  lemma {:induction false} EightLimbs(l: seq<U64>)
    requires |l| == 8
    ensures Low(l, 8) == Compose4(l[0], l[1], l[2], l[3]) + Compose4(l[4], l[5], l[6], l[7]) * TWO256
  {
    LowFour(l);
    LowFour(l[4..]);
    assert Low(l, 8) == Low(l, 4) + Shift(Low(l[4..], 4), 4) by { LowSplit(l, 4); }
    ShiftSmall(Low(l[4..], 4));
  }

  lemma {:induction false} LowSplit(l: seq<U64>, k: nat)
    requires |l| == 8 && k <= 4
    ensures Low(l, 4 + k) == Low(l, 4) + Shift(Low(l[4..], k), 4)
  {
    if k > 0 {
      LowSplit(l, k - 1);
      ShiftAdd(Low(l[4..], k - 1), Shift(l[4 + k - 1], k - 1), 4);
      ShiftShift(l[4 + k - 1], k - 1, 4);
    }
  }

  function Pow16(k: nat): (p: int)
    ensures p >= 1
  {
    if k == 0 then 1 else 16 * Pow16(k - 1)
  }

  lemma {:induction false} Pow16Add(i: nat, j: nat)
    ensures Pow16(i + j) == Pow16(i) * Pow16(j)
  {
    if i > 0 {
      Pow16Add(i - 1, j);
      assert 16 * (Pow16(i - 1) * Pow16(j)) == (16 * Pow16(i - 1)) * Pow16(j);
    }
  }

  lemma Pow16Word()
    ensures Pow16(16) == 0x1_0000000000000000
  {
    assert Pow16(4) == 0x1_0000;
    Pow16Add(4, 4); Pow16Add(8, 8);
  }

  /** Value of the limbs from index `k` up. */
  ghost function Above(e: Limbs, k: nat): (v: nat)
    requires k <= 4
    decreases 4 - k
  {
    if k == 4 then 0 else e[k] + 0x1_0000000000000000 * Above(e, k + 1)
  }

  lemma AboveAll(e: Limbs)
    ensures Above(e, 0) == Val(e)
  {
    LowFour(e);
    assert Above(e, 3) == e[3];
    assert Above(e, 2) == e[2] + 0x1_0000000000000000 * Above(e, 3);
    assert Above(e, 1) == e[1] + 0x1_0000000000000000 * Above(e, 2);
  }

  lemma {:induction false} DropLimbs(e: Limbs, k: nat)
    requires k <= 4
    ensures Val(e) / Pow16(16 * k) == Above(e, k)
  {
    if k == 0 {
      AboveAll(e);
    } else {
      DropLimbs(e, k - 1);
      Pow16Add(16 * (k - 1), 16);
      Pow16Word();
      DivDiv(Val(e), Pow16(16 * (k - 1)), 0x1_0000000000000000);
      assert Above(e, k - 1) == e[k - 1] + 0x1_0000000000000000 * Above(e, k);
    }
  }

  lemma {:induction false} DigitAbove(x: int, high: int, u: int, v: int)
    requires u > 0
    ensures ((x + (u * (16 * v)) * high) / u) % 16 == (x / u) % 16
  {
    var q, r, h := x / u, x % u, v * high;
    assert (u * (16 * v)) * high == (h * 16) * u;
    DivModUnique(x + (h * 16) * u, q + h * 16, r, u);
    ModAddMultiple(q, h, 16);
  }

  /** The shift-and-mask of one limb reads base-16 digit `w` of the whole value. */
  lemma {:induction false} WindowDigit(e: Limbs, w: nat)
    requires w < 64
    ensures (e[w / 16] / Pow16(w % 16)) % 16 == (Val(e) / Pow16(w)) % 16
  {
    var k, m := w / 16, w % 16;
    DropLimbs(e, k);
    Pow16Add(16 * k, m);
    DivDiv(Val(e), Pow16(16 * k), Pow16(m));
    Pow16Add(m, 16 - m);
    Pow16Word();
    DigitAbove(e[k], Above(e, k + 1), Pow16(m), Pow16(15 - m));
  }

  /** Masked table read: every entry is touched, only the selected one survives. */
  method Lookup(table: seq<Limbs>, digit: U64) returns (factor: Limbs)
    requires |table| == 16 && digit < 16
    ensures factor == table[digit]
  {
    factor := [0, 0, 0, 0];
    for i := 0 to 16
      invariant factor == if i <= digit then [0, 0, 0, 0] else table[digit]
    {
      var match_ := Neg(Flag(i == digit));
      ghost var before := factor;
      for w := 0 to 4
        invariant forall k :: 0 <= k < 4 ==>
          factor[k] == if k < w && i == digit then table[i][k] else before[k]
      {
        AndMask(table[i][w]);
        factor := factor[w := Or(factor[w], And(table[i][w], match_))];
      }
      assert factor == if i == digit then table[i] else before;
    }
  }

  /** `MulMod` read at the values of its operands. */
  method MulValues(x: Limbs, y: Limbs, ghost vx: int, ghost vy: int) returns (r: Limbs)
    requires Val(x) == vx && Val(y) == vy
    ensures Val(r) == (vx * vy) % N
  {
    r := MulMod(x, y);
  }

  method NextPower(x: Limbs, a: Limbs, ghost v: int, ghost i: nat) returns (r: Limbs)
    ensures Val(x) == Pow(v, i) % N && Val(a) == v ==> Val(r) == Pow(v, i + 1) % N
  {
    r := MulValues(x, a, Val(x), Val(a));
    ModMulLeft(Pow(v, i), v, N);
    assert Pow(v, i) * v == Pow(v, i + 1);
  }

  lemma {:induction false} OneIsPower(one: Limbs, v: int)
    requires one == [1, 0, 0, 0]
    ensures Val(one) == Pow(v, 0) % N
  {
    OneIsOne(one);
    PowZero(v, N);
  }

  lemma OneIsOne(one: Limbs)
    requires one == [1, 0, 0, 0]
    ensures Val(one) == 1
  {
    LowFour(one);
  }

  /** a^0 … a^15 modulo n. */
  method PowerTable(a: Limbs, ghost v: int) returns (table: seq<Limbs>)
    requires Val(a) == v
    ensures |table| == 16 && forall i :: 0 <= i < 16 ==> Val(table[i]) == Pow(v, i) % N
  {
    table := [[1, 0, 0, 0]];
    OneIsPower(table[0], v);
    for i := 1 to 16
      invariant |table| == i && forall k :: 0 <= k < i ==> Val(table[k]) == Pow(v, k) % N
    {
      var next := NextPower(table[i - 1], a, v, i - 1);
      table := table + [next];
    }
  }

  method MulPow(x: Limbs, y: Limbs, ghost v: int, ghost i: nat, ghost j: nat, ghost k: nat) returns (r: Limbs)
    ensures Val(x) == Pow(v, i) % N && Val(y) == Pow(v, j) % N && k == i + j ==> Val(r) == Pow(v, k) % N
  {
    r := MulValues(x, y, Val(x), Val(y));
    PowModAdd(v, i, j, N);
  }

  method FourSquarings(x: Limbs, ghost v: int, ghost i: nat) returns (r: Limbs)
    ensures Val(x) == Pow(v, i) % N ==> Val(r) == Pow(v, 16 * i) % N
  {
    r := x;
    ghost var k := i;
    for sq := 0 to 4
      invariant k
                == (if sq == 0 then 1 else if sq == 1 then 2 else if sq == 2 then 4 else if sq == 3 then 8 else 16) * i
      invariant Val(x) == Pow(v, i) % N ==> Val(r) == Pow(v, k) % N
    {
      r := MulPow(r, r, v, k, k, 2 * k);
      k := 2 * k;
    }
  }

  /** Reading one more window shifts the exponent prefix by one base-16 digit. */
  method WindowAt(e: Limbs, w: nat) returns (digit: U64)
    requires w < 64
    ensures digit < 16
    ensures Val(e) / Pow16(w) == 16 * (Val(e) / Pow16(w + 1)) + digit
  {
    WindowDigit(e, w);
    DivDiv(Val(e), Pow16(w), 16);
    digit := (e[w / 16] / Pow16(w % 16)) % 16;
  }

  method OrderMinusTwo() returns (e: Limbs)
    ensures Val(e) == N - 2
  {
    OrderLimbs();
    var two: Limbs := [2, 0, 0, 0];
    LowFour(two);
    var borrow: U64;
    e, borrow := Sub(ORDER_N, two);
  }

  /** Fixed-window exponentiation to n - 2. */
  method InvMod(a: Limbs) returns (result: Limbs)
    ensures Val(result) == Pow(Val(a), N - 2) % N
  {
    var e := OrderMinusTwo();
    var table := PowerTable(a, Val(a));
    result := Raise(table, e, Val(a));
  }

  method Raise(table: seq<Limbs>, e: Limbs, ghost v: int) returns (result: Limbs)
    requires |table| == 16 && forall i :: 0 <= i < 16 ==> Val(table[i]) == Pow(v, i) % N
    ensures Val(result) == Pow(v, Val(e)) % N
  {
    result := [1, 0, 0, 0];
    ghost var done: nat := 0;
    OneIsPower(result, v);
    DropLimbs(e, 4);
    for window := 64 downto 0
      invariant done == Val(e) / Pow16(window) && Val(result) == Pow(v, done) % N
    {
      var digit := WindowAt(e, window);
      result := RaiseWindow(result, table, digit, v, done);
      done := 16 * done + digit;
    }
  }

  /** Four squarings and one table factor append a base-16 digit to the exponent. */
  method RaiseWindow(x: Limbs, table: seq<Limbs>, digit: U64, ghost v: int, ghost done: nat) returns (r: Limbs)
    requires |table| == 16 && digit < 16 && forall i :: 0 <= i < 16 ==> Val(table[i]) == Pow(v, i) % N
    requires Val(x) == Pow(v, done) % N
    ensures Val(r) == Pow(v, 16 * done + digit) % N
  {
    r := FourSquarings(x, v, done);
    var factor := Lookup(table, digit);
    r := MulPow(r, factor, v, 16 * done, digit, 16 * done + digit);
  }
}
