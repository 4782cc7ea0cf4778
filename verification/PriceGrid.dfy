/** The venue's price grid and rounding to it (src/om/AssetRegistry.cpp, src/core/Decimal.cpp). */
module PriceGrid {
  import opened DecimalText

  // ── trailing zeros, digit by digit ──────────────────────────────────────────

  function Pow10(k: nat): (p: nat)
    ensures p >= 1
  {
    if k == 0 then 1 else 10 * Pow10(k - 1)
  }

  /** v ends in k zeros: it is a multiple of ten to the k. */
  predicate Ends(v: nat, k: nat) {
    k == 0 || (v % 10 == 0 && Ends(v / 10, k - 1))
  }

  /** v with its last k digits replaced by zeros. */
  function Floor(v: nat, k: nat): nat {
    if k == 0 then v else 10 * Floor(v / 10, k - 1)
  }

  function Ceil(v: nat, k: nat): nat { if Ends(v, k) then v else Floor(v, k) + Pow10(k) }

  function Digits(v: nat): (n: nat)
    ensures n >= 1
  {
    if v < 10 then 1 else 1 + Digits(v / 10)
  }

  lemma {:induction false} FloorBounds(v: nat, k: nat)
    ensures Floor(v, k) <= v < Floor(v, k) + Pow10(k)
  {
    if k > 0 { FloorBounds(v / 10, k - 1); }
  }

  lemma {:induction false} FloorEnds(v: nat, k: nat)
    ensures Ends(Floor(v, k), k)
  {
    if k > 0 { FloorEnds(v / 10, k - 1); }
  }

  lemma {:induction false} FloorExact(v: nat, k: nat)
    ensures Ends(v, k) <==> Floor(v, k) == v
  {
    if k > 0 { FloorExact(v / 10, k - 1); }
  }

  lemma FloorSpec(v: nat, k: nat)
    ensures Ends(Floor(v, k), k) && Floor(v, k) <= v < Floor(v, k) + Pow10(k) && (Ends(v, k) <==> Floor(v, k) == v)
  {
    FloorBounds(v, k);
    FloorEnds(v, k);
    FloorExact(v, k);
  }

  lemma {:induction false} FloorGreatest(v: nat, k: nat, w: nat)
    requires Ends(w, k) && w <= v
    ensures w <= Floor(v, k)
  {
    if k > 0 { FloorGreatest(v / 10, k - 1, w / 10); }
  }

  lemma {:induction false} CeilLeast(v: nat, k: nat, w: nat)
    requires Ends(w, k) && v <= w
    ensures Ceil(v, k) <= w
  {
    if !Ends(v, k) {
      NextMultiple(v, k, w);
      FloorSpec(v, k);
      assert w != v;
    }
  }

  lemma {:induction false} NextMultiple(v: nat, k: nat, w: nat)
    requires Ends(w, k) && v < w
    ensures Floor(v, k) + Pow10(k) <= w
  {
    if k > 0 { NextMultiple(v / 10, k - 1, w / 10); }
  }

  lemma {:induction false} EndsSum(v: nat, k: nat)
    ensures Ends(Floor(v, k) + Pow10(k), k)
  {
    if k > 0 {
      EndsSum(v / 10, k - 1);
      assert (10 * Floor(v / 10, k - 1) + 10 * Pow10(k - 1)) / 10 == Floor(v / 10, k - 1) + Pow10(k - 1);
    }
  }

  lemma {:induction false} EndsFewer(v: nat, j: nat, k: nat)
    requires Ends(v, k) && j <= k
    ensures Ends(v, j)
  {
    if j > 0 { EndsFewer(v / 10, j - 1, k - 1); }
  }

  lemma {:induction false} DigitsMonotone(v: nat, w: nat)
    requires v <= w
    ensures Digits(v) <= Digits(w)
  {
    if v >= 10 { DigitsMonotone(v / 10, w / 10); }
  }

  lemma {:induction false} DigitsOfPow(k: nat)
    ensures Digits(Pow10(k)) == k + 1 && Ends(Pow10(k), k)
  {
    if k > 0 { DigitsOfPow(k - 1); }
  }

  lemma {:induction false} DigitsBound(v: nat)
    ensures v < Pow10(Digits(v)) && (v > 0 ==> Pow10(Digits(v) - 1) <= v)
  {
    if v >= 10 { DigitsBound(v / 10); }
  }

  lemma {:induction false} FloorDigits(v: nat, k: nat)
    requires Floor(v, k) > 0
    ensures Digits(Floor(v, k)) == Digits(v)
  {
    if k > 0 { FloorDigits(v / 10, k - 1); }
  }

  // ── the venue's rule ────────────────────────────────────────────────────────

  /** At most five significant figures. */
  ghost predicate FiveFigures(v: nat) { exists c, k :: c < 100_000 && v == Shifted(c, k) }

  /** A price in units of the eighth decimal place, on an asset that allows `decimals` of them. */
  ghost predicate ValidPx(v: nat, decimals: nat)
    requires decimals <= 8
  {
    v == 0 || (Ends(v, 8 - decimals) && (Ends(v, 8) || FiveFigures(v)))
  }

  lemma {:induction false} ShiftedDigits(c: nat, k: nat)
    requires c > 0
    ensures Shifted(c, k) > 0 && Digits(Shifted(c, k)) == Digits(c) + k && Ends(Shifted(c, k), k)
  {
    if k > 0 { ShiftedDigits(c, k - 1); }
  }

  lemma {:induction false} EndsShifted(v: nat, k: nat) returns (c: nat)
    requires Ends(v, k)
    ensures v == Shifted(c, k) && Digits(c) == if Digits(v) > k then Digits(v) - k else 1
  {
    if k == 0 { return v; }
    c := EndsShifted(v / 10, k - 1);
  }

  lemma ShiftedZero(k: nat)
    ensures Shifted(0, k) == 0
  {
    if k > 0 { ShiftedZero(k - 1); }
  }

  function Excess(v: nat): nat { if Digits(v) > 5 then Digits(v) - 5 else 0 }

  lemma FiveFiguresExactly(v: nat)
    requires v > 0
    ensures FiveFigures(v) <==> Ends(v, Excess(v))
  {
    if FiveFigures(v) {
      var c, k :| c < 100_000 && v == Shifted(c, k);
      if c == 0 { ShiftedZero(k); }
      ShiftedDigits(c, k);
      DigitsMonotone(c, 99_999);
      FiveNines();
      EndsFewer(v, Excess(v), k);
    }
    if Ends(v, Excess(v)) {
      var c := EndsShifted(v, Excess(v));
      DigitsBound(c);
      PowAtMostFive(Digits(c));
    }
  }

  lemma FiveNines()
    ensures Digits(99_999) == 5
  {
    assert Digits(9) == 1 && Digits(99) == 2 && Digits(999) == 3 && Digits(9_999) == 4;
  }

  lemma PowAtMostFive(n: nat)
    requires n <= 5
    ensures Pow10(n) <= 100_000
  {
    assert Pow10(1) == 10 && Pow10(2) == 100 && Pow10(3) == 1_000 && Pow10(4) == 10_000 && Pow10(5) == 100_000;
  }

  /** The exponent of the quantum for a price of `n` digits. */
  function Exponent(n: nat, decimals: nat): (e: nat)
    requires decimals <= 8
    ensures 8 - decimals <= e <= 8
  {
    var bySigFigs: int := 13 - n;
    var d := if bySigFigs < 0 then 0 else bySigFigs;
    8 - (if d < decimals then d else decimals)
  }

  /** Within one decade the valid prices are the multiples of one quantum. */
  lemma ValidInDecade(v: nat, decimals: nat)
    requires v > 0 && decimals <= 8
    ensures ValidPx(v, decimals) <==> Ends(v, Exponent(Digits(v), decimals))
  {
    var e, x := Exponent(Digits(v), decimals), Excess(v);
    FiveFiguresExactly(v);
    if Ends(v, e) {
      EndsFewer(v, 8 - decimals, e);
      if x <= e { EndsFewer(v, x, e); }
    }
    if ValidPx(v, decimals) && e > 8 - decimals {
      if Ends(v, 8) { EndsFewer(v, e, 8); } else { EndsFewer(v, e, x); }
    }
  }

  // ── rounding down and up ────────────────────────────────────────────────────

  function Quantum(px: nat, decimals: nat): nat
    requires decimals <= 8
  {
    Exponent(Digits(px), decimals)
  }

  lemma FloorIsValid(px: nat, decimals: nat)
    requires px > 0 && decimals <= 8
    ensures ValidPx(Floor(px, Quantum(px, decimals)), decimals)
  {
    var e := Quantum(px, decimals);
    var f := Floor(px, e);
    FloorSpec(px, e);
    if f > 0 {
      FloorDigits(px, e);
      ValidInDecade(f, decimals);
    }
  }

  /** Rounding down gives the greatest valid price that is not above. */
  lemma FloorIsGreatest(px: nat, decimals: nat, w: nat)
    requires px > 0 && decimals <= 8 && ValidPx(w, decimals) && w <= px
    ensures w <= Floor(px, Quantum(px, decimals))
  {
    var e, n := Quantum(px, decimals), Digits(px);
    if w > 0 {
      DigitsMonotone(w, px);
      if Digits(w) == n {
        ValidInDecade(w, decimals);
        FloorGreatest(px, e, w);
      } else if e <= n - 1 {
        DigitsOfPow(n - 1);
        EndsFewer(Pow10(n - 1), e, n - 1);
        DigitsBound(px);
        FloorGreatest(px, e, Pow10(n - 1));
        if w >= Pow10(n - 1) { DigitsMonotone(Pow10(n - 1), w); }
      } else {
        FloorGreatest(px, e, w);
      }
    }
  }

  lemma CeilIsValid(px: nat, decimals: nat)
    requires px > 0 && decimals <= 8
    ensures ValidPx(Ceil(px, Quantum(px, decimals)), decimals)
  {
    var e := Quantum(px, decimals);
    var up := Ceil(px, e);
    FloorSpec(px, e);
    EndsSum(px, e);
    if Digits(up) == Digits(px) {
      ValidInDecade(up, decimals);
    } else {
      var k := CrossesToPower(px, e);
      PowIsOne(k);
      EndsFewer(up, 8 - decimals, e);
    }
  }

  /** A price that leaves its decade when rounded up lands on a power of ten. */
  lemma CrossesToPower(px: nat, e: nat) returns (k: nat)
    requires px > 0 && Digits(Ceil(px, e)) != Digits(px) && Ends(Ceil(px, e), e) && px <= Ceil(px, e)
    ensures Ceil(px, e) == Pow10(k)
  {
    var n, up := Digits(px), Ceil(px, e);
    DigitsMonotone(px, up);
    DigitsBound(px);
    k := if e > n then e else n;
    DigitsOfPow(k);
    EndsFewer(Pow10(k), e, k);
    PowGrows(n, k);
    CeilLeast(px, e, Pow10(k));
    if e > n {
      AtLeastPow(up, e);
    } else {
      DigitsBound(up);
      PowGrows(n, Digits(up) - 1);
    }
  }

  lemma {:induction false} PowIsOne(k: nat)
    ensures Pow10(k) == Shifted(1, k)
  {
    if k > 0 { PowIsOne(k - 1); }
  }

  lemma {:induction false} PowGrows(j: nat, k: nat)
    requires j <= k
    ensures Pow10(j) <= Pow10(k)
  {
    if j < k { PowGrows(j, k - 1); }
  }

  lemma {:induction false} AtLeastPow(v: nat, k: nat)
    requires v > 0 && Ends(v, k)
    ensures v >= Pow10(k)
  {
    if k > 0 { AtLeastPow(v / 10, k - 1); }
  }

  /** Rounding up gives the least valid price that is not below. */
  lemma CeilIsLeast(px: nat, decimals: nat, w: nat)
    requires px > 0 && decimals <= 8 && ValidPx(w, decimals) && w >= px
    ensures w >= Ceil(px, Quantum(px, decimals))
  {
    var e, n := Quantum(px, decimals), Digits(px);
    DigitsMonotone(px, w);
    if Digits(w) == n {
      ValidInDecade(w, decimals);
      CeilLeast(px, e, w);
    } else if e <= n {
      DigitsOfPow(n);
      EndsFewer(Pow10(n), e, n);
      DigitsBound(px);
      CeilLeast(px, e, Pow10(n));
      DigitsBound(w);
      PowGrows(n, Digits(w) - 1);
    } else {
      CeilLeast(px, e, w);
    }
  }

  // ── the code ────────────────────────────────────────────────────────────────

  datatype Mode = Down | Up | Nearest

  const POW10: seq<int> := [1, 10, 100, 1_000, 10_000, 100_000, 1_000_000, 10_000_000, 100_000_000, 1_000_000_000,
    10_000_000_000, 100_000_000_000, 1_000_000_000_000, 10_000_000_000_000, 100_000_000_000_000, 1_000_000_000_000_000,
    10_000_000_000_000_000, 100_000_000_000_000_000, 1_000_000_000_000_000_000]

  lemma {:induction false} PowTable(k: nat)
    requires k < 19
    ensures POW10[k] == Pow10(k)
  {
    if k > 0 {
      PowTable(k - 1);
      assert POW10[k] == 10 * POW10[k - 1];
    }
  }

  method DigitCount(v: nat) returns (n: nat)
    requires 0 < v < 0x1_0000_0000_0000_0000
    ensures v < 10_000_000_000_000_000_000 ==> n == Digits(v)
  {
    n := 1;
    assert Pow10(0) == 1;
    while n < 19 && v >= POW10[n]
      invariant 1 <= n <= 19 && Pow10(n - 1) <= v
    {
      PowTable(n);
      n := n + 1;
    }
    if n < 19 { PowTable(n); } else { PowNineteen(); }
    if v < Pow10(n) { BetweenPowers(v, n); }
  }

  lemma PowNineteen()
    ensures Pow10(19) == 10_000_000_000_000_000_000
  {
    PowTable(18);
  }

  lemma BetweenPowers(v: nat, n: nat)
    requires n >= 1 && Pow10(n - 1) <= v < Pow10(n)
    ensures Digits(v) == n
  {
    DigitsBound(v);
    if Digits(v) < n { PowGrows(Digits(v), n - 1); }
    if Digits(v) > n { PowGrows(n, Digits(v) - 1); }
  }

  /** Truncating division, as the machine divides. */
  function Quotient(a: int, b: int): int
    requires b > 0
  {
    if a >= 0 then a / b else -((-a) / b)
  }

  /** The multiple of the quantum at or below `raw`. */
  function DownMultiple(raw: int, quantum: int): int
    requires quantum > 0
  {
    var q := Quotient(raw, quantum);
    (if raw - q * quantum != 0 && raw < 0 then q - 1 else q) * quantum
  }

  function Choose(raw: int, down: int, quantum: int, mode: Mode): int {
    if down == raw then raw
    else
      match mode
      case Down => down
      case Up => down + quantum
      case Nearest =>
        if raw - down == down + quantum - raw then (if raw >= 0 then down + quantum else down)
        else if raw - down < down + quantum - raw then down else down + quantum
  }

  function RoundToQuantum(raw: int, quantum: int, mode: Mode): int {
    if quantum <= 1 then raw else Choose(raw, DownMultiple(raw, quantum), quantum, mode)
  }
}
