/** Rounding of prices and sizes is exactly rounding to the venue's grid (src/om/AssetRegistry.cpp). */
module PriceRounding {
  import opened Basics
  import opened DecimalText
  import opened PriceGrid
  import Residues

  lemma {:induction false} FloorIsDivision(v: nat, k: nat)
    ensures v / Pow10(k) * Pow10(k) == Floor(v, k)
  {
    if k > 0 {
      var p := Pow10(k - 1);
      FloorIsDivision(v / 10, k - 1);
      Residues.DivDiv(v, 10, p);
      var q := v / 10 / p;
      assert q * (10 * p) == 10 * (q * p);
    }
  }

  // ── one quantum ─────────────────────────────────────────────────────────────

  /** Rounding a magnitude to k trailing zeros. */
  function RoundUnsigned(v: nat, k: nat, mode: Mode): nat {
    match mode
    case Down => Floor(v, k)
    case Up => Ceil(v, k)
    case Nearest => if 2 * (v - Lower(v, k)) < Pow10(k) then Lower(v, k) else Ceil(v, k)
  }

  function Lower(v: nat, k: nat): (f: nat)
    ensures f <= v
  {
    FloorBounds(v, k);
    Floor(v, k)
  }

  function Opposite(mode: Mode): Mode {
    match mode case Down => Up case Up => Down case Nearest => Nearest
  }

  lemma QuantumPositive(v: nat, k: nat, mode: Mode)
    ensures RoundToQuantum(v, Pow10(k), mode) == RoundUnsigned(v, k, mode)
  {
    FloorSpec(v, k);
    FloorIsDivision(v, k);
    if k > 0 { assert Pow10(k) >= 10; }
  }

  lemma DownBelowZero(v: nat, p: int)
    requires v > 0 && p > 0
    ensures var f: int := v / p * p; DownMultiple(0 - v, p) == if f == v then -f else -f - p
  {
    var q: int := v / p;
    assert (-q - 1) * p == -(q * p) - p && (-q) * p == -(q * p);
  }

  lemma DownOfNegative(v: nat, k: nat)
    requires v > 0
    ensures DownMultiple(0 - v, Pow10(k)) == 0 - Ceil(v, k)
  {
    DownBelowZero(v, Pow10(k));
    FloorIsDivision(v, k);
    FloorExact(v, k);
  }

  lemma QuantumNegative(v: nat, k: nat, mode: Mode)
    requires v > 0
    ensures RoundToQuantum(0 - v, Pow10(k), mode) == 0 - RoundUnsigned(v, k, Opposite(mode))
  {
    DownOfNegative(v, k);
    FloorSpec(v, k);
    if k > 0 { assert Pow10(k) >= 10; }
  }

  // ── prices ──────────────────────────────────────────────────────────────────

  /** Price decimals an asset allows, before the rule on significant figures. */
  function AllowedDecimals(spot: bool, szDecimals: int): (d: nat)
    ensures d <= 8
  {
    var most := (if spot then 8 else 6) - szDecimals;
    if most < 0 then 0 else if most > 8 then 8 else most
  }

  function RoundPx(px: int, decimals: nat, mode: Mode): int
    requires decimals <= 8
  {
    if px == 0 then 0 else RoundToQuantum(px, Pow10(Quantum(Abs(px), decimals)), mode)
  }

  /** Negation of a 64-bit word; the smallest one is its own negation. */
  function NegatedWord(raw: Raw): Raw { if raw == MIN_RAW then MIN_RAW else -raw }

  /** Conversion of a signed word to an unsigned one. */
  function Unsigned(raw: Raw): nat { if raw < 0 then raw + 0x1_0000_0000_0000_0000 else raw }

  /** The computation as the code does it, with its magnitude, its digit count and its table of powers. */
  method ComputeRoundPx(px: Raw, spot: bool, szDecimals: int, mode: Mode) returns (r: int)
    ensures r == RoundPx(px, AllowedDecimals(spot, szDecimals), mode)
  {
    if px == 0 { return 0; }
    var magnitude := if px < 0 then Unsigned(NegatedWord(px)) else Unsigned(px);
    assert magnitude == Abs(px);
    var n := DigitCount(magnitude);
    var decimals := PriceDecimals(n, spot, szDecimals);
    PowTable(8 - decimals);
    r := RoundToQuantum(px, POW10[8 - decimals], mode);
  }

  method PriceDecimals(digits: int, spot: bool, szDecimals: int) returns (decimals: nat)
    requires digits >= 0
    ensures decimals <= 8 && 8 - decimals == Exponent(digits, AllowedDecimals(spot, szDecimals))
  {
    var msdExponent := digits - 1 - 8;
    var bySigFigs := 4 - msdExponent;
    if bySigFigs < 0 { bySigFigs := 0; }
    var most := (if spot then 8 else 6) - szDecimals;
    if most < 0 { most := 0; }
    decimals := if bySigFigs < most then bySigFigs else most;
    if decimals > 8 { decimals := 8; }
  }

  ghost predicate OnGrid(v: int, decimals: nat)
    requires decimals <= 8
  {
    ValidPx(Abs(v), decimals)
  }

  lemma Signed(px: int, decimals: nat, mode: Mode)
    requires px != 0 && decimals <= 8
    ensures var m := RoundUnsigned(Abs(px), Quantum(Abs(px), decimals), if px < 0 then Opposite(mode) else mode);
            RoundPx(px, decimals, mode) == if px < 0 then 0 - m else m
  {
    if px > 0 {
      QuantumPositive(px, Quantum(px, decimals), mode);
    } else {
      QuantumNegative(-px, Quantum(-px, decimals), mode);
    }
  }

  lemma RoundedOnGrid(px: int, decimals: nat, mode: Mode)
    requires decimals <= 8
    ensures OnGrid(RoundPx(px, decimals, mode), decimals)
  {
    if px != 0 {
      Signed(px, decimals, mode);
      FloorIsValid(Abs(px), decimals);
      CeilIsValid(Abs(px), decimals);
    }
  }

  /** Down is the greatest price on the grid that is not above. */
  lemma DownIsGreatest(px: int, decimals: nat, w: int)
    requires decimals <= 8 && OnGrid(w, decimals) && w <= px
    ensures w <= RoundPx(px, decimals, Down) <= px
  {
    if px != 0 {
      var v, e := Abs(px), Quantum(Abs(px), decimals);
      Signed(px, decimals, Down);
      FloorSpec(v, e);
      if px > 0 {
        if w > 0 { FloorIsGreatest(v, decimals, w); }
      } else {
        CeilIsLeast(v, decimals, -w);
      }
    }
  }

  /** Up is the least price on the grid that is not below. */
  lemma UpIsLeast(px: int, decimals: nat, w: int)
    requires decimals <= 8 && OnGrid(w, decimals) && w >= px
    ensures px <= RoundPx(px, decimals, Up) <= w
  {
    if px != 0 {
      var v, e := Abs(px), Quantum(Abs(px), decimals);
      Signed(px, decimals, Up);
      FloorSpec(v, e);
      if px > 0 {
        CeilIsLeast(v, decimals, w);
      } else {
        if w < 0 { FloorIsGreatest(v, decimals, -w); }
      }
    }
  }

  lemma NearestIsCloser(px: int, decimals: nat)
    requires decimals <= 8
    ensures var r, down, up := RoundPx(px, decimals, Nearest), RoundPx(px, decimals, Down), RoundPx(px, decimals, Up);
            (r == down && px - down <= up - px) || (r == up && up - px <= px - down)
  {
    if px != 0 {
      Signed(px, decimals, Nearest);
      Signed(px, decimals, Down);
      Signed(px, decimals, Up);
      FloorSpec(Abs(px), Quantum(Abs(px), decimals));
    }
  }

  /** Nearest is as close to the price as any price on the grid. */
  lemma NearestIsClosest(px: int, decimals: nat, w: int)
    requires decimals <= 8 && OnGrid(w, decimals)
    ensures Abs(RoundPx(px, decimals, Nearest) - px) <= Abs(w - px)
  {
    NearestIsCloser(px, decimals);
    RoundedOnGrid(px, decimals, Down);
    RoundedOnGrid(px, decimals, Up);
    Between(px, decimals);
    if w <= px { DownIsGreatest(px, decimals, w); } else { UpIsLeast(px, decimals, w); }
  }

  lemma Between(px: int, decimals: nat)
    requires decimals <= 8
    ensures RoundPx(px, decimals, Down) <= px <= RoundPx(px, decimals, Up)
  {
    if px != 0 {
      Signed(px, decimals, Down);
      Signed(px, decimals, Up);
      FloorSpec(Abs(px), Quantum(Abs(px), decimals));
    }
  }

  /** Prices on the grid, and only those, are left alone, in every mode. */
  lemma GridIsFixed(px: int, decimals: nat, mode: Mode)
    requires decimals <= 8
    ensures OnGrid(px, decimals) <==> RoundPx(px, decimals, mode) == px
  {
    RoundedOnGrid(px, decimals, mode);
    if OnGrid(px, decimals) {
      Between(px, decimals);
      DownIsGreatest(px, decimals, px);
      UpIsLeast(px, decimals, px);
      NearestIsCloser(px, decimals);
    }
  }

  /** Rounding again, in any mode, changes nothing. */
  lemma RoundingIsIdempotent(px: int, decimals: nat, mode: Mode, again: Mode)
    requires decimals <= 8
    ensures RoundPx(RoundPx(px, decimals, mode), decimals, again) == RoundPx(px, decimals, mode)
  {
    RoundedOnGrid(px, decimals, mode);
    GridIsFixed(RoundPx(px, decimals, mode), decimals, again);
  }

  /** Rounding keeps the order of prices, across powers of ten and across zero. */
  lemma RoundingIsMonotone(px: int, py: int, decimals: nat, mode: Mode)
    requires decimals <= 8 && px <= py
    ensures RoundPx(px, decimals, mode) <= RoundPx(py, decimals, mode)
  {
    var r, s := RoundPx(px, decimals, mode), RoundPx(py, decimals, mode);
    RoundedOnGrid(px, decimals, mode);
    RoundedOnGrid(py, decimals, mode);
    Between(px, decimals);
    Between(py, decimals);
    match mode
    case Down => DownIsGreatest(py, decimals, r);
    case Up => UpIsLeast(px, decimals, s);
    case Nearest =>
      NearestIsClosest(px, decimals, s);
      NearestIsClosest(py, decimals, r);
  }

  /** The result fits 64 bits for every price at least a quantum below the limit. */
  lemma RoundingFits(px: int, decimals: nat, mode: Mode)
    requires decimals <= 8 && Abs(px) + Pow10(Quantum(Abs(px), decimals)) <= MAX_RAW
    ensures Abs(RoundPx(px, decimals, mode)) <= MAX_RAW
  {
    if px != 0 {
      Signed(px, decimals, mode);
      FloorSpec(Abs(px), Quantum(Abs(px), decimals));
    }
  }

  // ── the venue's numbers ─────────────────────────────────────────────────────

  /** Zeros at the end of every price of an asset, in units of the eighth place: spot has 8 places, a perpetual 6. */
  function TickZeros(spot: bool, szDecimals: nat): nat { if spot then szDecimals else szDecimals + 2 }

  /** A rounded price has no more places than its market allows. */
  lemma PlacesByMarket(px: int, spot: bool, szDecimals: nat, mode: Mode)
    requires TickZeros(spot, szDecimals) <= 8
    ensures Ends(Abs(RoundPx(px, AllowedDecimals(spot, szDecimals), mode)), TickZeros(spot, szDecimals))
  {
    RoundedOnGrid(px, AllowedDecimals(spot, szDecimals), mode);
    ZeroEnds(TickZeros(spot, szDecimals));
  }

  lemma {:induction false} ZeroEnds(k: nat)
    ensures Ends(0, k)
  {
    if k > 0 { ZeroEnds(k - 1); }
  }

  /** Up to 99,999 ticks of the market are a price that rounding keeps. */
  lemma TicksAreKept(c: nat, spot: bool, szDecimals: nat, mode: Mode)
    requires c < 100_000 && TickZeros(spot, szDecimals) <= 8
    ensures var px := Shifted(c, TickZeros(spot, szDecimals));
            RoundPx(px, AllowedDecimals(spot, szDecimals), mode) == px
  {
    var k := TickZeros(spot, szDecimals);
    if c == 0 { ShiftedZero(k); } else { ShiftedDigits(c, k); }
    assert FiveFigures(Shifted(c, k));
    GridIsFixed(Shifted(c, k), AllowedDecimals(spot, szDecimals), mode);
  }

  // ── sizes ───────────────────────────────────────────────────────────────────

  function SizeExponent(szDecimals: int): (e: nat)
    ensures e <= 8
  {
    8 - (if szDecimals < 0 then 0 else if szDecimals > 8 then 8 else szDecimals)
  }

  function RoundSz(sz: int, szDecimals: int, mode: Mode): int {
    var quantum := Pow10(SizeExponent(szDecimals));
    if mode.Down? && sz < 0 then -RoundToQuantum(-sz, quantum, Down) else RoundToQuantum(sz, quantum, mode)
  }

  /** Rounding a size down never asks for more, on either side, and asks for as much as the grid allows. */
  lemma SizeRoundsTowardZero(sz: int, szDecimals: int, w: int)
    requires Ends(Abs(w), SizeExponent(szDecimals)) && Abs(w) <= Abs(sz)
    ensures var r := RoundSz(sz, szDecimals, Down);
            Ends(Abs(r), SizeExponent(szDecimals)) && Abs(w) <= Abs(r) <= Abs(sz) && (sz >= 0 ==> r >= 0)
              && (sz <= 0 ==> r <= 0)
  {
    var e := SizeExponent(szDecimals);
    QuantumPositive(Abs(sz), e, Down);
    FloorSpec(Abs(sz), e);
    FloorGreatest(Abs(sz), e, Abs(w));
  }

  /** A size has at most `szDecimals` of the eight places, and every such size is kept. */
  lemma SizePlaces(sz: int, szDecimals: nat, c: nat)
    requires szDecimals <= 8
    ensures Ends(Abs(RoundSz(sz, szDecimals, Down)), 8 - szDecimals)
    ensures var kept := Shifted(c, 8 - szDecimals); RoundSz(kept, szDecimals, Down) == kept
  {
    var k := 8 - szDecimals;
    ZeroEnds(k);
    SizeRoundsTowardZero(sz, szDecimals, 0);
    if c == 0 { ShiftedZero(k); } else { ShiftedDigits(c, k); }
    SizeRoundsTowardZero(Shifted(c, k), szDecimals, Shifted(c, k));
  }
}
