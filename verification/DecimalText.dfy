/** Decimal text of 8-place fixed-point numbers (src/core/Decimal.cpp). */
module DecimalText {
  import opened Basics

  const MAX_RAW: int := 0x7FFF_FFFF_FFFF_FFFF
  const MIN_RAW: int := -0x8000_0000_0000_0000
  const DECIMALS: nat := 8
  const SCALE: int := 100_000_000
  const MAX_CHARS: nat := 24

  type Raw = r: int | MIN_RAW <= r <= MAX_RAW

  // ── digits ──────────────────────────────────────────────────────────────────

  predicate IsDigit(c: char) { '0' <= c <= '9' }

  predicate AllDigits(s: string) { forall i :: 0 <= i < |s| ==> IsDigit(s[i]) }

  function DigitValue(c: char): (d: nat)
    requires IsDigit(c)
    ensures d < 10
  {
    c as int - '0' as int
  }

  function DigitChar(d: nat): (c: char)
    requires d < 10
    ensures IsDigit(c) && DigitValue(c) == d
  {
    ('0' as int + d) as char
  }

  /** n followed by k zeros: n times ten to the k. */
  function Shifted(n: nat, k: nat): nat {
    if k == 0 then n else 10 * Shifted(n, k - 1)
  }

  /** n followed by the digits of s. */
  function NumFrom(n: nat, s: string): nat
    requires AllDigits(s)
  {
    if s == "" then n else 10 * NumFrom(n, s[..|s| - 1]) + DigitValue(s[|s| - 1])
  }

  lemma {:induction false} ShiftedAdd(n: nat, j: nat, k: nat)
    ensures Shifted(Shifted(n, j), k) == Shifted(n, j + k)
  {
    if k > 0 { ShiftedAdd(n, j, k - 1); }
  }

  lemma {:induction false} ShiftedMonotone(m: nat, n: nat, k: nat)
    ensures m <= n ==> Shifted(m, k) <= Shifted(n, k)
    ensures m < n ==> Shifted(m, k) < Shifted(n, k)
  {
    if k > 0 { ShiftedMonotone(m, n, k - 1); }
  }

  lemma {:induction false} NumFromBound(n: nat, s: string)
    requires AllDigits(s)
    ensures Shifted(n, |s|) <= NumFrom(n, s) < Shifted(n + 1, |s|)
  {
    if s != "" { NumFromBound(n, s[..|s| - 1]); }
  }

  lemma {:induction false} NumFromConcat(n: nat, a: string, b: string)
    requires AllDigits(a) && AllDigits(b)
    ensures AllDigits(a + b) && NumFrom(n, a + b) == NumFrom(NumFrom(n, a), b)
  {
    if b == "" {
      assert a + b == a;
    } else {
      NumFromConcat(n, a, b[..|b| - 1]);
      assert (a + b)[..|a + b| - 1] == a + b[..|b| - 1];
    }
  }

  // ── what a text means ───────────────────────────────────────────────────────

  function DigitRun(s: string): (d: string)
    ensures AllDigits(d) && d <= s && (|d| < |s| ==> !IsDigit(s[|d|]))
  {
    if s == "" || !IsDigit(s[0]) then "" else [s[0]] + DigitRun(s[1..])
  }

  predicate HasSign(text: string) { text != "" && (text[0] == '-' || text[0] == '+') }

  /** A text taken apart: sign, digits before the point, digits after it, and what is left over. */
  datatype Parts = Parts(negative: bool, ints: string, fracs: string, rest: string)

  function BodyParts(negative: bool, body: string): (p: Parts)
    ensures AllDigits(p.ints) && AllDigits(p.fracs)
  {
    var ints := DigitRun(body);
    var after := body[|ints|..];
    if after != "" && after[0] == '.' then
      var fracs := DigitRun(after[1..]);
      Parts(negative, ints, fracs, after[1 + |fracs|..])
    else Parts(negative, ints, "", after)
  }

  function PartsOf(text: string): (p: Parts)
    ensures AllDigits(p.ints) && AllDigits(p.fracs)
  {
    if HasSign(text) then BodyParts(text[0] == '-', text[1..]) else BodyParts(false, text)
  }

  /** Up to eight places count. */
  function Kept(fracs: string): (k: string)
    requires AllDigits(fracs)
    ensures AllDigits(k) && |k| <= DECIMALS
  {
    if |fracs| <= DECIMALS then fracs else fracs[..DECIMALS]
  }

  /** The magnitude in units of the eighth decimal place. */
  function Magnitude(ints: string, fracs: string): nat
    requires AllDigits(ints) && AllDigits(fracs)
  {
    Shifted(NumFrom(NumFrom(0, ints), Kept(fracs)), DECIMALS - |Kept(fracs)|)
  }

  function ValueOf(text: string): Option<int> { PartsValue(PartsOf(text)) }

  function PartsValue(p: Parts): Option<int>
    requires AllDigits(p.ints) && AllDigits(p.fracs)
  {
    if p.rest != "" || p.ints + p.fracs == "" then None
    else
      var m: int := Magnitude(p.ints, p.fracs);
      if m > MAX_RAW then None else Some(if p.negative then -m else m)
  }

  /** The magnitude is the exact value of the digits, cut off after eight places. */
  lemma MagnitudeTruncates(ints: string, fracs: string)
    requires AllDigits(ints) && AllDigits(fracs)
    ensures var m, exact := Magnitude(ints, fracs), NumFrom(NumFrom(0, ints), fracs);
            Shifted(m, |fracs|) <= Shifted(exact, DECIMALS) < Shifted(m + 1, |fracs|)
  {
    if |fracs| <= DECIMALS {
      NothingLost(NumFrom(NumFrom(0, ints), fracs), |fracs|);
    } else {
      LongFraction(NumFrom(0, ints), fracs);
    }
  }

  lemma LongFraction(n: nat, fracs: string)
    requires AllDigits(fracs) && |fracs| > DECIMALS
    ensures var m := NumFrom(n, fracs[..DECIMALS]);
            Shifted(m, |fracs|) <= Shifted(NumFrom(n, fracs), DECIMALS) < Shifted(m + 1, |fracs|)
  {
    var kept, tail := fracs[..DECIMALS], fracs[DECIMALS..];
    assert fracs == kept + tail;
    NumFromConcat(n, kept, tail);
    TailTruncates(NumFrom(n, kept), tail);
  }

  lemma NothingLost(x: nat, k: nat)
    requires k <= DECIMALS
    ensures var m := Shifted(x, DECIMALS - k); Shifted(m, k) <= Shifted(x, DECIMALS) < Shifted(m + 1, k)
  {
    var m := Shifted(x, DECIMALS - k);
    ShiftedMonotone(m, m + 1, k);
    ShiftedAdd(x, DECIMALS - k, k);
  }

  lemma TailTruncates(m: nat, tail: string)
    requires AllDigits(tail)
    ensures Shifted(m, |tail| + DECIMALS) <= Shifted(NumFrom(m, tail), DECIMALS) < Shifted(m + 1, |tail| + DECIMALS)
  {
    NumFromBound(m, tail);
    ShiftedMonotone(Shifted(m, |tail|), NumFrom(m, tail), DECIMALS);
    ShiftedMonotone(NumFrom(m, tail), Shifted(m + 1, |tail|), DECIMALS);
    ShiftedAdd(m, |tail|, DECIMALS);
    ShiftedAdd(m + 1, |tail|, DECIMALS);
  }

  // ── the grammar ─────────────────────────────────────────────────────────────

  function Point(dot: bool, fracs: string): string { if dot then "." + fracs else "" }

  /** How a numeral is written: an optional sign, digits, and optionally a point with more digits. */
  function Written(sign: string, ints: string, dot: bool, fracs: string): string { sign + (ints + Point(dot, fracs)) }

  predicate IsNumeral(sign: string, ints: string, dot: bool, fracs: string) {
    && (sign == "" || sign == "-" || sign == "+")
    && AllDigits(ints) && AllDigits(fracs) && (!dot ==> fracs == "")
  }

  lemma {:induction false} DigitRunStops(d: string, e: string)
    requires AllDigits(d) && (e == "" || !IsDigit(e[0]))
    ensures DigitRun(d + e) == d
  {
    if d == "" {
      assert d + e == e;
    } else {
      assert (d + e)[0] == d[0] && (d + e)[1..] == d[1..] + e;
      DigitRunStops(d[1..], e);
      assert [d[0]] + d[1..] == d;
    }
  }

  lemma BodyRead(negative: bool, ints: string, dot: bool, fracs: string)
    requires AllDigits(ints) && AllDigits(fracs) && (!dot ==> fracs == "")
    ensures BodyParts(negative, ints + Point(dot, fracs)) == Parts(negative, ints, fracs, "")
    ensures !HasSign(ints + Point(dot, fracs))
  {
    var e := Point(dot, fracs);
    DigitRunStops(ints, e);
    assert (ints + e)[|ints|..] == e;
    if dot {
      DigitRunStops(fracs, "");
      assert fracs + "" == fracs && e[1..] == fracs;
    }
  }

  /** Taking a numeral apart gives back what it was written from. */
  lemma NumeralRead(sign: string, ints: string, dot: bool, fracs: string)
    requires IsNumeral(sign, ints, dot, fracs)
    ensures PartsOf(Written(sign, ints, dot, fracs)) == Parts(sign == "-", ints, fracs, "")
  {
    var text, body := Written(sign, ints, dot, fracs), ints + Point(dot, fracs);
    BodyRead(sign == "-", ints, dot, fracs);
    if sign == "" {
      assert text == body;
    } else {
      assert text[0] == sign[0] && text[1..] == body;
    }
  }

  lemma WrittenValue(sign: string, ints: string, dot: bool, fracs: string)
    requires IsNumeral(sign, ints, dot, fracs) && ints != ""
    ensures var m: int := Magnitude(ints, fracs);
            ValueOf(Written(sign, ints, dot, fracs))
              == if m > MAX_RAW then None else Some(if sign == "-" then -m else m)
  {
    NumeralRead(sign, ints, dot, fracs);
  }

  lemma BodyOnly(negative: bool, body: string)
    requires BodyParts(negative, body).rest == ""
    ensures var p := BodyParts(negative, body);
            exists dot :: IsNumeral("", p.ints, dot, p.fracs) && body == p.ints + Point(dot, p.fracs)
  {
    var p := BodyParts(negative, body);
    var after := body[|p.ints|..];
    assert body == p.ints + after;
    var dot := after != "" && after[0] == '.';
    if dot { assert after == "." + p.fracs; }
    assert IsNumeral("", p.ints, dot, p.fracs) && body == p.ints + Point(dot, p.fracs);
  }

  /** A text without leftovers is a numeral. */
  lemma NumeralOnly(text: string)
    requires PartsOf(text).rest == ""
    ensures var p := PartsOf(text);
            exists sign, dot :: IsNumeral(sign, p.ints, dot, p.fracs) && text == Written(sign, p.ints, dot, p.fracs)
                             && p.negative == (sign == "-")
  {
    var p := PartsOf(text);
    var sign := if HasSign(text) then text[..1] else "";
    var body := text[|sign|..];
    BodyOnly(p.negative, body);
    var dot :| IsNumeral("", p.ints, dot, p.fracs) && body == p.ints + Point(dot, p.fracs);
    assert text == sign + body;
    assert IsNumeral(sign, p.ints, dot, p.fracs) && text == Written(sign, p.ints, dot, p.fracs);
  }

  /** Parsing succeeds exactly on numerals with a digit whose truncated magnitude is in range. */
  lemma ParsesExactly(text: string)
    ensures ValueOf(text).Some? <==>
              exists sign, ints, dot, fracs
                :: IsNumeral(sign, ints, dot, fracs) && text == Written(sign, ints, dot, fracs)
                                            && ints + fracs != "" && Magnitude(ints, fracs) <= MAX_RAW
  {
    if ValueOf(text).Some? {
      NumeralOnly(text);
    }
    forall sign, ints, dot, fracs | IsNumeral(sign, ints, dot, fracs) && text == Written(sign, ints, dot, fracs)
                                 && ints + fracs != "" && Magnitude(ints, fracs) <= MAX_RAW
      ensures ValueOf(text).Some?
    {
      NumeralRead(sign, ints, dot, fracs);
    }
  }

  // ── writing ─────────────────────────────────────────────────────────────────

  lemma NumSnoc(n: nat, s: string, d: nat)
    requires AllDigits(s) && d < 10
    ensures AllDigits(s + [DigitChar(d)]) && NumFrom(n, s + [DigitChar(d)]) == 10 * NumFrom(n, s) + d
  {
    assert (s + [DigitChar(d)])[..|s|] == s;
  }

  function IntText(n: nat): (s: string)
    ensures s != "" && AllDigits(s)
  {
    if n < 10 then [DigitChar(n)] else IntText(n / 10) + [DigitChar(n % 10)]
  }

  lemma {:induction false} IntTextRead(n: nat)
    ensures NumFrom(0, IntText(n)) == n
  {
    if n < 10 {
      assert IntText(n)[..0] == "";
    } else {
      IntTextRead(n / 10);
      NumSnoc(0, IntText(n / 10), n % 10);
    }
  }

  /** Exactly `width` digits. */
  function FixedText(n: nat, width: nat): (s: string)
    ensures |s| == width && AllDigits(s)
  {
    if width == 0 then "" else FixedText(n / 10, width - 1) + [DigitChar(n % 10)]
  }

  lemma {:induction false} FixedTextRead(i: nat, n: nat, width: nat)
    requires n < Shifted(1, width)
    ensures NumFrom(i, FixedText(n, width)) == Shifted(i, width) + n
  {
    if width > 0 {
      FixedTextRead(i, n / 10, width - 1);
      NumSnoc(i, FixedText(n / 10, width - 1), n % 10);
    }
  }

  /** The digits of a fraction of `width` places without its trailing zeros. */
  function FracText(n: nat, width: nat): (s: string)
    ensures AllDigits(s) && |s| <= width
    ensures s != "" ==> s[|s| - 1] != '0'
  {
    if width == 0 then ""
    else if n % 10 == 0 then FracText(n / 10, width - 1)
    else FixedText(n, width)
  }

  lemma {:induction false} FracTextRead(i: nat, n: nat, width: nat)
    requires n < Shifted(1, width)
    ensures var s := FracText(n, width); Shifted(NumFrom(i, s), width - |s|) == Shifted(i, width) + n
    ensures n > 0 ==> FracText(n, width) != ""
  {
    if width > 0 {
      if n % 10 == 0 { FracTextRead(i, n / 10, width - 1); } else { FixedTextRead(i, n, width); }
    }
  }

  function SignText(raw: int): string { if raw < 0 then "-" else "" }

  function Text(raw: Raw): string {
    var m := Abs(raw);
    Written(SignText(raw), IntText(m / SCALE), m % SCALE != 0, FracText(m % SCALE, DECIMALS))
  }

  lemma ShiftedEight(n: nat)
    ensures Shifted(n, 8) == n * SCALE
  {
    assert Shifted(n, 1) == 10 * n;
    assert Shifted(n, 3) == 100 * Shifted(n, 1);
    assert Shifted(n, 5) == 100 * Shifted(n, 3);
    assert Shifted(n, 7) == 100 * Shifted(n, 5);
  }

  lemma {:induction false} NoFrac(width: nat)
    ensures FracText(0, width) == ""
  {
    if width > 0 { NoFrac(width - 1); }
  }

  lemma MagnitudeOfText(m: nat)
    ensures Magnitude(IntText(m / SCALE), FracText(m % SCALE, DECIMALS)) == m
  {
    ShiftedEight(1);
    ShiftedEight(m / SCALE);
    IntTextRead(m / SCALE);
    FracTextRead(m / SCALE, m % SCALE, DECIMALS);
  }

  /** Reading back what was written: exact for every value but the smallest, whose magnitude is out of range. */
  lemma TextRoundTrip(raw: Raw)
    ensures ValueOf(Text(raw)) == if raw == MIN_RAW then None else Some(raw)
  {
    var m := Abs(raw);
    NoFrac(DECIMALS);
    WrittenValue(SignText(raw), IntText(m / SCALE), m % SCALE != 0, FracText(m % SCALE, DECIMALS));
    MagnitudeOfText(m);
  }

  /** Different values are written differently. */
  lemma TextInjective(a: Raw, b: Raw)
    requires Text(a) == Text(b)
    ensures a == b
  {
    TextRoundTrip(a);
    TextRoundTrip(b);
  }

  lemma {:induction false} IntTextLength(n: nat, k: nat)
    requires 0 < k && n < Shifted(1, k)
    ensures |IntText(n)| <= k
    decreases k
  {
    if n >= 10 { IntTextLength(n / 10, k - 1); }
  }

  lemma {:induction false} LeadingDigit(n: nat)
    requires n > 0
    ensures IntText(n)[0] != '0'
  {
    if n >= 10 { LeadingDigit(n / 10); }
  }

  /** No sign but a minus, no leading zeros, no trailing zeros and no trailing point. */
  predicate Canonical(sign: string, ints: string, dot: bool, fracs: string) {
    && IsNumeral(sign, ints, dot, fracs) && sign != "+"
    && ints != "" && (ints[0] == '0' ==> ints == "0")
    && (dot ==> fracs != "" && fracs[|fracs| - 1] != '0')
  }

  /** The text fits its buffer and is canonical. */
  lemma TextIsCanonical(raw: Raw)
    ensures |Text(raw)| <= 21 < MAX_CHARS
    ensures exists sign, ints, dot, fracs
              :: Canonical(sign, ints, dot, fracs) && Text(raw) == Written(sign, ints, dot, fracs)
  {
    var m := Abs(raw);
    var ints, fracs := IntText(m / SCALE), FracText(m % SCALE, DECIMALS);
    TextFits(raw);
    ShiftedEight(1);
    if m / SCALE > 0 { LeadingDigit(m / SCALE); }
    NoFrac(DECIMALS);
    FracTextRead(0, m % SCALE, DECIMALS);
    assert m / SCALE == 0 ==> ints == "0";
    assert Canonical(SignText(raw), ints, m % SCALE != 0, fracs);
  }

  // ── the loops ───────────────────────────────────────────────────────────────

  lemma {:induction false} NumFromGrows(n: nat, s: string, k: nat)
    requires AllDigits(s) && k <= |s|
    ensures NumFrom(n, s[..k]) <= NumFrom(n, s)
  {
    if k < |s| {
      assert s[..|s| - 1][..k] == s[..k];
      NumFromGrows(n, s[..|s| - 1], k);
    } else {
      assert s[..k] == s;
    }
  }

  lemma {:induction false} ShiftedGrows(n: nat, k: nat)
    ensures n <= Shifted(n, k)
  {
    if k > 0 { ShiftedGrows(n, k - 1); }
  }

  /** The first `k` digits, of which at most `limit` count. */
  function Counted(d: string, k: nat, limit: nat): (c: string)
    requires AllDigits(d) && k <= |d|
    ensures AllDigits(c)
  {
    if k <= limit then d[..k] else d[..limit]
  }

  lemma CountStep(start: nat, d: string, k: nat, limit: nat)
    requires AllDigits(d) && k < |d|
    ensures NumFrom(start, Counted(d, k + 1, limit))
         == if k < limit then 10 * NumFrom(start, Counted(d, k, limit)) + DigitValue(d[k])
           else NumFrom(start, Counted(d, k, limit))
    ensures NumFrom(start, Counted(d, k + 1, limit)) <= NumFrom(start, Counted(d, |d|, limit))
  {
    var all := Counted(d, |d|, limit);
    if k < limit {
      assert d[..k + 1][..k] == d[..k];
      assert all[..k + 1] == d[..k + 1];
      NumFromGrows(start, all, k + 1);
    }
  }

  /** Appends digits to a mantissa until one is missing or the mantissa would pass the maximum. */
  method TakeDigits(s: string, start: nat, limit: nat) returns (mantissa: nat, ok: bool, taken: nat)
    requires start <= MAX_RAW
    ensures ok ==> taken == |DigitRun(s)| && mantissa <= MAX_RAW
    ensures ok ==> mantissa == NumFrom(start, Counted(DigitRun(s), |DigitRun(s)|, limit))
    ensures !ok ==> NumFrom(start, Counted(DigitRun(s), |DigitRun(s)|, limit)) > MAX_RAW
  {
    ghost var d := DigitRun(s);
    mantissa, taken, ok := start, 0, true;
    while taken < |s| && IsDigit(s[taken])
      invariant taken <= |d| && mantissa <= MAX_RAW && mantissa == NumFrom(start, Counted(d, taken, limit))
    {
      RunCovers(s, taken);
      CountStep(start, d, taken, limit);
      if taken < limit {
        var digit := DigitValue(s[taken]);
        if mantissa > (MAX_RAW - digit) / 10 {
          ok := false;
          return;
        }
        mantissa := mantissa * 10 + digit;
      }
      taken := taken + 1;
    }
    RunEnds(s, taken);
  }

  lemma RunCovers(s: string, k: nat)
    requires k < |s| && IsDigit(s[k]) && k <= |DigitRun(s)|
    ensures k < |DigitRun(s)| && DigitRun(s)[k] == s[k]
  {}

  lemma RunEnds(s: string, k: nat)
    requires k <= |DigitRun(s)| && (k == |s| || !IsDigit(s[k]))
    ensures k == |DigitRun(s)| && DigitRun(s)[..k] == DigitRun(s)
  {
  }

  /** Reads a decimal text; digits past the eighth place are dropped. */
  method Parse(text: string) returns (raw: Option<int>)
    ensures raw == ValueOf(text)
  {
    if text == "" { return None; }
    if HasSign(text) {
      raw := ParseBody(text[0] == '-', text[1..]);
    } else {
      raw := ParseBody(false, text);
    }
  }

  method ParseBody(negative: bool, body: string) returns (raw: Option<int>)
    ensures raw == PartsValue(BodyParts(negative, body))
  {
    var n, ok, k := TakeDigits(body, 0, |body|);
    AllCount(body);
    if !ok {
      TooManyInts(BodyParts(negative, body));
      return None;
    }
    if k < |body| && body[k] == '.' {
      AfterPoint(negative, body);
      raw := ParseFrac(negative, n, body[k + 1..], k != 0, BodyParts(negative, body));
    } else {
      NoPoint(negative, body);
      raw := ParseWhole(negative, n, k == |body|, k != 0, BodyParts(negative, body));
    }
  }

  lemma AllCount(body: string)
    ensures var d := DigitRun(body); Counted(d, |d|, |body|) == d
  {}

  lemma TooManyInts(p: Parts)
    requires AllDigits(p.ints) && AllDigits(p.fracs) && NumFrom(0, p.ints) > MAX_RAW
    ensures PartsValue(p) == None
  {
    WholeMagnitude(p.ints, p.fracs);
  }

  method ParseWhole(negative: bool, n: nat, atEnd: bool, anyDigit: bool, ghost p: Parts) returns (raw: Option<int>)
    requires AllDigits(p.ints) && p.fracs == "" && n <= MAX_RAW && n == NumFrom(0, p.ints)
    requires p.negative == negative && (atEnd <==> p.rest == "") && (anyDigit <==> p.ints != "")
    ensures raw == PartsValue(p)
  {
    if !atEnd || !anyDigit { return None; }
    raw := Finish(negative, n, 0);
  }

  lemma AfterPoint(negative: bool, body: string)
    requires var k := |DigitRun(body)|; k < |body| && body[k] == '.'
    ensures var p, after := BodyParts(negative, body), body[|DigitRun(body)| + 1..];
            p.negative == negative && p.ints == DigitRun(body) && p.fracs == DigitRun(after)
              && p.rest == after[|p.fracs|..]
  {
    var k := |DigitRun(body)|;
    assert body[k..][1..] == body[k + 1..];
  }

  lemma NoPoint(negative: bool, body: string)
    requires var k := |DigitRun(body)|; k == |body| || body[k] != '.'
    ensures BodyParts(negative, body) == Parts(negative, DigitRun(body), "", body[|DigitRun(body)|..])
  {}

  method ParseFrac(negative: bool, n: nat, after: string, anyDigit: bool, ghost p: Parts) returns (raw: Option<int>)
    requires AllDigits(p.ints) && AllDigits(p.fracs) && n <= MAX_RAW && n == NumFrom(0, p.ints)
    requires p.negative == negative && p.fracs == DigitRun(after) && p.rest == after[|p.fracs|..]
             && (anyDigit <==> p.ints != "")
    ensures raw == PartsValue(p)
  {
    var m, ok, k := TakeDigits(after, n, DECIMALS);
    assert Counted(p.fracs, |p.fracs|, DECIMALS) == Kept(p.fracs);
    if !ok {
      TooLarge(p, n);
      return None;
    }
    if k < |after| || (k == 0 && !anyDigit) { return None; }
    raw := Finish(negative, m, if k < DECIMALS then k else DECIMALS);
  }

  lemma TooLarge(p: Parts, n: nat)
    requires AllDigits(p.ints) && AllDigits(p.fracs) && n == NumFrom(0, p.ints) && NumFrom(n, Kept(p.fracs)) > MAX_RAW
    ensures PartsValue(p) == None
  {
    ShiftedGrows(NumFrom(n, Kept(p.fracs)), DECIMALS - |Kept(p.fracs)|);
  }

  lemma WholeMagnitude(ints: string, fracs: string)
    requires AllDigits(ints) && AllDigits(fracs)
    ensures NumFrom(0, ints) <= Magnitude(ints, fracs)
  {
    var n, kept := NumFrom(0, ints), Kept(fracs);
    NumFromGrows(n, kept, 0);
    assert NumFrom(n, kept[..0]) == n;
    ShiftedGrows(NumFrom(n, kept), DECIMALS - |kept|);
  }

  /** Fills up the missing places with zeros and applies the sign. */
  method Finish(negative: bool, mantissa: nat, places: nat) returns (raw: Option<int>)
    requires places <= DECIMALS && mantissa <= MAX_RAW
    ensures var m: int := Shifted(mantissa, DECIMALS - places);
            raw == if m > MAX_RAW then None else Some(if negative then -m else m)
  {
    var m: int, k := mantissa, places;
    while k < DECIMALS
      invariant places <= k <= DECIMALS && 0 <= m <= MAX_RAW && m == Shifted(mantissa, k - places)
    {
      if m > MAX_RAW / 10 {
        ShiftedAdd(mantissa, k + 1 - places, DECIMALS - k - 1);
        ShiftedGrows(Shifted(mantissa, k + 1 - places), DECIMALS - k - 1);
        return None;
      }
      m := m * 10;
      k := k + 1;
    }
    raw := Some(if negative then -m else m);
  }

  // ── filling the buffer from the back ────────────────────────────────────────

  /** Writes the low `width` digits of `n` in front of `pos`. */
  method PutFixed(buf: array<char>, pos: nat, n: nat, width: nat)
    requires width <= pos <= buf.Length
    modifies buf
    ensures buf[pos - width..] == FixedText(n, width) + old(buf[pos..])
  {
    var k, v := 0, n;
    while k < width
      invariant k <= width && FixedText(n, width) == FixedText(v, width - k) + buf[pos - k..pos]
      invariant buf[pos..] == old(buf[pos..])
    {
      ghost var done := buf[pos - k..pos];
      buf[pos - k - 1] := DigitChar(v % 10);
      assert buf[pos - k - 1..pos] == [DigitChar(v % 10)] + done;
      assert FixedText(v, width - k) + done == FixedText(v / 10, width - k - 1) + ([DigitChar(v % 10)] + done);
      v := v / 10;
      k := k + 1;
    }
    assert FixedText(v, 0) == "" && buf[pos - width..] == buf[pos - width..pos] + buf[pos..];
  }

  /** Writes all digits of `n` in front of `pos`. */
  method PutInt(buf: array<char>, pos: nat, n: nat) returns (at: nat)
    requires |IntText(n)| <= pos <= buf.Length
    modifies buf
    ensures at == pos - |IntText(n)| && buf[at..] == IntText(n) + old(buf[pos..])
  {
    var v: nat := n / 10;
    Push(buf, pos, DigitChar(n % 10));
    at := pos - 1;
    ghost var tail := buf[at..];
    LeadingStep(n, old(buf[pos..]));
    while v != 0
      invariant |Leading(v)| <= at < pos && buf[at..] == tail && Leading(v) + tail == IntText(n) + old(buf[pos..])
      decreases v
    {
      LeadingStep(v, tail);
      Push(buf, at, DigitChar(v % 10));
      at := at - 1;
      v := v / 10;
      tail := buf[at..];
    }
  }

  method Push(buf: array<char>, at: nat, c: char)
    requires 0 < at <= buf.Length
    modifies buf
    ensures buf[at - 1..] == [c] + old(buf[at..])
  {
    buf[at - 1] := c;
  }

  function Leading(v: nat): string { if v == 0 then "" else IntText(v) }

  lemma LeadingStep(v: nat, tail: string)
    ensures IntText(v) + tail == Leading(v / 10) + ([DigitChar(v % 10)] + tail)
    ensures |IntText(v)| == |Leading(v / 10)| + 1
  {
    assert IntText(v) == Leading(v / 10) + [DigitChar(v % 10)];
  }

  /** Writes the fraction, without trailing zeros and with its point, in front of `pos`. */
  method PutFrac(buf: array<char>, pos: nat, n: nat) returns (at: nat)
    requires 0 < n < SCALE && 9 <= pos == buf.Length
    modifies buf
    ensures at == pos - 1 - |FracText(n, DECIMALS)| && buf[at..] == "." + FracText(n, DECIMALS)
  {
    var v: nat, width: nat := n, DECIMALS;
    ShiftedEight(1);
    while v % 10 == 0
      invariant 0 < v < Shifted(1, width) && width <= DECIMALS && FracText(n, DECIMALS) == FracText(v, width)
      decreases width
    {
      v := v / 10;
      width := width - 1;
    }
    PutFixed(buf, pos, v, width);
    at := pos - width - 1;
    ghost var digits := buf[at + 1..];
    buf[at] := '.';
    assert buf[at..] == "." + digits;
  }

  method ToChars(raw: Raw) returns (text: string)
    ensures text == Text(raw)
  {
    var m := Abs(raw);
    var buf := new char[MAX_CHARS];
    var pos := MAX_CHARS;
    NoFrac(DECIMALS);
    TextFits(raw);
    assert buf[pos..] == "";
    if m % SCALE != 0 { pos := PutFrac(buf, pos, m % SCALE); }
    assert buf[pos..] == Point(m % SCALE != 0, FracText(m % SCALE, DECIMALS));
    pos := PutInt(buf, pos, m / SCALE);
    ghost var body := buf[pos..];
    if raw < 0 {
      pos := pos - 1;
      buf[pos] := '-';
      assert buf[pos..] == "-" + body;
    } else {
      assert "" + body == body;
    }
    text := buf[pos..];
  }

  lemma TextFits(raw: Raw)
    ensures |IntText(Abs(raw) / SCALE)| <= 11 && |FracText(Abs(raw) % SCALE, DECIMALS)| <= 8
  {
    ShiftedEight(1);
    assert Shifted(1, 11) == 1000 * Shifted(1, 8) by { assert Shifted(1, 10) == 100 * Shifted(1, 8); }
    IntTextLength(Abs(raw) / SCALE, 11);
  }
}
