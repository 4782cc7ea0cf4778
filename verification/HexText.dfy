/** Hexadecimal text of client order ids and addresses (src/core/Hex.cpp). */
module HexText {
  import opened Basics

  type U64 = n: nat | n < 0x1_0000_0000_0000_0000

  function HexDigit(d: nat): (c: char)
    requires d < 16
    ensures Nibble(c) == Some(d) && c != '"' && c != '\\'
  {
    if d < 10 then ('0' as int + d) as char else ('a' as int + d - 10) as char
  }

  /** The value of a digit in either case. */
  function Nibble(c: char): (d: Option<nat>)
    ensures d.Some? ==> d.value < 16
  {
    if '0' <= c <= '9' then Some(c as int - '0' as int)
    else if 'a' <= c <= 'f' then Some(c as int - 'a' as int + 10)
    else if 'A' <= c <= 'F' then Some(c as int - 'A' as int + 10)
    else None
  }

  // ── numbers of a fixed number of digits ─────────────────────────────────────

  function Pow16(k: nat): (p: nat)
    ensures p >= 1
  {
    if k == 0 then 1 else 16 * Pow16(k - 1)
  }

  function HexFixed(n: nat, width: nat): (s: string)
    ensures |s| == width
  {
    if width == 0 then "" else HexFixed(n / 16, width - 1) + [HexDigit(n % 16)]
  }

  function HexValue(s: string): Option<nat> {
    if s == "" then Some(0)
    else
      var high, low := HexValue(s[..|s| - 1]), Nibble(s[|s| - 1]);
      if high.None? || low.None? then None else Some(16 * high.value + low.value)
  }

  lemma {:induction false} HexFixedRead(n: nat, width: nat)
    requires n < Pow16(width)
    ensures HexValue(HexFixed(n, width)) == Some(n)
  {
    if width > 0 {
      HexFixedRead(n / 16, width - 1);
      var s := HexFixed(n, width);
      assert s[..|s| - 1] == HexFixed(n / 16, width - 1);
    }
  }

  lemma {:induction false} HexValueBound(s: string)
    requires HexValue(s).Some?
    ensures HexValue(s).value < Pow16(|s|)
  {
    if s != "" { HexValueBound(s[..|s| - 1]); }
  }

  lemma {:induction false} HexAt(s: string, k: nat)
    requires k < |s| && HexValue(s).Some?
    ensures Nibble(s[k]).Some?
  {
    if k < |s| - 1 { HexAt(s[..|s| - 1], k); }
  }

  lemma Pow16At16()
    ensures Pow16(16) == 0x1_0000_0000_0000_0000
  {
    assert Pow16(1) == 16;
    assert Pow16(4) == 4096 * Pow16(1);
    assert Pow16(7) == 4096 * Pow16(4);
    assert Pow16(10) == 4096 * Pow16(7);
    assert Pow16(13) == 4096 * Pow16(10);
  }

  // ── client order ids ────────────────────────────────────────────────────────

  datatype Cloid = Cloid(high: U64, low: U64)

  function CloidText(c: Cloid): string { "0x" + (HexFixed(c.high, 16) + HexFixed(c.low, 16)) }

  function StripPrefix(s: string): string {
    if |s| >= 2 && s[0] == '0' && (s[1] == 'x' || s[1] == 'X') then s[2..] else s
  }

  lemma ValueFits(s: string)
    requires |s| == 16 && HexValue(s).Some?
    ensures HexValue(s).value < 0x1_0000_0000_0000_0000
  {
    HexValueBound(s);
    Pow16At16();
  }

  function ParseCloid(text: string): Option<Cloid> {
    var s := StripPrefix(text);
    if |s| != 32 then None
    else
      var high, low := HexValue(s[..16]), HexValue(s[16..]);
      if high.None? || low.None? then None
      else ValueFits(s[..16]); ValueFits(s[16..]); Some(Cloid(high.value, low.value))
  }

  /** Every client order id is read back from its text. */
  lemma CloidRoundTrip(c: Cloid)
    ensures ParseCloid(CloidText(c)) == Some(c)
  {
    Pow16At16();
    HexFixedRead(c.high, 16);
    HexFixedRead(c.low, 16);
    var a, b := HexFixed(c.high, 16), HexFixed(c.low, 16);
    var s := StripPrefix(CloidText(c));
    assert s == a + b && s[..16] == a && s[16..] == b;
  }

  lemma Sixteenfold(x: nat, p: nat)
    ensures x * (16 * p) == 16 * (x * p)
  {}

  lemma {:induction false} HexConcat(s: string, t: string)
    requires HexValue(s).Some? && HexValue(t).Some?
    ensures HexValue(s + t) == Some(HexValue(s).value * Pow16(|t|) + HexValue(t).value)
  {
    if t == "" {
      assert s + t == s;
    } else {
      var t' := t[..|t| - 1];
      assert (s + t)[..|s + t| - 1] == s + t';
      HexConcat(s, t');
      assert (s + t)[|s + t| - 1] == t[|t| - 1];
      Sixteenfold(HexValue(s).value, Pow16(|t'|));
    }
  }

  /** The text is `0x` and the 128-bit number in 32 lower-case digits. */
  lemma CloidTextIsNumber(c: Cloid)
    ensures var s := CloidText(c);
            && |s| == 34 && s[0] == '0' && s[1] == 'x'
              && HexValue(s[2..]) == Some(c.high * 0x1_0000_0000_0000_0000 + c.low)
            && forall i :: 0 <= i < 34 ==> s[i] == 'x' || '0' <= s[i] <= '9' || 'a' <= s[i] <= 'f'
  {
    Pow16At16();
    HexFixedRead(c.high, 16);
    HexFixedRead(c.low, 16);
    HexConcat(HexFixed(c.high, 16), HexFixed(c.low, 16));
    assert CloidText(c)[2..] == HexFixed(c.high, 16) + HexFixed(c.low, 16);
    HexFixedLower(c.high, 16);
    HexFixedLower(c.low, 16);
  }

  lemma {:induction false} HexFixedLower(n: nat, width: nat)
    ensures forall i :: 0 <= i < width ==> '0' <= HexFixed(n, width)[i] <= '9' || 'a' <= HexFixed(n, width)[i] <= 'f'
  {
    if width > 0 { HexFixedLower(n / 16, width - 1); }
  }

  lemma CloidTextInjective(a: Cloid, b: Cloid)
    requires CloidText(a) == CloidText(b)
    ensures a == b
  {
    CloidRoundTrip(a);
    CloidRoundTrip(b);
  }

  /** The parsing loop: sixteen digits into each half. */
  method ReadCloid(text: string) returns (c: Option<Cloid>)
    ensures c == ParseCloid(text)
  {
    var hex := StripPrefix(text);
    if |hex| != 32 { return None; }
    var hi: nat, lo: nat := 0, 0;
    var i := 0;
    while i < 32
      invariant 0 <= i <= 32
      invariant HexValue(hex[..if i < 16 then i else 16]) == Some(hi)
      invariant HexValue(if i < 16 then "" else hex[16..i]) == Some(lo)
    {
      var n := Nibble(hex[i]);
      if i < 16 {
        assert hex[..i + 1][..i] == hex[..i];
        if n.None? {
          NoHalf(hex[..16], i);
          return None;
        }
        hi := 16 * hi + n.value;
      } else {
        assert hex[16..i + 1][..i - 16] == hex[16..i];
        if n.None? {
          NoHalf(hex[16..], i - 16);
          return None;
        }
        lo := 16 * lo + n.value;
      }
      i := i + 1;
    }
    assert hex[16..32] == hex[16..];
    ValueFits(hex[..16]);
    ValueFits(hex[16..]);
    c := Some(Cloid(hi, lo));
  }

  lemma NoHalf(s: string, k: nat)
    requires k < |s| && Nibble(s[k]).None?
    ensures HexValue(s).None?
  {
    if HexValue(s).Some? { HexAt(s, k); }
  }

  /** The printing loop, which fills both halves at once. */
  method WriteCloid(c: Cloid) returns (text: string)
    ensures text == CloidText(c)
  {
    var out := new char[34];
    out[0], out[1] := '0', 'x';
    var high: nat, low: nat := c.high, c.low;
    ghost var a, b := HexFixed(c.high, 16), HexFixed(c.low, 16);
    var i := 16;
    while i > 0
      invariant 0 <= i <= 16 && out[0] == '0' && out[1] == 'x'
      invariant HexFixed(high, i) == a[..i] && HexFixed(low, i) == b[..i]
      invariant forall j :: i <= j < 16 ==> out[2 + j] == a[j] && out[18 + j] == b[j]
    {
      i := i - 1;
      out[2 + i] := HexDigit(high % 16);
      out[18 + i] := HexDigit(low % 16);
      assert a[..i + 1][i] == HexFixed(high, i + 1)[i] && b[..i + 1][i] == HexFixed(low, i + 1)[i];
      assert a[..i + 1][..i] == a[..i] && HexFixed(high, i + 1)[..i] == HexFixed(high / 16, i);
      assert b[..i + 1][..i] == b[..i] && HexFixed(low, i + 1)[..i] == HexFixed(low / 16, i);
      high, low := high / 16, low / 16;
    }
    text := out[..];
    assert text[..2] == "0x" && text[2..18] == a && text[18..] == b;
    assert text == text[..2] + (text[2..18] + text[18..]);
  }

  // ── addresses ───────────────────────────────────────────────────────────────

  function BytesText(bytes: seq<Byte>): (s: string)
    ensures |s| == 2 * |bytes|
  {
    if bytes == [] then "" else [HexDigit(bytes[0] / 16), HexDigit(bytes[0] % 16)] + BytesText(bytes[1..])
  }

  type Address = a: seq<Byte> | |a| == 20 witness seq(20, _ => 0)

  function AddressText(a: Address): string { "0x" + BytesText(a) }

  /** Two digits for each byte, the higher one first. */
  predicate SpellsBytes(s: string, bytes: seq<Byte>) {
    && |s| == 2 * |bytes|
    && forall i :: 0 <= i < |bytes| ==>
         Nibble(s[2 * i]).Some? && Nibble(s[2 * i + 1]).Some?
         && 16 * Nibble(s[2 * i]).value + Nibble(s[2 * i + 1]).value == bytes[i]
  }

  lemma {:induction false} BytesTextSpells(bytes: seq<Byte>)
    ensures SpellsBytes(BytesText(bytes), bytes)
  {
    if bytes != [] {
      var s, rest := BytesText(bytes), BytesText(bytes[1..]);
      BytesTextSpells(bytes[1..]);
      forall i | 0 < i < |bytes|
        ensures Nibble(s[2 * i]).Some? && Nibble(s[2 * i + 1]).Some?
                && 16 * Nibble(s[2 * i]).value + Nibble(s[2 * i + 1]).value == bytes[i]
      {
        assert s[2 * i] == rest[2 * (i - 1)] && s[2 * i + 1] == rest[2 * (i - 1) + 1] && bytes[1..][i - 1] == bytes[i];
      }
    }
  }

  lemma {:induction false} BytesTextInjective(a: seq<Byte>, b: seq<Byte>)
    requires BytesText(a) == BytesText(b)
    ensures a == b
  {
    assert |a| == |b|;
    if a != [] {
      var s, t := BytesText(a), BytesText(b);
      assert s[0] == HexDigit(a[0] / 16) && s[1] == HexDigit(a[0] % 16) && s[2..] == BytesText(a[1..]);
      assert t[0] == HexDigit(b[0] / 16) && t[1] == HexDigit(b[0] % 16) && t[2..] == BytesText(b[1..]);
      BytesTextInjective(a[1..], b[1..]);
      assert a == [a[0]] + a[1..] && b == [b[0]] + b[1..];
    }
  }

  lemma AddressTextInjective(a: Address, b: Address)
    requires AddressText(a) == AddressText(b)
    ensures a == b
  {
    assert AddressText(a)[2..] == BytesText(a) && AddressText(b)[2..] == BytesText(b);
    BytesTextInjective(a, b);
  }

  // ── what hexadecimal text never holds ───────────────────────────────────────

  predicate Clean(s: string) { forall i :: 0 <= i < |s| ==> s[i] != '"' && s[i] != '\\' }

  lemma {:induction false} HexFixedClean(n: nat, width: nat)
    ensures Clean(HexFixed(n, width))
  {
    if width > 0 { HexFixedClean(n / 16, width - 1); }
  }

  lemma {:induction false} BytesTextClean(b: seq<Byte>)
    ensures Clean(BytesText(b))
  {
    if b != [] { BytesTextClean(b[1..]); }
  }

  lemma CloidTextClean(c: Cloid)
    ensures Clean(CloidText(c)) && |CloidText(c)| == 34
  {
    HexFixedClean(c.high, 16);
    HexFixedClean(c.low, 16);
  }

  lemma AddressTextClean(a: Address)
    ensures Clean(AddressText(a)) && |AddressText(a)| == 42
  {
    BytesTextClean(a);
  }
}
