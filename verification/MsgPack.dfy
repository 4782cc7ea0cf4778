/** The MessagePack writer of include/hl/om/MsgPack.h and a reader of the format it writes. */
module MsgPack {
  import opened Bytes
  import opened WireTree

  // ── bytes ───────────────────────────────────────────────────────────────────

  function ByteChar(n: nat): (c: char)
    requires n < 256
    ensures c as int == n
  {
    n as char
  }

  /** The low `width` bytes of n, most significant first. */
  function NetworkText(n: nat, width: nat): (s: string)
    ensures |s| == width
  {
    if width == 0 then "" else NetworkText(n / 256, width - 1) + [ByteChar(n % 256)]
  }

  function Value(s: string): nat {
    if s == "" then 0 else 256 * Value(s[..|s| - 1]) + s[|s| - 1] as int
  }

  lemma {:induction false} ValueOfBigEndian(n: nat, width: nat)
    requires n < Pow256(width)
    ensures Value(NetworkText(n, width)) == n
  {
    if width > 0 {
      ValueOfBigEndian(n / 256, width - 1);
      var s := NetworkText(n, width);
      assert s[..|s| - 1] == NetworkText(n / 256, width - 1);
    }
  }

  // ── tokens ──────────────────────────────────────────────────────────────────

  function Tagged(tag: nat, n: nat, width: nat): string
    requires tag < 256
  {
    [ByteChar(tag)] + NetworkText(n, width)
  }

  function Unsigned(v: nat): string {
    if v < 0x80 then [ByteChar(v)]
    else if v <= 0xFF then Tagged(0xcc, v, 1)
    else if v <= 0xFFFF then Tagged(0xcd, v, 2)
    else if v <= 0xFFFF_FFFF then Tagged(0xce, v, 4)
    else Tagged(0xcf, v, 8)
  }

  /** Negative numbers, in two's complement. */
  function Negative(m: nat): string
    requires 0 < m <= 0x8000_0000_0000_0000
  {
    if m <= 32 then [ByteChar(256 - m)]
    else if m <= 0x80 then Tagged(0xd0, 0x100 - m, 1)
    else if m <= 0x8000 then Tagged(0xd1, 0x1_0000 - m, 2)
    else if m <= 0x8000_0000 then Tagged(0xd2, 0x1_0000_0000 - m, 4)
    else Tagged(0xd3, 0x1_0000_0000_0000_0000 - m, 8)
  }

  function StrHead(len: nat): string {
    if len < 32 then [ByteChar(0xa0 + len)]
    else if len <= 0xFF then Tagged(0xd9, len, 1)
    else if len <= 0xFFFF then Tagged(0xda, len, 2)
    else Tagged(0xdb, len, 4)
  }

  function Collection(n: nat, fix: nat, p16: nat, p32: nat): string
    requires fix + 16 <= 256 && p16 < 256 && p32 < 256
  {
    if n < 16 then [ByteChar(fix + n)] else if n <= 0xFFFF then Tagged(p16, n, 2) else Tagged(p32, n, 4)
  }

  function Emit(token: Token): string {
    match token
    case Num(n) => if n >= 0 then Unsigned(n) else if n >= -0x8000_0000_0000_0000 then Negative(-n) else ""
    case Bool(b) => [ByteChar(if b then 0xc3 else 0xc2)]
    case Str(s) => StrHead(|s|) + s
    case ArrHead(n) => Collection(n, 0x90, 0xdc, 0xdd)
    case MapHead(n) => Collection(n, 0x80, 0xde, 0xdf)
  }

  /** What fits the widths of the format. */
  predicate Fits(token: Token) {
    match token
    case Num(n) => -0x8000_0000_0000_0000 <= n < 0x1_0000_0000_0000_0000
    case Bool(_) => true
    case Str(s) => |s| < 0x1_0000_0000
    case ArrHead(n) => n < 0x1_0000_0000
    case MapHead(n) => n < 0x1_0000_0000
  }

  // ── reading ─────────────────────────────────────────────────────────────────

  function Wide(s: string, width: nat): (g: Got<nat>)
    ensures g.Got? ==> |g.rest| + width == |s|
  {
    if |s| < width then Bad else Got(Value(s[..width]), s[width..])
  }

  function TakeStr(len: nat, s: string): (g: Got<Token>)
    ensures g.Got? ==> |g.rest| <= |s|
  {
    if |s| < len then Bad else Got(Str(s[..len]), s[len..])
  }

  function WideStr(s: string, width: nat): (g: Got<Token>)
    ensures g.Got? ==> |g.rest| <= |s|
  {
    var len := Wide(s, width);
    if len.Bad? then Bad else TakeStr(len.value, len.rest)
  }

  /** A number of `width` bytes, less `bias` when it is negative. */
  function WideNum(s: string, width: nat, bias: nat): (g: Got<Token>)
    ensures g.Got? ==> |g.rest| <= |s|
  {
    var v := Wide(s, width);
    if v.Bad? then Bad else Got(Num(if 2 * v.value >= bias then v.value - bias else v.value), v.rest)
  }

  function WideHead(s: string, width: nat, isArray: bool): (g: Got<Token>)
    ensures g.Got? ==> |g.rest| <= |s|
  {
    var v := Wide(s, width);
    if v.Bad? then Bad else Got(if isArray then ArrHead(v.value) else MapHead(v.value), v.rest)
  }

  function WideUnsigned(s: string, width: nat): (g: Got<Token>)
    ensures g.Got? ==> |g.rest| <= |s|
  {
    var v := Wide(s, width);
    if v.Bad? then Bad else Got(Num(v.value), v.rest)
  }

  function AfterTag(tag: int, s: string): (g: Got<Token>)
    ensures g.Got? ==> |g.rest| <= |s|
  {
    if tag == 0xc2 then Got(Bool(false), s)
    else if tag == 0xc3 then Got(Bool(true), s)
    else if tag == 0xcc then WideUnsigned(s, 1)
    else if tag == 0xcd then WideUnsigned(s, 2)
    else if tag == 0xce then WideUnsigned(s, 4)
    else if tag == 0xcf then WideUnsigned(s, 8)
    else if tag == 0xd0 then WideNum(s, 1, 0x100)
    else if tag == 0xd1 then WideNum(s, 2, 0x1_0000)
    else if tag == 0xd2 then WideNum(s, 4, 0x1_0000_0000)
    else if tag == 0xd3 then WideNum(s, 8, 0x1_0000_0000_0000_0000)
    else if tag == 0xd9 then WideStr(s, 1)
    else if tag == 0xda then WideStr(s, 2)
    else if tag == 0xdb then WideStr(s, 4)
    else if tag == 0xdc then WideHead(s, 2, true)
    else if tag == 0xdd then WideHead(s, 4, true)
    else if tag == 0xde then WideHead(s, 2, false)
    else if tag == 0xdf then WideHead(s, 4, false)
    else Bad
  }

  function Next(s: string): (g: Got<Token>)
    ensures g.Got? ==> |g.rest| < |s|
  {
    if s == "" then Bad
    else
      var b, rest := s[0] as int, s[1..];
      if b < 0x80 then Got(Num(b), rest)
      else if b < 0x90 then Got(MapHead(b - 0x80), rest)
      else if b < 0xa0 then Got(ArrHead(b - 0x90), rest)
      else if b < 0xc0 then TakeStr(b - 0xa0, rest)
      else if b < 0xe0 then AfterTag(b, rest)
      else if b < 0x100 then Got(Num(b - 0x100), rest)
      else Bad
  }

  // ── round trip ──────────────────────────────────────────────────────────────

  lemma Widths()
    ensures Pow256(1) == 0x100 && Pow256(2) == 0x1_0000 && Pow256(4) == 0x1_0000_0000
            && Pow256(8) == 0x1_0000_0000_0000_0000
  {
    assert Pow256(3) == 256 * Pow256(2);
    assert Pow256(6) == 0x1_0000 * Pow256(4);
  }

  lemma WideRead(n: nat, width: nat, tail: string)
    requires n < Pow256(width)
    ensures Wide(NetworkText(n, width) + tail, width) == Got(n, tail)
  {
    var s := NetworkText(n, width) + tail;
    ValueOfBigEndian(n, width);
    assert s[..width] == NetworkText(n, width) && s[width..] == tail;
  }

  lemma NextTag(tag: nat, rest: string)
    requires 0xc0 <= tag < 0xe0
    ensures Next([ByteChar(tag)] + rest) == AfterTag(tag, rest)
  {
    var s := [ByteChar(tag)] + rest;
    assert s[0] == ByteChar(tag) && s[1..] == rest;
  }

  lemma TagRead(tag: nat, n: nat, width: nat, tail: string)
    requires 0xc0 <= tag < 0xe0 && n < Pow256(width)
    ensures Next(Tagged(tag, n, width) + tail) == AfterTag(tag, NetworkText(n, width) + tail)
    ensures Wide(NetworkText(n, width) + tail, width) == Got(n, tail)
  {
    assert Tagged(tag, n, width) + tail == [ByteChar(tag)] + (NetworkText(n, width) + tail);
    NextTag(tag, NetworkText(n, width) + tail);
    WideRead(n, width, tail);
  }

  lemma ShortRead(n: nat, tail: string)
    requires n < 256
    ensures ([ByteChar(n)] + tail)[0] as int == n && ([ByteChar(n)] + tail)[1..] == tail
  {}

  lemma UnsignedRead(v: nat, tail: string)
    requires v < 0x1_0000_0000_0000_0000
    ensures Next(Unsigned(v) + tail) == Got(Num(v), tail)
  {
    Widths();
    if v < 0x80 { ShortRead(v, tail); }
    else if v <= 0xFF { TagRead(0xcc, v, 1, tail); }
    else if v <= 0xFFFF { TagRead(0xcd, v, 2, tail); }
    else if v <= 0xFFFF_FFFF { TagRead(0xce, v, 4, tail); }
    else { TagRead(0xcf, v, 8, tail); }
  }

  lemma NegativeRead(m: nat, tail: string)
    requires 0 < m <= 0x8000_0000_0000_0000
    ensures Next(Negative(m) + tail) == Got(Num(0 - m), tail)
  {
    Widths();
    if m <= 32 { ShortRead(256 - m, tail); }
    else if m <= 0x80 { TagRead(0xd0, 0x100 - m, 1, tail); }
    else if m <= 0x8000 { TagRead(0xd1, 0x1_0000 - m, 2, tail); }
    else if m <= 0x8000_0000 { TagRead(0xd2, 0x1_0000_0000 - m, 4, tail); }
    else { TagRead(0xd3, 0x1_0000_0000_0000_0000 - m, 8, tail); }
  }

  lemma StrRead(s: string, tail: string)
    requires |s| < 0x1_0000_0000
    ensures Next(StrHead(|s|) + s + tail) == Got(Str(s), tail)
  {
    Widths();
    var n, after := |s|, s + tail;
    assert StrHead(n) + s + tail == StrHead(n) + after;
    assert after[..n] == s && after[n..] == tail;
    if n < 32 { ShortRead(0xa0 + n, after); }
    else if n <= 0xFF { TagRead(0xd9, n, 1, after); }
    else if n <= 0xFFFF { TagRead(0xda, n, 2, after); }
    else { TagRead(0xdb, n, 4, after); }
  }

  lemma HeadRead(n: nat, isArray: bool, tail: string)
    requires n < 0x1_0000_0000
    ensures Next(Emit(if isArray then ArrHead(n) else MapHead(n)) + tail)
            == Got(if isArray then ArrHead(n) else MapHead(n), tail)
  {
    Widths();
    if n < 16 { ShortRead((if isArray then 0x90 else 0x80) + n, tail); }
    else if n <= 0xFFFF { TagRead(if isArray then 0xdc else 0xde, n, 2, tail); }
    else { TagRead(if isArray then 0xdd else 0xdf, n, 4, tail); }
  }

  /** Every token is read back from what is written for it, whatever follows. */
  lemma TokenRead(token: Token, tail: string)
    requires Fits(token)
    ensures Next(Emit(token) + tail) == Got(token, tail)
  {
    match token
    case Num(n) => if n >= 0 { UnsignedRead(n, tail); } else { NegativeRead(-n, tail); }
    case Bool(b) => ShortRead(if b then 0xc3 else 0xc2, tail);
    case Str(s) => StrRead(s, tail);
    case ArrHead(n) => HeadRead(n, true, tail);
    case MapHead(n) => HeadRead(n, false, tail);
  }

  lemma PackReads()
    ensures Shrinks(Next) && Reads(Next, Emit, Fits)
  {
    forall token, tail | Fits(token) ensures Next(Emit(token) + tail) == Got(token, tail) {
      TokenRead(token, tail);
    }
  }

  /** The encoding delimits itself and determines the tree. */
  lemma PackRoundTrip(t: Tree, tail: string)
    requires Packable(Fits, t)
    ensures Shrinks(Next) && Unpack(Next, Pack(Emit, t) + tail) == Got(t, tail)
  {
    PackReads();
    UnpackPack(Next, Emit, Fits, t, tail);
  }

  // ── the bytes of the format ─────────────────────────────────────────────────

  /** A tag byte and then a number in `width` bytes, most significant first. */
  predicate IsTagged(s: string, tag: int, width: nat, n: int) {
    |s| == 1 + width && s[0] as int == tag && Value(s[1..]) == n
  }

  predicate IsByte(s: string, n: int) { |s| == 1 && s[0] as int == n }

  lemma TaggedBytes(tag: nat, n: nat, width: nat)
    requires tag < 256 && n < Pow256(width)
    ensures IsTagged(Tagged(tag, n, width), tag, width, n)
  {
    ValueOfBigEndian(n, width);
    assert Tagged(tag, n, width)[1..] == NetworkText(n, width);
  }

  /** Unsigned integers: one byte up to 127, else tag 0xcc, 0xcd, 0xce or 0xcf and 1, 2, 4 or 8 bytes, the fewest. */
  lemma UnsignedBytes(n: nat)
    requires n < 0x1_0000_0000_0000_0000
    ensures var s := Emit(Num(n));
            if n <= 127 then IsByte(s, n) else if n <= 255 then IsTagged(s, 0xcc, 1, n)
            else if n <= 65535 then IsTagged(s, 0xcd, 2, n) else if n <= 4294967295 then IsTagged(s, 0xce, 4, n)
            else IsTagged(s, 0xcf, 8, n)
  {
    Widths();
    if n > 4294967295 { TaggedBytes(0xcf, n, 8); } else if n > 65535 { TaggedBytes(0xce, n, 4); }
    else if n > 255 { TaggedBytes(0xcd, n, 2); } else if n > 127 { TaggedBytes(0xcc, n, 1); }
  }

  /** Negative integers: one byte down to -32, else tag 0xd0 to 0xd3 and two's complement in the fewest bytes. */
  lemma NegativeBytes(n: int)
    requires -0x8000_0000_0000_0000 <= n < 0
    ensures var s := Emit(Num(n));
            if n >= -32 then IsByte(s, 256 + n) else if n >= -128 then IsTagged(s, 0xd0, 1, 0x100 + n)
            else if n >= -32768 then IsTagged(s, 0xd1, 2, 0x1_0000 + n)
            else if n >= -2147483648 then IsTagged(s, 0xd2, 4, 0x1_0000_0000 + n)
            else IsTagged(s, 0xd3, 8, 0x1_0000_0000_0000_0000 + n)
  {
    Widths();
    if n < -2147483648 { TaggedBytes(0xd3, 0x1_0000_0000_0000_0000 + n, 8); }
    else if n < -32768 { TaggedBytes(0xd2, 0x1_0000_0000 + n, 4); }
    else if n < -128 { TaggedBytes(0xd1, 0x1_0000 + n, 2); }
    else if n < -32 { TaggedBytes(0xd0, 0x100 + n, 1); }
  }

  /** Strings: 0xa0 plus the length up to 31, else tag 0xd9, 0xda or 0xdb and the length; then the characters. */
  lemma StringBytes(t: string)
    requires |t| < 0x1_0000_0000
    ensures var s, n := Emit(Str(t)), |t|; var k := |s| - n;
            && k > 0 && s[k..] == t
            && (if n <= 31 then IsByte(s[..k], 0xa0 + n) else if n <= 255 then IsTagged(s[..k], 0xd9, 1, n)
                else if n <= 65535 then IsTagged(s[..k], 0xda, 2, n) else IsTagged(s[..k], 0xdb, 4, n))
  {
    Widths();
    var s, n := Emit(Str(t)), |t|;
    assert s[..|StrHead(n)|] == StrHead(n) && s[|StrHead(n)|..] == t;
    if n > 65535 { TaggedBytes(0xdb, n, 4); } else if n > 255 { TaggedBytes(0xda, n, 2); }
    else if n > 31 { TaggedBytes(0xd9, n, 1); }
  }

  /** Arrays count from 0x90, 0xdc and 0xdd, maps from 0x80, 0xde and 0xdf; false is 0xc2 and true 0xc3. */
  lemma HeadBytes(n: nat)
    requires n < 0x1_0000_0000
    ensures var s := Emit(ArrHead(n));
            if n <= 15 then IsByte(s, 0x90 + n) else if n <= 65535 then IsTagged(s, 0xdc, 2, n)
              else IsTagged(s, 0xdd, 4, n)
    ensures var s := Emit(MapHead(n));
            if n <= 15 then IsByte(s, 0x80 + n) else if n <= 65535 then IsTagged(s, 0xde, 2, n)
              else IsTagged(s, 0xdf, 4, n)
    ensures IsByte(Emit(Bool(false)), 0xc2) && IsByte(Emit(Bool(true)), 0xc3)
  {
    Widths();
    if n > 65535 {
      TaggedBytes(0xdd, n, 4);
      TaggedBytes(0xdf, n, 4);
    } else if n > 15 {
      TaggedBytes(0xdc, n, 2);
      TaggedBytes(0xde, n, 2);
    }
  }

  // ── the writer ──────────────────────────────────────────────────────────────

  /** v shifted right by i bytes. */
  function ShiftRight(v: nat, i: nat): nat {
    if i == 0 then v else ShiftRight(v, i - 1) / 256
  }

  class Writer {
    var buf: string

    constructor ()
      ensures buf == ""
    {
      buf := "";
    }

    method Put(n: nat)
      requires n < 256
      modifies this
      ensures buf == old(buf) + [ByteChar(n)]
    {
      buf := buf + [ByteChar(n)];
    }

    /** Bytes of `v` from the most significant down. */
    method Be(v: nat, width: nat)
      modifies this
      ensures buf == old(buf) + NetworkText(v, width)
    {
      var i := width;
      assert buf + "" == buf;
      while i > 0
        invariant 0 <= i <= width && buf == old(buf) + NetworkText(ShiftRight(v, i), width - i)
      {
        i := i - 1;
        ghost var before := NetworkText(ShiftRight(v, i + 1), width - i - 1);
        Put(ShiftRight(v, i) % 256);
        assert buf == old(buf) + (before + [ByteChar(ShiftRight(v, i) % 256)]);
      }
    }

    method PutTagged(tag: nat, v: nat, width: nat)
      requires tag < 256
      modifies this
      ensures buf == old(buf) + Tagged(tag, v, width)
    {
      Put(tag);
      Be(v, width);
      assert buf == old(buf) + ([ByteChar(tag)] + NetworkText(v, width));
    }

    method Uint(v: nat)
      modifies this
      ensures buf == old(buf) + Emit(Num(v))
    {
      if v < 0x80 { Put(v); }
      else if v <= 0xFF { PutTagged(0xcc, v, 1); }
      else if v <= 0xFFFF { PutTagged(0xcd, v, 2); }
      else if v <= 0xFFFF_FFFF { PutTagged(0xce, v, 4); }
      else { PutTagged(0xcf, v, 8); }
    }

    method Sint(v: int)
      requires v >= -0x8000_0000_0000_0000
      modifies this
      ensures buf == old(buf) + Emit(Num(v))
    {
      if v >= 0 { Uint(v); }
      else if v >= -32 { Put(v + 0x100); }
      else if v >= -0x80 { PutTagged(0xd0, v + 0x100, 1); }
      else if v >= -0x8000 { PutTagged(0xd1, v + 0x1_0000, 2); }
      else if v >= -0x8000_0000 { PutTagged(0xd2, v + 0x1_0000_0000, 4); }
      else { PutTagged(0xd3, v + 0x1_0000_0000_0000_0000, 8); }
    }

    method Boolean(b: bool)
      modifies this
      ensures buf == old(buf) + Emit(Bool(b))
    {
      Put(if b then 0xc3 else 0xc2);
    }

    method PutStr(s: string)
      modifies this
      ensures buf == old(buf) + Emit(Str(s))
    {
      var n := |s|;
      if n < 32 { Put(0xa0 + n); }
      else if n <= 0xFF { PutTagged(0xd9, n, 1); }
      else if n <= 0xFFFF { PutTagged(0xda, n, 2); }
      else { PutTagged(0xdb, n, 4); }
      assert buf == old(buf) + StrHead(n);
      buf := buf + s;
      assert buf == old(buf) + (StrHead(n) + s);
    }

    method PutCollection(n: nat, fix: nat, p16: nat, p32: nat)
      requires fix + 16 <= 256 && p16 < 256 && p32 < 256
      modifies this
      ensures buf == old(buf) + Collection(n, fix, p16, p32)
    {
      if n < 16 { Put(fix + n); } else if n <= 0xFFFF { PutTagged(p16, n, 2); } else { PutTagged(p32, n, 4); }
    }

    method MapHeader(n: nat)
      modifies this
      ensures buf == old(buf) + Emit(MapHead(n))
    {
      PutCollection(n, 0x80, 0xde, 0xdf);
    }

    method ArrayHeader(n: nat)
      modifies this
      ensures buf == old(buf) + Emit(ArrHead(n))
    {
      PutCollection(n, 0x90, 0xdc, 0xdd);
    }
  }
}
