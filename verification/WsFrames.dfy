/** WebSocket framing (sections 5.2 to 5.5 of RFC 6455) as src/net/WsCodec.cpp reads and writes it. */
module WsFrames {
  import opened Basics
  import opened Bytes
  import opened Octets
  import opened Masking
  import opened Streams

  // ── one frame ───────────────────────────────────────────────────────────────

  type Nibble = n: nat | n < 16

  datatype Frame = Frame(fin: bool, opcode: Nibble, payload: seq<Octet>)

  const CONTINUATION: nat := 0
  const TEXT: nat := 1
  const BINARY: nat := 2

  datatype Header = Header(masked: bool, length: nat, size: nat)

  function Fin(b: Octet): bool { b & 0x80 != 0 }
  function Opcode(b: Octet): Nibble { Num(b & 0x0F) }
  function Masked(b: Octet): bool { b & 0x80 != 0 }
  function ShortLength(b: Octet): (n: nat) { Num(b & 0x7F) }

  function KeySize(masked: bool): nat { if masked then 4 else 0 }

  /** The header, once enough bytes are there to know the payload length. */
  function ReadHeader(s: seq<Octet>): (h: Option<Header>)
    ensures h.Some? ==> |s| >= 2 && h.value.size >= 2 + KeySize(h.value.masked)
  {
    if |s| < 2 then None
    else
      var masked, n := Masked(s[1]), ShortLength(s[1]);
      if n == 126 then
        if |s| < 4 then None else Some(Header(masked, Network(s[2..4]), 4 + KeySize(masked)))
      else if n == 127 then
        if |s| < 10 then None else Some(Header(masked, Network(s[2..10]), 10 + KeySize(masked)))
      else Some(Header(masked, n, 2 + KeySize(masked)))
  }

  function Unmasked(s: seq<Octet>, h: Header): seq<Octet>
    requires h.size >= KeySize(h.masked) && h.size + h.length <= |s|
  {
    var body := s[h.size..h.size + h.length];
    if h.masked then Mask(body, s[h.size - 4..h.size]) else body
  }

  function ReadFrame(s: seq<Octet>, max: nat): (p: Parse<Frame>)
    ensures p.Parsed? ==> 2 <= p.size <= |s| && |p.frame.payload| <= max
  {
    match ReadHeader(s)
    case None => NeedMore
    case Some(h) =>
      if h.length > max then Oversize
      else if |s| < h.size + h.length then NeedMore
      else Parsed(Frame(Fin(s[0]), Opcode(s[0]), Unmasked(s, h)), h.size + h.length)
  }

  lemma HeaderStable(s: seq<Octet>, t: seq<Octet>)
    requires ReadHeader(s).Some?
    ensures ReadHeader(s + t) == ReadHeader(s)
  {
    if |s| >= 4 { SliceStable(s, t, 2, 4); }
    if |s| >= 10 { SliceStable(s, t, 2, 10); }
  }

  lemma SliceStable<T>(s: seq<T>, t: seq<T>, i: nat, j: nat)
    requires i <= j <= |s|
    ensures (s + t)[i..j] == s[i..j]
  {}

  /** Bytes that arrive later do not change what has already been recognised. */
  lemma FrameStable(s: seq<Octet>, t: seq<Octet>, max: nat)
    requires !ReadFrame(s, max).NeedMore?
    ensures ReadFrame(s + t, max) == ReadFrame(s, max)
  {
    HeaderStable(s, t);
    var h := ReadHeader(s).value;
    if h.length <= max {
      SliceStable(s, t, h.size, h.size + h.length);
      if h.masked { SliceStable(s, t, h.size - 4, h.size); }
    }
  }

  // ── writing a frame ─────────────────────────────────────────────────────────

  function FirstByte(f: Frame): Octet
  {
    (if f.fin then 0x80 else 0x00) | Oct(f.opcode)
  }

  function SecondByte(masked: bool, n: nat): Octet
    requires n < 128
  {
    (if masked then 0x80 else 0x00) | Oct(n)
  }

  function LengthBytes(masked: bool, n: nat): (s: seq<Octet>)
    ensures |s| == if n < 126 then 1 else if n <= 0xFFFF then 3 else 9
  {
    if n < 126 then [SecondByte(masked, n)]
    else if n <= 0xFFFF then [SecondByte(masked, 126)] + ToNetwork(n, 2)
    else [SecondByte(masked, 127)] + ToNetwork(n, 8)
  }

  function KeyBytes(key: Option<Key>): (s: seq<Octet>)
    ensures |s| == KeySize(key.Some?)
  {
    if key.Some? then key.value else []
  }

  function Scrambled(payload: seq<Octet>, key: Option<Key>): (s: seq<Octet>)
    ensures |s| == |payload|
  {
    if key.Some? then Mask(payload, key.value) else payload
  }

  /** The frame on the wire, with the shortest length field and an optional masking key. */
  function Wire(f: Frame, key: Option<Key>): seq<Octet>
  {
    [FirstByte(f)] + LengthBytes(key.Some?, |f.payload|) + KeyBytes(key) + Scrambled(f.payload, key)
  }

  lemma FirstByteRead(f: Frame)
    ensures Fin(FirstByte(f)) == f.fin && Opcode(FirstByte(f)) == f.opcode
  {
    LowNibble(Oct(f.opcode));
  }

  lemma LowNibble(b: Octet)
    requires Num(b) < 16
    ensures b < 16
  {}

  lemma SecondByteRead(masked: bool, n: nat)
    requires n < 128
    ensures Masked(SecondByte(masked, n)) == masked && ShortLength(SecondByte(masked, n)) == n
  {
    LowSeven(Oct(n));
  }

  lemma LowSeven(b: Octet)
    requires Num(b) < 128
    ensures b < 128
  {}

  lemma Lengths()
    ensures Pow256(2) == 0x1_0000 && Pow256(8) == 0x1_0000_0000_0000_0000
  {
    assert Pow256(4) == 0x1_0000_0000;
    assert Pow256(6) == 0x1_0000_0000_0000;
  }

  lemma HeaderRead(f: Frame, key: Option<Key>, rest: seq<Octet>)
    requires |f.payload| < 0x1_0000_0000_0000_0000
    ensures var s := [FirstByte(f)] + LengthBytes(key.Some?, |f.payload|) + rest;
            var size := 1 + |LengthBytes(key.Some?, |f.payload|)|;
            ReadHeader(s) == Some(Header(key.Some?, |f.payload|, size + KeySize(key.Some?)))
  {
    var n := |f.payload|;
    Lengths();
    if n < 126 {
      ShortHeader(FirstByte(f), key.Some?, n, rest);
    } else {
      LongHeader(FirstByte(f), key.Some?, n, if n <= 0xFFFF then 2 else 8, rest);
    }
  }

  lemma ShortHeader(first: Octet, masked: bool, n: nat, rest: seq<Octet>)
    requires n < 126
    ensures ReadHeader([first] + LengthBytes(masked, n) + rest) == Some(Header(masked, n, 2 + KeySize(masked)))
  {
    SecondByteRead(masked, n);
  }

  lemma LongHeader(first: Octet, masked: bool, n: nat, width: nat, rest: seq<Octet>)
    requires 126 <= n < Pow256(width) && width == if n <= 0xFFFF then 2 else 8
    ensures ReadHeader([first] + LengthBytes(masked, n) + rest) == Some(Header(masked, n, 2 + width + KeySize(masked)))
  {
    var second := SecondByte(masked, if width == 2 then 126 else 127);
    SecondByteRead(masked, if width == 2 then 126 else 127);
    NetworkOf(n, width);
    Slices(first, second, ToNetwork(n, width), rest);
    LengthRead([first] + LengthBytes(masked, n) + rest, masked, width);
  }

  lemma Slices(first: Octet, second: Octet, t: seq<Octet>, rest: seq<Octet>)
    ensures var s := [first] + ([second] + t) + rest;
            |s| >= 2 + |t| && s[1] == second && s[2..2 + |t|] == t
  {}

  lemma LengthRead(s: seq<Octet>, masked: bool, width: nat)
    requires (width == 2 || width == 8) && |s| >= 2 + width
    requires Masked(s[1]) == masked && ShortLength(s[1]) == if width == 2 then 126 else 127
    ensures ReadHeader(s) == Some(Header(masked, Network(s[2..2 + width]), 2 + width + KeySize(masked)))
  {}

  lemma BodyRead(head: seq<Octet>, f: Frame, key: Option<Key>, tail: seq<Octet>)
    ensures var s := head + (KeyBytes(key) + Scrambled(f.payload, key) + tail);
            Unmasked(s, Header(key.Some?, |f.payload|, |head| + KeySize(key.Some?))) == f.payload
  {
    var s := head + (KeyBytes(key) + Scrambled(f.payload, key) + tail);
    var size := |head| + KeySize(key.Some?);
    assert s[size..size + |f.payload|] == Scrambled(f.payload, key);
    if key.Some? {
      assert s[size - 4..size] == key.value;
      MaskUndo(f.payload, key.value);
    }
  }

  /** Reading a written frame gives the frame back, whatever follows it. */
  lemma FrameRead(f: Frame, key: Option<Key>, tail: seq<Octet>, max: nat)
    requires |f.payload| <= max && |f.payload| < 0x1_0000_0000_0000_0000
    ensures ReadFrame(Wire(f, key) + tail, max) == Parsed(f, |Wire(f, key)|)
  {
    var s := Wire(f, key) + tail;
    var head := [FirstByte(f)] + LengthBytes(key.Some?, |f.payload|);
    var rest := KeyBytes(key) + Scrambled(f.payload, key) + tail;
    assert s == head + rest;
    HeaderRead(f, key, rest);
    FirstByteRead(f);
    BodyRead(head, f, key, tail);
  }

  // ── the layout of section 5.2 of RFC 6455 ───────────────────────────────────

  lemma HighBit(b: Octet)
    requires Num(b) < 128
    ensures Num(0x80 | b) == 128 + Num(b) && Num(0x00 | b) == Num(b)
  {}

  /** Where the length field ends. */
  function LengthEnd(n: nat): nat { if n < 126 then 2 else if n <= 65535 then 4 else 10 }

  /** What the second byte says of the length. */
  function LengthCode(n: nat): nat { if n < 126 then n else if n <= 65535 then 126 else 127 }

  lemma Flagged(flag: bool, n: nat)
    requires n < 128
    ensures Num((if flag then 0x80 else 0x00) | Oct(n)) == (if flag then 128 else 0) + n
  {
    HighBit(Oct(n));
  }

  /** MASK and 7 bits of length, or 126 or 127 and the length in 2 or 8 bytes, most significant first. */
  lemma LengthLayout(masked: bool, n: nat)
    requires n < 0x1_0000_0000_0000_0000
    ensures var s := LengthBytes(masked, n);
            && |s| == LengthEnd(n) - 1 && Num(s[0]) == (if masked then 128 else 0) + LengthCode(n)
            && (n >= 126 ==> Network(s[1..]) == n)
  {
    Flagged(masked, LengthCode(n));
    if n >= 126 {
      var width := LengthEnd(n) - 2;
      Lengths();
      NetworkOf(n, width);
      assert LengthBytes(masked, n)[1..] == ToNetwork(n, width);
    }
  }

  lemma Parts<T>(first: T, length: seq<T>, key: seq<T>, body: seq<T>)
    ensures var w, e := [first] + length + key + body, 1 + |length|;
            && |w| == e + |key| + |body| && w[0] == first && (|length| > 0 ==> w[1] == length[0])
            && (|length| > 0 ==> w[2..e] == length[1..]) && w[e..e + |key|] == key && w[e + |key|..] == body
  {}

  /** FIN and opcode, the length field, the key if there is one, and the payload. */
  lemma WireLayout(f: Frame, key: Option<Key>)
    requires |f.payload| < 0x1_0000_0000_0000_0000
    ensures var n, w := |f.payload|, Wire(f, key); var e := LengthEnd(n); var at := e + KeySize(key.Some?);
            && |w| == at + n
            && Num(w[0]) == (if f.fin then 128 else 0) + f.opcode
            && Num(w[1]) == (if key.Some? then 128 else 0) + LengthCode(n)
            && (n >= 126 ==> Network(w[2..e]) == n)
            && w[e..at] == KeyBytes(key) && w[at..] == Scrambled(f.payload, key)
  {
    var n := |f.payload|;
    Flagged(f.fin, f.opcode);
    LengthLayout(key.Some?, n);
    Parts(FirstByte(f), LengthBytes(key.Some?, n), KeyBytes(key), Scrambled(f.payload, key));
  }
}
