/** Masking of WebSocket payloads: byte by byte as section 5.3 of RFC 6455 defines it, and word by word. */
module Masking {
  import opened Basics

  type Key = k: seq<Octet> | |k| == 4 witness [0, 0, 0, 0]

  function Xor(a: Octet, b: Octet): Octet { a ^ b }

  /** Section 5.3: octet i is combined with key octet i modulo 4. */
  function Mask(s: seq<Octet>, key: Key): (r: seq<Octet>)
    ensures |r| == |s|
  {
    MaskWith(Xor, s, key)
  }

  function MaskWith<B>(xor: (B, B) -> B, s: seq<B>, key: seq<B>): (r: seq<B>)
    requires |key| == 4
    ensures |r| == |s|
  {
    seq(|s|, i requires 0 <= i < |s| => xor(s[i], key[i % 4]))
  }

  lemma MaskWithAt<B>(xor: (B, B) -> B, s: seq<B>, key: seq<B>, i: nat)
    requires |key| == 4 && i < |s|
    ensures MaskWith(xor, s, key)[i] == xor(s[i], key[i % 4])
  {}

  /** Octet i is combined with octet i modulo 4 of the key, bit by bit. */
  lemma MaskAt(s: seq<Octet>, key: Key, i: nat)
    requires i < |s|
    ensures Mask(s, key)[i] == s[i] ^ key[i % 4]
  {
    MaskWithAt(Xor, s, key, i);
    assert Xor(s[i], key[i % 4]) == s[i] ^ key[i % 4];
  }

  lemma UndoWith<B(!new)>(xor: (B, B) -> B, s: seq<B>, key: seq<B>)
    requires |key| == 4 && forall x, k :: xor(xor(x, k), k) == x
    ensures MaskWith(xor, MaskWith(xor, s, key), key) == s
  {}

  /** Masking twice with one key gives the payload back. */
  lemma MaskUndo(s: seq<Octet>, key: Key)
    ensures Mask(Mask(s, key), key) == s
  {
    forall x, k ensures Xor(Xor(x, k), k) == x {}
    UndoWith(Xor, s, key);
  }

  lemma EightWith<B>(xor: (B, B) -> B, s: seq<B>, key: seq<B>, r: seq<B>)
    requires |s| == 8 && |r| == 8 && |key| == 4
    requires r[0] == xor(s[0], key[0]) && r[1] == xor(s[1], key[1]) && r[2] == xor(s[2], key[2])
    requires r[3] == xor(s[3], key[3]) && r[4] == xor(s[4], key[0]) && r[5] == xor(s[5], key[1])
    requires r[6] == xor(s[6], key[2]) && r[7] == xor(s[7], key[3])
    ensures r == MaskWith(xor, s, key)
  {}

  lemma SliceWith<B>(xor: (B, B) -> B, src: seq<B>, key: seq<B>, i: nat, n: nat)
    requires |key| == 4 && i % 4 == 0 && i + n <= |src|
    ensures forall j :: i <= j < i + n ==> MaskWith(xor, src[i..i + n], key)[j - i] == MaskWith(xor, src, key)[j]
  {
    forall j | i <= j < i + n ensures j % 4 == (j - i) % 4 {}
  }

  // ── words ───────────────────────────────────────────────────────────────────

  function ByteAt(w: bv64, shift: bv8): Octet
    requires shift <= 56
  {
    ((w >> shift) & 0xFF) as Octet
  }

  /** Word `w` is laid out in memory as the eight bytes `s`, lowest first. */
  predicate Laid(w: bv64, s: seq<Octet>) {
    && |s| == 8
    && ByteAt(w, 0) == s[0] && ByteAt(w, 8) == s[1] && ByteAt(w, 16) == s[2] && ByteAt(w, 24) == s[3]
    && ByteAt(w, 32) == s[4] && ByteAt(w, 40) == s[5] && ByteAt(w, 48) == s[6] && ByteAt(w, 56) == s[7]
  }

  /** memcpy of eight bytes into a word. */
  method ReadWord(s: seq<Octet>) returns (w: bv64)
    requires |s| == 8
    ensures Laid(w, s)
  {
    w := s[0] as bv64 | (s[1] as bv64 << 8) | (s[2] as bv64 << 16) | (s[3] as bv64 << 24) |
         (s[4] as bv64 << 32) | (s[5] as bv64 << 40) | (s[6] as bv64 << 48) | (s[7] as bv64 << 56);
  }

  /** memcpy of a word into eight bytes. */
  function WordBytes(w: bv64): (s: seq<Octet>)
    ensures Laid(w, s)
  {
    [ByteAt(w, 0), ByteAt(w, 8), ByteAt(w, 16), ByteAt(w, 24), ByteAt(w, 32), ByteAt(w, 40), ByteAt(w, 48),
     ByteAt(w, 56)]
  }

  /** One exclusive or on words is one on each pair of bytes. */
  lemma WordXor(v: bv64, s: seq<Octet>, w: bv64, t: seq<Octet>, r: seq<Octet>)
    requires Laid(v, s) && Laid(w, t) && Laid(v ^ w, r)
    ensures r[0] == Xor(s[0], t[0]) && r[1] == Xor(s[1], t[1]) && r[2] == Xor(s[2], t[2])
    ensures r[3] == Xor(s[3], t[3]) && r[4] == Xor(s[4], t[4]) && r[5] == Xor(s[5], t[5])
    ensures r[6] == Xor(s[6], t[6]) && r[7] == Xor(s[7], t[7])
  {
    LowXor(v, w);
    HighXor(v, w);
  }

  lemma LowXor(v: bv64, w: bv64)
    ensures ByteAt(v ^ w, 0) == Xor(ByteAt(v, 0), ByteAt(w, 0)) && ByteAt(v ^ w, 8) == Xor(ByteAt(v, 8), ByteAt(w, 8))
    ensures ByteAt(v ^ w, 16) == Xor(ByteAt(v, 16), ByteAt(w, 16))
    ensures ByteAt(v ^ w, 24) == Xor(ByteAt(v, 24), ByteAt(w, 24))
  {}

  lemma HighXor(v: bv64, w: bv64)
    ensures ByteAt(v ^ w, 32) == Xor(ByteAt(v, 32), ByteAt(w, 32))
    ensures ByteAt(v ^ w, 40) == Xor(ByteAt(v, 40), ByteAt(w, 40))
    ensures ByteAt(v ^ w, 48) == Xor(ByteAt(v, 48), ByteAt(w, 48))
    ensures ByteAt(v ^ w, 56) == Xor(ByteAt(v, 56), ByteAt(w, 56))
  {}

  /** Loads a word, masks it and hands back its bytes. */
  method MaskWord(s: seq<Octet>, key: Key, word: bv64) returns (r: seq<Octet>)
    requires |s| == 8 && Laid(word, key + key)
    ensures r == Mask(s, key)
  {
    var v := ReadWord(s);
    r := WordBytes(v ^ word);
    WordXor(v, s, word, key + key, r);
    EightWith(Xor, s, key, r);
  }

  /** Masks `src` into `p[at..]`, eight bytes at a time and then byte by byte. */
  method MaskInto(src: seq<Octet>, key: Key, p: array<Octet>, at: nat)
    requires at + |src| <= p.Length
    modifies p
    ensures p[at..at + |src|] == Mask(src, key)
    ensures forall j :: 0 <= j < at || at + |src| <= j < p.Length ==> p[j] == old(p[j])
  {
    ghost var goal := Mask(src, key);
    var word := ReadWord(key + key);
    var i := 0;
    while i + 8 <= |src|
      invariant i % 4 == 0 && i <= |src|
      invariant forall j :: 0 <= j < i ==> p[at + j] == goal[j]
      invariant forall j :: 0 <= j < at || at + |src| <= j < p.Length ==> p[j] == old(p[j])
    {
      var eight := MaskWord(src[i..i + 8], key, word);
      SliceWith(Xor, src, key, i, 8);
      Copy(eight, p, at + i, goal, at);
      i := i + 8;
    }
    while i < |src|
      invariant i <= |src|
      invariant forall j :: 0 <= j < i ==> p[at + j] == goal[j]
      invariant forall j :: 0 <= j < at || at + |src| <= j < p.Length ==> p[j] == old(p[j])
    {
      p[at + i] := Xor(src[i], key[i % 4]);
      i := i + 1;
    }
  }

  /** memcpy of the next stretch of `goal`. */
  method Copy(data: seq<Octet>, p: array<Octet>, to: nat, ghost goal: seq<Octet>, ghost at: nat)
    requires at <= to && to + |data| <= at + |goal| <= p.Length
    requires forall j :: to - at <= j < to - at + |data| ==> data[j - (to - at)] == goal[j]
    requires forall j :: 0 <= j < to - at ==> p[at + j] == goal[j]
    modifies p
    ensures forall j :: 0 <= j < to - at + |data| ==> p[at + j] == goal[j]
    ensures forall j :: 0 <= j < at || at + |goal| <= j < p.Length ==> p[j] == old(p[j])
  {
    forall j | 0 <= j < |data| { p[to + j] := data[j]; }
    forall j | to - at <= j < to - at + |data| ensures p[at + j] == goal[j] {
      assert p[to + (j - (to - at))] == data[j - (to - at)];
    }
  }
}
