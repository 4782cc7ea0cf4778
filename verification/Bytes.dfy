/** Bytes and big-endian integers. */
module Bytes {
  import opened Basics

  function Pow256(k: nat): (p: int)
    ensures p >= 1
  {
    if k == 0 then 1 else 256 * Pow256(k - 1)
  }

  /** Big-endian value of a byte string. */
  function BigEndian(s: seq<Byte>): (v: nat) {
    if |s| == 0 then 0 else BigEndian(s[..|s| - 1]) * 256 + s[|s| - 1]
  }

  lemma {:induction false} BigEndianBound(s: seq<Byte>)
    ensures BigEndian(s) < Pow256(|s|)
  {
    if |s| > 0 { BigEndianBound(s[..|s| - 1]); }
  }

  lemma {:induction false} Scale(x: int, p: int)
    ensures x * (256 * p) == 256 * (x * p)
  {}

  lemma {:induction false} Pow256Add(i: nat, j: nat)
    ensures Pow256(i + j) == Pow256(i) * Pow256(j)
  {
    if j > 0 {
      Pow256Add(i, j - 1);
      Scale(Pow256(i), Pow256(j - 1));
    }
  }

  lemma {:induction false} BigEndianConcat(s: seq<Byte>, t: seq<Byte>)
    ensures BigEndian(s + t) == BigEndian(s) * Pow256(|t|) + BigEndian(t)
  {
    if |t| == 0 {
      assert s + t == s;
    } else {
      var t' := t[..|t| - 1];
      assert (s + t)[..|s + t| - 1] == s + t';
      BigEndianConcat(s, t');
      Scale(BigEndian(s), Pow256(|t'|));
    }
  }

  /** The `width` low bytes of `v`, most significant first. */
  function ToBigEndian(v: nat, width: nat): (s: seq<Byte>)
    ensures |s| == width
  {
    if width == 0 then [] else ToBigEndian(v / 256, width - 1) + [v % 256]
  }

  lemma {:induction false} BigEndianOf(v: nat, width: nat)
    requires v < Pow256(width)
    ensures BigEndian(ToBigEndian(v, width)) == v
  {
    if width > 0 {
      BigEndianOf(v / 256, width - 1);
      var s := ToBigEndian(v, width);
      assert s[..|s| - 1] == ToBigEndian(v / 256, width - 1);
    }
  }

  lemma {:induction false} ToBigEndianOf(s: seq<Byte>)
    ensures ToBigEndian(BigEndian(s), |s|) == s
  {
    if |s| > 0 {
      ToBigEndianOf(s[..|s| - 1]);
      assert s == s[..|s| - 1] + [s[|s| - 1]];
    }
  }

  lemma Pow256Word()
    ensures Pow256(8) == 0x1_0000000000000000
  {
    assert Pow256(4) == 0x1_0000_0000;
    Pow256Add(4, 4);
  }
}
