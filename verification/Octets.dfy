/** Bytes as bit-vectors, and the numbers they spell in network order. */
module Octets {
  import opened Basics
  import opened Bytes

  function Num(b: Octet): (n: nat)
    ensures n < 256
  {
    b as int
  }

  /** The byte of value `n`. */
  function Oct(n: nat): (b: Octet)
    requires n < 256
    ensures Num(b) == n
  {
    if n == 0 then 0 else NextByte(Oct(n - 1)); Oct(n - 1) + 1
  }

  lemma NextByte(b: Octet)
    requires Num(b) < 255
    ensures Num(b + 1) == Num(b) + 1
  {}

  function Network(s: seq<Octet>): nat {
    if s == [] then 0 else 256 * Network(s[..|s| - 1]) + Num(s[|s| - 1])
  }

  function ToNetwork(n: nat, width: nat): (s: seq<Octet>)
    ensures |s| == width
  {
    if width == 0 then [] else ToNetwork(n / 256, width - 1) + [Oct(n % 256)]
  }

  lemma {:induction false} NetworkOf(n: nat, width: nat)
    requires n < Pow256(width)
    ensures Network(ToNetwork(n, width)) == n
  {
    if width > 0 {
      NetworkOf(n / 256, width - 1);
        var s := ToNetwork(n, width);
      assert s[..|s| - 1] == ToNetwork(n / 256, width - 1);
    }
  }

  /** Octets of one length with one value are the same. */
  lemma {:induction false} NetworkInjective(s: seq<Octet>, t: seq<Octet>)
    requires |s| == |t| && Network(s) == Network(t)
    ensures s == t
  {
    if s != [] {
      var n := |s| - 1;
      SameNum(s[n], t[n]);
      NetworkInjective(s[..n], t[..n]);
      assert s == s[..n] + [s[n]] && t == t[..n] + [t[n]];
    }
  }

  lemma SameNum(a: Octet, b: Octet)
    ensures Num(a) == Num(b) ==> a == b
  {}
}
