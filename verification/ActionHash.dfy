/** The hash of an action, as src/crypto/Signer.cpp feeds it to the hasher. */
module ActionHash {
  import opened Basics
  import opened Bytes
  import opened Octets
  import opened Sponge
  import opened Keccak
  import A = Actions
  import T = ActionTrees
  import M = MsgPack

  type U64 = n: nat | n < 0x1_0000_0000_0000_0000

  /**
    * The hashed bytes: the packed action, the nonce in eight bytes, a 1 and the vault's address or a 0, and, with an
    * expiry, a 0 and its eight bytes.
    */
  ghost predicate IsHashInput(s: seq<Octet>, packed: seq<Octet>, nonce: nat, vault: Option<seq<Octet>>,
                              expiry: Option<nat>) {
    var k := |packed|;
    var m := k + 9 + (if vault.Some? then |vault.value| else 0);
    && |s| == m + (if expiry.Some? then 9 else 0)
    && s[..k] == packed && Network(s[k..k + 8]) == nonce
    && Num(s[k + 8]) == (if vault.Some? then 1 else 0)
    && (vault.Some? ==> s[k + 9..m] == vault.value)
    && (expiry.Some? ==> Num(s[m]) == 0 && Network(s[m + 1..]) == expiry.value)
  }

  /** The layout leaves no choice. */
  lemma HashInputUnique(s: seq<Octet>, t: seq<Octet>, packed: seq<Octet>, nonce: nat, vault: Option<seq<Octet>>,
                        expiry: Option<nat>)
    requires IsHashInput(s, packed, nonce, vault, expiry) && IsHashInput(t, packed, nonce, vault, expiry)
    ensures s == t
  {
    var k := |packed|;
    var m := k + 9 + (if vault.Some? then |vault.value| else 0);
    NetworkInjective(s[k..k + 8], t[k..k + 8]);
    SameNum(s[k + 8], t[k + 8]);
    assert s[k + 9..m] == t[k + 9..m];
    if expiry.Some? {
      SameNum(s[m], t[m]);
      NetworkInjective(s[m + 1..], t[m + 1..]);
      assert s == s[..k] + s[k..k + 8] + [s[k + 8]] + s[k + 9..m] + [s[m]] + s[m + 1..];
      assert t == t[..k] + t[k..k + 8] + [t[k + 8]] + t[k + 9..m] + [t[m]] + t[m + 1..];
    } else {
      assert s == s[..k] + s[k..k + 8] + [s[k + 8]] + s[k + 9..m];
      assert t == t[..k] + t[k..k + 8] + [t[k + 8]] + t[k + 9..m];
    }
  }

  /** A number in eight bytes, most significant first. */
  method BigEndian64(v: U64) returns (s: seq<Octet>)
    ensures |s| == 8 && Network(s) == v
  {
    s := [];
    var rest: nat := v;
    for i := 0 to 8
      invariant |s| == i && ToNetwork(v, 8) == ToNetwork(rest, 8 - i) + s
    {
      s := [Oct(rest % 256)] + s;
      assert ToNetwork(rest, 8 - i) + s[1..] == ToNetwork(rest / 256, 8 - i - 1) + s;
      rest := rest / 256;
    }
    assert ToNetwork(rest, 0) + s == s;
    Pow256Word();
    NetworkOf(v, 8);
  }

  function VaultBytes(vault: Option<seq<Octet>>): seq<Octet> { if vault.Some? then [1] + vault.value else [0] }

  ghost predicate IsExpiry(last: seq<Octet>, expiry: Option<U64>) {
    if expiry.Some? then |last| == 9 && last[0] == 0 && Network(last[1..]) == expiry.value else last == []
  }

  /** The pieces handed to the hasher, one update each. */
  method Pieces(packed: seq<Octet>, vault: Option<seq<Octet>>, nonce: U64, expiry: Option<U64>)
    returns (updates: seq<seq<Octet>>)
    ensures IsHashInput(Joined(updates), packed, nonce, vault, if expiry.Some? then Some(expiry.value) else None)
  {
    var n := BigEndian64(nonce);
    updates := [packed, n];
    JoinedTwo(packed, n);
    ghost var last := [];
    if vault.Some? {
      JoinedMore(updates, [1], vault.value);
      updates := updates + [[1], vault.value];
    } else {
      JoinedAppend(updates, [0]);
      updates := updates + [[0]];
    }
    if expiry.Some? {
      var e := BigEndian64(expiry.value);
      JoinedMore(updates, [0], e);
      updates := updates + [[0], e];
      last := [0] + e;
    }
    assert Joined(updates) == packed + n + VaultBytes(vault) + last;
    Laid(packed, n, nonce, vault, expiry, last);
  }

  lemma JoinedTwo<T>(a: seq<T>, b: seq<T>)
    ensures Joined([a, b]) == a + b
  {
    JoinedMore<T>([], a, b);
    assert [] + [a, b] == [a, b] && Joined<T>([]) == [];
  }

  lemma JoinedMore<T>(parts: seq<seq<T>>, a: seq<T>, b: seq<T>)
    ensures Joined(parts + [a, b]) == Joined(parts) + (a + b)
  {
    JoinedAppend(parts, a);
    JoinedAppend(parts + [a], b);
    assert parts + [a] + [b] == parts + [a, b];
    assert Joined(parts) + a + b == Joined(parts) + (a + b);
  }

  /** The digest is Keccak-256 of the bytes so laid out. */
  method Hash(packed: seq<Octet>, vault: Option<seq<Octet>>, nonce: U64, expiry: Option<U64>)
    returns (digest: seq<Octet>, ghost input: seq<Octet>)
    ensures IsHashInput(input, packed, nonce, vault, if expiry.Some? then Some(expiry.value) else None)
    ensures digest == Keccak256(input)
  {
    var updates := Pieces(packed, vault, nonce, expiry);
    input := Joined(updates);
    digest := HashAll(updates);
  }

  lemma Laid(packed: seq<Octet>, n: seq<Octet>, nonce: U64, vault: Option<seq<Octet>>, expiry: Option<U64>,
             last: seq<Octet>)
    requires |n| == 8 && Network(n) == nonce && IsExpiry(last, expiry)
    ensures IsHashInput(packed + n + VaultBytes(vault) + last, packed, nonce, vault,
                        if expiry.Some? then Some(expiry.value) else None)
  {
    var s, k, flag := packed + n + VaultBytes(vault) + last, |packed|, VaultBytes(vault);
    var m := k + 9 + (if vault.Some? then |vault.value| else 0);
    assert s[..k] == packed && s[k..k + 8] == n && s[k + 8] == flag[0];
    assert vault.Some? ==> s[k + 9..m] == vault.value;
    assert expiry.Some? ==> s[m] == last[0] && s[m + 1..] == last[1..];
  }

  // ── the same bytes as text ──────────────────────────────────────────────────

  /** The octets and the characters have the same values. */
  predicate Spells(o: seq<Octet>, s: string) { |o| == |s| && forall i :: 0 <= i < |o| ==> Num(o[i]) == s[i] as int }

  lemma {:induction false} SpelledByValue(o: seq<Octet>, n: nat)
    requires Network(o) == n
    ensures Spells(o, M.NetworkText(n, |o|))
  {
    if o != [] {
      var k := |o| - 1;
      SpelledByValue(o[..k], n / 256);
      var s := M.NetworkText(n, |o|);
      assert s[..k] == M.NetworkText(n / 256, k) && s[k] as int == n % 256;
      forall i | 0 <= i < k ensures Num(o[i]) == s[i] as int { assert o[..k][i] == o[i] && s[..k][i] == s[i]; }
    }
  }

  function Numbers(v: seq<Octet>): seq<Byte> { seq(|v|, i requires 0 <= i < |v| => Num(v[i])) }

  function VaultNumbers(vault: Option<seq<Octet>>): Option<seq<Byte>> {
    if vault.Some? then Some(Numbers(vault.value)) else None
  }

  lemma SpellsConcat(o: seq<Octet>, o': seq<Octet>, s: string, s': string)
    requires Spells(o, s) && Spells(o', s')
    ensures Spells(o + o', s + s')
  {}

  lemma VaultSpelled(vault: Option<seq<Octet>>)
    ensures Spells(VaultBytes(vault), T.VaultPart(VaultNumbers(vault)))
  {
    if vault.Some? {
      assert Spells([1], [M.ByteChar(1)]);
      assert Spells(vault.value, T.AddressBytes(Numbers(vault.value)));
      SpellsConcat([1], vault.value, [M.ByteChar(1)], T.AddressBytes(Numbers(vault.value)));
    }
  }

  lemma ExpirySpelled(last: seq<Octet>, expiry: Option<U64>)
    requires IsExpiry(last, expiry)
    ensures Spells(last, T.ExpiryPart(expiry))
  {
    if expiry.Some? {
      SpelledByValue(last[1..], expiry.value);
      assert Spells([last[0]], [M.ByteChar(0)]) && [last[0]] + last[1..] == last;
      SpellsConcat([last[0]], last[1..], [M.ByteChar(0)], M.NetworkText(expiry.value, 8));
    }
  }

  /** What is hashed for an action is the pre-image that determines it. */
  lemma HashInputIsPreImage(s: seq<Octet>, packed: seq<Octet>, a: A.Action, nonce: U64, vault: Option<seq<Octet>>,
                            expiry: Option<U64>)
    requires Spells(packed, T.PackOf(a))
    requires IsHashInput(s, packed, nonce, vault, if expiry.Some? then Some(expiry.value) else None)
    ensures Spells(s, T.PreImage(a, nonce, VaultNumbers(vault), expiry))
  {
    var n, last := ToNetwork(nonce, 8), if expiry.Some? then [0] + ToNetwork(expiry.value, 8) else [];
    Pow256Word();
    NetworkOf(nonce, 8);
    if expiry.Some? {
      NetworkOf(expiry.value, 8);
      assert last[1..] == ToNetwork(expiry.value, 8);
    }
    Laid(packed, n, nonce, vault, expiry, last);
    HashInputUnique(s, packed + n + VaultBytes(vault) + last, packed, nonce, vault,
                    if expiry.Some? then Some(expiry.value) else None);
    PartsSpelled(packed, n, a, nonce, vault, expiry, last);
  }

  lemma PartsSpelled(packed: seq<Octet>, n: seq<Octet>, a: A.Action, nonce: U64, vault: Option<seq<Octet>>,
                     expiry: Option<U64>, last: seq<Octet>)
    requires Spells(packed, T.PackOf(a)) && |n| == 8 && Network(n) == nonce && IsExpiry(last, expiry)
    ensures Spells(packed + n + VaultBytes(vault) + last, T.PreImage(a, nonce, VaultNumbers(vault), expiry))
  {
    var v := VaultNumbers(vault);
    SpelledByValue(n, nonce);
    VaultSpelled(vault);
    ExpirySpelled(last, expiry);
    SpellsFour(packed, n, VaultBytes(vault), last, T.PackOf(a), M.NetworkText(nonce, 8), T.VaultPart(v),
               T.ExpiryPart(expiry));
  }

  lemma SpellsFour(a: seq<Octet>, b: seq<Octet>, c: seq<Octet>, d: seq<Octet>, s: string, t: string, u: string,
                   v: string)
    requires Spells(a, s) && Spells(b, t) && Spells(c, u) && Spells(d, v)
    ensures Spells(a + b + c + d, s + (t + (u + v)))
  {
    SpellsConcat(c, d, u, v);
    SpellsConcat(b, c + d, t, u + v);
    SpellsConcat(a, b + (c + d), s, t + (u + v));
    assert a + (b + (c + d)) == a + b + c + d;
  }
}
