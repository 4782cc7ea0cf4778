/** The precomputed-nonce ECDSA step (src/crypto/Signer.cpp) over the scalar arithmetic. */
module Signing {
  import opened Basics
  import opened Bytes
  import opened Residues
  import opened Words
  import opened Scalar

  type Hash256 = s: seq<Byte> | |s| == 32 witness seq(32, _ => 0)

  lemma {:induction false} FourChunks(be: Hash256)
    ensures BigEndian(be)
            == Compose4(BigEndian(be[24..32]), BigEndian(be[16..24]), BigEndian(be[8..16]), BigEndian(be[..8]))
  {
    Pow256Word();
    BigEndianConcat(be[..8], be[8..16]);
    BigEndianConcat(be[..16], be[16..24]);
    BigEndianConcat(be[..24], be[24..32]);
    assert be[..8] + be[8..16] == be[..16] && be[..16] + be[16..24] == be[..24] && be[..24] + be[24..32] == be;
  }

  /** Big-endian bytes to limbs, without reduction. */
  method FromBytes(be: Hash256) returns (l: Limbs)
    ensures Val(l) == BigEndian(be)
  {
    l := [0, 0, 0, 0];
    for i := 0 to 4
      invariant forall k :: 0 <= k < i ==> l[k] == BigEndian(be[(3 - k) * 8..(3 - k) * 8 + 8])
    {
      var at := (3 - i) * 8;
      var v := LoadWord(be[at..at + 8]);
      l := l[i := v];
    }
    FourChunks(be);
    LowFour(l);
  }

  method LoadWord(be: seq<Byte>) returns (v: U64)
    requires |be| == 8
    ensures v == BigEndian(be)
  {
    v := 0;
    Pow256Word();
    for b := 0 to 8
      invariant v == BigEndian(be[..b])
    {
      assert be[..b + 1][..b] == be[..b];
      BigEndianBound(be[..b + 1]);
      Pow256Add(b + 1, 7 - b);
      ProductBound(Pow256(b + 1), 1, Pow256(b + 1), Pow256(7 - b));
      v := v * 256 + be[b];
    }
    assert be[..8] == be;
  }

  method StoreWord(v: U64) returns (be: seq<Byte>)
    ensures |be| == 8 && BigEndian(be) == v
  {
    be := [];
    var rest: nat := v;
    for b := 8 downto 0
      invariant ToBigEndian(v, 8) == ToBigEndian(rest, b) + be
    {
      be := [rest % 256] + be;
      rest := rest / 256;
    }
    assert ToBigEndian(rest, 0) + be == be;
    Pow256Word();
    BigEndianOf(v, 8);
  }

  /** Limbs to big-endian bytes. */
  method ToBytes(l: Limbs) returns (be: Hash256)
    ensures BigEndian(be) == Val(l) && be == ToBigEndian(Val(l), 32)
  {
    var w3 := StoreWord(l[3]);
    var w2 := StoreWord(l[2]);
    var w1 := StoreWord(l[1]);
    var w0 := StoreWord(l[0]);
    be := w3 + w2 + w1 + w0;
    FourChunks(be);
    assert be[..8] == w3 && be[8..16] == w2 && be[16..24] == w1 && be[24..32] == w0;
    LowFour(l);
    ToBigEndianOf(be);
  }

  /** Everything of a signature that depends on the nonce and the key but not on the message. */
  datatype NonceEntry = NonceEntry(r: Limbs, kInv: Limbs, rd: Limbs, recid: Byte)

  datatype Signature = Signature(r: Hash256, s: Hash256, v: Byte)

  /** The entry belongs to nonce `k` and key `d`; the point's x coordinate is `r`. */
  ghost predicate EntryFor(e: NonceEntry, k: int, d: int) {
    && 0 < k < N
    && Val(e.r) < N
    && Val(e.kInv) == Pow(k, N - 2) % N
    && Val(e.rd) == (Val(e.r) * d) % N
    && e.recid <= 1
  }

  method IsZero(a: Limbs) returns (zero: bool)
    ensures zero <==> Val(a) == 0
  {
    zero := Or(Or(Or(a[0], a[1]), a[2]), a[3]) == 0;
    OrIsZero(a[0], a[1]);
    OrIsZero(Or(a[0], a[1]), a[2]);
    OrIsZero(Or(Or(a[0], a[1]), a[2]), a[3]);
    ZeroValue(a);
  }

  lemma {:induction false} ZeroValue(a: Limbs)
    ensures Val(a) == 0 <==> a[0] == 0 && a[1] == 0 && a[2] == 0 && a[3] == 0
  {
    LowFour(a);
    assert Val(a) == Compose4(a[0], a[1], a[2], a[3]);
  }

  /** The scalar part of nonce production: `k` comes from the MAC, `x` and `odd` from the curve point. */
  method ProduceNonce(kBytes: Hash256, xBytes: Hash256, odd: bool, d: Limbs) returns (out: Option<NonceEntry>)
    ensures out.Some? <==> 0 < BigEndian(kBytes) < N && BigEndian(xBytes) < N
    ensures out.Some? ==> EntryFor(out.value, BigEndian(kBytes), Val(d)) && Val(out.value.r) == BigEndian(xBytes)
    ensures out.Some? ==> (out.value.recid == 1 <==> odd)
  {
    OrderLimbs();
    var k := FromBytes(kBytes);
    var zero := IsZero(k);
    var inRange := LessThan(k, ORDER_N);
    if zero || !inRange { return None; }
    var x := FromBytes(xBytes);
    inRange := LessThan(x, ORDER_N);
    if !inRange { return None; }
    var kInv := InvMod(k);
    var rd := MulMod(x, d);
    out := Some(NonceEntry(x, kInv, rd, if odd then 1 else 0));
  }

  /** For a prime order, `invMod` inverts every scalar that is not a multiple of it. */
  method Invert(a: Limbs) returns (inverse: Limbs)
    ensures Prime(N) && Val(a) % N != 0 ==> (Val(a) * Val(inverse)) % N == 1
  {
    inverse := InvMod(a);
    if Prime(N) && Val(a) % N != 0 { InverseByPower(Val(a), N); }
  }

  /** s = k⁻¹·t satisfies s·k ≡ t, and vanishes only when t does. */
  lemma {:induction false} SigningEquation(k: int, inv: int, t: int, n: int)
    requires Prime(n) && k % n != 0 && inv == Pow(k, n - 2) % n
    ensures (((inv * t) % n) * k) % n == t % n
    ensures (inv * t) % n == 0 <==> t % n == 0
  {
    InverseByPower(k, n);
    Unravel(k, inv, t, n);
    ZeroTogether(inv, t, k, n);
  }

  lemma {:induction false} ZeroTogether(inv: int, t: int, k: int, n: int)
    requires n > 0 && (((inv * t) % n) * k) % n == t % n
    ensures (inv * t) % n == 0 <==> t % n == 0
  {
    ReduceRight(inv, t, n);
    if t % n == 0 { assert inv * (t % n) == 0; }
  }

  lemma {:induction false} Unravel(k: int, inv: int, t: int, n: int)
    requires n > 1 && (k * inv) % n == 1
    ensures (((inv * t) % n) * k) % n == t % n
  {
    ModMulLeft(inv * t, k, n);
    assert (inv * t) * k == (k * inv) * t;
    ModMulLeft(k * inv, t, n);
  }

  /** The value the signature must carry: z + r·d. */
  ghost function Target(digest: Hash256, r: int, d: int): int { BigEndian(digest) + r * d }

  lemma {:induction false} SumResidue(z: int, x: int, n: int)
    requires n > 0
    ensures (z % n + x % n) % n == (z + x) % n
  {
    assert z + x == (z % n + x % n) + (z / n + x / n) * n;
    ModAddMultiple(z % n + x % n, z / n + x / n, n);
  }

  lemma {:induction false} NegatedResidue(s: int, k: int, n: int)
    requires 0 < s < n
    ensures ((n - s) * k) % n == (-(s * k)) % n
  {
    assert (n - s) * k == -(s * k) + k * n;
    ModAddMultiple(-(s * k), k, n);
  }

  lemma {:induction false} NegCong(x: int, y: int, n: int)
    requires n > 0 && x % n == y % n
    ensures (-x) % n == (-y) % n
  {
    ModSub(x, y, n);
    var q := (x - y) / n;
    assert -y == -x + q * n;
    ModAddMultiple(-x, q, n);
  }

  lemma {:induction false} ModTwice(x: int, n: int)
    requires n > 0
    ensures (x % n) % n == x % n
  {
    DivModUnique(x % n, 0, x % n, n);
  }

  /** For every prime order: s·k ≡ z + x, and s is zero only if the right side is; x stands for r·d. */
  lemma {:induction false} SignLaw(z: int, x: int, k: int, inv: int, t: int, n: int)
    requires Prime(n) && k % n != 0 && inv == Pow(k, n - 2) % n && t == (z % n + x % n) % n
    ensures (((inv * t) % n) * k) % n == (z + x) % n
    ensures (inv * t) % n == 0 <==> (z + x) % n == 0
  {
    SumResidue(z, x, n);
    ModTwice(z + x, n);
    SigningEquation(k, inv, t, n);
  }

  /** s = k⁻¹·(z + r·d) modulo n, before the low-s choice. */
  method SignScalar(e: NonceEntry, digest: Hash256, ghost k: int, ghost d: int) returns (s: Limbs)
    requires EntryFor(e, k, d)
    ensures Val(s) < N
    ensures Prime(N) ==> (Val(s) * k) % N == Target(digest, Val(e.r), d) % N
    ensures Prime(N) ==> (Val(s) == 0 <==> Target(digest, Val(e.r), d) % N == 0)
  {
    var h := FromBytes(digest);
    var z := CondSubN(h);
    ghost var r := Val(e.r);
    ghost var t := (BigEndian(digest) % N + (r * d) % N) % N;
    var sum := AddMod(z, e.rd);
    s := MulValues(e.kInv, sum, Pow(k, N - 2) % N, t);
    if Prime(N) {
      ModOnce(k);
      SignLaw(BigEndian(digest), r * d, k, Pow(k, N - 2) % N, t, N);
    }
  }

  /** The online signing step with low-s normalisation; `None` is the fall-back to the deterministic path. */
  method SignDigest(e: NonceEntry, digest: Hash256, ghost k: int, ghost d: int) returns (sig: Option<Signature>)
    requires EntryFor(e, k, d)
    ensures Prime(N) ==> (sig.None? <==> Target(digest, Val(e.r), d) % N == 0)
    ensures sig.Some? ==> BigEndian(sig.value.r) == Val(e.r)
    ensures sig.Some? ==> 1 <= BigEndian(sig.value.s) <= (N - 1) / 2
    ensures sig.Some? && Prime(N) ==>
              var flipped := sig.value.v != 27 + e.recid;
              && sig.value.v == 27 + (if flipped then 1 - e.recid else e.recid)
              && (BigEndian(sig.value.s) * k) % N
                 == (if flipped then -Target(digest, Val(e.r), d) else Target(digest, Val(e.r), d)) % N
  {
    var s := SignScalar(e, digest, k, d);
    var zero := IsZero(s);
    if zero { return None; }
    OrderLimbs();
    var negated, borrow := Sub(ORDER_N, s);
    var high := LessThan(ORDER_HALF, s);
    var low := SelectLimbs(Neg(Flag(high)), negated, s);
    var rBytes := ToBytes(e.r);
    var sBytes := ToBytes(low);
    sig := Some(Signature(rBytes, sBytes, 27 + (if high then 1 - e.recid else e.recid)));
    NegatedResidue(Val(s), k, N);
    if Prime(N) { NegCong(Val(s) * k, Target(digest, Val(e.r), d), N); }
  }
}
