/** Residues, powers and Fermat's little theorem: the mathematics behind the scalar code. */
module Residues {

  lemma {:induction false} ProductBound(a: int, b: int, x: int, y: int)
    requires 0 <= a <= x && 0 <= b <= y
    ensures 0 <= a * b <= x * y
  {
    assert a * b <= x * b <= x * y;
  }

  lemma {:induction false} DivModUnique(x: int, q: int, r: int, d: int)
    requires d > 0 && x == q * d + r && 0 <= r < d
    ensures x / d == q && x % d == r
  {
    var q', r' := x / d, x % d;
    assert x == q' * d + r';
    assert (q - q') * d == r' - r && (q' - q) * d == r - r';
    if q - q' >= 1 { ProductBound(1, d, q - q', d); }
    if q' - q >= 1 { ProductBound(1, d, q' - q, d); }
  }

  lemma {:induction false} ModAddMultiple(x: int, k: int, m: int)
    requires m > 0
    ensures (x + k * m) % m == x % m
  {
    var q, r := x / m, x % m;
    assert x + k * m == (q + k) * m + r;
    DivModUnique(x + k * m, q + k, r, m);
  }

  /** A product may be reduced factor by factor. */
  lemma {:induction false} ModMulLeft(x: int, y: int, m: int)
    requires m > 0
    ensures ((x % m) * y) % m == (x * y) % m
  {
    var q, r := x / m, x % m;
    assert x == q * m + r;
    assert x * y == r * y + (q * y) * m;
    ModAddMultiple(r * y, q * y, m);
  }

  lemma {:induction false} ModMul(x: int, y: int, m: int)
    requires m > 0
    ensures ((x % m) * (y % m)) % m == (x * y) % m
  {
    ModMulLeft(x, y, m);
    ModMulLeft(y, x % m, m);
    assert (x % m) * y == y * (x % m) && (y % m) * (x % m) == (x % m) * (y % m);
  }

  lemma {:induction false} ModSub(x: int, y: int, m: int)
    requires m > 0
    ensures x % m == y % m <==> (x - y) % m == 0
  {
    var q, r := y / m, y % m;
    if x % m == y % m {
      assert x - y == (x / m - q) * m + 0;
      DivModUnique(x - y, x / m - q, 0, m);
    }
    if (x - y) % m == 0 {
      var k := (x - y) / m;
      assert x == (q + k) * m + r;
      DivModUnique(x, q + k, r, m);
    }
  }

  ghost function Pow(b: int, e: nat): int {
    if e == 0 then 1 else b * Pow(b, e - 1)
  }

  lemma PowZero(b: int, m: int)
    requires m > 1
    ensures Pow(b, 0) % m == 1
  {}

  lemma {:induction false} PowAdd(b: int, i: nat, j: nat)
    ensures Pow(b, i + j) == Pow(b, i) * Pow(b, j)
  {
    if i > 0 {
      PowAdd(b, i - 1, j);
      assert b * (Pow(b, i - 1) * Pow(b, j)) == (b * Pow(b, i - 1)) * Pow(b, j);
    }
  }

  /** Multiplying residues adds exponents. */
  lemma {:induction false} PowModAdd(b: int, i: nat, j: nat, m: int)
    requires m > 0
    ensures ((Pow(b, i) % m) * (Pow(b, j) % m)) % m == Pow(b, i + j) % m
  {
    ModMul(Pow(b, i), Pow(b, j), m);
    PowAdd(b, i, j);
  }

  lemma {:induction false} ReduceRight(a: int, q: int, p: int)
    requires p > 0
    ensures (a * (q % p)) % p == (a * q) % p
  {
    ModMulLeft(q, a, p);
    assert q * a == a * q && (q % p) * a == a * (q % p);
  }

  lemma {:induction false} SameFactor(a: int, x: int, y: int, m: int)
    requires m > 0 && x % m == y % m
    ensures ((a % m) * x) % m == (a * y) % m
  {
    ModMulLeft(a, x, m);
    ReduceRight(a, x, m);
    ReduceRight(a, y, m);
  }

  /** Reducing the base first does not change the residue of a power. */
  lemma {:induction false} PowBase(a: int, e: nat, m: int)
    requires m > 0
    ensures Pow(a % m, e) % m == Pow(a, e) % m
  {
    if e > 0 {
      PowBase(a, e - 1, m);
      SameFactor(a, Pow(a % m, e - 1), Pow(a, e - 1), m);
    }
  }

  lemma {:induction false} DivDiv(x: nat, u: int, v: int)
    requires u > 0 && v > 0
    ensures u * v > 0 && x / (u * v) == (x / u) / v
  {
    var q, r := x / u, x % u;
    var q', r' := q / v, q % v;
    Recombine(x, u, v, q', r', r);
    RemainderBound(r', r, u, v);
    ProductBound(1, 1, u, v);
    DivModUnique(x, q', r' * u + r, u * v);
  }

  lemma Recombine(x: int, u: int, v: int, q: int, s: int, r: int)
    requires x == (q * v + s) * u + r
    ensures x == q * (u * v) + (s * u + r)
  {}

  lemma RemainderBound(s: int, r: int, u: int, v: int)
    requires 0 <= s < v && 0 <= r < u
    ensures 0 <= s * u + r < u * v
  {
    ProductBound(0, u, s, u);
    ProductBound(s, u, v - 1, u);
    assert (v - 1) * u == u * v - u;
  }

  ghost predicate Prime(p: int) {
    p > 1 && forall d :: 1 < d < p ==> p % d != 0
  }

  /** Euclid's lemma, by descent on the factor: a prime dividing a product divides one of its factors. */
  lemma {:induction false} Euclid(a: int, b: int, p: int)
    requires Prime(p) && 0 < a < p && (a * b) % p == 0
    ensures b % p == 0
    decreases a
  {
    if a > 1 {
      var q, r := p / a, p % a;
      var k := (a * b) / p;
      assert r * b == p * b - q * (a * b) && a * b == k * p;
      assert r * b == (b - q * k) * p + 0;
      DivModUnique(r * b, b - q * k, 0, p);
      Euclid(r, b, p);
    }
  }

  ghost function Fact(k: nat): int {
    if k == 0 then 1 else k * Fact(k - 1)
  }

  lemma {:induction false} FactCoprime(k: nat, p: int)
    requires Prime(p) && k < p
    ensures Fact(k) % p != 0
  {
    if k > 0 {
      FactCoprime(k - 1, p);
      if Fact(k) % p == 0 { Euclid(k, Fact(k - 1), p); }
    }
  }

  ghost function SetProduct(s: set<nat>): int {
    if |s| == 0 then 1 else var x :| x in s; x * SetProduct(s - {x})
  }

  lemma {:induction false} SetProductTake(s: set<nat>, x: nat)
    requires x in s
    ensures SetProduct(s) == x * SetProduct(s - {x})
    decreases |s|
  {
    var y :| y in s && SetProduct(s) == y * SetProduct(s - {y});
    if y != x {
      SetProductTake(s - {y}, x);
      SetProductTake(s - {x}, y);
      assert s - {y} - {x} == s - {x} - {y};
      SwapFactors(x, y, SetProduct(s - {x} - {y}));
    }
  }

  lemma {:induction false} SwapFactors(x: int, y: int, z: int)
    ensures x * (y * z) == y * (x * z)
  {}

  lemma {:induction false} ProductInsert(s: set<nat>, x: nat)
    requires x !in s
    ensures SetProduct(s + {x}) == x * SetProduct(s) && |s + {x}| == |s| + 1
  {
    SetProductTake(s + {x}, x);
    assert s + {x} - {x} == s;
  }

  ghost function UpTo(k: nat): set<nat> {
    if k == 0 then {} else UpTo(k - 1) + {k}
  }

  lemma {:induction false} InUpTo(k: nat, i: nat)
    ensures i in UpTo(k) <==> 1 <= i <= k
  {
    if k > 0 { InUpTo(k - 1, i); }
  }

  lemma {:induction false} UpToProduct(k: nat)
    ensures SetProduct(UpTo(k)) == Fact(k) && |UpTo(k)| == k
  {
    if k > 0 {
      UpToProduct(k - 1);
      InUpTo(k - 1, k);
      ProductInsert(UpTo(k - 1), k);
    }
  }

  /** The residues a·1, …, a·k modulo p. */
  ghost function Multiples(a: int, k: nat, p: int): set<nat>
    requires p > 0
  {
    if k == 0 then {} else Multiples(a, k - 1, p) + {(a * k) % p}
  }

  lemma {:induction false} DistinctMultiples(a: int, i: int, k: int, p: int)
    requires Prime(p) && 0 < a < p && 0 <= i < k < p
    ensures (a * i) % p != (a * k) % p
  {
    if (a * i) % p == (a * k) % p {
      ModSub(a * k, a * i, p);
      assert a * k - a * i == a * (k - i);
      Euclid(a, k - i, p);
      DivModUnique(k - i, 0, k - i, p);
    }
  }

  lemma {:induction false} MultipleIsNew(a: int, j: nat, k: nat, p: int)
    requires Prime(p) && 0 < a < p && j < k < p
    ensures (a * k) % p !in Multiples(a, j, p)
  {
    if j > 0 {
      MultipleIsNew(a, j - 1, k, p);
      DistinctMultiples(a, j, k, p);
    }
  }

  lemma {:induction false} MultiplesPermute(a: int, k: nat, p: int)
    requires Prime(p) && 0 < a < p && k < p
    ensures |Multiples(a, k, p)| == k && Multiples(a, k, p) <= UpTo(p - 1)
  {
    if k > 0 {
      MultiplesPermute(a, k - 1, p);
      MultipleIsNew(a, k - 1, k, p);
      assert (a * k) % p in UpTo(p - 1) by { NonzeroMultiple(a, k, p); InUpTo(p - 1, (a * k) % p); }
    }
  }

  lemma {:induction false} NonzeroMultiple(a: int, k: nat, p: int)
    requires Prime(p) && 0 < a < p && 0 < k < p
    ensures 0 < (a * k) % p < p
  {
    if (a * k) % p == 0 {
      Euclid(a, k, p);
      DivModUnique(k, 0, k, p);
    }
  }

  lemma {:induction false} ModStep(x: int, t: int, u: int, p: int)
    requires p > 0 && t % p == u % p
    ensures ((x % p) * t) % p == (u * x) % p
  {
    ModMulLeft(x, t, p);
    ModMulLeft(t, x, p);
    ModMulLeft(u, x, p);
    assert x * t == t * x;
  }

  lemma {:induction false} MultiplesProduct(a: int, k: nat, p: int)
    requires Prime(p) && 0 < a < p && k < p
    ensures SetProduct(Multiples(a, k, p)) % p == (Pow(a, k) * Fact(k)) % p
  {
    if k > 0 {
      MultiplesProduct(a, k - 1, p);
      MultipleIsNew(a, k - 1, k, p);
      ProductInsert(Multiples(a, k - 1, p), (a * k) % p);
      ModStep(a * k, SetProduct(Multiples(a, k - 1, p)), Pow(a, k - 1) * Fact(k - 1), p);
      Regroup(Pow(a, k - 1), Fact(k - 1), a, k);
    }
  }

  lemma {:induction false} Regroup(u: int, v: int, x: int, y: int)
    ensures (u * v) * (x * y) == (x * u) * (y * v)
  {
    assert (u * v) * (x * y) == ((u * v) * x) * y == (x * u) * v * y;
  }

  lemma {:induction false} SameSize(s: set<nat>, t: set<nat>)
    requires s <= t && |s| == |t|
    ensures s == t
  {
    assert |t - s| == |t| - |s| == 0 by { assert s + (t - s) == t; }
  }

  /** Fermat's little theorem. */
  lemma {:induction false} Fermat(a: int, p: int)
    requires Prime(p) && 0 < a < p
    ensures Pow(a, p - 1) % p == 1
  {
    MultiplesPermute(a, p - 1, p);
    MultiplesProduct(a, p - 1, p);
    UpToProduct(p - 1);
    SameSize(Multiples(a, p - 1, p), UpTo(p - 1));
    FactCoprime(p - 1, p);
    CancelFactor(Fact(p - 1), Pow(a, p - 1), p);
  }

  lemma {:induction false} CancelFactor(f: int, w: int, p: int)
    requires Prime(p) && f % p != 0 && (w * f) % p == f % p
    ensures w % p == 1
  {
    ModSub(w * f, f, p);
    assert w * f - f == f * (w - 1);
    ModMulLeft(f, w - 1, p);
    Euclid(f % p, w - 1, p);
    ModSub(w, 1, p);
    DivModUnique(1, 0, 1, p);
  }

  /** For a prime modulus, raising to p - 2 inverts every residue that is not zero. */
  lemma {:induction false} InverseByPower(a: int, p: int)
    requires Prime(p) && a % p != 0
    ensures (a * (Pow(a, p - 2) % p)) % p == 1
  {
    var q := Pow(a, p - 2);
    ReduceRight(a, q, p);
    assert Pow(a, p - 1) == a * q;
    PowBase(a, p - 1, p);
    Fermat(a % p, p);
  }
}
