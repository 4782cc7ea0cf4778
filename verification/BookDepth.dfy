/** Taking size from a side of the book: cumulative size, average price and microprice (src/md/OrderBook.cpp). */
module BookDepth {
  import opened Basics
  import opened BookLevels
  import opened Division

  function Total(ls: seq<Level>): int {
    if ls == [] then 0 else Total(ls[..|ls| - 1]) + ls[|ls| - 1].sz
  }

  method CumulativeSize(ls: seq<Level>, levels: nat) returns (total: int)
    ensures total == Total(if levels < |ls| then ls[..levels] else ls)
  {
    var n := if levels < |ls| then levels else |ls|;
    total := 0;
    var i := 0;
    while i < n
      invariant i <= n && total == Total(ls[..i])
    {
      assert ls[..i + 1][..i] == ls[..i];
      total := total + ls[i].sz;
      i := i + 1;
    }
    assert ls[..|ls|] == ls;
  }

  // ── unit by unit ────────────────────────────────────────────────────────────

  /** No negative sizes. */
  ghost predicate Sized(ls: seq<Level>) { forall i :: 0 <= i < |ls| ==> ls[i].sz >= 0 }

  /** The price of the k-th unit a taker gets, best first; zero beyond the depth. */
  function UnitPx(ls: seq<Level>, k: int): int {
    if ls == [] then 0
    else if k >= Total(ls[..|ls| - 1]) then (if k < Total(ls) then ls[|ls| - 1].px else 0)
    else UnitPx(ls[..|ls| - 1], k)
  }

  /** What the first n units cost. */
  function Cost(ls: seq<Level>, n: nat): int {
    if n == 0 then 0 else Cost(ls, n - 1) + UnitPx(ls, n - 1)
  }

  lemma {:induction false} TotalGrows(ls: seq<Level>, i: nat)
    requires Sized(ls) && i <= |ls|
    ensures 0 <= Total(ls[..i]) <= Total(ls)
  {
    if i == |ls| {
      assert ls[..i] == ls;
      if ls != [] { TotalGrows(ls[..|ls| - 1], |ls| - 1); assert ls[..|ls| - 1][..|ls| - 1] == ls[..|ls| - 1]; }
    } else {
      assert ls[..|ls| - 1][..i] == ls[..i];
      TotalGrows(ls[..|ls| - 1], i);
    }
  }

  /** Units between the totals before and after a level are at its price. */
  lemma {:induction false} UnitAt(ls: seq<Level>, i: nat, k: int)
    requires Sized(ls) && i < |ls| && Total(ls[..i]) <= k < Total(ls[..i + 1])
    ensures UnitPx(ls, k) == ls[i].px
  {
    var front := ls[..|ls| - 1];
    if i == |ls| - 1 {
      assert ls[..i + 1] == ls;
    } else {
      assert front[..i] == ls[..i] && front[..i + 1] == ls[..i + 1];
      TotalGrows(front, i + 1);
      UnitAt(front, i, k);
    }
  }

  lemma {:induction false} CostOfLevel(ls: seq<Level>, i: nat, t: nat)
    requires Sized(ls) && i < |ls| && t <= ls[i].sz && 0 <= Total(ls[..i])
    ensures Cost(ls, Total(ls[..i]) + t) == Cost(ls, Total(ls[..i])) + t * ls[i].px
  {
    if t > 0 {
      CostOfLevel(ls, i, t - 1);
      assert ls[..i + 1][..i] == ls[..i];
      UnitAt(ls, i, Total(ls[..i]) + t - 1);
      assert t * ls[i].px == (t - 1) * ls[i].px + ls[i].px;
    }
  }

  // ── average price ───────────────────────────────────────────────────────────

  function Worth(ls: seq<Level>): int {
    if ls == [] then 0 else Worth(ls[..|ls| - 1]) + ls[|ls| - 1].sz * ls[|ls| - 1].px
  }

  /** The levels up to index `i` cover the size. */
  predicate Covers(ls: seq<Level>, sz: int, i: nat) { i < |ls| && Total(ls[..i + 1]) >= sz }

  ghost predicate FirstCovers(ls: seq<Level>, sz: int, i: nat) {
    Covers(ls, sz, i) && forall j: nat :: j < i ==> !Covers(ls, sz, j)
  }

  /** What the size costs: the levels before index `i` whole and the rest at its price. */
  function Swept(ls: seq<Level>, sz: int, i: nat): int
    requires i < |ls|
  {
    Worth(ls[..i]) + (sz - Total(ls[..i])) * ls[i].px
  }

  /** The truncated average over the first levels that cover the size, for any levels. */
  method VwapForSize(ls: seq<Level>, sz: int) returns (px: Option<int>)
    ensures px.Some? <==> sz > 0 && exists i: nat :: Covers(ls, sz, i)
    ensures px.Some? ==> exists i: nat :: FirstCovers(ls, sz, i) && px.value == TruncDiv(Swept(ls, sz, i), sz)
  {
    if sz <= 0 { return None; }
    var remaining, notional := sz, 0;
    var i := 0;
    while i < |ls|
      invariant i <= |ls| && 0 < remaining && sz - remaining == Total(ls[..i]) && notional == Worth(ls[..i])
      invariant forall j: nat :: j < i ==> !Covers(ls, sz, j)
    {
      var take := if remaining < ls[i].sz then remaining else ls[i].sz;
      assert ls[..i + 1][..i] == ls[..i];
      notional := notional + take * ls[i].px;
      remaining := remaining - take;
      if remaining == 0 {
        assert FirstCovers(ls, sz, i) && notional == Swept(ls, sz, i);
        return Some(TruncDiv(notional, sz));
      }
      assert !Covers(ls, sz, i);
      i := i + 1;
    }
    return None;
  }

  lemma {:induction false} CostOfLevels(ls: seq<Level>, i: nat)
    requires Sized(ls) && i <= |ls|
    ensures 0 <= Total(ls[..i]) && Cost(ls, Total(ls[..i])) == Worth(ls[..i])
  {
    if i > 0 {
      assert ls[..i][..i - 1] == ls[..i - 1];
      CostOfLevels(ls, i - 1);
      CostOfLevel(ls, i - 1, ls[i - 1].sz);
    }
  }

  /** With no negative sizes what is swept is the cost unit by unit, and a size is covered up to the whole depth. */
  lemma SweptIsCost(ls: seq<Level>, sz: int, i: nat)
    requires Sized(ls) && sz > 0 && FirstCovers(ls, sz, i)
    ensures Swept(ls, sz, i) == Cost(ls, sz) && sz <= Total(ls)
  {
    CostOfLevels(ls, i);
    TotalGrows(ls, i + 1);
    if i > 0 { assert !Covers(ls, sz, i - 1); }
    assert ls[..i + 1][..i] == ls[..i];
    CostOfLevel(ls, i, sz - Total(ls[..i]));
  }

  lemma DepthCovers(ls: seq<Level>, sz: int)
    requires 0 < sz <= Total(ls)
    ensures Covers(ls, sz, |ls| - 1)
  {
    assert ls[..|ls|] == ls;
  }

  // ── what the average is ─────────────────────────────────────────────────────

  lemma {:induction false} UnitAbove(isBid: bool, ls: seq<Level>, k: int, px: int)
    requires 0 <= k < Total(ls) && forall i :: 0 <= i < |ls| ==> Within(!isBid, ls[i], px)
    ensures if isBid then UnitPx(ls, k) >= px else UnitPx(ls, k) <= px
  {
    var front := ls[..|ls| - 1];
    if k < Total(front) { UnitAbove(isBid, front, k, px); } else { assert Within(!isBid, ls[|ls| - 1], px); }
  }

  /** Later units are never better. */
  lemma {:induction false} UnitsWorsen(isBid: bool, ls: seq<Level>, j: int, k: int)
    requires Sorted(isBid, ls) && Sized(ls) && 0 <= j <= k < Total(ls)
    ensures if isBid then UnitPx(ls, j) >= UnitPx(ls, k) else UnitPx(ls, j) <= UnitPx(ls, k)
  {
    var front, last := ls[..|ls| - 1], ls[|ls| - 1];
    if k < Total(front) {
      UnitsWorsen(isBid, front, j, k);
    } else if j < Total(front) {
      forall i | 0 <= i < |front|
        ensures Within(!isBid, front[i], last.px) { assert Worse(isBid, ls[|ls| - 1], ls[i].px); }
      UnitAbove(isBid, front, j, last.px);
    }
  }

  /** The cost lies between the size at the first unit's price and at the last one's. */
  lemma {:induction false} CostBetween(isBid: bool, ls: seq<Level>, n: nat, k: int)
    requires Sorted(isBid, ls) && Sized(ls) && n <= k + 1 && 0 <= k < Total(ls)
    ensures if isBid then n * UnitPx(ls, k) <= Cost(ls, n) <= n * UnitPx(ls, 0)
            else n * UnitPx(ls, 0) <= Cost(ls, n) <= n * UnitPx(ls, k)
  {
    if n > 0 {
      CostBetween(isBid, ls, n - 1, k);
      UnitsWorsen(isBid, ls, n - 1, k);
      UnitsWorsen(isBid, ls, 0, n - 1);
      Times(n, UnitPx(ls, k));
      Times(n, UnitPx(ls, 0));
    }
  }

  /** The average lies between the best and the worst price touched, so it fits wherever prices fit. */
  lemma AverageBetween(isBid: bool, ls: seq<Level>, sz: int)
    requires Sorted(isBid, ls) && Sized(ls) && 0 < sz <= Total(ls)
    ensures var a, best, worst := TruncDiv(Cost(ls, sz), sz), UnitPx(ls, 0), UnitPx(ls, sz - 1);
            if isBid then worst <= a <= best else best <= a <= worst
  {
    CostBetween(isBid, ls, sz, sz - 1);
    var best, worst := UnitPx(ls, 0), UnitPx(ls, sz - 1);
    TruncBetween(Cost(ls, sz), sz, if isBid then worst else best, if isBid then best else worst);
  }

  lemma AverageStep(isBid: bool, ls: seq<Level>, n: int)
    requires Sorted(isBid, ls) && Sized(ls) && 0 < n < Total(ls)
    ensures var a, b := TruncDiv(Cost(ls, n), n), TruncDiv(Cost(ls, n + 1), n + 1); if isBid then b <= a else a <= b
  {
    var c, u := Cost(ls, n), UnitPx(ls, n);
    CostBetween(isBid, ls, n, n);
    NextAverage(c, u, n);
    if isBid { TruncMonotone(c + u, n + 1, c, n); } else { TruncMonotone(c, n, c + u, n + 1); }
  }

  lemma NextAverage(c: int, u: int, n: int)
    ensures c <= n * u ==> c * (n + 1) <= (c + u) * n
    ensures n * u <= c ==> (c + u) * n <= c * (n + 1)
  {
    assert c * (n + 1) == c * n + c;
    assert (c + u) * n == c * n + n * u;
  }

  /** A larger order never averages better. */
  lemma {:induction false} AverageMonotone(isBid: bool, ls: seq<Level>, m: int, n: int)
    requires Sorted(isBid, ls) && Sized(ls) && 0 < m <= n <= Total(ls)
    ensures var a, b := TruncDiv(Cost(ls, m), m), TruncDiv(Cost(ls, n), n); if isBid then b <= a else a <= b
    decreases n
  {
    if m < n {
      AverageMonotone(isBid, ls, m, n - 1);
      AverageStep(isBid, ls, n - 1);
    }
  }

  // ── microprice ──────────────────────────────────────────────────────────────

  function Microprice(bid: Level, ask: Level): int {
    var total := bid.sz + ask.sz;
    if total == 0 then TruncDiv(bid.px + ask.px, 2) else TruncDiv(bid.px * ask.sz + ask.px * bid.sz, total)
  }

  /** On a valid book the microprice never leaves the spread. */
  lemma MicropriceInSpread(bid: Level, ask: Level)
    requires bid.px < ask.px && bid.sz >= 0 && ask.sz >= 0
    ensures bid.px <= Microprice(bid, ask) <= ask.px
  {
    var total := bid.sz + ask.sz;
    if total == 0 {
      TruncBetween(bid.px + ask.px, 2, bid.px, ask.px);
    } else {
      SpreadBounds(bid.px, ask.px, bid.sz, ask.sz);
      TruncBetween(bid.px * ask.sz + ask.px * bid.sz, total, bid.px, ask.px);
    }
  }

  /** A side with nothing to trade gives the price to itself. */
  lemma MicropriceExtremes(bid: Level, ask: Level)
    ensures bid.sz == 0 < ask.sz ==> Microprice(bid, ask) == bid.px
    ensures ask.sz == 0 < bid.sz ==> Microprice(bid, ask) == ask.px
  {
    if bid.sz == 0 < ask.sz { TruncBetween(bid.px * ask.sz, ask.sz, bid.px, bid.px); }
    if ask.sz == 0 < bid.sz { TruncBetween(ask.px * bid.sz, bid.sz, ask.px, ask.px); }
  }

  /** More size on the bid never lowers the microprice. */
  lemma MicropriceLeans(bid: Level, ask: Level, more: nat)
    requires bid.px < ask.px && bid.sz >= 0 && ask.sz >= 0 && bid.sz + ask.sz > 0
    ensures Microprice(bid, ask) <= Microprice(bid.(sz := bid.sz + more), ask)
  {
    var x, y, v, w := bid.px, ask.px, bid.sz, ask.sz;
    MoreBid(x, y, v, w, more);
    TruncMonotone(x * w + y * v, v + w, x * w + y * (v + more), v + more + w);
  }

  lemma MoreBid(x: int, y: int, v: int, w: int, more: nat)
    requires x <= y && v >= 0 && w >= 0
    ensures (x * w + y * v) * (v + more + w) <= (x * w + y * (v + more)) * (v + w)
  {
    var a, total := x * w + y * v, v + w;
    assert y * (v + more) == y * v + y * more;
    assert a * (total + more) == a * total + a * more;
    assert (a + y * more) * total == a * total + (y * more) * total;
    SpreadBounds(x, y, v, w);
    Weighted(a, total * y, more);
    assert (y * more) * total == more * (total * y);
  }

  lemma SpreadBounds(x: int, y: int, v: int, w: int)
    requires x <= y && v >= 0 && w >= 0
    ensures (v + w) * x <= x * w + y * v <= (v + w) * y
  {
    Weighted(x, y, v);
    Weighted(x, y, w);
    assert (v + w) * x == v * x + w * x;
    assert (v + w) * y == v * y + w * y;
  }
}
