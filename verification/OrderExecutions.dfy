/** Executions credited to an order: they name its current exchange id and count once. */
module OrderExecutions {
  import opened Basics
  import opened OrderTable
  import opened OrderSafety
  import opened OrderGenerations

  lemma FillKnownOid(tb: Table, c: Cloid, f: FillMsg)
    requires c in tb.orders && !StaleFill(Get(tb, c), f)
    ensures var oid := Get(tb, c).oid; Get(FillKnown(tb, c, f), c).oid == if f.oid != 0 && oid != 0 then f.oid else oid
  {}

  /** A credited execution names the exchange id the order has after it, unless one of the two was unknown. */
  lemma CreditedFillsAreCurrent(tb: Table, e: Event, c: Cloid)
    requires Credited(tb, e, c) && c in tb.orders
    ensures e.f.oid == 0 || tb.orders[c].oid == 0 || Get(Step(tb, e), c).oid == e.f.oid
    ensures !Opens(tb, e, c) ==> e.f.oid == 0 || tb.orders[c].oid == 0 || e.f.oid == tb.orders[c].oid
  {
    var tb1 := Remember(tb, e.f.tid);
    assert Resolve(tb1, e.f.cloid, e.f.oid) == Some(c) && Get(tb1, c) == Get(tb, c);
    FillKnownOid(tb1, c, e.f);
  }

  // ── the window of remembered trades ─────────────────────────────────────────

  /** `tid` stands `k` places before the newest id. */
  predicate Back(order: seq<nat>, tid: nat, k: nat) { k < |order| && order[|order| - 1 - k] == tid }

  ghost predicate Distinct(order: seq<nat>) { forall i, j :: 0 <= i < j < |order| ==> order[i] != order[j] }

  lemma RememberedIsNewest(order: seq<nat>, tid: nat)
    ensures Back(Remembered(order, tid), tid, 0)
  {}

  /** One more id moves the others a place back, and the one at the far end out. */
  lemma RememberedMovesBack(order: seq<nat>, next: nat, tid: nat, k: nat)
    requires |order| <= MAX_REMEMBERED_TIDS && Back(order, tid, k)
    ensures k + 1 < MAX_REMEMBERED_TIDS ==> Back(Remembered(order, next), tid, k + 1)
    ensures k + 1 >= MAX_REMEMBERED_TIDS && Distinct(order) && next != tid ==> tid !in Remembered(order, next)
  {
    var after := Remembered(order, next);
    if k + 1 < MAX_REMEMBERED_TIDS {
      assert after[|after| - 1 - (k + 1)] == order[|order| - 1 - k];
    } else if Distinct(order) && next != tid {
      assert forall i :: 0 <= i < |after| - 1 ==> after[i] == order[i + 1];
    }
  }

  lemma OthersStayOut(order: seq<nat>, next: nat, tid: nat)
    requires tid !in order && next != tid
    ensures tid !in Remembered(order, next)
  {
    assert forall x :: x in Remembered(order, next) ==> x in order || x == next;
  }

  lemma {:induction false} PlacingRemembersNothing(tb: Table, requests: seq<(Cloid, int, int)>)
    ensures PlaceAll(tb, requests).seenTidOrder == tb.seenTidOrder
    decreases requests
  {
    if requests != [] {
      var (k, px, sz) := requests[0];
      PlacingRemembersNothing(Put(tb, k, Get(tb, k).(px := px, origSz := sz, state := PendingNew)), requests[1..]);
    }
  }

  lemma FillRemembers(tb: Table, f: FillMsg, historical: bool)
    ensures OnUserFill(tb, f, historical).seenTidOrder
         == if f.tid in tb.seenTids then tb.seenTidOrder else Remembered(tb.seenTidOrder, f.tid)
  {}

  lemma UpdatesRememberNothing(tb: Table, u: OrderUpdate)
    ensures OnOrderUpdate(tb, u).seenTidOrder == tb.seenTidOrder
  {}

  lemma ResultsRememberNothing(tb: Table, c: Cloid, kind: ActionKind, outcome: OrderTable.Outcome,
                      target: Option<(int, int)>)
    ensures OnActionResult(tb, c, kind, outcome, target).seenTidOrder == tb.seenTidOrder
  {}

  lemma ListingsRememberNothing(tb: Table, open: OpenOrder)
    ensures OnListed(tb, open).seenTidOrder == tb.seenTidOrder
  {}

  lemma ProbesRememberNothing(tb: Table, c: Cloid, answer: ProbeAnswer)
    ensures OnProbe(tb, c, answer).seenTidOrder == tb.seenTidOrder
  {}

  lemma OthersRememberNothing(tb: Table, e: Event)
    requires !e.Traded? && !e.Placed?
    ensures Step(tb, e).seenTidOrder == tb.seenTidOrder
  {
    match e
    case Updated(u) => UpdatesRememberNothing(tb, u);
    case ActionResult(c, kind, outcome, target) => ResultsRememberNothing(tb, c, kind, outcome, target);
    case Listed(open) => ListingsRememberNothing(tb, open);
    case Probed(c, answer) => ProbesRememberNothing(tb, c, answer);
    case _ =>
  }

  /** Only a fill with an unseen trade id is remembered. */
  lemma StepRemembers(tb: Table, e: Event)
    ensures Step(tb, e).seenTidOrder
         == if e.Traded? && e.f.tid !in tb.seenTids then Remembered(tb.seenTidOrder, e.f.tid) else tb.seenTidOrder
  {
    if e.Traded? {
      FillRemembers(tb, e.f, e.historical);
    } else if e.Placed? {
      PlacingRemembersNothing(tb, e.requests);
    } else {
      OthersRememberNothing(tb, e);
    }
  }

  ghost function OrderAt(es: seq<Event>, i: nat): seq<nat>
    requires i <= |es|
  {
    Run(EMPTY, es[..i]).seenTidOrder
  }

  /** Event `k` brings a trade id that is not remembered. */
  ghost predicate Enters(es: seq<Event>, k: nat)
    requires k < |es|
  {
    es[k].Traded? && es[k].f.tid !in Run(EMPTY, es[..k]).seenTids
  }

  /** How many trade ids enter the window from event `lo` on, before event `hi`. */
  ghost function Entered(es: seq<Event>, lo: nat, hi: nat): nat
    requires lo <= hi <= |es|
  {
    if lo == hi then 0 else Entered(es, lo, hi - 1) + if Enters(es, hi - 1) then 1 else 0
  }

  lemma WindowStep(es: seq<Event>, i: nat)
    requires i < |es|
    ensures |OrderAt(es, i)| <= MAX_REMEMBERED_TIDS && Distinct(OrderAt(es, i))
    ensures OrderAt(es, i + 1) == if Enters(es, i) then Remembered(OrderAt(es, i), es[i].f.tid) else OrderAt(es, i)
  {
    assert es[..i + 1][..i] == es[..i];
    StepRemembers(Run(EMPTY, es[..i]), es[i]);
    RunKeepsSafe(es[..i]);
  }

  /**
    * Where the trade id of event `i` stands before event `k`, if it does not come again: in the window, or out of it.
    */
  ghost predicate Stands(es: seq<Event>, i: nat, k: nat)
    requires i < k <= |es| && es[i].Traded?
  {
    var n := Entered(es, i + 1, k);
    if n < MAX_REMEMBERED_TIDS then Back(OrderAt(es, k), es[i].f.tid, n) else es[i].f.tid !in OrderAt(es, k)
  }

  /** Fewer ids entered after event `i` and before event `k` than the window holds. */
  ghost predicate InWindow(es: seq<Event>, i: nat, k: nat)
    requires i < k <= |es|
  {
    Entered(es, i + 1, k) < MAX_REMEMBERED_TIDS
  }

  /** No event strictly between `i` and `j` repeats the trade id of event `i` after it has left the window. */
  ghost predicate NotAgain(es: seq<Event>, i: nat, j: nat)
    requires i < j <= |es| && es[i].Traded?
  {
    forall k: nat :: i < k < j ==> InWindow(es, i, k) || !es[k].Traded? || es[k].f.tid != es[i].f.tid
  }

  lemma StandsFirst(es: seq<Event>, i: nat)
    requires i < |es| && Enters(es, i)
    ensures Stands(es, i, i + 1)
  {
    WindowStep(es, i);
    RememberedIsNewest(OrderAt(es, i), es[i].f.tid);
  }

  lemma StandsNext(es: seq<Event>, i: nat, k: nat)
    requires i < k < |es| && es[i].Traded? && Stands(es, i, k)
    requires InWindow(es, i, k) || !es[k].Traded? || es[k].f.tid != es[i].f.tid
    ensures Stands(es, i, k + 1)
  {
    WindowStep(es, k);
    var order, tid, n := OrderAt(es, k), es[i].f.tid, Entered(es, i + 1, k);
    if Enters(es, k) {
      if n < MAX_REMEMBERED_TIDS {
        InWindowIsSeen(es, k, tid, n);
        RememberedMovesBack(order, es[k].f.tid, tid, n);
      } else {
        OthersStayOut(order, es[k].f.tid, tid);
      }
    }
  }

  lemma InWindowIsSeen(es: seq<Event>, k: nat, tid: nat, n: nat)
    requires k <= |es| && Back(OrderAt(es, k), tid, n)
    ensures tid in Run(EMPTY, es[..k]).seenTids
  {
    RunKeepsSafe(es[..k]);
  }

  lemma {:induction false} StandsThrough(es: seq<Event>, i: nat, j: nat)
    requires i < j <= |es| && Enters(es, i) && NotAgain(es, i, j)
    ensures Stands(es, i, j)
  {
    if j == i + 1 {
      StandsFirst(es, i);
    } else {
      StandsThrough(es, i, j - 1);
      StandsNext(es, i, j - 1);
    }
  }

  /** A trade id is remembered exactly as long as fewer than 20,000 others have entered the window after it. */
  lemma RememberedExactly(es: seq<Event>, i: nat, j: nat)
    requires i < j <= |es| && Enters(es, i) && NotAgain(es, i, j)
    ensures es[i].f.tid in Run(EMPTY, es[..j]).seenTids <==> InWindow(es, i, j)
  {
    StandsThrough(es, i, j);
    RunKeepsSafe(es[..j]);
    if InWindow(es, i, j) { InWindowIsSeen(es, j, es[i].f.tid, Entered(es, i + 1, j)); }
  }

  lemma {:induction false} EnteredGrows(es: seq<Event>, lo: nat, mid: nat, hi: nat)
    requires lo <= mid <= hi <= |es|
    ensures Entered(es, lo, mid) <= Entered(es, lo, hi)
  {
    if mid < hi { EnteredGrows(es, lo, mid, hi - 1); }
  }

  /** Within the window a trade is credited once: a repetition of its id credits nothing, to any order. */
  lemma ExecutionsCountOnce(es: seq<Event>, i: nat, j: nat, c: Cloid, d: Cloid)
    requires i < j < |es| && Credited(Run(EMPTY, es[..i]), es[i], c)
    requires es[j].Traded? && es[j].f.tid == es[i].f.tid && InWindow(es, i, j)
    ensures !Credited(Run(EMPTY, es[..j]), es[j], d)
  {
    forall k: nat | i < k < j ensures InWindow(es, i, k) { EnteredGrows(es, i + 1, k, j); }
    RememberedExactly(es, i, j);
  }

  /** Past the window it is credited again: the repetition counts wherever a first delivery would. */
  lemma ForgottenExecutionsCountAgain(es: seq<Event>, i: nat, j: nat, c: Cloid)
    requires i < j < |es| && Enters(es, i) && NotAgain(es, i, j) && !InWindow(es, i, j)
    requires es[j].Traded? && es[j].f.tid == es[i].f.tid && !es[j].historical
    ensures var tb, f := Run(EMPTY, es[..j]), es[j].f;
            Credited(tb, es[j], c) <==> Resolve(tb, f.cloid, f.oid) == Some(c) && !StaleFill(Get(tb, c), f)
  {
    RememberedExactly(es, i, j);
  }

  // ── a trade counted twice ───────────────────────────────────────────────────

  const MINE: Cloid := Cloid(0, 0)

  function Trade(k: nat): Event { Traded(FillMsg(Some(MINE), 0, k, 1, 1), false) }

  /** An order of size `sz` is placed and trades 0 to n - 1 arrive, each for one unit. */
  function Trades(sz: nat, n: nat): (es: seq<Event>)
    ensures |es| == n + 1
  {
    if n == 0 then [Placed([(MINE, 1, sz)])] else Trades(sz, n - 1) + [Trade(n - 1)]
  }

  lemma {:induction false} TradesPrefix(sz: nat, n: nat, k: nat)
    requires k <= n
    ensures Trades(sz, n)[..k + 1] == Trades(sz, k)
    ensures k < n ==> Trades(sz, n)[k + 1] == Trade(k)
  {
    if k < n {
      TradesPrefix(sz, n - 1, k);
      assert Trades(sz, n)[..k + 1] == Trades(sz, n - 1)[..k + 1];
    } else {
      assert Trades(sz, n)[..n + 1] == Trades(sz, n);
    }
  }

  /** After n trades the ids seen are below n and the order holds n units. */
  ghost predicate Counted(tb: Table, n: nat) {
    && MINE in tb.orders && tb.orders[MINE].oid == 0 && tb.orders[MINE].fillSum == n
    && forall t :: t in tb.seenTids ==> t < n
  }

  lemma TradeCredits(tb: Table, k: nat)
    requires MINE in tb.orders && tb.orders[MINE].oid == 0 && k !in tb.seenTids
    ensures Credited(tb, Trade(k), MINE)
    ensures var tb' := Step(tb, Trade(k));
            && MINE in tb'.orders && tb'.orders[MINE].oid == 0
            && tb'.orders[MINE].fillSum == tb.orders[MINE].fillSum + 1
            && tb'.seenTids <= tb.seenTids + {k}
  {}

  lemma {:induction false} TradesCounted(sz: nat, n: nat)
    ensures Counted(Run(EMPTY, Trades(sz, n)), n)
  {
    var es := Trades(sz, n);
    if n == 0 {
      assert es[..0] == [];
      PlacesOne(EMPTY, MINE, 1, sz);
    } else {
      TradesCounted(sz, n - 1);
      assert es[..n] == Trades(sz, n - 1);
      TradeCredits(Run(EMPTY, Trades(sz, n - 1)), n - 1);
    }
  }

  lemma TradesEnter(sz: nat, es: seq<Event>, n: nat, k: nat)
    requires k < n && Trades(sz, n) <= es
    ensures Enters(es, k + 1) && es[k + 1] == Trade(k)
  {
    TradesPrefix(sz, n, k);
    TradesCounted(sz, k);
    assert es[..k + 1] == Trades(sz, n)[..k + 1];
  }

  lemma {:induction false} TradesEntered(sz: nat, es: seq<Event>, n: nat, k: nat)
    requires 0 < k <= n && Trades(sz, n) <= es
    ensures Entered(es, 2, k + 1) == k - 1
  {
    if k > 1 {
      TradesEntered(sz, es, n, k - 1);
      TradesEnter(sz, es, n, k - 1);
    }
  }

  lemma FirstTradeLeaves(sz: nat, es: seq<Event>, n: nat)
    requires n > MAX_REMEMBERED_TIDS && Trades(sz, n) <= es
    ensures Enters(es, 1) && es[1] == Trade(0) && NotAgain(es, 1, n + 1) && !InWindow(es, 1, n + 1)
  {
    TradesEnter(sz, es, n, 0);
    TradesEntered(sz, es, n, n);
    forall k: nat | 1 < k < n + 1 ensures !es[k].Traded? || es[k].f.tid != 0 { TradesEnter(sz, es, n, k - 1); }
  }

  lemma FirstTradeCredits(sz: nat, n: nat)
    requires n > 0
    ensures Credited(Run(EMPTY, Trades(sz, n)[..1]), Trade(0), MINE)
  {
    TradesPrefix(sz, n, 0);
    TradesCounted(sz, 0);
    TradeCredits(Run(EMPTY, Trades(sz, 0)), 0);
  }

  lemma LastTradeCredits(sz: nat, n: nat)
    requires n > MAX_REMEMBERED_TIDS
    ensures var tb := Run(EMPTY, Trades(sz, n));
            && Credited(tb, Trade(0), MINE)
            && MINE in Step(tb, Trade(0)).orders && Step(tb, Trade(0)).orders[MINE].fillSum == n + 1
  {
    FirstTradeForgotten(sz, n);
    TradesCounted(sz, n);
    TradeCredits(Run(EMPTY, Trades(sz, n)), 0);
  }

  lemma FirstTradeForgotten(sz: nat, n: nat)
    requires n > MAX_REMEMBERED_TIDS
    ensures 0 !in Run(EMPTY, Trades(sz, n)).seenTids
  {
    var es := Trades(sz, n);
    FirstTradeLeaves(sz, es, n);
    RememberedExactly(es, 1, n + 1);
    assert es[..n + 1] == es;
  }

  /** More trades than the window holds, then the first one again: it is credited twice. */
  lemma CreditedTwice(sz: nat, n: nat)
    requires n > MAX_REMEMBERED_TIDS
    ensures var es := Trades(sz, n) + [Trade(0)];
            && Enters(es, 1) && es[1] == es[n + 1] == Trade(0) && NotAgain(es, 1, n + 1) && !InWindow(es, 1, n + 1)
            && Credited(Run(EMPTY, es[..1]), es[1], MINE) && Credited(Run(EMPTY, es[..n + 1]), es[n + 1], MINE)
            && MINE in Run(EMPTY, es).orders && Run(EMPTY, es).orders[MINE].fillSum == n + 1
  {
    var es := Trades(sz, n) + [Trade(0)];
    FirstTradeLeaves(sz, es, n);
    FirstTradeCredits(sz, n);
    LastTradeCredits(sz, n);
    assert es[..1] == Trades(sz, n)[..1] && es[..n + 1] == Trades(sz, n);
  }
}
