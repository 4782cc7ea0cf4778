/** What each event makes of the state of the order it names. */
module OrderStates {
  import opened Basics
  import opened OrderTable
  import opened OrderSafety
  import opened OrderLifecycle
  import opened Division

  // ── results of actions ──────────────────────────────────────────────────────

  /** The venue's refusal of an order: an error status, one error for the batch, or a call that failed for good. */
  predicate Refused(outcome: Outcome) {
    match outcome
    case Status(ack) => ack.kind.AckError?
    case BatchError => true
    case CallFailed(transport) => !transport
    case NoStatus => false
  }

  /** A successful cancel leaves no live order; any other result of a cancel keeps the state; either ends the wait. */
  lemma CancelResult(tb: Table, c: Cloid, outcome: Outcome, target: Option<(int, int)>)
    requires c in tb.orders && !outcome.NoStatus?
    ensures var tb' := Step(tb, ActionResult(c, CancelAction, outcome, target));
            && c in tb'.orders && !tb'.orders[c].cancelPending
            && (outcome.Status? && outcome.ack.kind.Success? ==>
                  && (!IsTerminal(tb.orders[c].state) ==> tb'.orders[c].state == Canceled)
                  && (IsTerminal(tb.orders[c].state) ==> tb'.orders[c].state == tb.orders[c].state))
            && (!(outcome.Status? && outcome.ack.kind.Success?) ==> tb'.orders[c].state == tb.orders[c].state)
            && tb'.orders[c].(cancelPending := false, state := Open)
              == tb.orders[c].(cancelPending := false, state := Open)
  {}

  /** A refusal rejects exactly an order that nobody has heard of yet, and a lost call decides nothing. */
  lemma RefusedOrder(tb: Table, c: Cloid, outcome: Outcome, target: Option<(int, int)>)
    requires c in tb.orders
    ensures var tb' := Step(tb, ActionResult(c, OrderAction, outcome, target));
            && c in tb'.orders
            && (Refused(outcome) ==>
                  tb'.orders[c] == if tb.orders[c].state != PendingNew then tb.orders[c]
                                   else tb.orders[c].(state := Rejected))
            && (outcome.NoStatus? || (outcome.CallFailed? && outcome.transport) ==> tb'.orders[c] == tb.orders[c])
  {}

  /** Has the order traded before the acknowledgement of its exchange id is applied? */
  function HasTraded(t: Tracked, oid: nat): bool { t.filledSz != 0 && !(oid != 0 && t.oid != 0 && t.oid != oid) }

  /** An accepted order: working if it was pending, filled if the venue says so, and otherwise as it was. */
  lemma AcceptedOrder(tb: Table, c: Cloid, a: Ack, target: Option<(int, int)>)
    requires c in tb.orders && !a.kind.AckError?
    ensures var t, tb' := tb.orders[c], Step(tb, ActionResult(c, OrderAction, Status(a), target));
            && c in tb'.orders
            && tb'.orders[c].state
               == (if a.kind.AckFilled? then Filled
                   else if t.state != PendingNew then t.state
                   else if a.kind.Resting? && HasTraded(t, a.oid) then PartiallyFilled
                   else Open)
            && (a.kind.AckFilled? ==> tb'.orders[c].ackFilledSz == a.totalSz && tb'.orders[c].ackAvgPx == a.avgPx)
  {}

  /** An accepted amendment: new price and size, the old exchange id retired, the wait over. */
  lemma AmendedOrder(tb: Table, c: Cloid, a: Ack, px: int, sz: int)
    requires c in tb.orders && !a.kind.AckError?
    ensures var t, tb' := tb.orders[c], Step(tb, ActionResult(c, ModifyAction, Status(a), Some((px, sz))));
            && c in tb'.orders && tb'.orders[c].px == px && tb'.orders[c].origSz == sz
            && !tb'.orders[c].modifyPending && !tb'.orders[c].canceledDuringModify
            && (a.oid != 0 && t.oid != 0 && a.oid != t.oid ==> t.oid in tb'.orders[c].retired)
            && tb'.orders[c].state
               == (if a.kind.AckFilled? then Filled
                   else if t.state != PendingNew then t.state
                   else if a.kind.Resting? && HasTraded(t, a.oid) then PartiallyFilled
                   else Open)
  {
    var tb1 := Put(tb, c, tb.orders[c].(modifyPending := false));
    AmendedRecord(tb1, c, a.oid, px, sz);
    AckOutcome(AmendedTable(tb1, c, a.oid, Some((px, sz))), c, a);
  }

  lemma RetiredIsKept(t: Tracked, oid: nat)
    ensures oid in Retire(t, oid).retired
  {
    var r := t.retired + [oid];
    assert r[|r| - 1] == oid;
    if |r| > MAX_RETIRED { assert r[1..][|r| - 2] == oid; }
  }

  lemma AmendedRecord(tb: Table, c: Cloid, oid: nat, px: int, sz: int)
    requires c in tb.orders
    ensures var t, tb' := tb.orders[c], AmendedTable(tb, c, oid, Some((px, sz)));
            && c in tb'.orders
            && var t' := tb'.orders[c];
               && t'.px == px && t'.origSz == sz && t'.state == t.state && t'.modifyPending == t.modifyPending
               && !t'.canceledDuringModify && (oid == 0 || t'.oid == oid)
               && (oid != 0 && t.oid != 0 && oid != t.oid ==> t.oid in t'.retired)
               && (t'.filledSz != 0 <==> HasTraded(t, oid))
  {
    var t := tb.orders[c];
    RetiredIsKept(t.(px := px, origSz := sz), t.oid);
  }

  lemma AckOutcome(tb: Table, c: Cloid, a: Ack)
    requires c in tb.orders && !a.kind.AckError? && (a.oid == 0 || a.oid == tb.orders[c].oid)
    ensures var t, tb' := tb.orders[c], ApplyAck(tb, c, a);
            && c in tb'.orders
            && var t' := tb'.orders[c];
               && t'.px == t.px && t'.origSz == t.origSz && t'.modifyPending == t.modifyPending
               && t'.canceledDuringModify == t.canceledDuringModify && t'.retired == t.retired
               && t'.state == (if a.kind.AckFilled? then Filled
                               else if t.state != PendingNew then t.state
                               else if a.kind.Resting? && t.filledSz != 0 then PartiallyFilled
                               else Open)
  {}

  // ── over runs ───────────────────────────────────────────────────────────────

  /** After a successful cancel the order is terminal for as long as it stays tracked and no listing revives it. */
  lemma CanceledStaysDown(tb: Table, c: Cloid, a: Ack, target: Option<(int, int)>, es: seq<Event>)
    requires c in tb.orders && a.kind.Success?
    requires var tb' := Step(tb, ActionResult(c, CancelAction, Status(a), target));
             StaysTracked(tb', es, c) && NeverRevived(tb', es, c)
    ensures var tb' := Step(tb, ActionResult(c, CancelAction, Status(a), target));
            c in Run(tb', es).orders && IsTerminal(Run(tb', es).orders[c].state)
  {
    var tb' := Step(tb, ActionResult(c, CancelAction, Status(a), target));
    CancelResult(tb, c, Status(a), target);
    TerminalIsSticky(tb', es, c);
  }

  /** In a run of messages, an order whose cancel succeeds at some point is terminal at the end. */
  lemma {:induction false} CanceledInRun(tb: Table, es: seq<Event>, i: nat, c: Cloid)
    requires i < |es| && c in tb.orders && forall k :: 0 <= k < |es| ==> IsMessage(es[k])
    requires es[i].ActionResult? && es[i].c == c && es[i].kind.CancelAction?
    requires es[i].outcome.Status? && es[i].outcome.ack.kind.Success?
    ensures c in Run(tb, es).orders && IsTerminal(Run(tb, es).orders[c].state)
  {
    var n := |es| - 1;
    var front := es[..n];
    MessagesAdvance(tb, front);
    if i == n {
      CancelResult(Run(tb, front), c, es[n].outcome, es[n].target);
    } else {
      CanceledInRun(tb, front, i, c);
      MessageAdvances(Run(tb, front), es[n]);
    }
  }

  // ── reports of the venue ────────────────────────────────────────────────────

  /** The state after a status, by what the order was and whether it has traded. */
  function Reported(state: OrderState, traded: bool, status: VenueStatus): OrderState {
    if status == VFilled then Filled
    else if state == Filled || state == Canceled || state == Rejected then state
    else if status == VCanceled then Canceled
    else if status == VRejected then Rejected
    else if (status == VOpen || status == VTriggered) && state != PartiallyFilled then
      if traded then PartiallyFilled else Open
    else state
  }

  lemma StatusState(t: Tracked, status: VenueStatus, px: int, sz: int)
    ensures var t' := VenueRecord(t, status, px, sz);
            t'.state == Reported(t.state, t.filledSz != 0, status) && t'.oid == t.oid
  {
    match status
    case VOpen => OpenState(t, px, sz);
    case VTriggered => OpenState(t, px, sz);
    case VFilled =>
    case VCanceled =>
    case VRejected =>
    case VUnknown =>
  }

  lemma OpenState(t: Tracked, px: int, sz: int)
    ensures OpenRecord(t, px, sz).oid == t.oid
    ensures OpenRecord(t, px, sz).state
         == if t.state != PendingNew && t.state != Open then t.state
            else if t.filledSz != 0 then PartiallyFilled else Open
  {}

  /** A filled report leaves nothing unfilled, an open one brings price and size, and both ends answer a cancel. */
  lemma StatusFields(t: Tracked, status: VenueStatus, px: int, sz: int)
    ensures var t' := VenueRecord(t, status, px, sz);
            && (status == VFilled ==> t'.filledSz >= t.origSz && !t'.cancelPending)
            && (status == VCanceled ==> !t'.cancelPending)
            && ((status == VOpen || status == VTriggered) && !IsTerminal(t.state) ==>
                  t'.px == (if px != 0 then px else t.px) && t'.origSz == (if sz != 0 then sz else t.origSz))
  {}

  /** Learning an exchange id and then a status. */
  lemma LearnsStatus(tb: Table, c: Cloid, oid: nat, status: VenueStatus, px: int, sz: int)
    requires c in tb.orders
    ensures var t, tb' := tb.orders[c], ApplyVenueStatus(SetOid(tb, c, oid), c, status, px, sz);
            && c in tb'.orders && tb'.orders[c].state == Reported(t.state, HasTraded(t, oid), status)
            && tb'.orders[c].oid == (if oid == 0 then t.oid else oid)
            && tb'.orders[c].notFoundProbes == t.notFoundProbes
  {
    LearnsOid(tb, c, oid);
    StatusState(SetOid(tb, c, oid).orders[c], status, px, sz);
  }

  /** News of a generation the order has left, or of one it does not know during an amendment. */
  predicate Ignored(t: Tracked, u: OrderUpdate) {
    && u.oid != 0 && t.oid != 0 && u.oid != t.oid
    && (|| u.oid < t.oid || u.oid in t.retired
        || (t.modifyPending && u.status != VOpen && u.status != VFilled && u.status != VTriggered))
  }

  /** A cancel of the order being amended may be the amendment itself. */
  predicate Deferred(t: Tracked, u: OrderUpdate) {
    t.modifyPending && u.status == VCanceled && (u.oid != 0 || t.oid == 0)
  }

  /** What an order update does to the order it resolves to. */
  lemma UpdatedOrder(tb: Table, u: OrderUpdate, c: Cloid)
    requires c in tb.orders && Resolve(tb, u.cloid, u.oid) == Some(c)
    ensures var t, tb' := tb.orders[c], Step(tb, Updated(u));
            && c in tb'.orders
            && (Ignored(t, u) ==> tb'.orders[c] == t)
            && (!Ignored(t, u) && Deferred(t, u)
                ==> tb'.orders[c].state == t.state && tb'.orders[c].canceledDuringModify)
            && (!Ignored(t, u) && !Deferred(t, u) ==>
                  tb'.orders[c].state == Reported(t.state, HasTraded(t, u.oid), u.status))
            && (!Ignored(t, u) && u.oid != 0 ==> tb'.orders[c].oid == u.oid)
  {
    var t := tb.orders[c];
    if !Ignored(t, u) {
      var amended := t.oid != 0 && u.oid != 0 && u.oid != t.oid && t.modifyPending;
      var tb1 := if amended then Put(tb, c, Retire(t, t.oid)) else tb;
      LearnsOid(tb1, c, u.oid);
      var t1 := SetOid(tb1, c, u.oid).orders[c];
      StatusState(t1, u.status, u.limitPx, u.origSz);
    }
  }

  lemma LearnsOid(tb: Table, c: Cloid, oid: nat)
    requires c in tb.orders
    ensures var t, tb' := tb.orders[c], SetOid(tb, c, oid);
            && c in tb'.orders
            && var t' := tb'.orders[c];
               t'.state == t.state && t'.modifyPending == t.modifyPending && t'.oid == (if oid == 0 then t.oid else oid)
               && t'.notFoundProbes == t.notFoundProbes && (t'.filledSz != 0 <==> HasTraded(t, oid))
  {}

  /** A cancel by the venue ends a live order that it names by its current id. */
  lemma VenueCancels(tb: Table, oid: nat, c: Cloid)
    requires FindByOid(tb, oid) == Some(c)
    ensures var tb' := Step(tb, VenueCanceled(oid));
            && c in tb'.orders && !tb'.orders[c].cancelPending
            && tb'.orders[c].state == if IsTerminal(tb.orders[c].state) then tb.orders[c].state else Canceled
  {}

  // ── executions ──────────────────────────────────────────────────────────────

  /** An execution that is news: neither history, nor known, nor of a generation the order has left. */
  predicate Fresh(tb: Table, t: Tracked, f: FillMsg, historical: bool) {
    !historical && f.tid !in tb.seenTids && !(f.oid != 0 && t.oid != 0 && f.oid < t.oid)
  }

  /** An execution of a later generation: the sums start from nothing. */
  predicate Later(t: Tracked, f: FillMsg) { f.oid != 0 && t.oid != 0 && t.oid < f.oid }

  predicate Grew(t: Tracked, t': Tracked, f: FillMsg) {
    GrewTo(if Later(t, f) then f.oid else t.oid, if Later(t, f) then 0 else t.fillSum,
           if Later(t, f) then 0 else t.fillNotional, if Later(t, f) then 0 else t.ackFilledSz, t, t', f)
  }

  /** The record after an execution, from the sums before it. */
  predicate GrewTo(oid: nat, sum: int, notional: int, acked: int, t: Tracked, t': Tracked, f: FillMsg) {
    && t'.oid == oid && t'.fillSum == sum + f.sz && t'.fillNotional == notional + f.px * f.sz && t'.ackFilledSz == acked
    && t'.filledSz >= t'.fillSum && t'.filledSz >= acked && (t'.filledSz == t'.fillSum || t'.filledSz == acked)
    && t'.px == t.px && t'.origSz == t.origSz
    && t'.state == (if t.state == Filled || t.state == Canceled || t.state == Rejected then t.state
                    else if t'.filledSz < t.origSz then PartiallyFilled else Filled)
    && t'.cancelPending == t.cancelPending && t'.modifyPending == t.modifyPending
  }

  lemma RecordGrew(t: Tracked, f: FillMsg)
    ensures GrewTo(t.oid, t.fillSum, t.fillNotional, t.ackFilledSz, t, FillRecord(t, f.px, f.sz), f)
  {}

  lemma KnownGrew(tb: Table, f: FillMsg, c: Cloid)
    requires c in tb.orders && !(f.oid != 0 && tb.orders[c].oid != 0 && f.oid < tb.orders[c].oid)
    ensures c in FillKnown(tb, c, f).orders && Grew(tb.orders[c], FillKnown(tb, c, f).orders[c], f)
  {
    var t := tb.orders[c];
    RecordGrew(if Later(t, f) then NewGeneration(t, f.oid) else t, f);
  }

  lemma Remembering(tb: Table, tid: nat)
    ensures Remember(tb, tid).orders == tb.orders && Remember(tb, tid).oidIndex == tb.oidIndex
  {}

  /** What an execution does to the order it resolves to: nothing, or it is added to the sums and moves a live order. */
  lemma TradedOrder(tb: Table, f: FillMsg, historical: bool, c: Cloid)
    requires c in tb.orders && Resolve(tb, f.cloid, f.oid) == Some(c)
    ensures var tb' := OnUserFill(tb, f, historical);
            && c in tb'.orders
            && (!Fresh(tb, tb.orders[c], f, historical) ==> tb'.orders[c] == tb.orders[c])
            && (Fresh(tb, tb.orders[c], f, historical) ==> Grew(tb.orders[c], tb'.orders[c], f))
  {
    Remembering(tb, f.tid);
    if Fresh(tb, tb.orders[c], f, historical) { KnownGrew(Remember(tb, f.tid), f, c); }
  }

  /** Everything the order traded was at prices from `lo` to `hi`. */
  predicate PricesWithin(t: Tracked, lo: int, hi: int) {
    t.fillSum >= 0 && t.fillSum * lo <= t.fillNotional <= t.fillSum * hi
  }

  /** The average of an order's executions never leaves the range of their prices. */
  lemma AverageWithin(t: Tracked, px: int, sz: int, lo: int, hi: int)
    requires PricesWithin(t, lo, hi) && lo <= px <= hi && sz > 0
    ensures var t' := FillRecord(t, px, sz); PricesWithin(t', lo, hi) && lo <= t'.avgFillPx <= hi
  {
    SumWithin(t.fillSum, t.fillNotional, px, sz, lo, hi);
    FillSums(t, px, sz);
    TruncBetween(t.fillNotional + px * sz, t.fillSum + sz, lo, hi);
  }

  lemma FillSums(t: Tracked, px: int, sz: int)
    requires t.fillSum + sz > 0
    ensures var t' := FillRecord(t, px, sz);
            && t'.fillSum == t.fillSum + sz && t'.fillNotional == t.fillNotional + px * sz
            && t'.avgFillPx == TruncDiv(t.fillNotional + px * sz, t.fillSum + sz)
  {}

  // ── probes ──────────────────────────────────────────────────────────────────

  function NotFounds(c: Cloid, n: nat): (es: seq<Event>)
    ensures |es| == n
  {
    if n == 0 then [] else NotFounds(c, n - 1) + [Probed(c, NotFound)]
  }

  ghost predicate AfterProbes(tb: Table, c: Cloid, n: nat) {
    && c in tb.orders && tb.orders[c].state == (if n >= 4 then Rejected else PendingNew)
    && tb.orders[c].notFoundProbes == (if n <= 3 then n else 3)
  }

  /** A pending order is given up at the fourth answer in a row that does not find it, and not before. */
  lemma {:induction false} GivenUp(tb: Table, c: Cloid, n: nat)
    requires c in tb.orders && tb.orders[c].state == PendingNew && tb.orders[c].notFoundProbes == 0
    ensures AfterProbes(Run(tb, NotFounds(c, n)), c, n)
  {
    if n > 0 {
      GivenUp(tb, c, n - 1);
      OneMoreProbe(tb, c, n);
      ProbeOnce(Run(tb, NotFounds(c, n - 1)), c, n - 1);
    }
  }

  lemma ProbeOnce(tb: Table, c: Cloid, n: nat)
    requires AfterProbes(tb, c, n)
    ensures AfterProbes(Step(tb, Probed(c, NotFound)), c, n + 1)
  {
    NotFoundStep(tb, c);
  }

  lemma OneMoreProbe(tb: Table, c: Cloid, n: nat)
    requires n > 0
    ensures Run(tb, NotFounds(c, n)) == Step(Run(tb, NotFounds(c, n - 1)), Probed(c, NotFound))
  {
    assert NotFounds(c, n)[..n - 1] == NotFounds(c, n - 1);
  }

  lemma NotFoundStep(tb: Table, c: Cloid)
    requires c in tb.orders
    ensures var t, tb' := tb.orders[c], Step(tb, Probed(c, NotFound));
            && c in tb'.orders
            && tb'.orders[c] == if t.state != PendingNew then t
                                else if t.notFoundProbes < 3 then t.(notFoundProbes := t.notFoundProbes + 1)
                                else t.(state := Rejected)
  {}

  /** An answer that finds the order starts the count again and is a report on it, unless it names another id. */
  lemma ProbeFinds(tb: Table, c: Cloid, oid: nat, status: VenueStatus, px: int, sz: int)
    requires c in tb.orders
    ensures var t, tb' := tb.orders[c], Step(tb, Probed(c, Found(oid, status, px, sz)));
            && c in tb'.orders && tb'.orders[c].notFoundProbes == 0
            && (if t.oid != 0 && oid != 0 && oid != t.oid then tb'.orders[c] == t.(notFoundProbes := 0)
                else tb'.orders[c].state == Reported(t.state, t.filledSz != 0, status))
  {
    LearnsStatus(Put(tb, c, tb.orders[c].(notFoundProbes := 0)), c, oid, status, px, sz);
  }

  // ── placing, listing and eviction ───────────────────────────────────────────

  predicate Distinct(requests: seq<(Cloid, int, int)>) {
    forall i, j :: 0 <= i < j < |requests| ==> requests[i].0 != requests[j].0
  }

  /** Every order of an accepted batch is tracked as pending, with its price and size and nothing else. */
  lemma {:induction false} PlacedOrders(tb: Table, requests: seq<(Cloid, int, int)>, i: nat)
    requires i < |requests| && Distinct(requests) && forall k :: 0 <= k < |requests| ==> requests[k].0 !in tb.orders
    ensures var (c, px, sz) := requests[i]; var tb' := PlaceAll(tb, requests);
            c in tb'.orders && tb'.orders[c] == BLANK.(px := px, origSz := sz)
    decreases requests
  {
    var (c, px, sz) := requests[0];
    var tb1 := Put(tb, c, Get(tb, c).(px := px, origSz := sz, state := PendingNew));
    var rest := requests[1..];
    if i == 0 {
      forall r | r in rest ensures r.0 != c { var k :| 0 <= k < |rest| && rest[k] == r; assert requests[k + 1] == r; }
      PlaceTouchesNew(tb1, rest, c);
    } else {
      assert requests[i] == rest[i - 1];
      forall k | 0 <= k < |rest| ensures rest[k].0 !in tb1.orders { assert rest[k] == requests[k + 1]; }
      PlacedOrders(tb1, rest, i - 1);
    }
  }

  /** An order only the listing knows is adopted as it stands: working, with what was filled before. */
  lemma AdoptedOrder(tb: Table, open: OpenOrder)
    requires var c := KeyOf(open.cloid, open.oid); c !in tb.orders && FindByOid(tb, open.oid) == None
    ensures var c := KeyOf(open.cloid, open.oid); var tb' := Step(tb, Listed(open));
            && c in tb'.orders
            && var t, done := tb'.orders[c], if open.origSz > open.sz then open.origSz - open.sz else 0;
               && t.oid == open.oid && t.px == open.limitPx && t.origSz == open.origSz && t.filledSz == done
               && t.state == (if done == 0 then Open else PartiallyFilled) && t.external == open.cloid.None?
  {}

  /** A buried order that the listing shows under another id is working again. */
  lemma RevivedOrder(tb: Table, open: OpenOrder, c: Cloid)
    requires Revives(tb, Listed(open), c)
    ensures var tb' := Step(tb, Listed(open));
            && c in tb'.orders && (tb'.orders[c].state == Open || tb'.orders[c].state == PartiallyFilled)
            && (open.oid != 0 ==> tb'.orders[c].oid == open.oid)
            && (open.limitPx != 0 ==> tb'.orders[c].px == open.limitPx)
            && (open.origSz != 0 ==> tb'.orders[c].origSz == open.origSz)
  {
    ReviveWorks(tb, c, open);
    var tb1 := Put(tb, c, tb.orders[c].(state := Open));
    LearnsOid(tb1, c, open.oid);
    var t := SeedFilled(SetOid(tb1, c, open.oid).orders[c], open);
    StatusState(t, VOpen, open.limitPx, open.origSz);
    StatusFields(t, VOpen, open.limitPx, open.origSz);
  }

  /** Eviction takes a terminal order and nothing else. */
  lemma EvictedOrder(tb: Table, c: Cloid)
    ensures forall d :: d in Step(tb, Evicted(c)).orders <==>
              d in tb.orders && !(d == c && IsTerminal(tb.orders[c].state))
    ensures forall d :: d in Step(tb, Evicted(c)).orders ==> Step(tb, Evicted(c)).orders[d] == tb.orders[d]
  {}

  /** A listing entry matched to a tracked order is an open report on it. */
  lemma MatchedOrder(tb: Table, c: Cloid, open: OpenOrder)
    requires c in tb.orders && open.cloid == Some(c) && !IsTerminal(tb.orders[c].state)
    ensures var t := tb.orders[c];
            forall tb' | tb' == Step(tb, AmendMatched(c, open)) || tb' == Step(tb, LiveMatched(c, open)) ::
              && c in tb'.orders && tb'.orders[c].state == Reported(t.state, HasTraded(t, open.oid), VOpen)
              && tb'.orders[c].oid == (if open.oid == 0 then t.oid else open.oid)
  {
    LearnsStatus(tb, c, open.oid, VOpen, open.limitPx, open.origSz);
  }

  predicate Working(state: OrderState) { state == PendingNew || state == Open || state == PartiallyFilled }

  /** A cancel goes out for a working order, once, and until it is answered neither another nor an amendment does. */
  lemma CancelGoesOutOnce(tb: Table, c: Cloid)
    requires c in tb.orders
    ensures var t, tb' := tb.orders[c], Step(tb, CancelSent(c));
            if Working(t.state) && !t.cancelPending && (t.external ==> t.oid != 0) then
              && tb' == tb.(orders := tb.orders[c := t.(cancelPending := true)])
              && Step(tb', CancelSent(c)) == tb' && Step(tb', ModifySent(c)) == tb'
            else tb' == tb
  {}

  /** An amendment goes out for a working order with an exchange id and nothing under way, once until it is answered. */
  lemma AmendmentGoesOutOnce(tb: Table, c: Cloid)
    requires c in tb.orders
    ensures var t, tb' := tb.orders[c], Step(tb, ModifySent(c));
            if Working(t.state) && !t.cancelPending && !t.modifyPending && t.oid != 0 then
              && tb' == tb.(orders := tb.orders[c := t.(modifyPending := true, canceledDuringModify := false)])
              && Step(tb', ModifySent(c)) == tb'
            else tb' == tb
  {}

  /** Canceling by exchange id marks the order it belongs to. */
  lemma CancelByOidMarks(tb: Table, oid: nat, c: Cloid)
    requires FindByOid(tb, oid) == Some(c)
    ensures Step(tb, CancelByOidSent(oid)).orders == tb.orders[c := tb.orders[c].(cancelPending := true)]
  {}

  // ── batches ─────────────────────────────────────────────────────────────────

  lemma ResultLeaves(tb: Table, d: Cloid, kind: ActionKind, outcome: Outcome, target: Option<(int, int)>, c: Cloid)
    requires c != d
    ensures var tb' := Step(tb, ActionResult(d, kind, outcome, target));
            (c in tb'.orders <==> c in tb.orders) && Get(tb', c) == Get(tb, c)
  {
    if outcome.Status? {
      AckLeaves(tb, d, outcome.ack, c);
      var tb1 := Put(tb, d, Get(tb, d).(modifyPending := false));
      AckLeaves(AmendedTable(tb1, d, outcome.ack.oid, target), d, outcome.ack, c);
    }
  }

  lemma AckLeaves(tb: Table, d: Cloid, a: Ack, c: Cloid)
    requires c != d
    ensures (c in ApplyAck(tb, d, a).orders <==> c in tb.orders) && Get(ApplyAck(tb, d, a), c) == Get(tb, c)
  {}

  /** What a result does to the order it names depends on that order alone. */
  lemma ResultIsLocal(tb: Table, tb1: Table, c: Cloid, kind: ActionKind, outcome: Outcome, target: Option<(int, int)>)
    requires c in tb.orders && c in tb1.orders && tb.orders[c] == tb1.orders[c]
    ensures var e := ActionResult(c, kind, outcome, target);
            && c in Step(tb, e).orders && c in Step(tb1, e).orders && Step(tb, e).orders[c] == Step(tb1, e).orders[c]
  {
    match kind
    case OrderAction => if outcome.Status? { AckIsLocal(tb, tb1, c, outcome.ack); }
    case ModifyAction => ModifyIsLocal(tb, tb1, c, outcome, target);
    case CancelAction =>
    case OtherAction =>
  }

  lemma ModifyIsLocal(tb: Table, tb1: Table, c: Cloid, outcome: Outcome, target: Option<(int, int)>)
    requires c in tb.orders && c in tb1.orders && tb.orders[c] == tb1.orders[c]
    ensures var u, v := OnActionResult(tb, c, ModifyAction, outcome, target),
            OnActionResult(tb1, c, ModifyAction, outcome, target);
            c in u.orders && c in v.orders && u.orders[c] == v.orders[c]
  {
    if outcome.Status? {
      var t := tb.orders[c].(modifyPending := false);
      ModifiedIsLocal(Put(tb, c, t), Put(tb1, c, t), c, outcome.ack, target);
    }
  }

  lemma ModifiedIsLocal(tb: Table, tb1: Table, c: Cloid, a: Ack, target: Option<(int, int)>)
    requires c in tb.orders && c in tb1.orders && tb.orders[c] == tb1.orders[c]
    ensures c in OnModified(tb, c, a, target).orders && c in OnModified(tb1, c, a, target).orders
    ensures OnModified(tb, c, a, target).orders[c] == OnModified(tb1, c, a, target).orders[c]
  {
    AmendIsLocal(tb, tb1, c, a.oid, target);
    AckIsLocal(AmendedTable(tb, c, a.oid, target), AmendedTable(tb1, c, a.oid, target), c, a);
  }

  lemma AckIsLocal(tb: Table, tb1: Table, c: Cloid, a: Ack)
    requires c in tb.orders && c in tb1.orders && tb.orders[c] == tb1.orders[c]
    ensures c in ApplyAck(tb, c, a).orders && c in ApplyAck(tb1, c, a).orders
    ensures ApplyAck(tb, c, a).orders[c] == ApplyAck(tb1, c, a).orders[c]
  {}

  lemma AmendIsLocal(tb: Table, tb1: Table, c: Cloid, oid: nat, target: Option<(int, int)>)
    requires c in tb.orders && c in tb1.orders && tb.orders[c] == tb1.orders[c]
    ensures c in AmendedTable(tb, c, oid, target).orders && c in AmendedTable(tb1, c, oid, target).orders
    ensures Get(AmendedTable(tb, c, oid, target), c) == Get(AmendedTable(tb1, c, oid, target), c)
  {}

  ghost predicate Results(es: seq<Event>) {
    && (forall i :: 0 <= i < |es| ==> es[i].ActionResult?)
    && (forall i, j :: 0 <= i < j < |es| ==> es[i].c != es[j].c)
  }

  lemma {:induction false} UnnamedStays(tb: Table, es: seq<Event>, c: Cloid)
    requires forall i :: 0 <= i < |es| ==> es[i].ActionResult? && es[i].c != c
    ensures (c in Run(tb, es).orders <==> c in tb.orders) && Get(Run(tb, es), c) == Get(tb, c)
  {
    if es != [] {
      var front, e := es[..|es| - 1], es[|es| - 1];
      UnnamedStays(tb, front, c);
      ResultLeaves(Run(tb, front), e.c, e.kind, e.outcome, e.target, c);
    }
  }

  /** The results of a batch that names each order once act on each as if it were alone. */
  lemma {:induction false} BatchIsEach(tb: Table, es: seq<Event>, i: nat)
    requires Results(es) && i < |es| && es[i].c in tb.orders
    ensures var c := es[i].c;
            && c in Run(tb, es).orders && c in Step(tb, es[i]).orders
            && Run(tb, es).orders[c] == Step(tb, es[i]).orders[c]
  {
    var n := |es| - 1;
    var front, e := es[..n], es[n];
    if i == n {
      UnnamedStays(tb, front, e.c);
      ResultIsLocal(tb, Run(tb, front), e.c, e.kind, e.outcome, e.target);
    } else {
      BatchIsEach(tb, front, i);
      ResultLeaves(Run(tb, front), e.c, e.kind, e.outcome, e.target, es[i].c);
    }
  }
}
