/** An order is a chain of generations: which messages may move its exchange id, and what its fills add up to. */
module OrderGenerations {
  import opened Basics
  import opened OrderTable
  import opened OrderSafety
  import opened OrderLifecycle

  // ── which way the exchange id moves ─────────────────────────────────────────

  /**
    * The update carries no cloid and an id nobody is indexed under, but an order that first arrived under that id is
    * still tracked under the synthetic cloid and has since been amended.
    */
  ghost predicate Misresolved(tb: Table, u: OrderUpdate, c: Cloid) {
    && u.cloid.None? && FindByOid(tb, u.oid).None?
    && c == ExternalCloid(u.oid) && c in tb.orders && 0 < u.oid < tb.orders[c].oid
  }

  /** An order update moves a tracked exchange id backwards exactly in the misresolved case. */
  lemma UpdateMovesBack(tb: Table, u: OrderUpdate, c: Cloid)
    requires c in tb.orders
    ensures c in OnOrderUpdate(tb, u).orders
    ensures OnOrderUpdate(tb, u).orders[c].oid < tb.orders[c].oid <==> Misresolved(tb, u, c)
  {
    var known := Resolve(tb, u.cloid, u.oid);
    if known.Some? {
      UpdateKnownOid(tb, known.value, u, c);
    } else {
      var k := KeyOf(u.cloid, u.oid);
      UpdateKnownOid(TrackExternal(tb, k, u), k, u, c);
    }
  }

  lemma UpdateKnownOid(tb: Table, k: Cloid, u: OrderUpdate, c: Cloid)
    requires k in tb.orders && c in tb.orders
    ensures c in UpdateKnown(tb, k, u).orders
    ensures UpdateKnown(tb, k, u).orders[c].oid >= tb.orders[c].oid
    ensures c != k || u.oid == tb.orders[c].oid ==> UpdateKnown(tb, k, u).orders[c].oid == tb.orders[c].oid
  {
    var t := Get(tb, k);
    var tb1 := if UpdateChangesOid(t, u) && t.modifyPending then Put(tb, k, Retire(t, t.oid)) else tb;
    UpdateStatusOid(SetOid(tb1, k, u.oid), k, u, c);
  }

  lemma UpdateStatusOid(tb: Table, k: Cloid, u: OrderUpdate, c: Cloid)
    requires c in tb.orders
    ensures c in UpdateStatus(tb, k, u).orders && UpdateStatus(tb, k, u).orders[c].oid == tb.orders[c].oid
  {}

  /** The acknowledgement brings an exchange id that the order takes. */
  predicate BringsOid(kind: ActionKind, a: Ack) {
    if kind.OrderAction? then a.kind.Resting? || a.kind.AckFilled? else kind.ModifyAction? && !a.kind.AckError?
  }

  /** Exactly the events that take a tracked order back to an older exchange id. */
  ghost predicate MovesBack(tb: Table, e: Event, c: Cloid)
    requires c in tb.orders
  {
    var t := tb.orders[c];
    match e
    case Updated(u) => Misresolved(tb, u, c)
    case ActionResult(d, kind, outcome, _) =>
      d == c && outcome.Status? && BringsOid(kind, outcome.ack) && 0 < outcome.ack.oid < t.oid
    case AmendMatched(d, open) => d == c && open.cloid == Some(c) && 0 < open.oid < t.oid
    case LiveMatched(d, open) => d == c && open.cloid == Some(c) && !IsTerminal(t.state) && 0 < open.oid < t.oid
    case Listed(open) => Revives(tb, e, c) && 0 < open.oid < t.oid
    case _ => false
  }

  /** Whatever the event, the exchange id of an order that stays tracked falls if and only if it is one of those. */
  lemma StepMovesBack(tb: Table, e: Event, c: Cloid)
    requires c in tb.orders && c in Step(tb, e).orders
    ensures Step(tb, e).orders[c].oid < tb.orders[c].oid <==> MovesBack(tb, e, c)
  {
    match e
    case Updated(u) => UpdateMovesBack(tb, u, c);
    case Traded(f, historical) => FillMovesUp(tb, f, historical, c);
    case ActionResult(d, kind, outcome, target) => ActionMovesBack(tb, d, kind, outcome, target, c);
    case Placed(requests) => PlacingKeepsOid(tb, requests, c);
    case Listed(open) => ListedMovesBack(tb, open, c);
    case Probed(d, answer) => ProbeKeepsOid(tb, d, answer, c);
    case AmendMatched(d, open) => if d in tb.orders { StatusOid(tb, d, open.oid, VOpen, open.limitPx, open.origSz, c); }
    case LiveMatched(d, open) => if d in tb.orders { StatusOid(tb, d, open.oid, VOpen, open.limitPx, open.origSz, c); }
    case _ =>
  }

  /** The exchange id an order has after learning `oid`. */
  function OidAfter(was: nat, oid: nat): nat { if oid == 0 then was else oid }

  lemma StatusOid(tb: Table, d: Cloid, oid: nat, status: VenueStatus, px: int, sz: int, c: Cloid)
    requires c in tb.orders && d in tb.orders
    ensures var tb' := ApplyVenueStatus(SetOid(tb, d, oid), d, status, px, sz);
            c in tb'.orders && tb'.orders[c].oid == if c == d then OidAfter(tb.orders[c].oid, oid) else tb.orders[c].oid
  {}

  lemma ProbeKeepsOid(tb: Table, d: Cloid, answer: ProbeAnswer, c: Cloid)
    requires c in tb.orders
    ensures c in OnProbe(tb, d, answer).orders && OnProbe(tb, d, answer).orders[c].oid >= tb.orders[c].oid
  {
    if d in tb.orders && answer.Found? {
      StatusOid(Put(tb, d, Get(tb, d).(notFoundProbes := 0)), d, answer.oid, answer.status, answer.limitPx,
                answer.origSz,
                c);
    }
  }

  lemma PlacingKeepsOid(tb: Table, requests: seq<(Cloid, int, int)>, c: Cloid)
    requires c in tb.orders
    ensures c in OnPlace(tb, requests).orders && OnPlace(tb, requests).orders[c] == tb.orders[c]
  {
    if forall r :: r in requests ==> r.0 !in tb.orders { PlaceTouchesNew(tb, requests, c); }
  }

  lemma ListedMovesBack(tb: Table, open: OpenOrder, c: Cloid)
    requires c in tb.orders
    ensures c in OnListed(tb, open).orders
    ensures OnListed(tb, open).orders[c].oid
         == if Revives(tb, Listed(open), c) then OidAfter(tb.orders[c].oid, open.oid) else tb.orders[c].oid
  {
    if Revives(tb, Listed(open), c) { ReviveOid(tb, c, open); } else { ListedAdvances(tb, open, c); }
  }

  lemma ReviveOid(tb: Table, c: Cloid, open: OpenOrder)
    requires c in tb.orders
    ensures c in Revive(tb, c, open).orders
    ensures Revive(tb, c, open).orders[c].oid == OidAfter(tb.orders[c].oid, open.oid)
  {
    var tb' := SetOid(Put(tb, c, Get(tb, c).(state := Open)), c, open.oid);
    assert Get(tb', c).oid == OidAfter(tb.orders[c].oid, open.oid);
    SeedKeepsOid(Get(tb', c), open);
  }

  lemma SeedKeepsOid(t: Tracked, open: OpenOrder)
    ensures VenueRecord(SeedFilled(t, open), VOpen, open.limitPx, open.origSz).oid == t.oid
  {}

  lemma AckOid(tb: Table, d: Cloid, a: Ack, c: Cloid)
    requires c in tb.orders && d in tb.orders
    ensures c in ApplyAck(tb, d, a).orders
    ensures ApplyAck(tb, d, a).orders[c].oid
         == if c == d && (a.kind.Resting? || a.kind.AckFilled?) then OidAfter(tb.orders[c].oid, a.oid)
            else tb.orders[c].oid
  {}

  lemma AmendedOid(tb: Table, d: Cloid, oid: nat, target: Option<(int, int)>, c: Cloid)
    requires c in tb.orders && d in tb.orders
    ensures var tb' := AmendedTable(tb, d, oid, target);
            && c in tb'.orders && d in tb'.orders
            && tb'.orders[c].oid == if c == d then OidAfter(tb.orders[c].oid, oid) else tb.orders[c].oid
  {
    assert Amended(Get(tb, d), oid, target).oid == Get(tb, d).oid;
  }

  lemma ModifiedOid(tb: Table, d: Cloid, a: Ack, target: Option<(int, int)>, c: Cloid)
    requires c in tb.orders && d in tb.orders
    ensures c in OnModified(tb, d, a, target).orders
    ensures OnModified(tb, d, a, target).orders[c].oid
         == if c == d then OidAfter(tb.orders[c].oid, a.oid) else tb.orders[c].oid
  {
    AmendedOid(tb, d, a.oid, target, c);
    AckOid(AmendedTable(tb, d, a.oid, target), d, a, c);
  }

  lemma ActionMovesBack(tb: Table, d: Cloid, kind: ActionKind, outcome: Outcome, target: Option<(int, int)>, c: Cloid)
    requires c in tb.orders
    ensures var tb' := OnActionResult(tb, d, kind, outcome, target);
            && c in tb'.orders
            && (tb'.orders[c].oid < tb.orders[c].oid <==> MovesBack(tb, ActionResult(d, kind, outcome, target), c))
  {
    if d in tb.orders && outcome.Status? {
      match kind
      case OrderAction => AckOid(tb, d, outcome.ack, c);
      case ModifyAction => ModifiedOid(Put(tb, d, Get(tb, d).(modifyPending := false)), d, outcome.ack, target, c);
      case _ =>
    }
  }

  /** Everything the venue reports about single orders: updates, fills, probe answers and its own cancels. */
  predicate IsNews(e: Event) { e.Updated? || e.Traded? || e.Probed? || e.VenueCanceled? }

  lemma NewsStep(tb: Table, e: Event, c: Cloid)
    requires IsNews(e) && c in tb.orders
    ensures c in Step(tb, e).orders
    ensures Step(tb, e).orders[c].oid < tb.orders[c].oid <==> e.Updated? && Misresolved(tb, e.u, c)
  {
    MessageAdvances(tb, e);
    StepMovesBack(tb, e, c);
  }

  lemma FillMovesUp(tb: Table, f: FillMsg, historical: bool, c: Cloid)
    requires c in tb.orders
    ensures c in OnUserFill(tb, f, historical).orders && OnUserFill(tb, f, historical).orders[c].oid >= tb.orders[c].oid
  {}

  ghost predicate NeverMovesBack(tb: Table, es: seq<Event>, c: Cloid)
    requires StaysTracked(tb, es, c)
  {
    forall i :: 0 <= i < |es| ==> !MovesBack(Run(tb, es[..i]), es[i], c)
  }

  /** Over every run that keeps the order tracked its exchange id only rises, unless one of those events occurs. */
  lemma {:induction false} OidOnlyRises(tb: Table, es: seq<Event>, c: Cloid)
    requires StaysTracked(tb, es, c) && NeverMovesBack(tb, es, c)
    ensures c in tb.orders && c in Run(tb, es).orders && Run(tb, es).orders[c].oid >= tb.orders[c].oid
  {
    assert es[..0] == [] && es[..|es|] == es;
    if es != [] {
      var n := |es| - 1;
      var front := es[..n];
      assert forall i :: 0 <= i <= n ==> front[..i] == es[..i];
      OidOnlyRises(tb, front, c);
      StepMovesBack(Run(tb, front), es[n], c);
    }
  }

  /** Over every run of news an order placed under a real cloid never returns to an older generation. */
  lemma {:induction false} NewsNeverMovesBack(tb: Table, es: seq<Event>, c: Cloid)
    requires c in tb.orders && c.high != ExternalCloid(0).high
    requires forall i :: 0 <= i < |es| ==> IsNews(es[i])
    ensures c in Run(tb, es).orders && Run(tb, es).orders[c].oid >= tb.orders[c].oid
  {
    if es != [] {
      var n := |es| - 1;
      NewsNeverMovesBack(tb, es[..n], c);
      NewsStep(Run(tb, es[..n]), es[n], c);
    }
  }

  /** News that names an older exchange id of the order it resolves to leaves every order as it was. */
  lemma SupersededNewsIgnored(tb: Table, e: Event, c: Cloid, oid: nat)
    requires c in tb.orders && 0 < oid < tb.orders[c].oid
    requires match e
             case Updated(u) => u.oid == oid && Resolve(tb, u.cloid, u.oid) == Some(c)
             case Traded(f, _) => f.oid == oid && Resolve(tb, f.cloid, f.oid) == Some(c)
             case Probed(d, answer) => d == c && answer.Found? && answer.oid == oid
             case _ => false
    ensures Step(tb, e).oidIndex == tb.oidIndex && Step(tb, e).orders.Keys == tb.orders.Keys
    ensures forall d :: d in tb.orders ==>
              Step(tb, e).orders[d] == if e.Probed? && d == c then tb.orders[d].(notFoundProbes := 0) else tb.orders[d]
  {}

  // The misresolved case, step by step: an external order is amended from id 5 to id 9, then a late update names id 5.

  const EXT: Cloid := ExternalCloid(5)
  const FIRST_SEEN: Event := Updated(OrderUpdate(None, 5, VOpen, 100, 10))
  const AMEND_SENT: Event := ModifySent(EXT)
  const AMENDED: Event := ActionResult(EXT, ModifyAction, Status(Ack(Resting, 9, 0, 0)), Some((101, 10)))
  const LATE_CANCEL: Event := Updated(OrderUpdate(None, 5, VCanceled, 100, 10))

  const RESTING_AS_5: Tracked := BLANK.(oid := 5, px := 100, origSz := 10, state := Open, external := true)
  const RESTING_AS_9: Tracked := RESTING_AS_5.(oid := 9, px := 101, retired := [5])

  const TABLE_5: Table := Table(map[EXT := RESTING_AS_5], map[5 := EXT], {}, [])
  const TABLE_5M: Table := Table(map[EXT := RESTING_AS_5.(modifyPending := true)], map[5 := EXT], {}, [])
  const TABLE_9: Table := Table(map[EXT := RESTING_AS_9], map[9 := EXT], {}, [])

  lemma AdoptedAs5()
    ensures Run(EMPTY, [FIRST_SEEN]) == TABLE_5
  {
    RunStep(EMPTY, [], FIRST_SEEN);
    assert [] + [FIRST_SEEN] == [FIRST_SEEN];
    var tb := TrackExternal(EMPTY, EXT, FIRST_SEEN.u);
    assert tb == Table(map[EXT := RESTING_AS_5.(state := PendingNew)], map[5 := EXT], {}, []);
  }

  lemma AmendmentSent()
    ensures Run(EMPTY, [FIRST_SEEN, AMEND_SENT]) == TABLE_5M
  {
    AdoptedAs5();
    RunStep(EMPTY, [FIRST_SEEN], AMEND_SENT);
    assert [FIRST_SEEN] + [AMEND_SENT] == [FIRST_SEEN, AMEND_SENT];
  }

  lemma AmendStep()
    ensures Step(TABLE_5M, AMENDED) == TABLE_9
  {
    assert Put(TABLE_5M, EXT, RESTING_AS_5) == TABLE_5;
    AmendAck();
  }

  lemma AmendAck()
    ensures OnModified(TABLE_5, EXT, AMENDED.outcome.ack, AMENDED.target) == TABLE_9
  {
    assert BLANK.retired + [5] == [5];
    assert Amended(RESTING_AS_5, 9, AMENDED.target) == RESTING_AS_5.(px := 101, retired := [5]);
    assert SetOid(Put(TABLE_5, EXT, RESTING_AS_5.(px := 101, retired := [5])), EXT, 9) == TABLE_9;
    assert AmendedTable(TABLE_5, EXT, 9, AMENDED.target) == TABLE_9;
    RestingKeepsRecord(TABLE_9, EXT, 9);
  }

  lemma RestingKeepsRecord(tb: Table, c: Cloid, oid: nat)
    requires c in tb.orders && tb.orders[c].oid == oid && !tb.orders[c].state.PendingNew?
    ensures ApplyAck(tb, c, Ack(Resting, oid, 0, 0)) == tb
  {
    assert tb.orders[c := tb.orders[c]] == tb.orders;
  }

  lemma AmendedTo9()
    ensures Run(EMPTY, [FIRST_SEEN, AMEND_SENT, AMENDED]) == TABLE_9
  {
    AmendmentSent();
    AmendStep();
    RunStep(EMPTY, [FIRST_SEEN, AMEND_SENT], AMENDED);
    assert [FIRST_SEEN, AMEND_SENT] + [AMENDED] == [FIRST_SEEN, AMEND_SENT, AMENDED];
  }

  /**
    * The misresolved case is reachable: a late `canceled` about id 5 takes the table back to the dead generation and
    * buries the order that is resting as id 9.
    */
  lemma AmendedExternalOrderIsBuried()
    ensures var before := [FIRST_SEEN, AMEND_SENT, AMENDED];
            var tb, tb' := Run(EMPTY, before), Run(EMPTY, before + [LATE_CANCEL]);
            && EXT in tb.orders && tb.orders[EXT].oid == 9 && tb.orders[EXT].state.Open?
            && Misresolved(tb, LATE_CANCEL.u, EXT)
            && EXT in tb'.orders && tb'.orders[EXT].oid == 5 && tb'.orders[EXT].state.Canceled?
  {
    AmendedTo9();
    RunStep(EMPTY, [FIRST_SEEN, AMEND_SENT, AMENDED], LATE_CANCEL);
  }

  lemma {:induction false} RunStep(tb: Table, es: seq<Event>, e: Event)
    ensures Run(tb, es + [e]) == Step(Run(tb, es), e)
  {
    assert (es + [e])[..|es|] == es;
  }

  // ── what the fills add up to ────────────────────────────────────────────────

  /** The message is a new execution of the order's current or next generation. */
  ghost predicate Credited(tb: Table, e: Event, c: Cloid) {
    && e.Traded? && !e.historical && e.f.tid !in tb.seenTids
    && Resolve(tb, e.f.cloid, e.f.oid) == Some(c) && !StaleFill(Get(tb, c), e.f)
  }

  ghost function CreditSz(tb: Table, e: Event, c: Cloid): int { if Credited(tb, e, c) then e.f.sz else 0 }

  ghost function CreditNotional(tb: Table, e: Event, c: Cloid): int {
    if Credited(tb, e, c) then e.f.px * e.f.sz else 0
  }

  /** What a listing says was filled before this client saw the order. */
  ghost function Seed(open: OpenOrder): int { Max(0, open.origSz - open.sz) }

  ghost predicate Seeds(tb: Table, e: Event, c: Cloid) {
    e.Listed? && (Revives(tb, e, c) || c !in tb.orders) && Seed(e.open) > 0
  }

  /** The step opens a generation that has nothing of the previous one. */
  ghost predicate Restarts(tb: Table, e: Event, c: Cloid) {
    c !in tb.orders || (tb.orders[c].oid != 0 && Get(Step(tb, e), c).oid != tb.orders[c].oid)
  }

  /** Where the accounting of the generation starts: a seed, nothing, or what it already was. */
  ghost function BaseSz(tb: Table, e: Event, c: Cloid): int {
    if Seeds(tb, e, c) then Seed(e.open) else if Restarts(tb, e, c) then 0 else Get(tb, c).fillSum
  }

  ghost function BaseNotional(tb: Table, e: Event, c: Cloid): int {
    if Seeds(tb, e, c) then e.open.limitPx * Seed(e.open) else if Restarts(tb, e, c) then 0 else Get(tb, c).fillNotional
  }

  /** The sums of record `t` stay in `t'`, or restart from nothing with a new exchange id. */
  ghost predicate Carried(t: Tracked, t': Tracked) {
    if t.oid == 0 || t'.oid == t.oid then t'.fillSum == t.fillSum && t'.fillNotional == t.fillNotional
    else t'.fillSum == 0 && t'.fillNotional == 0
  }

  /** A step that credits nothing to `c`. Absent orders read as blank records. */
  ghost predicate Carries(tb: Table, tb': Table, c: Cloid) { Carried(Get(tb, c), Get(tb', c)) }

  /** Neither an acknowledgement nor a venue status touches the fill sum. */
  lemma RecordsKeepSum(t: Tracked, a: Ack, status: VenueStatus, px: int, sz: int)
    ensures AckRecord(t, a).fillSum == t.fillSum && AckRecord(t, a).fillNotional == t.fillNotional
    ensures AckRecord(t, a).oid == t.oid
    ensures VenueRecord(t, status, px, sz).fillSum == t.fillSum
    ensures VenueRecord(t, status, px, sz).fillNotional == t.fillNotional
    ensures VenueRecord(t, status, px, sz).oid == t.oid
  {}

  lemma SetOidCarries(tb: Table, k: Cloid, oid: nat, c: Cloid)
    requires k in tb.orders
    ensures Carries(tb, SetOid(tb, k, oid), c)
  {}

  ghost predicate SameSums(t: Tracked, t': Tracked) {
    t.oid == t'.oid && t.fillSum == t'.fillSum && t.fillNotional == t'.fillNotional
  }

  lemma StatusCarries(tb: Table, k: Cloid, oid: nat, status: VenueStatus, px: int, sz: int, c: Cloid)
    requires k in tb.orders
    ensures Carries(tb, ApplyVenueStatus(SetOid(tb, k, oid), k, status, px, sz), c)
  {
    var tb1 := SetOid(tb, k, oid);
    SetOidCarries(tb, k, oid, c);
    RecordsKeepSum(Get(tb1, k), Ack(Success, 0, 0, 0), status, px, sz);
    assert SameSums(Get(tb1, c), Get(ApplyVenueStatus(tb1, k, status, px, sz), c));
  }

  lemma UpdateStatusSums(tb: Table, k: Cloid, u: OrderUpdate, c: Cloid)
    requires k in tb.orders
    ensures SameSums(Get(tb, c), Get(UpdateStatus(tb, k, u), c))
  {
    RecordsKeepSum(Get(tb, k), Ack(Success, 0, 0, 0), u.status, u.limitPx, u.origSz);
  }

  lemma UpdateKnownCarries(tb: Table, k: Cloid, u: OrderUpdate, c: Cloid)
    requires k in tb.orders
    ensures Carries(tb, UpdateKnown(tb, k, u), c)
  {
    var t := Get(tb, k);
    var tb1 := if UpdateChangesOid(t, u) && t.modifyPending then Put(tb, k, Retire(t, t.oid)) else tb;
    assert SameSums(Get(tb, c), Get(tb1, c));
    SetOidCarries(tb1, k, u.oid, c);
    UpdateStatusSums(SetOid(tb1, k, u.oid), k, u, c);
  }

  lemma UpdateCarries(tb: Table, u: OrderUpdate, c: Cloid)
    ensures Carries(tb, OnOrderUpdate(tb, u), c)
  {
    var known := Resolve(tb, u.cloid, u.oid);
    if known.Some? {
      UpdateKnownCarries(tb, known.value, u, c);
    } else {
      var k := KeyOf(u.cloid, u.oid);
      var tb0 := Put(tb, k, Get(tb, k).(px := u.limitPx, origSz := u.origSz, external := true));
      assert SameSums(Get(tb, c), Get(tb0, c));
      SetOidCarries(tb0, k, u.oid, c);
      var tb1 := TrackExternal(tb, k, u);
      TrackedUpdateSums(tb1, k, u, c);
    }
  }

  lemma TrackedUpdateSums(tb: Table, k: Cloid, u: OrderUpdate, c: Cloid)
    requires k in tb.orders && (u.oid == 0 || u.oid == Get(tb, k).oid)
    ensures SameSums(Get(tb, c), Get(UpdateKnown(tb, k, u), c))
  {
    UpdateStatusSums(tb, k, u, c);
  }

  lemma ProbeCarries(tb: Table, d: Cloid, answer: ProbeAnswer, c: Cloid)
    ensures Carries(tb, OnProbe(tb, d, answer), c)
  {
    if answer.Found? && d in tb.orders {
      var tb1 := Put(tb, d, Get(tb, d).(notFoundProbes := 0));
      assert SameSums(Get(tb, c), Get(tb1, c));
      StatusCarries(tb1, d, answer.oid, answer.status, answer.limitPx, answer.origSz, c);
    }
  }

  lemma AckCarries(tb: Table, d: Cloid, a: Ack, c: Cloid)
    requires d in tb.orders
    ensures Carries(tb, ApplyAck(tb, d, a), c)
    ensures a.oid == 0 || a.oid == tb.orders[d].oid ==> SameSums(Get(tb, c), Get(ApplyAck(tb, d, a), c))
  {
    var tb1 := if a.kind.Resting? || a.kind.AckFilled? then SetOid(tb, d, a.oid) else tb;
    SetOidCarries(tb, d, a.oid, c);
    RecordsKeepSum(Get(tb1, d), a, VOpen, 0, 0);
    assert SameSums(Get(tb1, c), Get(ApplyAck(tb, d, a), c));
  }

  lemma AmendedCarries(tb: Table, d: Cloid, oid: nat, target: Option<(int, int)>, c: Cloid)
    requires d in tb.orders
    ensures Carries(tb, AmendedTable(tb, d, oid, target), c)
    ensures oid == 0 || oid == Get(AmendedTable(tb, d, oid, target), d).oid
  {
    var t := Amended(Get(tb, d), oid, target);
    assert SameSums(Get(tb, d), t);
    SetOidCarries(Put(tb, d, t), d, oid, c);
    assert SameSums(Get(tb, c), Get(Put(tb, d, t), c));
  }

  lemma ModifiedCarries(tb: Table, d: Cloid, a: Ack, target: Option<(int, int)>, c: Cloid)
    requires d in tb.orders
    ensures Carries(tb, OnModified(tb, d, a, target), c)
  {
    AmendedCarries(tb, d, a.oid, target, c);
    AckCarries(AmendedTable(tb, d, a.oid, target), d, a, c);
  }

  lemma ActionCarries(tb: Table, d: Cloid, kind: ActionKind, outcome: Outcome, target: Option<(int, int)>, c: Cloid)
    ensures Carries(tb, OnActionResult(tb, d, kind, outcome, target), c)
  {
    if d in tb.orders && outcome.Status? {
      if kind.OrderAction? {
        AckCarries(tb, d, outcome.ack, c);
      } else if kind.ModifyAction? {
        var tb1 := Put(tb, d, Get(tb, d).(modifyPending := false));
        assert SameSums(Get(tb, c), Get(tb1, c));
        ModifiedCarries(tb1, d, outcome.ack, target, c);
      }
    }
  }

  lemma {:induction false} PlaceSums(tb: Table, requests: seq<(Cloid, int, int)>, c: Cloid)
    ensures SameSums(Get(tb, c), Get(PlaceAll(tb, requests), c))
    decreases requests
  {
    if requests != [] {
      var (k, px, sz) := requests[0];
      PlaceSums(Put(tb, k, Get(tb, k).(px := px, origSz := sz, state := PendingNew)), requests[1..], c);
    }
  }

  lemma FillKnownSums(tb: Table, k: Cloid, f: FillMsg, c: Cloid)
    requires k in tb.orders
    ensures var t, t' := Get(tb, c), Get(FillKnown(tb, k, f), c);
            if c != k || StaleFill(t, f) then t' == t
            else if t.oid == 0 || t'.oid == t.oid
            then t'.fillSum == t.fillSum + f.sz && t'.fillNotional == t.fillNotional + f.px * f.sz
            else t'.fillSum == f.sz && t'.fillNotional == f.px * f.sz
  {
    var tb2 := if f.oid != 0 && Get(tb, k).oid != 0 then SetOid(tb, k, f.oid) else tb;
    var t2 := Get(tb2, k);
    assert FillRecord(t2, f.px, f.sz).fillSum == t2.fillSum + f.sz;
    assert FillRecord(t2, f.px, f.sz).fillNotional == t2.fillNotional + f.px * f.sz;
    assert FillRecord(t2, f.px, f.sz).oid == t2.oid;
  }

  lemma FillSums(tb: Table, f: FillMsg, historical: bool, c: Cloid)
    ensures var e := Traded(f, historical);
            && Get(Step(tb, e), c).fillSum
              == (if Restarts(tb, e, c) then 0 else Get(tb, c).fillSum) + CreditSz(tb, e, c)
            && Get(Step(tb, e), c).fillNotional
               == (if Restarts(tb, e, c) then 0 else Get(tb, c).fillNotional) + CreditNotional(tb, e, c)
  {
    var tb1 := Remember(tb, f.tid);
    var known := Resolve(tb1, f.cloid, f.oid);
    assert known == Resolve(tb, f.cloid, f.oid);
    assert Get(tb1, c) == Get(tb, c);
    if known.Some? { FillKnownSums(tb1, known.value, f, c); }
  }

  lemma ReviveSums(tb: Table, k: Cloid, open: OpenOrder)
    requires k in tb.orders && tb.orders[k].oid != open.oid
    ensures var t, t' := tb.orders[k], Get(Revive(tb, k, open), k);
            && t'.oid == (if open.oid == 0 then t.oid else open.oid)
            && t'.fillSum
              == (if Seed(open) > 0 then Seed(open) else if t.oid != 0 && open.oid != 0 then 0 else t.fillSum)
            && t'.fillNotional == (if Seed(open) > 0 then open.limitPx * Seed(open)
                                   else if t.oid != 0 && open.oid != 0 then 0 else t.fillNotional)
  {
    var tb0 := Put(tb, k, Get(tb, k).(state := Open));
    var tb1 := SetOid(tb0, k, open.oid);
    RecordsKeepSum(SeedFilled(Get(tb1, k), open), Ack(Success, 0, 0, 0), VOpen, open.limitPx, open.origSz);
  }

  lemma ListedSums(tb: Table, open: OpenOrder, c: Cloid)
    requires c in OnListed(tb, open).orders
    ensures Get(OnListed(tb, open), c).fillSum == BaseSz(tb, Listed(open), c)
    ensures Get(OnListed(tb, open), c).fillNotional == BaseNotional(tb, Listed(open), c)
  {
    if Revives(tb, Listed(open), c) {
      ReviveSums(tb, c, open);
    } else if c in tb.orders {
      ListedAdvances(tb, open, c);
    }
  }

  /** Every message but a fill and a listing credits nothing to any order. */
  lemma QuietStep(tb: Table, e: Event, c: Cloid)
    requires !e.Traded? && !e.Listed? && c in Step(tb, e).orders
    ensures Carries(tb, Step(tb, e), c)
  {
    match e
    case Placed(requests) => PlaceSums(tb, requests, c);
    case CancelSent(_) =>
    case CancelByOidSent(_) =>
    case ModifySent(_) =>
    case ActionResult(d, kind, outcome, target) => ActionCarries(tb, d, kind, outcome, target, c);
    case Updated(u) => UpdateCarries(tb, u, c);
    case Probed(d, answer) => ProbeCarries(tb, d, answer, c);
    case AmendMatched(d, open) =>
      if d in tb.orders { StatusCarries(tb, d, open.oid, VOpen, open.limitPx, open.origSz, c); }
    case LiveMatched(d, open) =>
      if d in tb.orders { StatusCarries(tb, d, open.oid, VOpen, open.limitPx, open.origSz, c); }
    case VenueCanceled(oid) =>
    case Evicted(_) =>
  }

  /**
    * The exact effect of any one message on the fill sum and notional of any tracked order: what its generation started
    * from plus the new execution the message carries.
    */
  lemma StepCredits(tb: Table, e: Event, c: Cloid)
    requires c in Step(tb, e).orders
    ensures Get(Step(tb, e), c).fillSum == BaseSz(tb, e, c) + CreditSz(tb, e, c)
    ensures Get(Step(tb, e), c).fillNotional == BaseNotional(tb, e, c) + CreditNotional(tb, e, c)
  {
    if e.Traded? {
      FillSums(tb, e.f, e.historical, c);
    } else if e.Listed? {
      ListedSums(tb, e.open, c);
    } else {
      QuietStep(tb, e, c);
    }
  }

  // ── whole runs ──────────────────────────────────────────────────────────────

  /** The step opens a generation: the order is new, changes its exchange id or is seeded by a listing. */
  ghost predicate Opens(tb: Table, e: Event, c: Cloid) { Seeds(tb, e, c) || Restarts(tb, e, c) }

  /** What the venue says was filled before the generation opened. */
  ghost function OpeningSz(tb: Table, e: Event, c: Cloid): int { if Seeds(tb, e, c) then Seed(e.open) else 0 }

  ghost function OpeningNotional(tb: Table, e: Event, c: Cloid): int {
    if Seeds(tb, e, c) then e.open.limitPx * Seed(e.open) else 0
  }

  /** Opening amount of the generation the run ends in, plus the new executions credited to it since. */
  ghost function LedgerSz(es: seq<Event>, c: Cloid): int {
    if es == [] then 0
    else
      var front, e := es[..|es| - 1], es[|es| - 1];
      var tb := Run(EMPTY, front);
      (if Opens(tb, e, c) then OpeningSz(tb, e, c) else LedgerSz(front, c)) + CreditSz(tb, e, c)
  }

  ghost function LedgerNotional(es: seq<Event>, c: Cloid): int {
    if es == [] then 0
    else
      var front, e := es[..|es| - 1], es[|es| - 1];
      var tb := Run(EMPTY, front);
      (if Opens(tb, e, c) then OpeningNotional(tb, e, c) else LedgerNotional(front, c)) + CreditNotional(tb, e, c)
  }

  /**
    * Over every run, through amendments, seeds, evictions and returns, the fill sum and notional of every tracked order
    * are those of the ledger of its current generation.
    */
  lemma {:induction false} GenerationLedger(es: seq<Event>, c: Cloid)
    requires c in Run(EMPTY, es).orders
    ensures Run(EMPTY, es).orders[c].fillSum == LedgerSz(es, c)
    ensures Run(EMPTY, es).orders[c].fillNotional == LedgerNotional(es, c)
  {
    if es != [] {
      var front, e := es[..|es| - 1], es[|es| - 1];
      var tb := Run(EMPTY, front);
      StepCredits(tb, e, c);
      if c in tb.orders { GenerationLedger(front, c); }
    }
  }
}
