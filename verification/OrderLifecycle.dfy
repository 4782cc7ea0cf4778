/** Lifecycle and generations: which way states and exchange ids can move. */
module OrderLifecycle {
  import opened Basics
  import opened OrderTable
  import opened OrderSafety

  // ── states ──────────────────────────────────────────────────────────────────

  /** Terminal states only upgrade to Filled, and nothing becomes pending again. */
  ghost predicate Advances(s: OrderState, s': OrderState) {
    && (IsTerminal(s) ==> s' == s || s'.Filled?)
    && (!s.PendingNew? ==> !s'.PendingNew?)
  }

  ghost predicate AllAdvance(tb: Table, tb': Table) {
    forall c :: c in tb.orders ==> c in tb'.orders && Advances(tb.orders[c].state, tb'.orders[c].state)
  }

  lemma AdvanceChain(tb: Table, tb1: Table, tb2: Table)
    requires AllAdvance(tb, tb1) && AllAdvance(tb1, tb2)
    ensures AllAdvance(tb, tb2)
  {}

  lemma PutAdvances(tb: Table, c: Cloid, t: Tracked)
    requires Advances(Get(tb, c).state, t.state)
    ensures AllAdvance(tb, Put(tb, c, t))
  {}

  lemma SetOidAdvances(tb: Table, c: Cloid, oid: nat)
    ensures AllAdvance(tb, SetOid(tb, c, oid))
  {}

  lemma AckAdvances(tb: Table, c: Cloid, a: Ack)
    ensures AllAdvance(tb, ApplyAck(tb, c, a))
  {
    var tb1 := if a.kind.Resting? || a.kind.AckFilled? then SetOid(tb, c, a.oid) else tb;
    SetOidAdvances(tb, c, a.oid);
    PutAdvances(tb1, c, AckRecord(Get(tb1, c), a));
    AdvanceChain(tb, tb1, ApplyAck(tb, c, a));
  }

  lemma VenueAdvances(tb: Table, c: Cloid, status: VenueStatus, px: int, sz: int)
    ensures AllAdvance(tb, ApplyVenueStatus(tb, c, status, px, sz))
  {
    PutAdvances(tb, c, VenueRecord(Get(tb, c), status, px, sz));
  }

  lemma SetThenVenueAdvances(tb: Table, c: Cloid, oid: nat, status: VenueStatus, px: int, sz: int)
    ensures AllAdvance(tb, ApplyVenueStatus(SetOid(tb, c, oid), c, status, px, sz))
  {
    SetOidAdvances(tb, c, oid);
    VenueAdvances(SetOid(tb, c, oid), c, status, px, sz);
    AdvanceChain(tb, SetOid(tb, c, oid), ApplyVenueStatus(SetOid(tb, c, oid), c, status, px, sz));
  }

  lemma UpdateStatusAdvances(tb: Table, c: Cloid, u: OrderUpdate)
    ensures AllAdvance(tb, UpdateStatus(tb, c, u))
  {
    VenueAdvances(tb, c, u.status, u.limitPx, u.origSz);
    PutAdvances(tb, c, Get(tb, c).(canceledDuringModify := true));
  }

  lemma UpdateKnownAdvances(tb: Table, c: Cloid, u: OrderUpdate)
    ensures AllAdvance(tb, UpdateKnown(tb, c, u))
  {
    var t := Get(tb, c);
    var tb1 := if UpdateChangesOid(t, u) && t.modifyPending then Put(tb, c, Retire(t, t.oid)) else tb;
    var tb2 := SetOid(tb1, c, u.oid);
    PutAdvances(tb, c, Retire(t, t.oid));
    SetOidAdvances(tb1, c, u.oid);
    UpdateStatusAdvances(tb2, c, u);
    AdvanceChain(tb, tb1, tb2);
    AdvanceChain(tb, tb2, UpdateStatus(tb2, c, u));
  }

  predicate UpdateChangesOid(t: Tracked, u: OrderUpdate) { u.oid != 0 && t.oid != 0 && u.oid != t.oid }

  lemma UpdateAdvances(tb: Table, u: OrderUpdate)
    ensures AllAdvance(tb, OnOrderUpdate(tb, u))
  {
    var known := Resolve(tb, u.cloid, u.oid);
    if known.Some? {
      UpdateKnownAdvances(tb, known.value, u);
    } else {
      var c := KeyOf(u.cloid, u.oid);
      var tb1 := Put(tb, c, Get(tb, c).(px := u.limitPx, origSz := u.origSz, external := true));
      var tb2 := TrackExternal(tb, c, u);
      PutAdvances(tb, c, Get(tb, c).(px := u.limitPx, origSz := u.origSz, external := true));
      SetOidAdvances(tb1, c, u.oid);
      UpdateKnownAdvances(tb2, c, u);
      AdvanceChain(tb, tb1, tb2);
      AdvanceChain(tb, tb2, UpdateKnown(tb2, c, u));
    }
  }

  lemma FillAdvances(tb: Table, f: FillMsg, historical: bool)
    ensures AllAdvance(tb, OnUserFill(tb, f, historical))
  {
    var tb1 := Remember(tb, f.tid);
    var known := Resolve(tb1, f.cloid, f.oid);
    if f.tid !in tb.seenTids && known.Some? {
      var c := known.value;
      var tb2 := if f.oid != 0 && Get(tb1, c).oid != 0 then SetOid(tb1, c, f.oid) else tb1;
      SetOidAdvances(tb1, c, f.oid);
      PutAdvances(tb2, c, FillRecord(Get(tb2, c), f.px, f.sz));
      AdvanceChain(tb1, tb2, Put(tb2, c, FillRecord(Get(tb2, c), f.px, f.sz)));
    }
  }

  lemma ProbeAdvances(tb: Table, c: Cloid, answer: ProbeAnswer)
    ensures AllAdvance(tb, OnProbe(tb, c, answer))
  {
    var t := Get(tb, c);
    if answer.Found? {
      var tb1 := Put(tb, c, t.(notFoundProbes := 0));
      PutAdvances(tb, c, t.(notFoundProbes := 0));
      SetThenVenueAdvances(tb1, c, answer.oid, answer.status, answer.limitPx, answer.origSz);
    }
  }

  lemma AmendedAdvances(tb: Table, c: Cloid, oid: nat, target: Option<(int, int)>)
    ensures AllAdvance(tb, AmendedTable(tb, c, oid, target))
  {
    var tb1 := Put(tb, c, Amended(Get(tb, c), oid, target));
    var tb2 := SetOid(tb1, c, oid);
    PutAdvances(tb, c, Amended(Get(tb, c), oid, target));
    SetOidAdvances(tb1, c, oid);
    PutAdvances(tb2, c, Get(tb2, c).(canceledDuringModify := false));
    AdvanceChain(tb, tb1, tb2);
    AdvanceChain(tb, tb2, AmendedTable(tb, c, oid, target));
  }

  lemma ModifiedAdvances(tb: Table, c: Cloid, a: Ack, target: Option<(int, int)>)
    ensures AllAdvance(tb, OnModified(tb, c, a, target))
  {
    AmendedAdvances(tb, c, a.oid, target);
    AckAdvances(AmendedTable(tb, c, a.oid, target), c, a);
    AdvanceChain(tb, AmendedTable(tb, c, a.oid, target), OnModified(tb, c, a, target));
  }

  lemma ActionAdvances(tb: Table, c: Cloid, kind: ActionKind, outcome: Outcome, target: Option<(int, int)>)
    ensures AllAdvance(tb, OnActionResult(tb, c, kind, outcome, target))
  {
    match kind
    case OrderAction => if outcome.Status? { AckAdvances(tb, c, outcome.ack); }
    case CancelAction =>
    case ModifyAction =>
      if outcome.Status? {
        var tb1 := Put(tb, c, Get(tb, c).(modifyPending := false));
        PutAdvances(tb, c, Get(tb, c).(modifyPending := false));
        ModifiedAdvances(tb1, c, outcome.ack, target);
        AdvanceChain(tb, tb1, OnModified(tb1, c, outcome.ack, target));
      }
    case OtherAction =>
  }

  lemma {:induction false} PlaceTouchesNew(tb: Table, requests: seq<(Cloid, int, int)>, d: Cloid)
    requires d in tb.orders && forall r :: r in requests ==> r.0 != d
    ensures d in PlaceAll(tb, requests).orders && PlaceAll(tb, requests).orders[d] == tb.orders[d]
    decreases requests
  {
    if requests != [] {
      var (c, px, sz) := requests[0];
      assert requests[0] in requests;
      assert forall r :: r in requests[1..] ==> r in requests;
      PlaceTouchesNew(Put(tb, c, Get(tb, c).(px := px, origSz := sz, state := PendingNew)), requests[1..], d);
    }
  }

  lemma PlaceAdvances(tb: Table, requests: seq<(Cloid, int, int)>)
    ensures AllAdvance(tb, OnPlace(tb, requests))
  {
    if forall r :: r in requests ==> r.0 !in tb.orders {
      forall d | d in tb.orders
        ensures d in PlaceAll(tb, requests).orders && PlaceAll(tb, requests).orders[d] == tb.orders[d]
      {
        PlaceTouchesNew(tb, requests, d);
      }
    }
  }

  /** Anything but a listing or an eviction. */
  predicate IsMessage(e: Event) { !e.Listed? && !e.Evicted? }

  /** A message keeps every order tracked and moves all of them forward. */
  lemma MessageAdvances(tb: Table, e: Event)
    requires IsMessage(e)
    ensures AllAdvance(tb, Step(tb, e))
  {
    match e
    case Placed(requests) => PlaceAdvances(tb, requests);
    case CancelSent(d) => SendAdvances(tb, d, 0);
    case CancelByOidSent(oid) => SendAdvances(tb, ExternalCloid(0), oid);
    case ModifySent(d) => SendAdvances(tb, d, 0);
    case ActionResult(d, kind, outcome, target) => ActionAdvances(tb, d, kind, outcome, target);
    case VenueCanceled(oid) => SendAdvances(tb, ExternalCloid(0), oid);
    case _ => ReportAdvances(tb, e);
  }

  lemma ReportAdvances(tb: Table, e: Event)
    requires e.Updated? || e.Traded? || e.Probed? || e.AmendMatched? || e.LiveMatched?
    ensures AllAdvance(tb, Step(tb, e))
  {
    match e
    case Updated(u) => UpdateAdvances(tb, u);
    case Traded(f, historical) => FillAdvances(tb, f, historical);
    case Probed(d, answer) => ProbeAdvances(tb, d, answer);
    case AmendMatched(d, open) => SetThenVenueAdvances(tb, d, open.oid, VOpen, open.limitPx, open.origSz);
    case LiveMatched(d, open) => SetThenVenueAdvances(tb, d, open.oid, VOpen, open.limitPx, open.origSz);
  }

  lemma SendAdvances(tb: Table, c: Cloid, oid: nat)
    ensures AllAdvance(tb, OnCancelSent(tb, c)) && AllAdvance(tb, OnModifySent(tb, c))
    ensures AllAdvance(tb, OnCancelByOidSent(tb, oid)) && AllAdvance(tb, OnVenueCancel(tb, oid))
  {
    var known := FindByOid(tb, oid);
    if known.Some? { VenueAdvances(tb, known.value, VCanceled, 0, 0); }
  }

  lemma {:induction false} MessagesAdvance(tb: Table, es: seq<Event>)
    requires forall i :: 0 <= i < |es| ==> IsMessage(es[i])
    ensures AllAdvance(tb, Run(tb, es))
  {
    if es != [] {
      var front := es[..|es| - 1];
      MessagesAdvance(tb, front);
      MessageAdvances(Run(tb, front), es[|es| - 1]);
      AdvanceChain(tb, Run(tb, front), Run(tb, es));
    }
  }

  /** The listing names an exchange id the table does not have for this buried order. */
  ghost predicate Revives(tb: Table, e: Event, c: Cloid) {
    && e.Listed? && c in tb.orders && c == KeyOf(e.open.cloid, e.open.oid)
    && IsTerminal(tb.orders[c].state) && tb.orders[c].oid != e.open.oid
  }

  lemma ListedAdvances(tb: Table, open: OpenOrder, c: Cloid)
    requires c in tb.orders
    ensures c in OnListed(tb, open).orders
    ensures !Revives(tb, Listed(open), c) ==> OnListed(tb, open).orders[c] == tb.orders[c]
    ensures Revives(tb, Listed(open), c) ==>
              var s := OnListed(tb, open).orders[c].state;
              s.Open? || s.PartiallyFilled?
  {
    ReviveWorks(tb, KeyOf(open.cloid, open.oid), open);
  }

  lemma ReviveWorks(tb: Table, c: Cloid, open: OpenOrder)
    ensures c in Revive(tb, c, open).orders
    ensures var s := Revive(tb, c, open).orders[c].state; s.Open? || s.PartiallyFilled?
    ensures forall d :: d in tb.orders && d != c ==> d in Revive(tb, c, open).orders
                                                     && Revive(tb, c, open).orders[d] == tb.orders[d]
  {
    var tb' := SetOid(Put(tb, c, Get(tb, c).(state := Open)), c, open.oid);
    SeededWorks(Get(tb', c), open);
  }

  lemma SeededWorks(t: Tracked, open: OpenOrder)
    requires t.state.Open?
    ensures var s := VenueRecord(SeedFilled(t, open), VOpen, open.limitPx, open.origSz).state;
            s.Open? || s.PartiallyFilled?
  {}

  /**
    * One step: a tracked order that stays tracked moves forward, unless a listing names it under another exchange id,
    * in which case it is working again.
    */
  lemma StepAdvances(tb: Table, e: Event, c: Cloid)
    requires c in tb.orders && c in Step(tb, e).orders
    ensures var s, s' := tb.orders[c].state, Step(tb, e).orders[c].state;
            if Revives(tb, e, c) then s'.Open? || s'.PartiallyFilled? else Advances(s, s')
  {
    if e.Listed? {
      ListedAdvances(tb, e.open, c);
    } else if !e.Evicted? {
      MessageAdvances(tb, e);
    }
  }

  /** The order is in the table after every prefix of the run. */
  ghost predicate StaysTracked(tb: Table, es: seq<Event>, c: Cloid) {
    forall i :: 0 <= i <= |es| ==> c in Run(tb, es[..i]).orders
  }

  ghost predicate NeverRevived(tb: Table, es: seq<Event>, c: Cloid) {
    forall i :: 0 <= i < |es| ==> !Revives(Run(tb, es[..i]), es[i], c)
  }

  /**
    * Over every run that keeps the order in the table: once terminal it ends in the same state or Filled unless a
    * listing revived it, and it is never pending again once it has left that state.
    */
  lemma {:induction false} TerminalIsSticky(tb: Table, es: seq<Event>, c: Cloid)
    requires StaysTracked(tb, es, c)
    ensures c in tb.orders && c in Run(tb, es).orders
    ensures NeverRevived(tb, es, c) ==> Advances(tb.orders[c].state, Run(tb, es).orders[c].state)
    ensures !tb.orders[c].state.PendingNew? ==> !Run(tb, es).orders[c].state.PendingNew?
  {
    assert es[..0] == [] && es[..|es|] == es;
    if es != [] {
      var n := |es| - 1;
      var front := es[..n];
      assert forall i :: 0 <= i <= n ==> front[..i] == es[..i];
      TerminalIsSticky(tb, front, c);
      StepAdvances(Run(tb, front), es[n], c);
    }
  }
}
