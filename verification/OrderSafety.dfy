/** What every step of the order table keeps, over whole runs. */
module OrderSafety {
  import opened Basics
  import opened OrderTable

  /** Filled size and average price are always the ones the accounting fields imply. */
  ghost predicate Accounted(t: Tracked) {
    t.filledSz == Max(t.fillSum, t.ackFilledSz) && t.avgFillPx == AvgPx(t)
  }

  ghost predicate AllAccounted(tb: Table) {
    forall c :: c in tb.orders ==> Accounted(tb.orders[c])
  }

  /** Every index entry names a tracked order whose current exchange id is the key. */
  ghost predicate Indexed(tb: Table) {
    forall o :: o in tb.oidIndex ==> o != 0 && tb.oidIndex[o] in tb.orders && tb.orders[tb.oidIndex[o]].oid == o
  }

  /** The trade-id set is exactly the FIFO window, which holds no duplicate and never outgrows its bound. */
  ghost predicate Windowed(tb: Table) {
    |tb.seenTidOrder| <= MAX_REMEMBERED_TIDS && Mirrors(tb.seenTids, tb.seenTidOrder)
  }

  /** The ids in arrival order, none twice. */
  ghost predicate Mirrors(tids: set<nat>, order: seq<nat>) {
    && (forall tid :: tid in tids <==> tid in order)
    && (forall i, j :: 0 <= i < j < |order| ==> order[i] != order[j])
  }

  ghost predicate Safe(tb: Table) { Indexed(tb) && AllAccounted(tb) && Windowed(tb) }

  // ── primitives ──────────────────────────────────────────────────────────────

  lemma PutKeepsSafe(tb: Table, c: Cloid, t: Tracked)
    requires Safe(tb) && t.oid == Get(tb, c).oid && Accounted(t)
    ensures Safe(Put(tb, c, t))
  {}

  lemma SetOidKeepsSafe(tb: Table, c: Cloid, oid: nat)
    requires Safe(tb)
    ensures Safe(SetOid(tb, c, oid))
  {
    assert Accounted(Get(tb, c));
  }

  lemma EvictKeepsSafe(tb: Table, c: Cloid)
    requires Safe(tb)
    ensures Safe(OnEvict(tb, c))
  {}

  lemma AckRecordKeeps(t: Tracked, a: Ack)
    requires Accounted(t)
    ensures Accounted(AckRecord(t, a)) && AckRecord(t, a).oid == t.oid
  {
    if a.kind.AckFilled? { RecomputedIsAccounted(t.(ackFilledSz := a.totalSz, ackAvgPx := a.avgPx)); }
  }

  lemma RecomputedIsAccounted(t: Tracked)
    ensures Accounted(RecomputeFills(t))
  {}

  lemma VenueRecordKeeps(t: Tracked, status: VenueStatus, px: int, sz: int)
    requires Accounted(t)
    ensures Accounted(VenueRecord(t, status, px, sz)) && VenueRecord(t, status, px, sz).oid == t.oid
  {}

  lemma AckKeepsSafe(tb: Table, c: Cloid, a: Ack)
    requires Safe(tb)
    ensures Safe(ApplyAck(tb, c, a))
  {
    SetOidKeepsSafe(tb, c, a.oid);
    var tb' := if a.kind.Resting? || a.kind.AckFilled? then SetOid(tb, c, a.oid) else tb;
    AckRecordKeeps(Get(tb', c), a);
    PutKeepsSafe(tb', c, AckRecord(Get(tb', c), a));
  }

  lemma VenueKeepsSafe(tb: Table, c: Cloid, status: VenueStatus, px: int, sz: int)
    requires Safe(tb)
    ensures Safe(ApplyVenueStatus(tb, c, status, px, sz))
  {
    VenueRecordKeeps(Get(tb, c), status, px, sz);
    PutKeepsSafe(tb, c, VenueRecord(Get(tb, c), status, px, sz));
  }

  // ── handlers ────────────────────────────────────────────────────────────────

  lemma UpdateStatusKeepsSafe(tb: Table, c: Cloid, u: OrderUpdate)
    requires Safe(tb)
    ensures Safe(UpdateStatus(tb, c, u))
  {
    VenueKeepsSafe(tb, c, u.status, u.limitPx, u.origSz);
    PutKeepsSafe(tb, c, Get(tb, c).(canceledDuringModify := true));
  }

  lemma UpdateKnownKeepsSafe(tb: Table, c: Cloid, u: OrderUpdate)
    requires Safe(tb)
    ensures Safe(UpdateKnown(tb, c, u))
  {
    var t := Get(tb, c);
    PutKeepsSafe(tb, c, Retire(t, t.oid));
    var tb' := if t.modifyPending then Put(tb, c, Retire(t, t.oid)) else tb;
    SetOidKeepsSafe(tb', c, u.oid);
    UpdateStatusKeepsSafe(SetOid(tb', c, u.oid), c, u);
    SetOidKeepsSafe(tb, c, u.oid);
    UpdateStatusKeepsSafe(SetOid(tb, c, u.oid), c, u);
  }

  lemma UpdateKeepsSafe(tb: Table, u: OrderUpdate)
    requires Safe(tb)
    ensures Safe(OnOrderUpdate(tb, u))
  {
    var known := Resolve(tb, u.cloid, u.oid);
    if known.Some? {
      UpdateKnownKeepsSafe(tb, known.value, u);
    } else {
      var c := KeyOf(u.cloid, u.oid);
      var t := Get(tb, c).(px := u.limitPx, origSz := u.origSz, external := true);
      PutKeepsSafe(tb, c, t);
      SetOidKeepsSafe(Put(tb, c, t), c, u.oid);
      UpdateKnownKeepsSafe(TrackExternal(tb, c, u), c, u);
    }
  }

  lemma RememberKeepsSafe(tb: Table, tid: nat)
    requires Safe(tb) && tid !in tb.seenTids
    ensures Safe(Remember(tb, tid))
  {
    WindowSlides(tb.seenTids, tb.seenTidOrder, tid);
  }

  /** The window after one more id. */
  function Remembered(order: seq<nat>, tid: nat): seq<nat> {
    if |order| + 1 > MAX_REMEMBERED_TIDS then (order + [tid])[1..] else order + [tid]
  }

  /** A new id enters the window and, when it is full, the oldest leaves. */
  lemma WindowSlides(tids: set<nat>, order: seq<nat>, tid: nat)
    requires Mirrors(tids, order) && tid !in tids
    ensures Mirrors(tids + {tid}, order + [tid])
    ensures Mirrors(tids + {tid} - {(order + [tid])[0]}, (order + [tid])[1..])
  {
    var longer := order + [tid];
    assert forall x :: x in longer <==> x in order || x == tid;
    assert longer == [longer[0]] + longer[1..];
    assert longer[0] !in longer[1..];
  }

  lemma FillKeepsSafe(tb: Table, f: FillMsg, historical: bool)
    requires Safe(tb)
    ensures Safe(OnUserFill(tb, f, historical))
  {
    if f.tid !in tb.seenTids {
      RememberKeepsSafe(tb, f.tid);
      var tb1 := Remember(tb, f.tid);
      var known := Resolve(tb1, f.cloid, f.oid);
      if known.Some? {
        var c := known.value;
        SetOidKeepsSafe(tb1, c, f.oid);
        var tb2 := if f.oid != 0 && Get(tb1, c).oid != 0 then SetOid(tb1, c, f.oid) else tb1;
        PutKeepsSafe(tb2, c, FillRecord(Get(tb2, c), f.px, f.sz));
      }
    }
  }

  lemma ProbeKeepsSafe(tb: Table, c: Cloid, answer: ProbeAnswer)
    requires Safe(tb)
    ensures Safe(OnProbe(tb, c, answer))
  {
    var t := Get(tb, c);
    if answer.Found? {
      PutKeepsSafe(tb, c, t.(notFoundProbes := 0));
      SetVenueKeepsSafe(Put(tb, c, t.(notFoundProbes := 0)), c, answer.oid, answer.status, answer.limitPx,
                        answer.origSz);
    } else {
      PutKeepsSafe(tb, c, t.(notFoundProbes := t.notFoundProbes + 1));
      PutKeepsSafe(tb, c, t.(state := Rejected));
    }
  }

  lemma SetVenueKeepsSafe(tb: Table, c: Cloid, oid: nat, status: VenueStatus, px: int, sz: int)
    requires Safe(tb)
    ensures Safe(ApplyVenueStatus(SetOid(tb, c, oid), c, status, px, sz))
  {
    SetOidKeepsSafe(tb, c, oid);
    VenueKeepsSafe(SetOid(tb, c, oid), c, status, px, sz);
  }

  lemma MatchedKeepsSafe(tb: Table, c: Cloid, open: OpenOrder)
    requires Safe(tb)
    ensures Safe(OnMatched(tb, c, open))
  {
    SetVenueKeepsSafe(tb, c, open.oid, VOpen, open.limitPx, open.origSz);
  }

  lemma ReviveKeepsSafe(tb: Table, c: Cloid, open: OpenOrder)
    requires Safe(tb)
    ensures Safe(Revive(tb, c, open))
  {
    var tb1 := Put(tb, c, Get(tb, c).(state := Open));
    PutKeepsSafe(tb, c, Get(tb, c).(state := Open));
    SetOidKeepsSafe(tb1, c, open.oid);
    var tb2 := SetOid(tb1, c, open.oid);
    PutKeepsSafe(tb2, c, SeedFilled(Get(tb2, c), open));
    VenueKeepsSafe(Put(tb2, c, SeedFilled(Get(tb2, c), open)), c, VOpen, open.limitPx, open.origSz);
  }

  lemma ListedKeepsSafe(tb: Table, open: OpenOrder)
    requires Safe(tb)
    ensures Safe(OnListed(tb, open))
  {
    var c := KeyOf(open.cloid, open.oid);
    ReviveKeepsSafe(tb, c, open);
    if c !in tb.orders {
      var t := SeedFilled(Listing(open), open);
      PutKeepsSafe(tb, c, t.(state := RestingState(t)));
      SetOidKeepsSafe(Put(tb, c, t.(state := RestingState(t))), c, open.oid);
    }
  }

  lemma AmendedKeepsSafe(tb: Table, c: Cloid, oid: nat, target: Option<(int, int)>)
    requires Safe(tb)
    ensures Safe(AmendedTable(tb, c, oid, target))
  {
    var t := Amended(Get(tb, c), oid, target);
    AmendedAccounts(tb, c, oid, target);
    PutKeepsSafe(tb, c, t);
    SetOidKeepsSafe(Put(tb, c, t), c, oid);
    ClearKeepsSafe(SetOid(Put(tb, c, t), c, oid), c);
  }

  lemma AmendedAccounts(tb: Table, c: Cloid, oid: nat, target: Option<(int, int)>)
    requires Safe(tb)
    ensures var t := Amended(Get(tb, c), oid, target); Accounted(t) && t.oid == Get(tb, c).oid
  {
    assert Accounted(Get(tb, c));
  }

  lemma ClearKeepsSafe(tb: Table, c: Cloid)
    requires Safe(tb)
    ensures Safe(Put(tb, c, Get(tb, c).(canceledDuringModify := false)))
  {
    PutKeepsSafe(tb, c, Get(tb, c).(canceledDuringModify := false));
  }

  lemma ModifiedKeepsSafe(tb: Table, c: Cloid, a: Ack, target: Option<(int, int)>)
    requires Safe(tb)
    ensures Safe(OnModified(tb, c, a, target))
  {
    AmendedKeepsSafe(tb, c, a.oid, target);
    AckKeepsSafe(AmendedTable(tb, c, a.oid, target), c, a);
  }

  lemma ActionKeepsSafe(tb: Table, c: Cloid, kind: ActionKind, outcome: Outcome, target: Option<(int, int)>)
    requires Safe(tb)
    ensures Safe(OnActionResult(tb, c, kind, outcome, target))
  {
    var t := Get(tb, c);
    match kind
    case OrderAction =>
      if outcome.Status? { AckKeepsSafe(tb, c, outcome.ack); } else { PutKeepsSafe(tb, c, RejectPending(t)); }
    case CancelAction =>
      PutKeepsSafe(tb, c, t.(cancelPending := false, state := Canceled));
      PutKeepsSafe(tb, c, t.(cancelPending := false));
    case ModifyAction =>
      PutKeepsSafe(tb, c, t.(modifyPending := false));
      if outcome.Status? { ModifiedKeepsSafe(Put(tb, c, t.(modifyPending := false)), c, outcome.ack, target); }
    case OtherAction =>
  }

  lemma {:induction false} PlaceKeepsSafe(tb: Table, requests: seq<(Cloid, int, int)>)
    requires Safe(tb)
    ensures Safe(PlaceAll(tb, requests))
    decreases requests
  {
    if requests != [] {
      var (c, px, sz) := requests[0];
      var t := Get(tb, c).(px := px, origSz := sz, state := PendingNew);
      PutKeepsSafe(tb, c, t);
      PlaceKeepsSafe(Put(tb, c, t), requests[1..]);
    }
  }

  lemma PlacesOne(tb: Table, c: Cloid, px: int, sz: int)
    requires c !in tb.orders
    ensures Step(tb, Placed([(c, px, sz)])) == Put(tb, c, BLANK.(px := px, origSz := sz))
  {
    var requests := [(c, px, sz)];
    assert requests[0] == (c, px, sz) && requests[1..] == [];
    var t := BLANK.(px := px, origSz := sz, state := PendingNew);
    assert PlaceAll(Put(tb, c, t), []) == Put(tb, c, t);
    assert PlaceAll(tb, requests) == Put(tb, c, t);
  }

  lemma SendKeepsSafe(tb: Table, c: Cloid, oid: nat)
    requires Safe(tb)
    ensures Safe(OnCancelSent(tb, c)) && Safe(OnModifySent(tb, c))
    ensures Safe(OnCancelByOidSent(tb, oid)) && Safe(OnVenueCancel(tb, oid))
  {
    PutKeepsSafe(tb, c, Get(tb, c).(cancelPending := true));
    PutKeepsSafe(tb, c, Get(tb, c).(modifyPending := true, canceledDuringModify := false));
    var known := FindByOid(tb, oid);
    if known.Some? {
      PutKeepsSafe(tb, known.value, Get(tb, known.value).(cancelPending := true));
      VenueKeepsSafe(tb, known.value, VCanceled, 0, 0);
    }
  }

  lemma StepKeepsSafe(tb: Table, e: Event)
    requires Safe(tb)
    ensures Safe(Step(tb, e))
  {
    match e
    case Placed(requests) => PlaceKeepsSafe(tb, requests);
    case CancelSent(c) => SendKeepsSafe(tb, c, 0);
    case CancelByOidSent(oid) => SendKeepsSafe(tb, ExternalCloid(0), oid);
    case ModifySent(c) => SendKeepsSafe(tb, c, 0);
    case ActionResult(c, kind, outcome, target) => ActionKeepsSafe(tb, c, kind, outcome, target);
    case Updated(u) => UpdateKeepsSafe(tb, u);
    case Traded(f, historical) => FillKeepsSafe(tb, f, historical);
    case Probed(c, answer) => ProbeKeepsSafe(tb, c, answer);
    case Listed(open) => ListedKeepsSafe(tb, open);
    case AmendMatched(c, open) => MatchedKeepsSafe(tb, c, open);
    case LiveMatched(c, open) => MatchedKeepsSafe(tb, c, open);
    case VenueCanceled(oid) => SendKeepsSafe(tb, ExternalCloid(0), oid);
    case Evicted(c) => EvictKeepsSafe(tb, c);
  }

  lemma {:induction false} SafeRun(tb: Table, es: seq<Event>)
    requires Safe(tb)
    ensures Safe(Run(tb, es))
  {
    if es != [] {
      SafeRun(tb, es[..|es| - 1]);
      StepKeepsSafe(Run(tb, es[..|es| - 1]), es[|es| - 1]);
    }
  }

  /** Safety over every run of messages in any order. */
  lemma RunKeepsSafe(es: seq<Event>)
    ensures Safe(Run(EMPTY, es))
  {
    SafeRun(EMPTY, es);
  }

  /** A lookup by exchange id never answers under a superseded id. */
  lemma LookupIsCurrent(es: seq<Event>, oid: nat)
    ensures FindByOid(Run(EMPTY, es), oid).Some? ==>
              Get(Run(EMPTY, es), FindByOid(Run(EMPTY, es), oid).value).oid == oid
  {
    RunKeepsSafe(es);
  }
}
