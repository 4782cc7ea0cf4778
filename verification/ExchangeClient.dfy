/**
  * The client object: handlers that update the table in place, each proved to perform the steps of the state machine.
  */
module ExchangeClient {
  import opened Basics
  import opened OrderTable
  import opened OrderSafety
  import opened OrderLifecycle
  import S = OrderStates

  function UpdateEvents(us: seq<OrderUpdate>): seq<Event> { seq(|us|, i requires 0 <= i < |us| => Updated(us[i])) }

  function FillEvents(fs: seq<FillMsg>, historical: bool): seq<Event> {
    seq(|fs|, i requires 0 <= i < |fs| => Traded(fs[i], historical))
  }

  function ListingEvents(os: seq<OpenOrder>): seq<Event> { seq(|os|, i requires 0 <= i < |os| => Listed(os[i])) }

  function EvictEvents(cs: seq<Cloid>): seq<Event> { seq(|cs|, i requires 0 <= i < |cs| => Evicted(cs[i])) }

  function CancelEvents(oids: seq<nat>): seq<Event> {
    seq(|oids|, i requires 0 <= i < |oids| => VenueCanceled(oids[i]))
  }

  /** The response to a signed action: a failed call, or one status per entry (possibly fewer). */
  datatype CallResult = CallError(transport: bool) | Statuses(list: seq<Ack>)

  /** What entry `i` of the action learns; one error status stands for the whole batch. */
  function OutcomeOf(result: CallResult, i: nat): Outcome {
    match result
    case CallError(transport) => CallFailed(transport)
    case Statuses(list) =>
      if i < |list| then Status(list[i])
      else if |list| == 1 && list[0].kind.AckError? then BatchError
      else NoStatus
  }

  function ActionEvents(cs: seq<Cloid>, kind: ActionKind, result: CallResult, targets: seq<(int, int)>): seq<Event> {
    seq(|cs|, i requires 0 <= i < |cs| =>
      ActionResult(cs[i], kind, OutcomeOf(result, i), if i < |targets| then Some(targets[i]) else None))
  }

  /** The venue answered a cancel with success. */
  predicate Succeeded(outcome: Outcome) { outcome.Status? && outcome.ack.kind.Success? }

  lemma CancelsSucceed(tb: Table, cs: seq<Cloid>, result: CallResult, targets: seq<(int, int)>, i: nat)
    requires i < |cs| && cs[i] in tb.orders && Succeeded(OutcomeOf(result, i))
    ensures var tb' := Run(tb, ActionEvents(cs, CancelAction, result, targets));
            cs[i] in tb'.orders && IsTerminal(tb'.orders[cs[i]].state)
  {
    S.CanceledInRun(tb, ActionEvents(cs, CancelAction, result, targets), i, cs[i]);
  }

  ghost predicate AllDistinct(cs: seq<Cloid>) { forall i, j :: 0 <= i < j < |cs| ==> cs[i] != cs[j] }

  /** With one status per order each goes by its own; one error for the whole batch refuses every order in it. */
  lemma EachByItsOwn(tb: Table, cs: seq<Cloid>, kind: ActionKind, list: seq<Ack>, targets: seq<(int, int)>, i: nat)
    requires AllDistinct(cs) && i < |cs| && cs[i] in tb.orders
    ensures var target := if i < |targets| then Some(targets[i]) else None;
            var tb' := Run(tb, ActionEvents(cs, kind, Statuses(list), targets));
            && cs[i] in tb'.orders
            && (i < |list| ==>
                  tb'.orders[cs[i]] == Get(Step(tb, ActionResult(cs[i], kind, Status(list[i]), target)), cs[i]))
            && (|list| == 1 && list[0].kind.AckError? && kind.OrderAction? && tb.orders[cs[i]].state == PendingNew ==>
                  tb'.orders[cs[i]].state == Rejected)
  {
    var es := ActionEvents(cs, kind, Statuses(list), targets);
    S.BatchIsEach(tb, es, i);
    S.RefusedOrder(tb, cs[i], OutcomeOf(Statuses(list), i), es[i].target);
  }

  /** A batch handler that has applied a prefix of its events applies one more. */
  lemma {:induction false} RunOne(tb: Table, es: seq<Event>, i: nat)
    requires i < |es|
    ensures Run(tb, es[..i + 1]) == Step(Run(tb, es[..i]), es[i])
  {
    assert es[..i + 1][..i] == es[..i];
  }

  lemma PutPut(tb: Table, c: Cloid, t: Tracked, t': Tracked)
    ensures Put(Put(tb, c, t), c, t') == Put(tb, c, t')
  {}

  class Client {
    var orders: map<Cloid, Tracked>
    var oidIndex: map<nat, Cloid>
    var seenTids: set<nat>
    var seenTidOrder: seq<nat>
    var fillsSnapshotSeen: bool

    ghost function View(): Table
      reads this
    {
      Table(orders, oidIndex, seenTids, seenTidOrder)
    }

    constructor ()
      ensures View() == EMPTY && !fillsSnapshotSeen
      ensures Safe(View())
    {
      orders, oidIndex, seenTids, seenTidOrder, fillsSnapshotSeen := map[], map[], {}, [], false;
    }

    // ── in-place primitives ───────────────────────────────────────────────────

    method SetOid(c: Cloid, oid: nat)
      requires c in orders
      modifies this`orders, this`oidIndex
      ensures View() == OrderTable.SetOid(old(View()), c, oid)
    {
      var t := orders[c];
      if oid == 0 || t.oid == oid { return; }
      if t.oid != 0 {
        oidIndex := oidIndex - {t.oid};
        t := t.(fillSum := 0, fillNotional := 0, ackFilledSz := 0, ackAvgPx := 0, filledSz := 0, avgFillPx := 0);
      }
      orders := orders[c := t.(oid := oid)];
      oidIndex := oidIndex[oid := c];
    }

    method RecomputeFills(c: Cloid)
      requires c in orders
      modifies this`orders
      ensures View() == Put(old(View()), c, OrderTable.RecomputeFills(old(orders[c])))
    {
      var t := orders[c];
      var filled := if t.fillSum < t.ackFilledSz then t.ackFilledSz else t.fillSum;
      var avg := if t.fillSum != 0 then TruncDiv(t.fillNotional, t.fillSum) else t.ackAvgPx;
      orders := orders[c := t.(filledSz := filled, avgFillPx := avg)];
    }

    method ApplyAck(c: Cloid, a: Ack)
      requires c in orders
      modifies this`orders, this`oidIndex
      ensures View() == OrderTable.ApplyAck(old(View()), c, a)
    {
      match a.kind {
        case Resting =>
          SetOid(c, a.oid);
          var t := orders[c];
          if t.state.PendingNew? {
            t := t.(state := if t.filledSz == 0 then Open else PartiallyFilled);
          }
          orders := orders[c := t];
        case AckFilled =>
          SetOid(c, a.oid);
          orders := orders[c := orders[c].(ackFilledSz := a.totalSz, ackAvgPx := a.avgPx)];
          RecomputeFills(c);
          orders := orders[c := orders[c].(state := Filled)];
        case AckError =>
          if orders[c].state.PendingNew? { orders := orders[c := orders[c].(state := Rejected)]; }
        case _ =>
          if orders[c].state.PendingNew? { orders := orders[c := orders[c].(state := Open)]; }
      }
      assert orders == OrderTable.ApplyAck(old(View()), c, a).orders;
    }

    method MarkFilled(c: Cloid)
      requires c in orders
      modifies this`orders
      ensures View() == OrderTable.ApplyVenueStatus(old(View()), c, VFilled, 0, 0)
    {
      var t := orders[c];
      if t.ackFilledSz < t.origSz { t := t.(ackFilledSz := t.origSz); }
      orders := orders[c := t];
      RecomputeFills(c);
      orders := orders[c := orders[c].(state := Filled, cancelPending := false)];
    }

    method ApplyVenueStatus(c: Cloid, status: VenueStatus, limitPx: int, origSz: int)
      requires c in orders
      modifies this`orders
      ensures View() == OrderTable.ApplyVenueStatus(old(View()), c, status, limitPx, origSz)
    {
      if status.VFilled? {
        MarkFilled(c);
        return;
      }
      var t := orders[c];
      if IsTerminal(t.state) {
        t := t.(cancelPending := false);
      } else if status.VOpen? || status.VTriggered? {
        t := Reopened(t, limitPx, origSz);
      } else if status.VCanceled? {
        t := t.(state := Canceled, cancelPending := false);
      } else if status.VRejected? {
        t := t.(state := Rejected);
      }
      assert t == VenueRecord(orders[c], status, limitPx, origSz);
      orders := orders[c := t];
    }

    method Reopened(t: Tracked, limitPx: int, origSz: int) returns (r: Tracked)
      ensures r == OpenRecord(t, limitPx, origSz)
    {
      r := t;
      if limitPx != 0 { r := r.(px := limitPx); }
      if origSz != 0 { r := r.(origSz := origSz); }
      if r.state.PendingNew? || r.state.Open? {
        r := r.(state := if r.filledSz == 0 then Open else PartiallyFilled);
      }
    }

    method Retire(c: Cloid)
      requires c in orders
      modifies this`orders
      ensures View() == Put(old(View()), c, OrderTable.Retire(old(orders[c]), old(orders[c].oid)))
    {
      var t := orders[c];
      var retired := t.retired + [t.oid];
      if |retired| > MAX_RETIRED { retired := retired[1..]; }
      orders := orders[c := t.(retired := retired)];
    }

    // ── handlers ──────────────────────────────────────────────────────────────

    method Find(cloid: Option<Cloid>, oid: nat) returns (r: Option<Cloid>)
      ensures r == Resolve(View(), cloid, oid)
      ensures Safe(View()) && r.Some? && r != cloid ==> r.value in orders && orders[r.value].oid == oid
    {
      if cloid.Some? && cloid.value in orders { return cloid; }
      if oid != 0 && oid in oidIndex && oidIndex[oid] in orders { return Some(oidIndex[oid]); }
      return None;
    }

    method OnOrderUpdate(u: OrderUpdate)
      modifies this`orders, this`oidIndex
      ensures View() == Step(old(View()), Updated(u))
    {
      var known := Find(u.cloid, u.oid);
      var c: Cloid;
      if known.None? {
        c := if u.cloid.Some? then u.cloid.value else ExternalCloid(u.oid);
        var t := if c in orders then orders[c] else BLANK;
        orders := orders[c := t.(px := u.limitPx, origSz := u.origSz, external := true)];
        SetOid(c, u.oid);
      } else {
        c := known.value;
      }
      UpdateTracked(c, u);
    }

    method UpdateTracked(c: Cloid, u: OrderUpdate)
      requires c in orders
      modifies this`orders, this`oidIndex
      ensures View() == UpdateKnown(old(View()), c, u)
    {
      var t := orders[c];
      if u.oid != 0 && t.oid != 0 && u.oid != t.oid {
        if u.oid < t.oid { return; }
        if u.oid in t.retired { return; }
        if t.modifyPending {
          if !u.status.VOpen? && !u.status.VFilled? && !u.status.VTriggered? { return; }
          Retire(c);
        }
      }
      SetOid(c, u.oid);
      t := orders[c];
      if t.modifyPending && u.oid == t.oid && u.status.VCanceled? {
        orders := orders[c := t.(canceledDuringModify := true)];
        return;
      }
      ApplyVenueStatus(c, u.status, u.limitPx, u.origSz);
    }

    method OnOrderUpdates(updates: seq<OrderUpdate>)
      requires Safe(View())
      modifies this`orders, this`oidIndex
      ensures View() == Run(old(View()), UpdateEvents(updates))
      ensures AllAdvance(old(View()), View())
      ensures Safe(View())
    {
      ghost var es := UpdateEvents(updates);
      for i := 0 to |updates|
        invariant View() == Run(old(View()), es[..i])
      {
        RunOne(old(View()), es, i);
        OnOrderUpdate(updates[i]);
      }
      assert es[..|updates|] == es;
      SafeRun(old(View()), es);
      MessagesAdvance(old(View()), es);
    }

    method OnUserFill(f: FillMsg, historical: bool)
      modifies this`orders, this`oidIndex, this`seenTids, this`seenTidOrder
      ensures View() == Step(old(View()), Traded(f, historical))
      ensures f.tid in old(seenTids) ==> View() == old(View())
    {
      if f.tid in seenTids { return; }
      seenTids := seenTids + {f.tid};
      seenTidOrder := seenTidOrder + [f.tid];
      if |seenTidOrder| > MAX_REMEMBERED_TIDS {
        seenTids := seenTids - {seenTidOrder[0]};
        seenTidOrder := seenTidOrder[1..];
      }
      if historical { return; }
      var known := Find(f.cloid, f.oid);
      if known.None? { return; }
      var c := known.value;
      var t := orders[c];
      if f.oid != 0 && t.oid != 0 && f.oid != t.oid {
        if f.oid < t.oid { return; }
        SetOid(c, f.oid);
      }
      ApplyFill(c, f.px, f.sz);
    }

    method ApplyFill(c: Cloid, px: int, sz: int)
      requires c in orders
      modifies this`orders
      ensures View() == Put(old(View()), c, FillRecord(old(orders[c]), px, sz))
    {
      ghost var tb := View();
      var t := orders[c];
      var credited := t.(fillSum := t.fillSum + sz, fillNotional := t.fillNotional + px * sz);
      orders := orders[c := credited];
      RecomputeFills(c);
      t := orders[c];
      PutPut(tb, c, credited, t);
      if !IsTerminal(t.state) {
        var done := t.(state := if t.filledSz >= t.origSz then Filled else PartiallyFilled);
        PutPut(tb, c, t, done);
        orders := orders[c := done];
      }
    }

    /** Only the first snapshot is history; later snapshots replay what was missed. */
    method OnUserFills(fills: seq<FillMsg>, isSnapshot: bool)
      requires Safe(View())
      modifies this
      ensures View() == Run(old(View()), FillEvents(fills, isSnapshot && !old(fillsSnapshotSeen)))
      ensures AllAdvance(old(View()), View())
      ensures fillsSnapshotSeen == (old(fillsSnapshotSeen) || isSnapshot)
      ensures Safe(View())
    {
      var historical := isSnapshot && !fillsSnapshotSeen;
      if isSnapshot { fillsSnapshotSeen := true; }
      ghost var es := FillEvents(fills, historical);
      for i := 0 to |fills|
        invariant View() == Run(old(View()), es[..i])
        invariant fillsSnapshotSeen == (old(fillsSnapshotSeen) || isSnapshot)
      {
        RunOne(old(View()), es, i);
        OnUserFill(fills[i], historical);
      }
      assert es[..|fills|] == es;
      SafeRun(old(View()), es);
      MessagesAdvance(old(View()), es);
    }

    method SeedFilled(c: Cloid, open: OpenOrder)
      requires c in orders
      modifies this`orders
      ensures View() == Put(old(View()), c, OrderTable.SeedFilled(old(orders[c]), open))
    {
      var filled := open.origSz - open.sz;
      if filled <= 0 {
        assert orders[c := orders[c]] == orders;
        return;
      }
      orders := orders[c := orders[c].(fillSum := filled, fillNotional := open.limitPx * filled,
                                       ackFilledSz := filled)];
      RecomputeFills(c);
    }

    method Revive(c: Cloid, open: OpenOrder)
      requires c in orders
      modifies this`orders, this`oidIndex
      ensures View() == OrderTable.Revive(old(View()), c, open)
    {
      orders := orders[c := orders[c].(state := Open)];
      SetOid(c, open.oid);
      SeedFilled(c, open);
      ApplyVenueStatus(c, VOpen, open.limitPx, open.origSz);
    }

    method AdoptOne(open: OpenOrder)
      modifies this`orders, this`oidIndex
      ensures View() == Step(old(View()), Listed(open))
    {
      var c := if open.cloid.Some? then open.cloid.value else ExternalCloid(open.oid);
      if c in orders {
        if IsTerminal(orders[c].state) && orders[c].oid != open.oid {
          Revive(c, open);
        }
        return;
      }
      var known := Find(None, open.oid);
      if known.Some? { return; }
      TrackListed(c, open);
    }

    method TrackListed(c: Cloid, open: OpenOrder)
      requires c !in orders
      modifies this`orders, this`oidIndex
      ensures var t := OrderTable.SeedFilled(Listing(open), open);
              View() == OrderTable.SetOid(Put(old(View()), c, t.(state := RestingState(t))), c, open.oid)
    {
      ghost var tb, blank := View(), Listing(open);
      orders := orders[c := BLANK.(px := open.limitPx, origSz := open.origSz, external := open.cloid.None?)];
      SeedFilled(c, open);
      PutPut(tb, c, blank, OrderTable.SeedFilled(blank, open));
      var t := orders[c];
      orders := orders[c := t.(state := if t.filledSz == 0 then Open else PartiallyFilled)];
      PutPut(tb, c, t, t.(state := RestingState(t)));
      SetOid(c, open.oid);
    }

    method AdoptFromListing(openOrders: seq<OpenOrder>)
      requires Safe(View())
      modifies this`orders, this`oidIndex
      ensures View() == Run(old(View()), ListingEvents(openOrders))
      ensures Safe(View())
    {
      ghost var es := ListingEvents(openOrders);
      for i := 0 to |openOrders|
        invariant View() == Run(old(View()), es[..i])
      {
        RunOne(old(View()), es, i);
        AdoptOne(openOrders[i]);
      }
      assert es[..|openOrders|] == es;
      SafeRun(old(View()), es);
    }

    /** The order takes the amended price and size, retires its old id and learns the new one. */
    method Amend(c: Cloid, oid: nat, target: Option<(int, int)>)
      requires c in orders
      modifies this`orders, this`oidIndex
      ensures View() == AmendedTable(old(View()), c, oid, target) && c in orders
    {
      var t := orders[c];
      if target.Some? { t := t.(px := target.value.0, origSz := target.value.1); }
      if oid != 0 && oid != t.oid && t.oid != 0 { t := OrderTable.Retire(t, t.oid); }
      orders := orders[c := t];
      SetOid(c, oid);
      orders := orders[c := orders[c].(canceledDuringModify := false)];
    }

    method ApplyModified(c: Cloid, a: Ack, target: Option<(int, int)>)
      requires c in orders
      modifies this`orders, this`oidIndex
      ensures View() == OnModified(old(View()), c, a, target)
    {
      Amend(c, a.oid, target);
      ApplyAck(c, a);
    }

    method ApplyOutcome(c: Cloid, kind: ActionKind, outcome: Outcome, target: Option<(int, int)>)
      modifies this`orders, this`oidIndex
      ensures View() == Step(old(View()), ActionResult(c, kind, outcome, target))
    {
      if c !in orders || outcome.NoStatus? { return; }
      var t := orders[c];
      match kind {
        case OrderAction =>
          if outcome.Status? {
            ApplyAck(c, outcome.ack);
          } else if !outcome.CallFailed? || !outcome.transport {
            orders := orders[c := if t.state.PendingNew? then t.(state := Rejected) else t];
          }
        case CancelAction =>
          t := t.(cancelPending := false);
          if outcome.Status? && outcome.ack.kind.Success? && !IsTerminal(t.state) { t := t.(state := Canceled); }
          orders := orders[c := t];
        case ModifyAction =>
          orders := orders[c := t.(modifyPending := false)];
          if outcome.Status? && !outcome.ack.kind.AckError? { ApplyModified(c, outcome.ack, target); }
        case OtherAction =>
      }
    }

    method ApplyActionResult(cloids: seq<Cloid>, kind: ActionKind, result: CallResult, targets: seq<(int, int)>)
      requires Safe(View())
      modifies this`orders, this`oidIndex
      ensures View() == Run(old(View()), ActionEvents(cloids, kind, result, targets))
      ensures kind.CancelAction? ==>
                forall i :: 0 <= i < |cloids| && cloids[i] in old(orders) && Succeeded(OutcomeOf(result, i)) ==>
                  cloids[i] in orders && IsTerminal(orders[cloids[i]].state)
      ensures AllAdvance(old(View()), View())
      ensures Safe(View())
    {
      ghost var es := ActionEvents(cloids, kind, result, targets);
      for i := 0 to |cloids|
        invariant View() == Run(old(View()), es[..i])
      {
        RunOne(old(View()), es, i);
        var target := if i < |targets| then Some(targets[i]) else None;
        ApplyOutcome(cloids[i], kind, OutcomeOf(result, i), target);
      }
      assert es[..|cloids|] == es;
      forall i | kind.CancelAction? && 0 <= i < |cloids| && cloids[i] in old(orders) && Succeeded(OutcomeOf(result, i))
        ensures cloids[i] in orders && IsTerminal(orders[cloids[i]].state)
      {
        CancelsSucceed(old(View()), cloids, result, targets, i);
      }
      SafeRun(old(View()), es);
      MessagesAdvance(old(View()), es);
    }

    /** Marks the order and reports whether a cancel goes out; a cancel taken back leaves no mark. */
    method Cancel(c: Cloid) returns (sent: bool)
      requires Safe(View())
      modifies this`orders
      ensures View() == Step(old(View()), CancelSent(c)) && Safe(View()) && AllAdvance(old(View()), View())
      ensures sent <==> c in old(orders) && Cancelable(old(orders)[c])
    {
      SendKeepsSafe(View(), c, 0);
      SendAdvances(View(), c, 0);
      if c !in orders || IsTerminal(orders[c].state) || orders[c].cancelPending { return false; }
      var t := orders[c];
      orders := orders[c := t.(cancelPending := true)];
      if t.external && t.oid == 0 {
        orders := orders[c := t];
        assert orders == old(orders);
        return false;
      }
      sent := true;
    }

    method Modify(c: Cloid) returns (sent: bool)
      requires Safe(View())
      modifies this`orders
      ensures View() == Step(old(View()), ModifySent(c)) && Safe(View()) && AllAdvance(old(View()), View())
      ensures sent ==> c in orders && orders[c].modifyPending && orders[c].oid != 0
      ensures !sent ==> View() == old(View())
    {
      SendKeepsSafe(View(), c, 0);
      SendAdvances(View(), c, 0);
      if c !in orders { return false; }
      var t := orders[c];
      if IsTerminal(t.state) || t.cancelPending || t.oid == 0 || t.modifyPending { return false; }
      orders := orders[c := t.(modifyPending := true, canceledDuringModify := false)];
      sent := true;
    }

    /** All ids are checked before any record is written. */
    method PlaceOrders(requests: seq<(Cloid, int, int)>) returns (ok: bool)
      requires Safe(View())
      modifies this`orders
      ensures View() == Step(old(View()), Placed(requests)) && AllAdvance(old(View()), View())
      ensures ok <==> forall r :: r in requests ==> r.0 !in old(orders)
      ensures Safe(View())
    {
      PlaceKeepsSafe(View(), requests);
      PlaceAdvances(View(), requests);
      for i := 0 to |requests|
        invariant forall k :: 0 <= k < i ==> requests[k].0 !in orders
      {
        if requests[i].0 in orders {
          assert requests[i] in requests;
          return false;
        }
      }
      var rest := requests;
      while rest != []
        invariant PlaceAll(View(), rest) == PlaceAll(old(View()), requests)
      {
        var (c, px, sz) := rest[0];
        var t := if c in orders then orders[c] else BLANK;
        orders := orders[c := t.(px := px, origSz := sz, state := PendingNew)];
        rest := rest[1..];
      }
      ok := true;
    }

    /** One eviction sweep over the candidates whose retention has expired. */
    method Evict(expired: seq<Cloid>)
      requires Safe(View())
      modifies this`orders, this`oidIndex
      ensures View() == Run(old(View()), EvictEvents(expired))
      ensures Safe(View())
    {
      ghost var es := EvictEvents(expired);
      for i := 0 to |expired|
        invariant View() == Run(old(View()), es[..i])
      {
        RunOne(old(View()), es, i);
        var c := expired[i];
        if c in orders && IsTerminal(orders[c].state) {
          if orders[c].oid != 0 { oidIndex := oidIndex - {orders[c].oid}; }
          orders := orders - {c};
        }
      }
      assert es[..|expired|] == es;
      SafeRun(old(View()), es);
    }

    method OnProbeAnswer(c: Cloid, answer: ProbeAnswer)
      requires Safe(View())
      modifies this`orders, this`oidIndex
      ensures View() == Step(old(View()), Probed(c, answer)) && AllAdvance(old(View()), View())
      ensures Safe(View())
    {
      ProbeKeepsSafe(View(), c, answer);
      ProbeAdvances(View(), c, answer);
      if c !in orders { return; }
      var t := orders[c];
      match answer {
        case NotFound =>
          if !t.state.PendingNew? { return; }
          if t.notFoundProbes < NOT_FOUND_PROBES {
            orders := orders[c := t.(notFoundProbes := t.notFoundProbes + 1)];
            return;
          }
          orders := orders[c := t.(state := Rejected)];
        case Found(oid, status, limitPx, origSz) =>
          orders := orders[c := t.(notFoundProbes := 0)];
          if t.oid != 0 && oid != 0 && oid != t.oid { return; }
          SetOid(c, oid);
          ApplyVenueStatus(c, status, limitPx, origSz);
      }
    }

    method CancelFound(oid: nat)
      modifies this`orders
      ensures View() == OnVenueCancel(old(View()), oid)
    {
      var known := Find(None, oid);
      if known.Some? { ApplyVenueStatus(known.value, VCanceled, 0, 0); }
    }

    method OnNonUserCancels(oids: seq<nat>)
      requires Safe(View())
      modifies this`orders
      ensures View() == Run(old(View()), CancelEvents(oids))
      ensures AllAdvance(old(View()), View())
      ensures Safe(View())
    {
      ghost var es := CancelEvents(oids);
      for i := 0 to |oids|
        invariant View() == Run(old(View()), es[..i])
      {
        RunOne(old(View()), es, i);
        CancelFound(oids[i]);
      }
      assert es[..|oids|] == es;
      SafeRun(old(View()), es);
      MessagesAdvance(old(View()), es);
    }
  }
}
