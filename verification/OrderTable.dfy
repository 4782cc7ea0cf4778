/** The order table of src/om/ExchangeClient.cpp as a state machine over venue messages. */
module OrderTable {
  import opened Basics

  datatype OrderState = PendingNew | Open | PartiallyFilled | Filled | Canceled | Rejected

  predicate IsTerminal(s: OrderState) { s.Filled? || s.Canceled? || s.Rejected? }

  /** 128-bit client order id. */
  datatype Cloid = Cloid(high: nat, low: nat)

  /** Synthetic id of an order that arrived without one. */
  function ExternalCloid(oid: nat): Cloid { Cloid(0xFFFF_FFFF_FFFF_FFFF, oid) }

  /** One record: the public order plus its fill accounting. Prices and sizes are raw mantissas; oid 0 is "unknown". */
  datatype Tracked = Tracked(
    oid: nat, px: int, origSz: int, filledSz: int, avgFillPx: int, state: OrderState,
    cancelPending: bool, modifyPending: bool,
    fillSum: int, fillNotional: int, ackFilledSz: int, ackAvgPx: int,
    retired: seq<nat>, canceledDuringModify: bool, notFoundProbes: nat, external: bool)

  const BLANK: Tracked := Tracked(0, 0, 0, 0, 0, PendingNew, false, false, 0, 0, 0, 0, [], false, 0, false)

  datatype Table = Table(orders: map<Cloid, Tracked>, oidIndex: map<nat, Cloid>, seenTids: set<nat>,
                         seenTidOrder: seq<nat>)

  const EMPTY: Table := Table(map[], map[], {}, [])

  const MAX_REMEMBERED_TIDS: nat := 20_000
  const NOT_FOUND_PROBES: nat := 3
  const MAX_RETIRED: nat := 4

  datatype VenueStatus = VOpen | VFilled | VCanceled | VTriggered | VRejected | VUnknown

  datatype OrderUpdate = OrderUpdate(cloid: Option<Cloid>, oid: nat, status: VenueStatus, limitPx: int, origSz: int)

  datatype FillMsg = FillMsg(cloid: Option<Cloid>, oid: nat, tid: nat, px: int, sz: int)

  datatype OpenOrder = OpenOrder(cloid: Option<Cloid>, oid: nat, limitPx: int, sz: int, origSz: int)

  datatype AckKind = Resting | AckFilled | WaitingForFill | WaitingForTrigger | Success | AckError

  datatype Ack = Ack(kind: AckKind, oid: nat, totalSz: int, avgPx: int)

  // ── one record ──────────────────────────────────────────────────────────────

  function Max(x: int, y: int): int { if x < y then y else x }

  function AvgPx(t: Tracked): int {
    if t.fillSum != 0 then TruncDiv(t.fillNotional, t.fillSum) else t.ackAvgPx
  }

  function RecomputeFills(t: Tracked): Tracked {
    t.(filledSz := Max(t.fillSum, t.ackFilledSz), avgFillPx := AvgPx(t))
  }

  function RestingState(t: Tracked): OrderState { if t.filledSz == 0 then Open else PartiallyFilled }

  /** The record part of an acknowledgement; `AckOid` handles the exchange id. */
  function AckRecord(t: Tracked, a: Ack): Tracked {
    match a.kind
    case Resting => if t.state.PendingNew? then t.(state := RestingState(t)) else t
    case AckFilled => RecomputeFills(t.(ackFilledSz := a.totalSz, ackAvgPx := a.avgPx)).(state := Filled)
    case AckError => if t.state.PendingNew? then t.(state := Rejected) else t
    case _ => if t.state.PendingNew? then t.(state := Open) else t
  }

  function VenueRecord(t: Tracked, status: VenueStatus, limitPx: int, origSz: int): Tracked {
    if IsTerminal(t.state) && !status.VFilled? then t.(cancelPending := false)
    else match status
      case VOpen => OpenRecord(t, limitPx, origSz)
      case VTriggered => OpenRecord(t, limitPx, origSz)
      case VFilled =>
        RecomputeFills(t.(ackFilledSz := Max(t.ackFilledSz, t.origSz))).(state := Filled, cancelPending := false)
      case VCanceled => t.(state := Canceled, cancelPending := false)
      case VRejected => t.(state := Rejected)
      case VUnknown => t
  }

  function OpenRecord(t: Tracked, limitPx: int, origSz: int): Tracked {
    t.(px := if limitPx != 0 then limitPx else t.px,
       origSz := if origSz != 0 then origSz else t.origSz,
       state := if t.state.PendingNew? || t.state.Open? then RestingState(t) else t.state)
  }

  /** A new exchange id under the same cloid is a new generation: its fills start from nothing. */
  function NewGeneration(t: Tracked, oid: nat): Tracked {
    if t.oid != 0 then
      t.(oid := oid, fillSum := 0, fillNotional := 0, ackFilledSz := 0, ackAvgPx := 0, filledSz := 0, avgFillPx := 0)
    else t.(oid := oid)
  }

  function Retire(t: Tracked, oid: nat): Tracked {
    var r := t.retired + [oid];
    t.(retired := if |r| > MAX_RETIRED then r[1..] else r)
  }

  function FillRecord(t: Tracked, px: int, sz: int): Tracked {
    var u := RecomputeFills(t.(fillSum := t.fillSum + sz, fillNotional := t.fillNotional + px * sz));
    if IsTerminal(u.state) then u
    else u.(state := if u.filledSz >= u.origSz then Filled else PartiallyFilled)
  }

  function SeedFilled(t: Tracked, open: OpenOrder): Tracked {
    var filled := open.origSz - open.sz;
    if filled <= 0 then t
    else RecomputeFills(t.(fillSum := filled, fillNotional := open.limitPx * filled, ackFilledSz := filled))
  }

  // ── the table ───────────────────────────────────────────────────────────────

  function Put(tb: Table, c: Cloid, t: Tracked): Table { tb.(orders := tb.orders[c := t]) }

  function Get(tb: Table, c: Cloid): Tracked { if c in tb.orders then tb.orders[c] else BLANK }

  function FindByOid(tb: Table, oid: nat): Option<Cloid> {
    if oid != 0 && oid in tb.oidIndex && tb.oidIndex[oid] in tb.orders then Some(tb.oidIndex[oid]) else None
  }

  function Resolve(tb: Table, cloid: Option<Cloid>, oid: nat): Option<Cloid> {
    if cloid.Some? && cloid.value in tb.orders then cloid else FindByOid(tb, oid)
  }

  function KeyOf(cloid: Option<Cloid>, oid: nat): Cloid {
    if cloid.Some? then cloid.value else ExternalCloid(oid)
  }

  function SetOid(tb: Table, c: Cloid, oid: nat): Table {
    var t := Get(tb, c);
    if oid == 0 || t.oid == oid then tb
    else
      var index := if t.oid != 0 then tb.oidIndex - {t.oid} else tb.oidIndex;
      tb.(orders := tb.orders[c := NewGeneration(t, oid)], oidIndex := index[oid := c])
  }

  function ApplyAck(tb: Table, c: Cloid, a: Ack): Table {
    var tb' := if a.kind.Resting? || a.kind.AckFilled? then SetOid(tb, c, a.oid) else tb;
    Put(tb', c, AckRecord(Get(tb', c), a))
  }

  function ApplyVenueStatus(tb: Table, c: Cloid, status: VenueStatus, limitPx: int, origSz: int): Table {
    Put(tb, c, VenueRecord(Get(tb, c), status, limitPx, origSz))
  }

  // ── handlers ────────────────────────────────────────────────────────────────

  /** `orderUpdates`, one element. */
  function OnOrderUpdate(tb: Table, u: OrderUpdate): Table {
    var known := Resolve(tb, u.cloid, u.oid);
    if known.Some? then UpdateKnown(tb, known.value, u)
    else
      var c := KeyOf(u.cloid, u.oid);
      UpdateKnown(TrackExternal(tb, c, u), c, u)
  }

  /** Get-or-create, then the descriptive fields and the exchange id of the update. */
  function TrackExternal(tb: Table, c: Cloid, u: OrderUpdate): Table {
    SetOid(Put(tb, c, Get(tb, c).(px := u.limitPx, origSz := u.origSz, external := true)), c, u.oid)
  }

  predicate AdoptsDuringModify(s: VenueStatus) { s.VOpen? || s.VFilled? || s.VTriggered? }

  function UpdateKnown(tb: Table, c: Cloid, u: OrderUpdate): Table {
    var t := Get(tb, c);
    if u.oid != 0 && t.oid != 0 && u.oid != t.oid then
      if u.oid < t.oid || u.oid in t.retired || (t.modifyPending && !AdoptsDuringModify(u.status)) then tb
      else
        var tb' := if t.modifyPending then Put(tb, c, Retire(t, t.oid)) else tb;
        UpdateStatus(SetOid(tb', c, u.oid), c, u)
    else UpdateStatus(SetOid(tb, c, u.oid), c, u)
  }

  function UpdateStatus(tb: Table, c: Cloid, u: OrderUpdate): Table {
    var t := Get(tb, c);
    if t.modifyPending && u.oid == t.oid && u.status.VCanceled? then Put(tb, c, t.(canceledDuringModify := true))
    else ApplyVenueStatus(tb, c, u.status, u.limitPx, u.origSz)
  }

  /** The FIFO window of remembered trade ids. */
  function Remember(tb: Table, tid: nat): Table {
    var order := tb.seenTidOrder + [tid];
    if |order| > MAX_REMEMBERED_TIDS
    then tb.(seenTids := tb.seenTids + {tid} - {order[0]}, seenTidOrder := order[1..])
    else tb.(seenTids := tb.seenTids + {tid}, seenTidOrder := order)
  }

  /** `userFills`, one element; fills of the first snapshot are only remembered. */
  function OnUserFill(tb: Table, f: FillMsg, historical: bool): Table {
    if f.tid in tb.seenTids then tb
    else
      var tb' := Remember(tb, f.tid);
      var known := Resolve(tb', f.cloid, f.oid);
      if historical || known.None? then tb' else FillKnown(tb', known.value, f)
  }

  predicate StaleFill(t: Tracked, f: FillMsg) { f.oid != 0 && t.oid != 0 && f.oid < t.oid }

  function FillKnown(tb: Table, c: Cloid, f: FillMsg): Table {
    var t := Get(tb, c);
    if StaleFill(t, f) then tb
    else
      var tb' := if f.oid != 0 && t.oid != 0 then SetOid(tb, c, f.oid) else tb;
      Put(tb', c, FillRecord(Get(tb', c), f.px, f.sz))
  }

  datatype ProbeAnswer = NotFound | Found(oid: nat, status: VenueStatus, limitPx: int, origSz: int)

  /** The answer to a single-order `orderStatus` probe. */
  function OnProbe(tb: Table, c: Cloid, answer: ProbeAnswer): Table {
    if c !in tb.orders then tb
    else
      var t := Get(tb, c);
      match answer
      case NotFound =>
        if !t.state.PendingNew? then tb
        else if t.notFoundProbes < NOT_FOUND_PROBES then Put(tb, c, t.(notFoundProbes := t.notFoundProbes + 1))
        else Put(tb, c, t.(state := Rejected))
      case Found(oid, status, limitPx, origSz) =>
        var tb' := Put(tb, c, t.(notFoundProbes := 0));
        if t.oid != 0 && oid != 0 && oid != t.oid then tb'
        else ApplyVenueStatus(SetOid(tb', c, oid), c, status, limitPx, origSz)
  }

  /** One entry of an open-orders listing taken as the current truth (`adoptFromListing`). */
  function OnListed(tb: Table, open: OpenOrder): Table {
    var c := KeyOf(open.cloid, open.oid);
    if c in tb.orders then
      if IsTerminal(Get(tb, c).state) && Get(tb, c).oid != open.oid then Revive(tb, c, open) else tb
    else if FindByOid(tb, open.oid).Some? then tb
    else
      var t := SeedFilled(Listing(open), open);
      SetOid(Put(tb, c, t.(state := RestingState(t))), c, open.oid)
  }

  /** A record for a listed order nobody tracks. */
  function Listing(open: OpenOrder): Tracked {
    BLANK.(px := open.limitPx, origSz := open.origSz, external := open.cloid.None?)
  }

  function Revive(tb: Table, c: Cloid, open: OpenOrder): Table {
    var tb' := SetOid(Put(tb, c, Get(tb, c).(state := Open)), c, open.oid);
    ApplyVenueStatus(Put(tb', c, SeedFilled(Get(tb', c), open)), c, VOpen, open.limitPx, open.origSz)
  }

  /** A listing entry matched to an order being reconciled. */
  function OnMatched(tb: Table, c: Cloid, open: OpenOrder): Table {
    ApplyVenueStatus(SetOid(tb, c, open.oid), c, VOpen, open.limitPx, open.origSz)
  }

  datatype ActionKind = OrderAction | CancelAction | ModifyAction | OtherAction

  /** What one entry of an action learns: the call failed, one error for the batch, its own status, or nothing. */
  datatype Outcome = CallFailed(transport: bool) | BatchError | Status(ack: Ack) | NoStatus

  function OnActionResult(tb: Table, c: Cloid, kind: ActionKind, outcome: Outcome, target: Option<(int, int)>): Table {
    if c !in tb.orders || outcome.NoStatus? then tb
    else
      var t := Get(tb, c);
      match kind
      case OrderAction =>
        if outcome.Status? then ApplyAck(tb, c, outcome.ack)
        else if !outcome.CallFailed? || !outcome.transport then Put(tb, c, RejectPending(t))
        else tb
      case CancelAction =>
        if outcome.Status? && outcome.ack.kind.Success? && !IsTerminal(t.state)
        then Put(tb, c, t.(cancelPending := false, state := Canceled))
        else Put(tb, c, t.(cancelPending := false))
      case ModifyAction =>
        var tb' := Put(tb, c, t.(modifyPending := false));
        if outcome.Status? && !outcome.ack.kind.AckError? then OnModified(tb', c, outcome.ack, target) else tb'
      case OtherAction => tb
  }

  function RejectPending(t: Tracked): Tracked { if t.state.PendingNew? then t.(state := Rejected) else t }

  /** The record of an accepted amendment, before it learns its new exchange id. */
  function Amended(t: Tracked, oid: nat, target: Option<(int, int)>): Tracked {
    var t' := if target.Some? then t.(px := target.value.0, origSz := target.value.1) else t;
    if oid != 0 && oid != t.oid && t.oid != 0 then Retire(t', t.oid) else t'
  }

  function AmendedTable(tb: Table, c: Cloid, oid: nat, target: Option<(int, int)>): Table {
    var tb' := SetOid(Put(tb, c, Amended(Get(tb, c), oid, target)), c, oid);
    Put(tb', c, Get(tb', c).(canceledDuringModify := false))
  }

  function OnModified(tb: Table, c: Cloid, a: Ack, target: Option<(int, int)>): Table {
    ApplyAck(AmendedTable(tb, c, a.oid, target), c, a)
  }

  /** `placeOrders`: refused as a whole when any id is taken. */
  function OnPlace(tb: Table, requests: seq<(Cloid, int, int)>): Table {
    if exists r :: r in requests && r.0 in tb.orders then tb else PlaceAll(tb, requests)
  }

  function PlaceAll(tb: Table, requests: seq<(Cloid, int, int)>): Table
    decreases requests
  {
    if requests == [] then tb
    else
      var (c, px, sz) := requests[0];
      PlaceAll(Put(tb, c, Get(tb, c).(px := px, origSz := sz, state := PendingNew)), requests[1..])
  }

  /** A cancel that is sent: an order of another client can only be named by its exchange id. */
  predicate Cancelable(t: Tracked) { !IsTerminal(t.state) && !t.cancelPending && !(t.external && t.oid == 0) }

  function OnCancelSent(tb: Table, c: Cloid): Table {
    var t := Get(tb, c);
    if c !in tb.orders || !Cancelable(t) then tb else Put(tb, c, t.(cancelPending := true))
  }

  function OnCancelByOidSent(tb: Table, oid: nat): Table {
    var known := FindByOid(tb, oid);
    if known.None? then tb else Put(tb, known.value, Get(tb, known.value).(cancelPending := true))
  }

  function OnModifySent(tb: Table, c: Cloid): Table {
    var t := Get(tb, c);
    if c !in tb.orders || IsTerminal(t.state) || t.cancelPending || t.oid == 0 || t.modifyPending then tb
    else Put(tb, c, t.(modifyPending := true, canceledDuringModify := false))
  }

  /** A cancel the venue performed itself. */
  function OnVenueCancel(tb: Table, oid: nat): Table {
    var known := FindByOid(tb, oid);
    if known.None? then tb else ApplyVenueStatus(tb, known.value, VCanceled, 0, 0)
  }

  /** Eviction of one order whose retention has expired. */
  function OnEvict(tb: Table, c: Cloid): Table {
    var t := Get(tb, c);
    if c !in tb.orders || !IsTerminal(t.state) then tb
    else tb.(orders := tb.orders - {c}, oidIndex := if t.oid != 0 then tb.oidIndex - {t.oid} else tb.oidIndex)
  }

  datatype Event =
    | Placed(requests: seq<(Cloid, int, int)>)
    | CancelSent(c: Cloid)
    | CancelByOidSent(oid: nat)
    | ModifySent(c: Cloid)
    | ActionResult(c: Cloid, kind: ActionKind, outcome: Outcome, target: Option<(int, int)>)
    | Updated(u: OrderUpdate)
    | Traded(f: FillMsg, historical: bool)
    | Probed(c: Cloid, answer: ProbeAnswer)
    | Listed(open: OpenOrder)
    | AmendMatched(c: Cloid, open: OpenOrder)
    | LiveMatched(c: Cloid, open: OpenOrder)
    | VenueCanceled(oid: nat)
    | Evicted(c: Cloid)

  function Step(tb: Table, e: Event): Table {
    match e
    case Placed(requests) => OnPlace(tb, requests)
    case CancelSent(c) => OnCancelSent(tb, c)
    case CancelByOidSent(oid) => OnCancelByOidSent(tb, oid)
    case ModifySent(c) => OnModifySent(tb, c)
    case ActionResult(c, kind, outcome, target) => OnActionResult(tb, c, kind, outcome, target)
    case Updated(u) => OnOrderUpdate(tb, u)
    case Traded(f, historical) => OnUserFill(tb, f, historical)
    case Probed(c, answer) => OnProbe(tb, c, answer)
    case Listed(open) => OnListed(tb, open)
    case AmendMatched(c, open) => if c in tb.orders && open.cloid == Some(c) then OnMatched(tb, c, open) else tb
    case LiveMatched(c, open) =>
      if c in tb.orders && !IsTerminal(Get(tb, c).state)
         && (open.cloid == Some(c) || (Get(tb, c).oid != 0 && open.oid == Get(tb, c).oid))
      then OnMatched(tb, c, open) else tb
    case VenueCanceled(oid) => OnVenueCancel(tb, oid)
    case Evicted(c) => OnEvict(tb, c)
  }

  function Run(tb: Table, es: seq<Event>): Table {
    if es == [] then tb else Step(Run(tb, es[..|es| - 1]), es[|es| - 1])
  }
}
