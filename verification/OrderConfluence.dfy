/** Acknowledgements, order updates and fills of one generation give the same order in every delivery order. */
module OrderConfluence {
  import opened Basics
  import opened OrderTable
  import opened OrderSafety

  /**
    * A client-placed order in one generation: its cloid, exchange id, price, size, and what a filled ack would report.
    */
  datatype Gen = Gen(c: Cloid, oid: nat, px: int, sz: int, ackSz: int, ackAvg: int)

  ghost predicate WellFormed(g: Gen) { g.oid > 0 && g.px > 0 && g.sz > 0 && g.ackSz > 0 }

  datatype Msg = RestingAck | FilledAck | OpenUpdate | FilledUpdate | CancelUpdate
               | Execution(tid: nat, px: int, sz: int)

  function EventOf(g: Gen, m: Msg): Event {
    match m
    case RestingAck => ActionResult(g.c, OrderAction, Status(Ack(Resting, g.oid, 0, 0)), None)
    case FilledAck => ActionResult(g.c, OrderAction, Status(Ack(AckFilled, g.oid, g.ackSz, g.ackAvg)), None)
    case OpenUpdate => Updated(OrderUpdate(Some(g.c), g.oid, VOpen, g.px, g.sz))
    case FilledUpdate => Updated(OrderUpdate(Some(g.c), g.oid, VFilled, g.px, g.sz))
    case CancelUpdate => Updated(OrderUpdate(Some(g.c), g.oid, VCanceled, g.px, g.sz))
    case Execution(tid, px, sz) => Traded(FillMsg(Some(g.c), g.oid, tid, px, sz), false)
  }

  function Events(g: Gen, ms: seq<Msg>): seq<Event> {
    if ms == [] then [] else Events(g, ms[..|ms| - 1]) + [EventOf(g, ms[|ms| - 1])]
  }

  /** Executions carry positive sizes and a trade id names one execution. */
  ghost predicate Consistent(s: set<Msg>) {
    && (forall m :: m in s && m.Execution? ==> m.sz > 0)
    && (forall m, n :: m in s && n in s && m.Execution? && n.Execution? && m.tid == n.tid ==> m == n)
  }

  ghost function MsgSet(ms: seq<Msg>): set<Msg> { set m | m in ms }

  // ── the closed form ─────────────────────────────────────────────────────────

  ghost function Pick(s: set<Msg>): Msg
    requires |s| != 0
    ensures Pick(s) in s
  {
    var m :| m in s; m
  }

  ghost function WeightSz(m: Msg): int { if m.Execution? then m.sz else 0 }
  ghost function WeightNotional(m: Msg): int { if m.Execution? then m.px * m.sz else 0 }

  /** Total size and notional of the executions in a set of messages. */
  ghost function TotalSz(s: set<Msg>): int {
    if |s| == 0 then 0 else TotalSz(s - {Pick(s)}) + WeightSz(Pick(s))
  }

  lemma {:induction false} TotalSzTake(s: set<Msg>, x: Msg)
    requires x in s
    ensures TotalSz(s) == TotalSz(s - {x}) + WeightSz(x)
    decreases |s|
  {
    var m := Pick(s);
    if m != x {
      var a, b := s - {m}, s - {x};
      TotalSzTake(a, x);
      TotalSzTake(b, m);
      assert a - {x} == b - {m};
    }
  }

  ghost function TotalNotional(s: set<Msg>): int {
    if |s| == 0 then 0 else TotalNotional(s - {Pick(s)}) + WeightNotional(Pick(s))
  }

  lemma {:induction false} TotalNotionalTake(s: set<Msg>, x: Msg)
    requires x in s
    ensures TotalNotional(s) == TotalNotional(s - {x}) + WeightNotional(x)
    decreases |s|
  {
    var m := Pick(s);
    if m != x {
      var a, b := s - {m}, s - {x};
      TotalNotionalTake(a, x);
      TotalNotionalTake(b, m);
      assert a - {x} == b - {m};
    }
  }

  lemma {:induction false} TotalsAdd(s: set<Msg>, x: Msg)
    requires x !in s
    ensures TotalSz(s + {x}) == TotalSz(s) + (if x.Execution? then x.sz else 0)
    ensures TotalNotional(s + {x}) == TotalNotional(s) + (if x.Execution? then x.px * x.sz else 0)
  {
    TotalSzTake(s + {x}, x);
    TotalNotionalTake(s + {x}, x);
    assert s + {x} - {x} == s;
  }

  lemma {:induction false} TotalSzSign(s: set<Msg>)
    requires Consistent(s)
    ensures TotalSz(s) >= 0
    ensures TotalSz(s) == 0 <==> forall m :: m in s ==> !m.Execution?
    decreases |s|
  {
    if s != {} {
      var x :| x in s;
      TotalSzTake(s, x);
      TotalSzSign(s - {x});
    }
  }

  ghost predicate Heard(s: set<Msg>) { exists m :: m in s && !m.Execution? }

  /** What the messages so far amount to. */
  datatype Tally = Tally(sz: int, notional: int, heard: bool, filledAck: bool, filledUpdate: bool, canceled: bool)

  ghost function TallyOf(s: set<Msg>): Tally {
    Tally(TotalSz(s), TotalNotional(s), Heard(s), FilledAck in s, FilledUpdate in s, CancelUpdate in s)
  }

  predicate SaidFilled(y: Tally) { y.filledAck || y.filledUpdate }

  /** State of the order when no message was a cancel. */
  function ClosedState(g: Gen, y: Tally): OrderState {
    if SaidFilled(y) || y.sz >= g.sz then Filled
    else if y.sz > 0 then PartiallyFilled
    else if y.heard then Open
    else PendingNew
  }

  /** What the filled reports leave behind: an ack overwrites, a `filled` update only raises. */
  function ReportStep(g: Gen, reported: int, m: Msg): int {
    match m
    case FilledAck => g.ackSz
    case FilledUpdate => Max(reported, g.sz)
    case _ => reported
  }

  function Reported(g: Gen, ms: seq<Msg>): int {
    if ms == [] then 0 else ReportStep(g, Reported(g, ms[..|ms| - 1]), ms[|ms| - 1])
  }

  /** What can be reported, knowing which filled reports came but not in which order. */
  predicate ReportFits(g: Gen, y: Tally, reported: int) {
    if y.filledAck && y.filledUpdate then reported == g.ackSz || reported == Max(g.ackSz, g.sz)
    else reported == if y.filledAck then g.ackSz else if y.filledUpdate then g.sz else 0
  }

  function ClosedAvg(g: Gen, y: Tally): int {
    if y.sz != 0 then TruncDiv(y.notional, y.sz) else if y.filledAck then g.ackAvg else 0
  }

  /** The whole record as a function of the tally, given its state and the size reported filled. */
  function Closed(g: Gen, y: Tally, state: OrderState, reported: int): Tracked {
    Tracked(if y.heard then g.oid else 0, g.px, g.sz, Max(y.sz, reported), ClosedAvg(g, y), state,
            false, false, y.sz, y.notional, reported, if y.filledAck then g.ackAvg else 0, [], false, 0, false)
  }

  /** Cancels leave the state open between Canceled and Filled until the venue says filled. */
  predicate StateFits(g: Gen, y: Tally, state: OrderState) {
    if SaidFilled(y) then state.Filled?
    else if y.canceled then state.Canceled? || state.Filled?
    else state == ClosedState(g, y)
  }

  // ── one message ─────────────────────────────────────────────────────────────

  /** What a message does to the record: learn the exchange id, then apply it. */
  function RecordStep(g: Gen, t: Tracked, m: Msg): Tracked {
    var u := if t.oid == g.oid then t else NewGeneration(t, g.oid);
    match m
    case RestingAck => AckRecord(u, Ack(Resting, g.oid, 0, 0))
    case FilledAck => AckRecord(u, Ack(AckFilled, g.oid, g.ackSz, g.ackAvg))
    case OpenUpdate => VenueRecord(u, VOpen, g.px, g.sz)
    case FilledUpdate => VenueRecord(u, VFilled, g.px, g.sz)
    case CancelUpdate => VenueRecord(u, VCanceled, g.px, g.sz)
    case Execution(tid, px, sz) => FillRecord(t, px, sz)
  }

  lemma Lift(tb: Table, g: Gen, m: Msg)
    requires WellFormed(g) && g.c in tb.orders
    requires var t := tb.orders[g.c]; !t.modifyPending && (t.oid == 0 || t.oid == g.oid)
    ensures var tb' := Step(tb, EventOf(g, m));
            && g.c in tb'.orders
            && tb'.orders[g.c] == (if m.Execution? && m.tid in tb.seenTids then tb.orders[g.c]
                                   else RecordStep(g, tb.orders[g.c], m))
  {
    if m.Execution? { LiftFill(Remember(tb, m.tid), g, m); }
  }

  lemma LiftFill(tb: Table, g: Gen, m: Msg)
    requires m.Execution? && g.c in tb.orders && (tb.orders[g.c].oid == 0 || tb.orders[g.c].oid == g.oid)
    ensures var tb' := FillKnown(tb, g.c, EventOf(g, m).f);
            g.c in tb'.orders && tb'.orders[g.c] == RecordStep(g, tb.orders[g.c], m)
  {}

  lemma HeardAdd(s: set<Msg>, m: Msg)
    ensures Heard(s + {m}) <==> Heard(s) || !m.Execution?
  {
    if Heard(s) { var n :| n in s && !n.Execution?; assert n in s + {m}; }
    if !m.Execution? { assert m in s + {m}; }
  }

  function Count(y: Tally, m: Msg): Tally {
    match m
    case RestingAck => y.(heard := true)
    case OpenUpdate => y.(heard := true)
    case FilledAck => y.(heard := true, filledAck := true)
    case FilledUpdate => y.(heard := true, filledUpdate := true)
    case CancelUpdate => y.(heard := true, canceled := true)
    case Execution(_, px, sz) => y.(sz := y.sz + sz, notional := y.notional + px * sz)
  }

  /** Counting a message and applying it to the record agree. */
  lemma CountStep(g: Gen, y: Tally, state: OrderState, reported: int, m: Msg)
    requires WellFormed(g) && StateFits(g, y, state) && ReportFits(g, y, reported) && y.sz >= 0
             && (m.Execution? ==> m.sz > 0)
    ensures var t' := RecordStep(g, Closed(g, y, state, reported), m);
            t' == Closed(g, Count(y, m), t'.state, ReportStep(g, reported, m)) && StateFits(g, Count(y, m), t'.state)
  {}

  lemma ReportStepFits(g: Gen, y: Tally, reported: int, m: Msg)
    requires WellFormed(g) && ReportFits(g, y, reported)
    ensures ReportFits(g, Count(y, m), ReportStep(g, reported, m))
  {}

  lemma TallyAdd(s: set<Msg>, m: Msg)
    ensures TallyOf(s + {m}) == if m.Execution? && m in s then TallyOf(s) else Count(TallyOf(s), m)
  {
    HeardAdd(s, m);
    if m in s {
      assert s + {m} == s;
    } else {
      TotalsAdd(s, m);
    }
  }

  // ── every delivery order ────────────────────────────────────────────────────

  /** Freshly placed, with executions that fit the trade-id window and none of them seen before. */
  ghost predicate Ready(tb: Table, g: Gen, ms: seq<Msg>) {
    && WellFormed(g) && g.c in tb.orders && tb.orders[g.c] == BLANK.(px := g.px, origSz := g.sz)
    && Consistent(MsgSet(ms)) && Windowed(tb) && |Tids(MsgSet(ms))| <= MAX_REMEMBERED_TIDS
    && (forall m :: m in ms && m.Execution? ==> m.tid !in tb.seenTids)
  }

  ghost function Tids(s: set<Msg>): set<nat> { set m | m in s && m.Execution? :: m.tid }

  /** The newest |t| ids of the window are those of `t`. */
  ghost predicate Newest(order: seq<nat>, t: set<nat>) {
    |t| <= |order| && forall x :: x in t <==> x in order[|order| - |t|..]
  }

  lemma NewestGrows(order: seq<nat>, t: set<nat>, tid: nat)
    requires Newest(order, t) && tid !in t && |t| < MAX_REMEMBERED_TIDS && |order| <= MAX_REMEMBERED_TIDS
    ensures Newest(Remembered(order, tid), t + {tid})
  {
    var after, t' := Remembered(order, tid), t + {tid};
    assert |t'| == |t| + 1;
    assert after[|after| - |t'|..] == order[|order| - |t|..] + [tid];
  }

  /** Only an execution with an unseen trade id moves the window. */
  lemma WindowStep(tb: Table, g: Gen, m: Msg)
    ensures var tb' := Step(tb, EventOf(g, m));
            if m.Execution? && m.tid !in tb.seenTids
            then tb'.seenTids == Remember(tb, m.tid).seenTids && tb'.seenTidOrder == Remember(tb, m.tid).seenTidOrder
            else tb'.seenTids == tb.seenTids && tb'.seenTidOrder == tb.seenTidOrder
  {
    match EventOf(g, m)
    case Updated(u) => UpdateKeepsWindow(tb, u);
    case Traded(f, _) => FillKeepsWindow(Remember(tb, f.tid), f);
    case _ =>
  }

  lemma UpdateKeepsWindow(tb: Table, u: OrderUpdate)
    ensures OnOrderUpdate(tb, u).seenTids == tb.seenTids && OnOrderUpdate(tb, u).seenTidOrder == tb.seenTidOrder
  {
    var known := Resolve(tb, u.cloid, u.oid);
    if known.Some? {
      KnownKeepsWindow(tb, known.value, u);
    } else {
      KnownKeepsWindow(TrackExternal(tb, KeyOf(u.cloid, u.oid), u), KeyOf(u.cloid, u.oid), u);
    }
  }

  lemma KnownKeepsWindow(tb: Table, c: Cloid, u: OrderUpdate)
    ensures UpdateKnown(tb, c, u).seenTids == tb.seenTids && UpdateKnown(tb, c, u).seenTidOrder == tb.seenTidOrder
  {}

  lemma FillKeepsWindow(tb: Table, f: FillMsg)
    ensures forall c ::
              FillKnown(tb, c, f).seenTids == tb.seenTids && FillKnown(tb, c, f).seenTidOrder == tb.seenTidOrder
  {}

  /** A window of ids in `before` and `t`, those of `t` newest. */
  ghost predicate Holds(before: set<nat>, tids: set<nat>, order: seq<nat>, t: set<nat>) {
    |order| <= MAX_REMEMBERED_TIDS && Mirrors(tids, order) && Newest(order, t) && tids <= before + t
  }

  lemma HeldIsSeen(before: set<nat>, tids: set<nat>, order: seq<nat>, t: set<nat>, tid: nat)
    requires Holds(before, tids, order, t) && tid !in before
    ensures tid in tids <==> tid in t
  {}

  lemma HoldsNext(before: set<nat>, tids: set<nat>, order: seq<nat>, t: set<nat>, tid: nat)
    requires Holds(before, tids, order, t) && tid !in tids && tid !in t && |t| < MAX_REMEMBERED_TIDS
    ensures var tids' := if |order| + 1 > MAX_REMEMBERED_TIDS then tids + {tid} - {(order + [tid])[0]}
            else tids + {tid};
            Holds(before, tids', Remembered(order, tid), t + {tid})
  {
    WindowSlides(tids, order, tid);
    NewestGrows(order, t, tid);
  }

  ghost predicate TableHolds(tb: Table, tb': Table, s: set<Msg>) {
    Holds(tb.seenTids, tb'.seenTids, tb'.seenTidOrder, Tids(s))
  }

  lemma TableHoldsNext(tb: Table, tb1: Table, g: Gen, s: set<Msg>, m: Msg)
    requires TableHolds(tb, tb1, s) && |Tids(s + {m})| <= MAX_REMEMBERED_TIDS
    requires m.Execution? ==> m.tid !in tb.seenTids
    ensures TableHolds(tb, Step(tb1, EventOf(g, m)), s + {m})
  {
    WindowStep(tb1, g, m);
    TidsAdd(s, m);
    if m.Execution? { HoldsExecution(tb.seenTids, tb1, Tids(s), m.tid); }
  }

  lemma HoldsExecution(before: set<nat>, tb: Table, t: set<nat>, tid: nat)
    requires Holds(before, tb.seenTids, tb.seenTidOrder, t) && tid !in before && |t + {tid}| <= MAX_REMEMBERED_TIDS
    ensures var tb' := if tid in tb.seenTids then tb else Remember(tb, tid);
            Holds(before, tb'.seenTids, tb'.seenTidOrder, t + {tid})
  {
    HeldIsSeen(before, tb.seenTids, tb.seenTidOrder, t, tid);
    if tid in t {
      assert t + {tid} == t;
    } else {
      assert |t + {tid}| == |t| + 1;
      HoldsNext(before, tb.seenTids, tb.seenTidOrder, t, tid);
    }
  }

  /** The record of the order is the closed form of the messages applied so far. */
  ghost predicate Reached(tb: Table, tb': Table, g: Gen, s: set<Msg>, reported: int) {
    && g.c in tb'.orders
    && tb'.orders[g.c] == Closed(g, TallyOf(s), tb'.orders[g.c].state, reported)
    && StateFits(g, TallyOf(s), tb'.orders[g.c].state) && ReportFits(g, TallyOf(s), reported)
    && TableHolds(tb, tb', s)
  }

  lemma {:induction false} DeliverOne(tb: Table, tb1: Table, g: Gen, s: set<Msg>, reported: int, m: Msg)
    requires WellFormed(g) && Reached(tb, tb1, g, s, reported) && Consistent(s + {m})
    requires |Tids(s + {m})| <= MAX_REMEMBERED_TIDS
    requires m.Execution? ==> m.tid !in tb.seenTids
    ensures Reached(tb, Step(tb1, EventOf(g, m)), g, s + {m}, ReportStep(g, reported, m))
  {
    TableHoldsNext(tb, tb1, g, s, m);
    Lift(tb1, g, m);
    SeenBefore(s, m);
    if m.Execution? { HeldIsSeen(tb.seenTids, tb1.seenTids, tb1.seenTidOrder, Tids(s), m.tid); }
    DeliverRecord(g, s, tb1.orders[g.c], reported, m);
  }

  lemma DeliverRecord(g: Gen, s: set<Msg>, t: Tracked, reported: int, m: Msg)
    requires WellFormed(g) && Consistent(s + {m}) && ReportFits(g, TallyOf(s), reported)
    requires t == Closed(g, TallyOf(s), t.state, reported) && StateFits(g, TallyOf(s), t.state)
    ensures var t' := if m.Execution? && m in s then t else RecordStep(g, t, m);
            && t' == Closed(g, TallyOf(s + {m}), t'.state, ReportStep(g, reported, m))
            && StateFits(g, TallyOf(s + {m}), t'.state) && ReportFits(g, TallyOf(s + {m}), ReportStep(g, reported, m))
  {
    TallyAdd(s, m);
    assert Consistent(s);
    TotalSzSign(s);
    CountStep(g, TallyOf(s), t.state, reported, m);
    ReportStepFits(g, TallyOf(s), reported, m);
  }

  /** Within a consistent set a trade id has been seen exactly when its execution has. */
  lemma SeenBefore(s: set<Msg>, m: Msg)
    requires Consistent(s + {m})
    ensures m.Execution? ==> (m.tid in Tids(s) <==> m in s)
  {
    if m.Execution? && m.tid in Tids(s) {
      var k :| k in s && k.Execution? && k.tid == m.tid;
      assert k in s + {m} && m in s + {m};
    }
  }

  lemma TidsAdd(s: set<Msg>, m: Msg)
    ensures Tids(s + {m}) == Tids(s) + (if m.Execution? then {m.tid} else {})
  {}

  lemma {:induction false} Smaller<T>(a: set<T>, b: set<T>)
    requires a <= b
    ensures |a| <= |b|
  {
    if a != {} {
      var x :| x in a;
      Smaller(a - {x}, b - {x});
    }
  }

  lemma ReadyFront(tb: Table, g: Gen, ms: seq<Msg>)
    requires ms != [] && Ready(tb, g, ms)
    ensures var front := ms[..|ms| - 1]; Ready(tb, g, front) && MsgSet(ms) == MsgSet(front) + {ms[|ms| - 1]}
  {
    var front := ms[..|ms| - 1];
    assert ms == front + [ms[|ms| - 1]];
    assert MsgSet(ms) == MsgSet(front) + {ms[|ms| - 1]};
    Smaller(Tids(MsgSet(front)), Tids(MsgSet(ms)));
  }

  /** After any sequence of messages the record is the closed form of their set. */
  lemma {:induction false} Delivered(tb: Table, g: Gen, ms: seq<Msg>)
    requires Ready(tb, g, ms)
    ensures Reached(tb, Run(tb, Events(g, ms)), g, MsgSet(ms), Reported(g, ms))
  {
    if ms == [] {
      assert MsgSet(ms) == {};
      assert Tids({}) == {};
    } else {
      var n := |ms| - 1;
      var front := ms[..n];
      ReadyFront(tb, g, ms);
      Delivered(tb, g, front);
      EventsSnoc(tb, g, ms);
      assert ms[n] in ms;
      DeliverOne(tb, Run(tb, Events(g, front)), g, MsgSet(front), Reported(g, front), ms[n]);
    }
  }

  lemma EventsSnoc(tb: Table, g: Gen, ms: seq<Msg>)
    requires ms != []
    ensures var n := |ms| - 1;
            Run(tb, Events(g, ms)) == Step(Run(tb, Events(g, ms[..n])), EventOf(g, ms[n]))
  {
    assert Events(g, ms)[..|Events(g, ms)| - 1] == Events(g, ms[..|ms| - 1]);
  }

  /** What an observer of the order sees. */
  datatype Seen = Seen(state: OrderState, filledSz: int, avgFillPx: int)

  ghost function SeenAfter(tb: Table, g: Gen, ms: seq<Msg>): Seen {
    var t := Get(Run(tb, Events(g, ms)), g.c);
    Seen(t.state, t.filledSz, t.avgFillPx)
  }

  /** No race between a cancel and the last execution, and no partial ack contradicting a `filled` update. */
  ghost predicate RaceFree(g: Gen, s: set<Msg>) {
    && (CancelUpdate !in s || FilledAck in s || FilledUpdate in s || TotalSz(s) < g.sz)
    && (FilledAck !in s || FilledUpdate !in s || Max(TotalSz(s), g.ackSz) >= g.sz)
  }

  /** The outcome of a set of messages free of races. */
  ghost function Outcome(g: Gen, s: set<Msg>): Seen {
    var y := TallyOf(s);
    Seen(if SaidFilled(y) then Filled else if y.canceled then Canceled else ClosedState(g, y),
         Max(y.sz, if y.filledAck then g.ackSz else if y.filledUpdate then g.sz else 0), ClosedAvg(g, y))
  }

  /** Confluence: every delivery of a race-free set, in any order and with any repetition, comes to its closed form. */
  lemma Confluent(tb: Table, g: Gen, ms: seq<Msg>)
    requires Ready(tb, g, ms) && RaceFree(g, MsgSet(ms))
    ensures SeenAfter(tb, g, ms) == Outcome(g, MsgSet(ms))
  {
    Delivered(tb, g, ms);
    if CancelUpdate in ms && FilledAck !in ms && FilledUpdate !in ms { NeverComplete(tb, g, ms); }
  }

  /** Executions that stay below the size of the order never fill it. */
  lemma {:induction false} NeverComplete(tb: Table, g: Gen, ms: seq<Msg>)
    requires Ready(tb, g, ms) && CancelUpdate in ms && FilledAck !in ms && FilledUpdate !in ms
             && TotalSz(MsgSet(ms)) < g.sz
    ensures SeenAfter(tb, g, ms).state.Canceled?
  {
    var i := FirstCancel(ms);
    SubTotal(MsgSet(ms[..i]), MsgSet(ms));
    CancelRace(tb, g, ms, i);
  }

  lemma {:induction false} FirstCancel(ms: seq<Msg>) returns (i: nat)
    requires CancelUpdate in ms
    ensures i < |ms| && ms[i] == CancelUpdate && CancelUpdate !in ms[..i]
  {
    i := 0;
    while ms[i] != CancelUpdate
      invariant i < |ms| && CancelUpdate !in ms[..i] && CancelUpdate in ms[i..]
      decreases |ms| - i
    {
      assert ms[..i + 1] == ms[..i] + [ms[i]] && ms[i..] == [ms[i]] + ms[i + 1..];
      i := i + 1;
    }
  }

  lemma {:induction false} SubTotal(s: set<Msg>, t: set<Msg>)
    requires s <= t && Consistent(t)
    ensures TotalSz(s) <= TotalSz(t)
    decreases |t - s|
  {
    if s != t {
      var x :| x in t && x !in s;
      assert t - (s + {x}) < t - s;
      SubTotal(s + {x}, t);
      TotalsAdd(s, x);
    }
  }

  /** The last message of a delivery: the record before it and after it. */
  lemma LastMessage(tb: Table, g: Gen, ms: seq<Msg>)
    requires ms != [] && Ready(tb, g, ms)
    ensures var front, m := ms[..|ms| - 1], ms[|ms| - 1];
            var t, t' := Get(Run(tb, Events(g, front)), g.c), Get(Run(tb, Events(g, ms)), g.c);
            && Ready(tb, g, front)
            && StateFits(g, TallyOf(MsgSet(front)), t.state)
            && (t' == RecordStep(g, t, m) || (m.Execution? && t' == t))
  {
    var front, m := ms[..|ms| - 1], ms[|ms| - 1];
    ReadyFront(tb, g, ms);
    Delivered(tb, g, front);
    EventsSnoc(tb, g, ms);
    Lift(Run(tb, Events(g, front)), g, m);
  }

  lemma CancelStates(g: Gen, t: Tracked, m: Msg)
    requires !m.FilledAck? && !m.FilledUpdate?
    ensures IsTerminal(t.state) ==> RecordStep(g, t, m).state == t.state
    ensures !IsTerminal(t.state) && m.CancelUpdate? ==> RecordStep(g, t, m).state.Canceled?
  {}

  ghost function StateAfter(tb: Table, g: Gen, ms: seq<Msg>): OrderState { Get(Run(tb, Events(g, ms)), g.c).state }

  /** One more message, not a filled report: a terminal state stays and a cancel ends any other. */
  lemma LastState(tb: Table, g: Gen, ms: seq<Msg>)
    requires ms != [] && Ready(tb, g, ms) && FilledUpdate !in ms && FilledAck !in ms
    ensures var front, m := ms[..|ms| - 1], ms[|ms| - 1];
            var s, s' := StateAfter(tb, g, front), StateAfter(tb, g, ms);
            && Ready(tb, g, front) && StateFits(g, TallyOf(MsgSet(front)), s)
            && (IsTerminal(s) ==> s' == s) && (!IsTerminal(s) && m.CancelUpdate? ==> s'.Canceled?)
  {
    var front, m := ms[..|ms| - 1], ms[|ms| - 1];
    LastMessage(tb, g, ms);
    assert m in ms;
    CancelStates(g, Get(Run(tb, Events(g, front)), g.c), m);
  }

  lemma {:induction false} TerminalStays(tb: Table, g: Gen, ms: seq<Msg>, k: nat)
    requires Ready(tb, g, ms) && FilledUpdate !in ms && FilledAck !in ms
    requires k <= |ms| && IsTerminal(StateAfter(tb, g, ms[..k]))
    ensures StateAfter(tb, g, ms) == StateAfter(tb, g, ms[..k])
  {
    if k == |ms| {
      assert ms[..k] == ms;
    } else {
      LastState(tb, g, ms);
      assert ms[..|ms| - 1][..k] == ms[..k];
      TerminalStays(tb, g, ms[..|ms| - 1], k);
    }
  }

  /** A first cancel that comes last. */
  lemma CancelDecides(tb: Table, g: Gen, ms: seq<Msg>)
    requires ms != [] && Ready(tb, g, ms) && FilledUpdate !in ms && FilledAck !in ms
    requires ms[|ms| - 1] == CancelUpdate && CancelUpdate !in ms[..|ms| - 1]
    ensures StateAfter(tb, g, ms) == if TotalSz(MsgSet(ms[..|ms| - 1])) >= g.sz then Filled else Canceled
  {
    var front := ms[..|ms| - 1];
    LastState(tb, g, ms);
    StateBeforeCancel(g, MsgSet(front), StateAfter(tb, g, front));
  }

  lemma {:induction false} ReadyPrefix(tb: Table, g: Gen, ms: seq<Msg>, k: nat)
    requires Ready(tb, g, ms) && k <= |ms|
    ensures Ready(tb, g, ms[..k])
  {
    if k == |ms| {
      assert ms[..k] == ms;
    } else {
      ReadyFront(tb, g, ms);
      assert ms[..|ms| - 1][..k] == ms[..k];
      ReadyPrefix(tb, g, ms[..|ms| - 1], k);
    }
  }

  /**
    * Without a filled report the race is decided by order alone, and exactly so: the order ends Filled when the
    * executions delivered before the first cancel complete it, and Canceled otherwise.
    */
  lemma CancelRace(tb: Table, g: Gen, ms: seq<Msg>, i: nat)
    requires Ready(tb, g, ms) && FilledUpdate !in ms && FilledAck !in ms
    requires i < |ms| && ms[i] == CancelUpdate && CancelUpdate !in ms[..i]
    ensures StateAfter(tb, g, ms) == if TotalSz(MsgSet(ms[..i])) >= g.sz then Filled else Canceled
  {
    ReadyPrefix(tb, g, ms, i + 1);
    assert ms[..i + 1][..i] == ms[..i];
    CancelDecides(tb, g, ms[..i + 1]);
    TerminalStays(tb, g, ms, i + 1);
  }

  lemma StateBeforeCancel(g: Gen, s: set<Msg>, state: OrderState)
    requires StateFits(g, TallyOf(s), state) && FilledUpdate !in s && FilledAck !in s && CancelUpdate !in s
    ensures IsTerminal(state) <==> TotalSz(s) >= g.sz
    ensures IsTerminal(state) ==> state.Filled?
  {}

  // ── exactly when deliveries agree ───────────────────────────────────────────

  /** A delivery of exactly the messages in `s`. */
  ghost predicate Delivery(tb: Table, g: Gen, s: set<Msg>, ms: seq<Msg>) { Ready(tb, g, ms) && MsgSet(ms) == s }

  /** The set can be delivered: its executions fit the window and none is remembered already. */
  ghost predicate Deliverable(tb: Table, g: Gen, s: set<Msg>) {
    && WellFormed(g) && g.c in tb.orders && tb.orders[g.c] == BLANK.(px := g.px, origSz := g.sz) && Consistent(s)
    && Windowed(tb) && |Tids(s)| <= MAX_REMEMBERED_TIDS
    && (forall m :: m in s && m.Execution? ==> m.tid !in tb.seenTids)
  }

  /** Every client order is deliverable once placed, after any run, with executions not remembered yet. */
  lemma PlacedIsDeliverable(es: seq<Event>, g: Gen, s: set<Msg>)
    requires WellFormed(g) && Consistent(s) && |Tids(s)| <= MAX_REMEMBERED_TIDS
    requires g.c !in Run(EMPTY, es).orders
    requires forall m :: m in s && m.Execution? ==> m.tid !in Run(EMPTY, es).seenTids
    ensures Deliverable(Run(EMPTY, es + [Placed([(g.c, g.px, g.sz)])]), g, s)
  {
    RunKeepsSafe(es);
    PlacesOne(Run(EMPTY, es), g.c, g.px, g.sz);
    assert (es + [Placed([(g.c, g.px, g.sz)])])[..|es|] == es;
  }

  lemma SetOfSnoc(ms: seq<Msg>, x: Msg)
    ensures MsgSet(ms + [x]) == MsgSet(ms) + {x} && MsgSet([x] + ms) == MsgSet(ms) + {x}
  {}

  lemma {:induction false} Listing(s: set<Msg>) returns (ms: seq<Msg>)
    ensures MsgSet(ms) == s && |ms| == |s|
    decreases |s|
  {
    ms := [];
    if s == {} { assert MsgSet(ms) == {}; return; }
    var x :| x in s;
    ms := Listing(s - {x});
    SetOfSnoc(ms, x);
    assert s - {x} + {x} == s;
    ms := ms + [x];
  }

  lemma ListingIsDelivery(tb: Table, g: Gen, s: set<Msg>, ms: seq<Msg>)
    requires Deliverable(tb, g, s) && MsgSet(ms) == s && |ms| == |s|
    ensures Delivery(tb, g, s, ms)
  {
    forall m | m in ms ensures m in s { assert m in MsgSet(ms); }
  }

  /** A cancel among completing executions: first it wins, last it loses. */
  lemma CancelDiverges(tb: Table, g: Gen, s: set<Msg>) returns (ms: seq<Msg>, ms': seq<Msg>)
    requires Deliverable(tb, g, s) && CancelUpdate in s && FilledAck !in s && FilledUpdate !in s && TotalSz(s) >= g.sz
    ensures Delivery(tb, g, s, ms) && SeenAfter(tb, g, ms).state.Canceled?
    ensures Delivery(tb, g, s, ms') && SeenAfter(tb, g, ms').state.Filled?
  {
    var rest := Listing(s - {CancelUpdate});
    ms, ms' := [CancelUpdate] + rest, rest + [CancelUpdate];
    SetOfSnoc(rest, CancelUpdate);
    assert s - {CancelUpdate} + {CancelUpdate} == s;
    ListingIsDelivery(tb, g, s, ms);
    ListingIsDelivery(tb, g, s, ms');
    TotalSzTake(s, CancelUpdate);
    CancelFirst(tb, g, ms);
    CancelLast(tb, g, rest);
  }

  lemma CancelFirst(tb: Table, g: Gen, ms: seq<Msg>)
    requires Ready(tb, g, ms) && FilledUpdate !in MsgSet(ms) && FilledAck !in MsgSet(ms) && ms != []
             && ms[0] == CancelUpdate
    ensures SeenAfter(tb, g, ms).state.Canceled?
  {
    assert forall m :: m in ms ==> m in MsgSet(ms);
    assert ms[..0] == [] && MsgSet([]) == {};
    CancelRace(tb, g, ms, 0);
  }

  lemma CancelLast(tb: Table, g: Gen, rest: seq<Msg>)
    requires Ready(tb, g, rest + [CancelUpdate]) && CancelUpdate !in MsgSet(rest)
    requires FilledUpdate !in MsgSet(rest) && FilledAck !in MsgSet(rest) && TotalSz(MsgSet(rest)) >= g.sz
    ensures SeenAfter(tb, g, rest + [CancelUpdate]).state.Filled?
  {
    assert forall m :: m in rest ==> m in MsgSet(rest);
    assert (rest + [CancelUpdate])[..|rest|] == rest;
    CancelRace(tb, g, rest + [CancelUpdate], |rest|);
  }

  /** A partial ack and a `filled` update on an order whose executions are incomplete: the last one decides the size. */
  lemma PartialAckDiverges(tb: Table, g: Gen, s: set<Msg>) returns (ms: seq<Msg>, ms': seq<Msg>)
    requires Deliverable(tb, g, s) && FilledAck in s && FilledUpdate in s && Max(TotalSz(s), g.ackSz) < g.sz
    ensures Delivery(tb, g, s, ms) && SeenAfter(tb, g, ms).filledSz == g.sz
    ensures Delivery(tb, g, s, ms') && SeenAfter(tb, g, ms').filledSz == Max(TotalSz(s), g.ackSz)
  {
    var rest := Listing(s - {FilledAck} - {FilledUpdate});
    assert s - {FilledAck} - {FilledUpdate} == s - {FilledAck, FilledUpdate} == s - {FilledUpdate, FilledAck};
    ms := EndsIn(tb, g, s, rest, FilledAck, FilledUpdate);
    ms' := EndsIn(tb, g, s, rest, FilledUpdate, FilledAck);
  }

  /** A delivery whose last two messages are `m` and `n`. */
  lemma EndsIn(tb: Table, g: Gen, s: set<Msg>, rest: seq<Msg>, m: Msg, n: Msg) returns (ms: seq<Msg>)
    requires Deliverable(tb, g, s) && m in s && n in s && m != n
    requires MsgSet(rest) == s - {m, n} && |rest| == |s| - 2
    ensures Delivery(tb, g, s, ms) && ms == rest + [m] + [n]
    ensures SeenAfter(tb, g, ms).filledSz == Max(TotalSz(s), ReportStep(g, ReportStep(g, Reported(g, rest), m), n))
  {
    ms := rest + [m] + [n];
    SetOfSnoc(rest, m);
    SetOfSnoc(rest + [m], n);
    assert s - {m, n} + {m} + {n} == s;
    ListingIsDelivery(tb, g, s, ms);
    SizeSeen(tb, g, ms);
    ReportedTwo(g, rest, m, n);
  }

  lemma SizeSeen(tb: Table, g: Gen, ms: seq<Msg>)
    requires Ready(tb, g, ms)
    ensures SeenAfter(tb, g, ms).filledSz == Max(TotalSz(MsgSet(ms)), Reported(g, ms))
  {
    Delivered(tb, g, ms);
  }

  lemma ReportedTwo(g: Gen, rest: seq<Msg>, m: Msg, n: Msg)
    ensures Reported(g, rest + [m] + [n]) == ReportStep(g, ReportStep(g, Reported(g, rest), m), n)
  {
    assert (rest + [m] + [n])[..|rest| + 1] == rest + [m] && (rest + [m])[..|rest|] == rest;
  }

  /**
    * All deliveries of a set of messages agree, on state, filled size and average price, if and only if it is
    * race-free.
    */
  lemma ConfluentExactly(tb: Table, g: Gen, s: set<Msg>)
    requires Deliverable(tb, g, s)
    ensures (forall ms, ms' | Delivery(tb, g, s, ms) && Delivery(tb, g, s, ms')
            :: SeenAfter(tb, g, ms) == SeenAfter(tb, g, ms'))
       <==> RaceFree(g, s)
  {
    if RaceFree(g, s) {
      forall ms, ms' | Delivery(tb, g, s, ms) && Delivery(tb, g, s, ms')
        ensures SeenAfter(tb, g, ms) == SeenAfter(tb, g, ms')
      {
        Confluent(tb, g, ms);
        Confluent(tb, g, ms');
      }
    } else if FilledAck in s && FilledUpdate in s && Max(TotalSz(s), g.ackSz) < g.sz {
      var ms, ms' := PartialAckDiverges(tb, g, s);
      assert SeenAfter(tb, g, ms) != SeenAfter(tb, g, ms');
    } else {
      var ms, ms' := CancelDiverges(tb, g, s);
      assert SeenAfter(tb, g, ms) != SeenAfter(tb, g, ms');
    }
  }
}
