/** The messages of one order in the middle of everything else that happens to the table. */
module OrderInterleaving {
  import opened Basics
  import opened OrderTable
  import opened OrderSafety
  import opened OrderConfluence
  import E = OrderExecutions
  import G = OrderGenerations
  import L = OrderLifecycle

  /** A message of the order, or any other event. */
  datatype Item = Mine(m: Msg) | Other(e: Event)

  function Mines(items: seq<Item>): seq<Msg> {
    if items == [] then []
    else
      var front, last := Mines(items[..|items| - 1]), items[|items| - 1];
      if last.Mine? then front + [last.m] else front
  }

  function EventFor(g: Gen, i: Item): Event { if i.Mine? then EventOf(g, i.m) else i.e }

  function AllEvents(g: Gen, items: seq<Item>): (es: seq<Event>)
    ensures |es| == |items|
  {
    if items == [] then [] else AllEvents(g, items[..|items| - 1]) + [EventFor(g, items[|items| - 1])]
  }

  function OtherTid(i: Item): set<nat> { if i.Other? && i.e.Traded? then {i.e.f.tid} else {} }

  /** Trade ids that the other events bring. */
  function OtherTids(items: seq<Item>): set<nat> {
    if items == [] then {} else OtherTids(items[..|items| - 1]) + OtherTid(items[|items| - 1])
  }

  ghost function MineTids(items: seq<Item>): set<nat> { Tids(MsgSet(Mines(items))) }

  /** The other events leave the order as it is. */
  ghost predicate LeftAlone(tb: Table, g: Gen, items: seq<Item>) {
    items == [] ||
    (var front, last := items[..|items| - 1], items[|items| - 1];
     LeftAlone(tb, g, front) && (last.Other? ==> Untouched(Run(tb, AllEvents(g, front)), last.e, g.c)))
  }

  ghost predicate Untouched(tb: Table, e: Event, c: Cloid) {
    c in tb.orders ==> c in Step(tb, e).orders && Step(tb, e).orders[c] == tb.orders[c]
  }

  /**
    * A delivery of the order's messages among other events: those bring other trades, and all trades together fit the
    * window.
    */
  ghost predicate Among(tb: Table, g: Gen, items: seq<Item>) {
    && Safe(tb) && Ready(tb, g, Mines(items)) && LeftAlone(tb, g, items)
    && OtherTids(items) !! MineTids(items) && |OtherTids(items) + MineTids(items)| <= MAX_REMEMBERED_TIDS
  }

  lemma AmongFront(tb: Table, g: Gen, items: seq<Item>)
    requires items != [] && Among(tb, g, items)
    ensures Among(tb, g, items[..|items| - 1])
  {
    var front, last := items[..|items| - 1], items[|items| - 1];
    if last.Mine? {
      var ms := Mines(items);
      assert ms[..|ms| - 1] == Mines(front);
      ReadyFront(tb, g, ms);
    }
    MineTidsSnoc(items);
    Smaller(OtherTids(front) + MineTids(front), OtherTids(items) + MineTids(items));
  }

  lemma AllEventsSnoc(tb: Table, g: Gen, items: seq<Item>)
    requires items != []
    ensures var front, last := items[..|items| - 1], items[|items| - 1];
            Run(tb, AllEvents(g, items)) == Step(Run(tb, AllEvents(g, front)), EventFor(g, last))
  {
    assert AllEvents(g, items)[..|items| - 1] == AllEvents(g, items[..|items| - 1]);
  }

  // ── the window among other trades ───────────────────────────────────────────

  lemma HoldsTrade(before: set<nat>, tids: set<nat>, order: seq<nat>, t: set<nat>, tid: nat, tids': set<nat>)
    requires Holds(before, tids, order, t) && tid !in tids && |t + {tid}| <= MAX_REMEMBERED_TIDS
    requires Mirrors(tids', Remembered(order, tid))
    ensures Holds(before, tids', Remembered(order, tid), t + {tid})
  {
    NotHeld(before, tids, order, t, tid);
    NewestGrows(order, t, tid);
    RememberedWithin(before, tids, order, t, tid, tids');
  }

  lemma RememberedWithin(before: set<nat>, tids: set<nat>, order: seq<nat>, t: set<nat>, tid: nat, tids': set<nat>)
    requires tids <= before + t && Mirrors(tids, order) && Mirrors(tids', Remembered(order, tid))
    ensures tids' <= before + (t + {tid})
  {
    RememberedFrom(order, tid);
  }

  lemma NotHeld(before: set<nat>, tids: set<nat>, order: seq<nat>, t: set<nat>, tid: nat)
    requires Holds(before, tids, order, t) && tid !in tids
    ensures tid !in t && |t + {tid}| == |t| + 1
  {}

  lemma RememberedFrom(order: seq<nat>, tid: nat)
    ensures forall x :: x in Remembered(order, tid) ==> x in order || x == tid
  {}

  /** What the window holds after part of a delivery: the order's trades among the newest. */
  ghost predicate WindowAmong(tb: Table, g: Gen, items: seq<Item>, t: set<nat>) {
    var tb' := Run(tb, AllEvents(g, items));
    && TableWindow(tb.seenTids, tb', t)
    && t <= OtherTids(items) + MineTids(items) && MineTids(items) <= t
  }

  function TidIn(e: Event): set<nat> { if e.Traded? then {e.f.tid} else {} }

  ghost predicate TableWindow(before: set<nat>, tb: Table, t: set<nat>) {
    Holds(before, tb.seenTids, tb.seenTidOrder, t)
  }

  lemma EventMovesWindow(before: set<nat>, tb: Table, e: Event, t: set<nat>) returns (t': set<nat>)
    requires Safe(tb) && TableWindow(before, tb, t) && |t + TidIn(e)| <= MAX_REMEMBERED_TIDS
    ensures TableWindow(before, Step(tb, e), t')
    ensures t <= t' <= t + TidIn(e) && TidIn(e) <= before + t'
  {
    E.StepRemembers(tb, e);
    StepKeepsSafe(tb, e);
    t' := t;
    if e.Traded? && e.f.tid !in tb.seenTids {
      HoldsTrade(before, tb.seenTids, tb.seenTidOrder, t, e.f.tid, Step(tb, e).seenTids);
      t' := t + {e.f.tid};
    } else {
      SameMirror(tb.seenTids, Step(tb, e).seenTids, tb.seenTidOrder);
    }
  }

  lemma SameMirror(tids: set<nat>, tids': set<nat>, order: seq<nat>)
    requires Mirrors(tids, order) && Mirrors(tids', order)
    ensures tids == tids'
  {}

  /** The trade id an item brings belongs to one side or the other. */
  lemma BringsTid(g: Gen, items: seq<Item>)
    requires items != []
    ensures var last := items[|items| - 1];
            EventFor(g, last).Traded? ==> EventFor(g, last).f.tid in OtherTids(items) + MineTids(items)
  {
    var last := items[|items| - 1];
    if last.Mine? && last.m.Execution? {
      assert last.m in Mines(items);
      assert last.m in MsgSet(Mines(items));
    }
  }

  lemma {:induction false} WindowThrough(tb: Table, g: Gen, items: seq<Item>) returns (t: set<nat>)
    requires Among(tb, g, items)
    ensures WindowAmong(tb, g, items, t)
  {
    t := {};
    if items == [] {
      assert MsgSet([]) == {} && Tids({}) == {};
    } else {
      var front, last := items[..|items| - 1], items[|items| - 1];
      AmongFront(tb, g, items);
      t := WindowThrough(tb, g, front);
      AllEventsSnoc(tb, g, items);
      SafeRun(tb, AllEvents(g, front));
      RoomFor(g, items, t);
      FreshTid(tb, g, items);
      t := NextWindow(tb, g, items, t);
    }
  }

  lemma NextWindow(tb: Table, g: Gen, items: seq<Item>, t: set<nat>) returns (t': set<nat>)
    requires items != [] && WindowAmong(tb, g, items[..|items| - 1], t)
    requires Safe(Run(tb, AllEvents(g, items[..|items| - 1]))) && MineTid(items[|items| - 1]) !! tb.seenTids
    requires |t + TidIn(EventFor(g, items[|items| - 1]))| <= MAX_REMEMBERED_TIDS
    ensures WindowAmong(tb, g, items, t')
  {
    var front, last := items[..|items| - 1], items[|items| - 1];
    t' := EventMovesWindow(tb.seenTids, Run(tb, AllEvents(g, front)), EventFor(g, last), t);
    NewTids(tb.seenTids, g, last, t, t');
    NextTids(items, t, t');
    AllEventsSnoc(tb, g, items);
  }

  lemma NewTids(before: set<nat>, g: Gen, i: Item, t: set<nat>, t': set<nat>)
    requires t <= t' <= t + TidIn(EventFor(g, i)) && TidIn(EventFor(g, i)) <= before + t' && MineTid(i) !! before
    ensures t' <= t + OtherTid(i) + MineTid(i) && MineTid(i) <= t'
  {
    assert TidIn(EventFor(g, i)) == OtherTid(i) + MineTid(i);
  }

  lemma NextTids(items: seq<Item>, t: set<nat>, t': set<nat>)
    requires items != []
    requires var front, last := items[..|items| - 1], items[|items| - 1];
             && t <= OtherTids(front) + MineTids(front) && MineTids(front) <= t
             && t <= t' <= t + OtherTid(last) + MineTid(last) && MineTid(last) <= t'
    ensures t' <= OtherTids(items) + MineTids(items) && MineTids(items) <= t'
  {
    var front, last := items[..|items| - 1], items[|items| - 1];
    MineTidsSnoc(items);
    TidsGrow(OtherTids(front), MineTids(front), OtherTid(last), MineTid(last), t, t');
  }

  function MineTid(i: Item): set<nat> { if i.Mine? && i.m.Execution? then {i.m.tid} else {} }

  lemma MineTidsSnoc(items: seq<Item>)
    requires items != []
    ensures MineTids(items) == MineTids(items[..|items| - 1]) + MineTid(items[|items| - 1])
  {
    var front, last := items[..|items| - 1], items[|items| - 1];
    if last.Mine? {
      SetOfSnoc(Mines(front), last.m);
      TidsAdd(MsgSet(Mines(front)), last.m);
    }
  }

  lemma TidsGrow(others: set<nat>, mines: set<nat>, other: set<nat>, mine: set<nat>, t: set<nat>, t': set<nat>)
    requires t <= others + mines && mines <= t && t <= t' <= t + other + mine && mine <= t'
    ensures t' <= (others + other) + (mines + mine) && mines + mine <= t'
  {}

  lemma RoomFor(g: Gen, items: seq<Item>, t: set<nat>)
    requires items != [] && |OtherTids(items) + MineTids(items)| <= MAX_REMEMBERED_TIDS
    requires t <= OtherTids(items[..|items| - 1]) + MineTids(items[..|items| - 1])
    ensures |t + TidIn(EventFor(g, items[|items| - 1]))| <= MAX_REMEMBERED_TIDS
  {
    MineTidsSnoc(items);
    BringsTid(g, items);
    Smaller(t + TidIn(EventFor(g, items[|items| - 1])), OtherTids(items) + MineTids(items));
  }

  /** A message's trade id is not among those remembered at the start. */
  lemma FreshTid(tb: Table, g: Gen, items: seq<Item>)
    requires items != [] && Among(tb, g, items)
    ensures var last := items[|items| - 1]; last.Mine? && last.m.Execution? ==> last.m.tid !in tb.seenTids
  {
    var last := items[|items| - 1];
    if last.Mine? { assert last.m in Mines(items); }
  }

  // ── the record among other events ───────────────────────────────────────────

  ghost function AmongRecord(tb: Table, g: Gen, items: seq<Item>): Tracked { Get(Run(tb, AllEvents(g, items)), g.c) }

  ghost function AloneRecord(tb: Table, g: Gen, ms: seq<Msg>): Tracked { Get(Run(tb, Events(g, ms)), g.c) }

  /** Among other events, too, a trade id has been seen exactly when its execution was delivered. */
  lemma SeenAmong(tb: Table, g: Gen, items: seq<Item>, m: Msg)
    requires Among(tb, g, items) && m.Execution? && m.tid !in tb.seenTids && m.tid !in OtherTids(items)
    requires Consistent(MsgSet(Mines(items)) + {m})
    ensures m.tid in Run(tb, AllEvents(g, items)).seenTids <==> m in MsgSet(Mines(items))
  {
    var t := WindowThrough(tb, g, items);
    var tb1 := Run(tb, AllEvents(g, items));
    HeldIsSeen(tb.seenTids, tb1.seenTids, tb1.seenTidOrder, t, m.tid);
    SeenBefore(MsgSet(Mines(items)), m);
  }

  /** What a message does to the record, knowing whether its execution was delivered before. */
  ghost function Receive(g: Gen, s: set<Msg>, t: Tracked, m: Msg): Tracked {
    if m.Execution? && m in s then t else RecordStep(g, t, m)
  }

  lemma AloneStep(tb: Table, g: Gen, ms: seq<Msg>)
    requires ms != [] && Ready(tb, g, ms)
    ensures var front := ms[..|ms| - 1];
            && Ready(tb, g, front)
            && AloneRecord(tb, g, ms) == Receive(g, MsgSet(front), AloneRecord(tb, g, front), ms[|ms| - 1])
            && g.c in Run(tb, Events(g, front)).orders && !AloneRecord(tb, g, front).modifyPending
            && (AloneRecord(tb, g, front).oid == 0 || AloneRecord(tb, g, front).oid == g.oid)
  {
    var front, m := ms[..|ms| - 1], ms[|ms| - 1];
    ReadyFront(tb, g, ms);
    Delivered(tb, g, front);
    EventsSnoc(tb, g, ms);
    var tb1 := Run(tb, Events(g, front));
    Lift(tb1, g, m);
    assert m in ms;
    SeenBefore(MsgSet(front), m);
    if m.Execution? { HeldIsSeen(tb.seenTids, tb1.seenTids, tb1.seenTidOrder, Tids(MsgSet(front)), m.tid); }
  }

  lemma AmongStep(tb: Table, g: Gen, items: seq<Item>)
    requires items != [] && Among(tb, g, items) && items[|items| - 1].Mine?
    requires var t := AmongRecord(tb, g, items[..|items| - 1]); !t.modifyPending && (t.oid == 0 || t.oid == g.oid)
    requires g.c in Run(tb, AllEvents(g, items[..|items| - 1])).orders
    ensures var front, m := items[..|items| - 1], items[|items| - 1].m;
            && g.c in Run(tb, AllEvents(g, items)).orders
            && AmongRecord(tb, g, items) == Receive(g, MsgSet(Mines(front)), AmongRecord(tb, g, front), m)
  {
    var front, m := items[..|items| - 1], items[|items| - 1].m;
    AmongFront(tb, g, items);
    AllEventsSnoc(tb, g, items);
    Lift(Run(tb, AllEvents(g, front)), g, m);
    FreshTid(tb, g, items);
    MineIsNotOther(g, items);
    if m.Execution? { SeenAmong(tb, g, front, m); }
  }

  lemma MineIsNotOther(g: Gen, items: seq<Item>)
    requires items != [] && items[|items| - 1].Mine? && OtherTids(items) !! MineTids(items)
    requires Consistent(MsgSet(Mines(items)))
    ensures var front, m := items[..|items| - 1], items[|items| - 1].m;
            Consistent(MsgSet(Mines(front)) + {m}) && (m.Execution? ==> m.tid !in OtherTids(front))
  {
    var front, m := items[..|items| - 1], items[|items| - 1].m;
    BringsTid(g, items);
    assert MsgSet(Mines(items)) == MsgSet(Mines(front)) + {m} by { SetOfSnoc(Mines(front), m); }
    if m.Execution? {
      assert m in MsgSet(Mines(items));
      assert m.tid in MineTids(items);
    }
  }

  /** Other events in between do not matter: the record is that of the order's own messages. */
  lemma {:induction false} OthersDoNotMatter(tb: Table, g: Gen, items: seq<Item>)
    requires Among(tb, g, items)
    ensures g.c in Run(tb, AllEvents(g, items)).orders
    ensures AmongRecord(tb, g, items) == AloneRecord(tb, g, Mines(items))
  {
    if items != [] {
      var front, last := items[..|items| - 1], items[|items| - 1];
      AmongFront(tb, g, items);
      OthersDoNotMatter(tb, g, front);
      AllEventsSnoc(tb, g, items);
      if last.Mine? {
        var ms := Mines(items);
        assert ms[..|ms| - 1] == Mines(front);
        AloneStep(tb, g, ms);
        AmongStep(tb, g, items);
      }
    }
  }

  // ── exactly when deliveries agree ───────────────────────────────────────────

  /** A delivery of exactly the messages in `s` among other events. */
  ghost predicate AmongDelivery(tb: Table, g: Gen, s: set<Msg>, items: seq<Item>) {
    Among(tb, g, items) && MsgSet(Mines(items)) == s
  }

  ghost function AmongSeen(tb: Table, g: Gen, items: seq<Item>): Seen {
    var t := AmongRecord(tb, g, items);
    Seen(t.state, t.filledSz, t.avgFillPx)
  }

  /** A delivery with nothing in between. */
  function Own(ms: seq<Msg>): seq<Item> {
    if ms == [] then [] else Own(ms[..|ms| - 1]) + [Mine(ms[|ms| - 1])]
  }

  lemma {:induction false} OwnIsMine(tb: Table, g: Gen, ms: seq<Msg>)
    ensures Mines(Own(ms)) == ms && OtherTids(Own(ms)) == {} && LeftAlone(tb, g, Own(ms))
  {
    if ms != [] {
      var front := ms[..|ms| - 1];
      OwnIsMine(tb, g, front);
      var own := Own(ms);
      assert own[..|own| - 1] == Own(front) && own[|own| - 1] == Mine(ms[|ms| - 1]);
      assert front + [ms[|ms| - 1]] == ms;
    }
  }

  lemma OwnIsAmong(tb: Table, g: Gen, s: set<Msg>, ms: seq<Msg>)
    requires Safe(tb) && Delivery(tb, g, s, ms)
    ensures AmongDelivery(tb, g, s, Own(ms)) && AmongSeen(tb, g, Own(ms)) == SeenAfter(tb, g, ms)
  {
    OwnIsMine(tb, g, ms);
    assert {} + MineTids(Own(ms)) == Tids(MsgSet(ms));
    OthersDoNotMatter(tb, g, Own(ms));
  }

  /**
    * All deliveries of a set of messages, in any order, with any repetition and among any other events that leave the
    * order alone, agree on state, filled size and average price if and only if the set is race-free.
    */
  lemma ConfluentAmongOthers(tb: Table, g: Gen, s: set<Msg>)
    requires Safe(tb) && Deliverable(tb, g, s)
    ensures (forall i, j | AmongDelivery(tb, g, s, i) && AmongDelivery(tb, g, s, j) ::
               AmongSeen(tb, g, i) == AmongSeen(tb, g, j))
       <==> RaceFree(g, s)
  {
    if RaceFree(g, s) {
      forall i, j | AmongDelivery(tb, g, s, i) && AmongDelivery(tb, g, s, j)
        ensures AmongSeen(tb, g, i) == AmongSeen(tb, g, j)
      {
        AmongOutcome(tb, g, s, i);
        AmongOutcome(tb, g, s, j);
      }
    } else {
      ConfluentExactly(tb, g, s);
      var ms, ms' :| Delivery(tb, g, s, ms) && Delivery(tb, g, s, ms') && SeenAfter(tb, g, ms) != SeenAfter(tb, g, ms');
      OwnIsAmong(tb, g, s, ms);
      OwnIsAmong(tb, g, s, ms');
    }
  }

  lemma AmongOutcome(tb: Table, g: Gen, s: set<Msg>, items: seq<Item>)
    requires AmongDelivery(tb, g, s, items) && RaceFree(g, s)
    ensures AmongSeen(tb, g, items) == OrderConfluence.Outcome(g, s)
  {
    OthersDoNotMatter(tb, g, items);
    Confluent(tb, g, Mines(items));
  }

  // ── events that leave an order alone ────────────────────────────────────────

  /** The event is about another order, or none. */
  ghost predicate NamesAnother(tb: Table, e: Event, c: Cloid) {
    match e
    case Placed(_) => true
    case CancelSent(d) => d != c
    case CancelByOidSent(oid) => FindByOid(tb, oid) != Some(c)
    case ModifySent(d) => d != c
    case ActionResult(d, _, _, _) => d != c
    case Updated(u) => Resolve(tb, u.cloid, u.oid) != Some(c) && KeyOf(u.cloid, u.oid) != c
    case Traded(f, _) => Resolve(tb, f.cloid, f.oid) != Some(c)
    case Probed(d, _) => d != c
    case Listed(open) => KeyOf(open.cloid, open.oid) != c
    case AmendMatched(d, _) => d != c
    case LiveMatched(d, _) => d != c
    case VenueCanceled(oid) => FindByOid(tb, oid) != Some(c)
    case Evicted(d) => d != c
  }

  lemma OthersAreUntouched(tb: Table, e: Event, c: Cloid)
    requires NamesAnother(tb, e, c)
    ensures Untouched(tb, e, c)
  {
    if c in tb.orders {
      match e
      case Placed(requests) => G.PlacingKeepsOid(tb, requests, c);
      case ActionResult(d, kind, outcome, target) => ResultLeaves(tb, d, kind, outcome, target, c);
      case Updated(u) => UpdateLeaves(tb, u, c);
      case Listed(open) => ListedLeaves(tb, open, c);
      case Traded(f, historical) => FillLeaves(tb, f, historical, c);
      case Probed(d, answer) => ProbeLeaves(tb, d, answer, c);
      case _ =>
    }
  }

  lemma FillLeaves(tb: Table, f: FillMsg, historical: bool, c: Cloid)
    requires c in tb.orders && Resolve(tb, f.cloid, f.oid) != Some(c)
    ensures c in OnUserFill(tb, f, historical).orders && OnUserFill(tb, f, historical).orders[c] == tb.orders[c]
  {}

  lemma ProbeLeaves(tb: Table, d: Cloid, answer: ProbeAnswer, c: Cloid)
    requires c in tb.orders && c != d
    ensures c in OnProbe(tb, d, answer).orders && OnProbe(tb, d, answer).orders[c] == tb.orders[c]
  {}

  lemma KnownLeaves(tb: Table, d: Cloid, u: OrderUpdate, c: Cloid)
    requires c in tb.orders && c != d
    ensures c in UpdateKnown(tb, d, u).orders && UpdateKnown(tb, d, u).orders[c] == tb.orders[c]
  {}

  lemma UpdateLeaves(tb: Table, u: OrderUpdate, c: Cloid)
    requires c in tb.orders && Resolve(tb, u.cloid, u.oid) != Some(c) && KeyOf(u.cloid, u.oid) != c
    ensures c in OnOrderUpdate(tb, u).orders && OnOrderUpdate(tb, u).orders[c] == tb.orders[c]
  {
    var known := Resolve(tb, u.cloid, u.oid);
    if known.Some? {
      KnownLeaves(tb, known.value, u, c);
    } else {
      KnownLeaves(TrackExternal(tb, KeyOf(u.cloid, u.oid), u), KeyOf(u.cloid, u.oid), u, c);
    }
  }

  lemma ListedLeaves(tb: Table, open: OpenOrder, c: Cloid)
    requires c in tb.orders && KeyOf(open.cloid, open.oid) != c
    ensures c in OnListed(tb, open).orders && OnListed(tb, open).orders[c] == tb.orders[c]
  {
    L.ListedAdvances(tb, open, c);
  }

  lemma ResultLeaves(tb: Table, d: Cloid, kind: ActionKind, outcome: OrderTable.Outcome, target: Option<(int, int)>,
                     c: Cloid)
    requires c in tb.orders && c != d
    ensures var tb' := OnActionResult(tb, d, kind, outcome, target);
            c in tb'.orders && tb'.orders[c] == tb.orders[c]
  {}
}
