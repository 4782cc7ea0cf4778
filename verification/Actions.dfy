/** Exchange actions and their two encodings (src/om/Actions.cpp). */
module Actions {
  import opened Basics
  import opened WireTree
  import H = HexText
  import D = DecimalText
  import M = MsgPack
  import J = JsonText

  type U32 = n: nat | n < 0x1_0000_0000
  type U64 = n: nat | n < 0x1_0000_0000_0000_0000

  datatype Tif = Alo | Ioc | Gtc
  datatype TriggerKind = TakeProfit | StopLoss
  datatype Trigger = Trigger(px: D.Raw, isMarket: bool, kind: TriggerKind)
  datatype OrderWire = OrderWire(asset: U32, isBuy: bool, px: D.Raw, sz: D.Raw, reduceOnly: bool, tif: Tif,
                                 trigger: Option<Trigger>, cloid: Option<H.Cloid>)
  datatype Grouping = Na | NormalTpsl | PositionTpsl | Priority(rate: U32)
  datatype Builder = Builder(address: H.Address, fee: U32)
  datatype CancelWire = CancelWire(asset: U32, oid: U64)
  datatype CancelByCloidWire = CancelByCloidWire(asset: U32, cloid: H.Cloid)
  datatype Target = ByOid(oid: U64) | ByCloid(cloid: H.Cloid)
  datatype ModifyWire = ModifyWire(target: Target, order: OrderWire)

  datatype Action =
    | Order(orders: seq<OrderWire>, grouping: Grouping, builder: Option<Builder>)
    | Cancel(cancels: seq<CancelWire>, fast: bool)
    | CancelByCloid(byCloid: seq<CancelByCloidWire>, fast: bool)
    | BatchModify(amendments: seq<ModifyWire>)
    | ScheduleCancel(time: Option<U64>)
    | UpdateLeverage(asset: U32, isCross: bool, leverage: U32)
    | UpdateIsolatedMargin(asset: U32, micro: int)
    | Noop
    | ReserveRequestWeight(weight: U64)

  // ── the tree of an action ───────────────────────────────────────────────────

  function S(s: string): Tree { Leaf(Str(s)) }
  function N(n: int): Tree { Leaf(Num(n)) }
  function B(b: bool): Tree { Leaf(Bool(b)) }

  function TifText(t: Tif): string { match t case Alo => "Alo" case Ioc => "Ioc" case Gtc => "Gtc" }
  function KindText(k: TriggerKind): string { match k case TakeProfit => "tp" case StopLoss => "sl" }

  function TriggerEntries(t: Trigger): Entries {
    Entry("isMarket", B(t.isMarket), Entry("triggerPx", S(D.Text(t.px)), Entry("tpsl", S(KindText(t.kind)), End)))
  }

  function TypeEntries(o: OrderWire): Entries {
    match o.trigger
    case Some(t) => Entry("trigger", Map(TriggerEntries(t)), End)
    case None => Entry("limit", Map(Entry("tif", S(TifText(o.tif)), End)), End)
  }

  function CloidEntries(c: Option<H.Cloid>): Entries {
    match c case Some(c) => Entry("c", S(H.CloidText(c)), End) case None => End
  }

  function TailEntries(o: OrderWire): Entries {
    Entry("s", S(D.Text(o.sz)), Entry("r", B(o.reduceOnly), Entry("t", Map(TypeEntries(o)), CloidEntries(o.cloid))))
  }

  function OrderEntries(o: OrderWire): Entries {
    Entry("a", N(o.asset), Entry("b", B(o.isBuy), Entry("p", S(D.Text(o.px)), TailEntries(o))))
  }

  function OrderTree(o: OrderWire): Tree { Map(OrderEntries(o)) }

  function OrderTrees(os: seq<OrderWire>): Trees {
    if |os| == 0 then Nil else Cons(OrderTree(os[0]), OrderTrees(os[1..]))
  }

  function GroupingTree(g: Grouping): Tree {
    match g
    case Na => S("na")
    case NormalTpsl => S("normalTpsl")
    case PositionTpsl => S("positionTpsl")
    case Priority(rate) => Map(Entry("p", N(rate), End))
  }

  function BuilderEntries(b: Option<Builder>): Entries {
    match b
    case Some(b) => Entry("builder", Map(Entry("b", S(H.AddressText(b.address)), Entry("f", N(b.fee), End))), End)
    case None => End
  }

  function CancelTree(c: CancelWire): Tree { Map(Entry("a", N(c.asset), Entry("o", N(c.oid), End))) }

  function CancelTrees(cs: seq<CancelWire>): Trees {
    if |cs| == 0 then Nil else Cons(CancelTree(cs[0]), CancelTrees(cs[1..]))
  }

  function ByCloidTree(c: CancelByCloidWire): Tree {
    Map(Entry("asset", N(c.asset), Entry("cloid", S(H.CloidText(c.cloid)), End)))
  }

  function ByCloidTrees(cs: seq<CancelByCloidWire>): Trees {
    if |cs| == 0 then Nil else Cons(ByCloidTree(cs[0]), ByCloidTrees(cs[1..]))
  }

  function FastEntries(fast: bool): Entries { if fast then Entry("f", B(true), End) else End }

  function TargetTree(t: Target): Tree {
    match t case ByOid(oid) => N(oid) case ByCloid(c) => S(H.CloidText(c))
  }

  function ModifyTree(m: ModifyWire): Tree {
    Map(Entry("oid", TargetTree(m.target), Entry("order", OrderTree(m.order), End)))
  }

  function ModifyTrees(ms: seq<ModifyWire>): Trees {
    if |ms| == 0 then Nil else Cons(ModifyTree(ms[0]), ModifyTrees(ms[1..]))
  }

  function Typed(name: string, rest: Entries): Tree { Map(Entry("type", S(name), rest)) }

  function Name(a: Action): string {
    match a
    case Order(_, _, _) => "order"
    case Cancel(_, _) => "cancel"
    case CancelByCloid(_, _) => "cancelByCloid"
    case BatchModify(_) => "batchModify"
    case ScheduleCancel(_) => "scheduleCancel"
    case UpdateLeverage(_, _, _) => "updateLeverage"
    case UpdateIsolatedMargin(_, _) => "updateIsolatedMargin"
    case Noop => "noop"
    case ReserveRequestWeight(_) => "reserveRequestWeight"
  }

  function BodyOf(a: Action): Entries {
    match a
    case Order(os, g, b) => Entry("orders", Arr(OrderTrees(os)), Entry("grouping", GroupingTree(g), BuilderEntries(b)))
    case Cancel(cs, fast) => Entry("cancels", Arr(CancelTrees(cs)), FastEntries(fast))
    case CancelByCloid(cs, fast) => Entry("cancels", Arr(ByCloidTrees(cs)), FastEntries(fast))
    case BatchModify(ms) => Entry("modifies", Arr(ModifyTrees(ms)), End)
    case ScheduleCancel(t) => if t.Some? then Entry("time", N(t.value), End) else End
    case UpdateLeverage(asset, isCross, leverage) =>
      Entry("asset", N(asset), Entry("isCross", B(isCross), Entry("leverage", N(leverage), End)))
    case UpdateIsolatedMargin(asset, micro) =>
      Entry("asset", N(asset), Entry("isBuy", B(true), Entry("ntli", N(micro), End)))
    case Noop => End
    case ReserveRequestWeight(weight) => Entry("weight", N(weight), End)
  }

  function TreeOf(a: Action): Tree { Typed(Name(a), BodyOf(a)) }

  // ── different actions have different trees ──────────────────────────────────

  /** The wire ignores the time in force of a trigger order. */
  function Wire(o: OrderWire): OrderWire { if o.trigger.Some? then o.(tif := Gtc) else o }

  function WireOrders(os: seq<OrderWire>): seq<OrderWire> {
    if |os| == 0 then [] else [Wire(os[0])] + WireOrders(os[1..])
  }

  function WireModifies(ms: seq<ModifyWire>): seq<ModifyWire> {
    if |ms| == 0 then [] else [ModifyWire(ms[0].target, Wire(ms[0].order))] + WireModifies(ms[1..])
  }

  function WireAction(a: Action): Action {
    match a
    case Order(os, g, b) => Order(WireOrders(os), g, b)
    case BatchModify(ms) => BatchModify(WireModifies(ms))
    case _ => a
  }

  lemma CloidEntriesInjective(a: Option<H.Cloid>, b: Option<H.Cloid>)
    requires CloidEntries(a) == CloidEntries(b)
    ensures a == b
  {
    if a.Some? && b.Some? { H.CloidTextInjective(a.value, b.value); }
  }

  lemma TypeInjective(a: OrderWire, b: OrderWire)
    requires TypeEntries(a) == TypeEntries(b)
    ensures a.trigger == b.trigger && (a.trigger.None? ==> a.tif == b.tif)
  {
    if a.trigger.Some? && b.trigger.Some? {
      D.TextInjective(a.trigger.value.px, b.trigger.value.px);
    }
  }

  lemma OrderInjective(a: OrderWire, b: OrderWire)
    requires OrderTree(a) == OrderTree(b)
    ensures Wire(a) == Wire(b)
  {
    assert TailEntries(a) == TailEntries(b);
    D.TextInjective(a.px, b.px);
    D.TextInjective(a.sz, b.sz);
    TypeInjective(a, b);
    CloidEntriesInjective(a.cloid, b.cloid);
  }

  lemma {:induction false} OrdersInjective(a: seq<OrderWire>, b: seq<OrderWire>)
    requires OrderTrees(a) == OrderTrees(b)
    ensures WireOrders(a) == WireOrders(b)
    decreases |a|
  {
    if |a| != 0 && |b| != 0 {
      OrderInjective(a[0], b[0]);
      OrdersInjective(a[1..], b[1..]);
    }
  }

  lemma {:induction false} CancelsInjective(a: seq<CancelWire>, b: seq<CancelWire>)
    requires CancelTrees(a) == CancelTrees(b)
    ensures a == b
    decreases |a|
  {
    if |a| != 0 && |b| != 0 {
      CancelsInjective(a[1..], b[1..]);
      assert a == [a[0]] + a[1..] && b == [b[0]] + b[1..];
    }
  }

  lemma {:induction false} ByCloidInjective(a: seq<CancelByCloidWire>, b: seq<CancelByCloidWire>)
    requires ByCloidTrees(a) == ByCloidTrees(b)
    ensures a == b
    decreases |a|
  {
    if |a| != 0 && |b| != 0 {
      H.CloidTextInjective(a[0].cloid, b[0].cloid);
      ByCloidInjective(a[1..], b[1..]);
      assert a == [a[0]] + a[1..] && b == [b[0]] + b[1..];
    }
  }

  lemma ModifyInjective(a: ModifyWire, b: ModifyWire)
    requires ModifyTree(a) == ModifyTree(b)
    ensures a.target == b.target && Wire(a.order) == Wire(b.order)
  {
    OrderInjective(a.order, b.order);
    if a.target.ByCloid? && b.target.ByCloid? { H.CloidTextInjective(a.target.cloid, b.target.cloid); }
  }

  lemma {:induction false} ModifiesInjective(a: seq<ModifyWire>, b: seq<ModifyWire>)
    requires ModifyTrees(a) == ModifyTrees(b)
    ensures WireModifies(a) == WireModifies(b)
    decreases |a|
  {
    if |a| != 0 && |b| != 0 {
      ModifyInjective(a[0], b[0]);
      ModifiesInjective(a[1..], b[1..]);
    }
  }

  lemma BuilderInjective(a: Option<Builder>, b: Option<Builder>)
    requires BuilderEntries(a) == BuilderEntries(b)
    ensures a == b
  {
    if a.Some? && b.Some? { H.AddressTextInjective(a.value.address, b.value.address); }
  }

  predicate SameKind(a: Action, b: Action) {
    && a.Order? == b.Order? && a.Cancel? == b.Cancel? && a.CancelByCloid? == b.CancelByCloid?
    && a.BatchModify? == b.BatchModify? && a.ScheduleCancel? == b.ScheduleCancel?
      && a.UpdateLeverage? == b.UpdateLeverage?
    && a.UpdateIsolatedMargin? == b.UpdateIsolatedMargin? && a.Noop? == b.Noop?
  }

  lemma NameIsKind(a: Action, b: Action)
    requires Name(a) == Name(b)
    ensures SameKind(a, b)
  {
    assert "scheduleCancel"[0] == 's' && "updateLeverage"[0] == 'u';
    assert "updateIsolatedMargin"[0] == 'u' && "reserveRequestWeight"[0] == 'r';
    assert |Name(a)| == |Name(b)| && Name(a)[0] == Name(b)[0];
  }

  lemma GroupingInjective(a: Grouping, b: Grouping)
    requires GroupingTree(a) == GroupingTree(b)
    ensures a == b
  {
    assert "na"[0] == 'n' && "normalTpsl"[1] == 'o' && "positionTpsl"[0] == 'p';
  }

  lemma OrderBodyInjective(a: Action, b: Action)
    requires a.Order? && b.Order? && BodyOf(a) == BodyOf(b)
    ensures WireAction(a) == WireAction(b)
  {
    assert BodyOf(a).value == Arr(OrderTrees(a.orders)) && BodyOf(b).value == Arr(OrderTrees(b.orders));
    OrdersInjective(a.orders, b.orders);
    GroupingInjective(a.grouping, b.grouping);
    BuilderInjective(a.builder, b.builder);
  }

  lemma BatchInjective(a: Action, b: Action)
    requires SameKind(a, b) && BodyOf(a) == BodyOf(b) && (a.Cancel? || a.CancelByCloid? || a.BatchModify?)
    ensures WireAction(a) == WireAction(b)
  {
    match a
    case Cancel(cs, _) => CancelsInjective(cs, b.cancels);
    case CancelByCloid(cs, _) => ByCloidInjective(cs, b.byCloid);
    case BatchModify(ms) => ModifiesInjective(ms, b.amendments);
  }

  lemma SettingInjective(a: Action, b: Action)
    requires SameKind(a, b) && BodyOf(a) == BodyOf(b) && !a.Order? && !a.Cancel? && !a.CancelByCloid? && !a.BatchModify?
    ensures a == b
  {}

  /** The tree determines everything an action says on the wire. */
  lemma TreeInjective(a: Action, b: Action)
    requires TreeOf(a) == TreeOf(b)
    ensures WireAction(a) == WireAction(b)
  {
    assert S(Name(a)) == S(Name(b)) && BodyOf(a) == BodyOf(b);
    NameIsKind(a, b);
    if a.Order? {
      OrderBodyInjective(a, b);
    } else if a.Cancel? || a.CancelByCloid? || a.BatchModify? {
      BatchInjective(a, b);
    } else {
      SettingInjective(a, b);
    }
  }
}
