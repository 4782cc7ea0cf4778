/** What the two encodings of an action say, read back by name. */
module ActionFields {
  import opened Basics
  import opened WireTree
  import opened Actions
  import opened ActionTrees
  import H = HexText
  import D = DecimalText
  import M = MsgPack
  import J = JsonText

  // ── looking up ──────────────────────────────────────────────────────────────

  function Lookup(es: Entries, key: string): Option<Tree> {
    if es.End? then None else if es.key == key then Some(es.value) else Lookup(es.rest, key)
  }

  /** The value under a key of a map. */
  function Field(t: Tree, key: string): Option<Tree> { if t.Map? then Lookup(t.entries, key) else None }

  function Nth(ts: Trees, i: nat): Option<Tree> {
    if ts.Nil? then None else if i == 0 then Some(ts.head) else Nth(ts.tail, i - 1)
  }

  /** The element of an array at an index. */
  function Item(t: Tree, i: nat): Option<Tree> { if t.Arr? then Nth(t.items, i) else None }

  function Length(t: Tree): nat { if t.Arr? then Count(t.items) else 0 }

  function Keys(es: Entries): seq<string> { if es.End? then [] else [es.key] + Keys(es.rest) }

  /** A map with exactly these keys in this order; the signed bytes depend on it. */
  predicate HasKeys(t: Tree, keys: seq<string>) { t.Map? && Keys(t.entries) == keys }

  /** What is found is the number, the truth value or the word. */
  predicate IsNum(f: Option<Tree>, n: int) { f == Some(Leaf(Num(n))) }
  predicate IsBool(f: Option<Tree>, b: bool) { f == Some(Leaf(Bool(b))) }
  predicate IsWord(f: Option<Tree>, s: string) { f == Some(Leaf(Str(s))) }

  /** What is found is a string that parses to the decimal; the smallest one alone cannot be parsed. */
  predicate IsDecimal(f: Option<Tree>, raw: D.Raw) {
    f.Some? && f.value.Leaf? && f.value.token.Str?
    && D.ValueOf(f.value.token.s) == if raw == D.MIN_RAW then None else Some(raw)
  }

  predicate IsCloid(f: Option<Tree>, c: H.Cloid) {
    f.Some? && f.value.Leaf? && f.value.token.Str? && H.ParseCloid(f.value.token.s) == Some(c)
  }

  /** `0x` and two hexadecimal digits for each byte. */
  predicate IsAddressText(f: Option<Tree>, a: H.Address) {
    && f.Some? && f.value.Leaf? && f.value.token.Str?
    && var s := f.value.token.s; |s| == 42 && s[0] == '0' && s[1] == 'x' && H.SpellsBytes(s[2..], a)
  }

  // ── what each action says ───────────────────────────────────────────────────

  predicate SaysType(t: Tree, o: OrderWire) {
    match o.trigger
    case Some(g) =>
      && HasKeys(t, ["trigger"]) && Field(t, "trigger").Some?
      && var u := Field(t, "trigger").value;
         HasKeys(u, ["isMarket", "triggerPx", "tpsl"])
         && IsBool(Field(u, "isMarket"), g.isMarket) && IsDecimal(Field(u, "triggerPx"), g.px)
         && IsWord(Field(u, "tpsl"), if g.kind.TakeProfit? then "tp" else "sl")
    case None =>
      && HasKeys(t, ["limit"]) && Field(t, "limit").Some? && HasKeys(Field(t, "limit").value, ["tif"])
      && IsWord(Field(Field(t, "limit").value, "tif"), if o.tif.Alo? then "Alo" else if o.tif.Ioc? then "Ioc"
                else "Gtc")
  }

  predicate SaysOrder(t: Tree, o: OrderWire) {
    && HasKeys(t, ["a", "b", "p", "s", "r", "t"] + (if o.cloid.Some? then ["c"] else []))
    && IsNum(Field(t, "a"), o.asset) && IsBool(Field(t, "b"), o.isBuy) && IsBool(Field(t, "r"), o.reduceOnly)
    && IsDecimal(Field(t, "p"), o.px) && IsDecimal(Field(t, "s"), o.sz)
    && Field(t, "t").Some? && SaysType(Field(t, "t").value, o)
    && (if o.cloid.Some? then IsCloid(Field(t, "c"), o.cloid.value) else Field(t, "c") == None)
  }

  predicate SaysGrouping(f: Option<Tree>, g: Grouping) {
    match g
    case Na => IsWord(f, "na")
    case NormalTpsl => IsWord(f, "normalTpsl")
    case PositionTpsl => IsWord(f, "positionTpsl")
    case Priority(rate) => f.Some? && HasKeys(f.value, ["p"]) && IsNum(Field(f.value, "p"), rate)
  }

  predicate SaysBuilder(f: Option<Tree>, b: Option<Builder>) {
    match b
    case None => f == None
    case Some(b) =>
      && f.Some? && HasKeys(f.value, ["b", "f"])
      && IsAddressText(Field(f.value, "b"), b.address) && IsNum(Field(f.value, "f"), b.fee)
  }

  predicate SaysFast(f: Option<Tree>, fast: bool) { if fast then IsBool(f, true) else f == None }

  predicate SaysModify(t: Tree, m: ModifyWire) {
    && HasKeys(t, ["oid", "order"]) && Field(t, "order").Some? && SaysOrder(Field(t, "order").value, m.order)
    && match m.target
       case ByOid(oid) => IsNum(Field(t, "oid"), oid)
       case ByCloid(c) => IsCloid(Field(t, "oid"), c)
  }

  /** A list of the action's length whose elements say, one by one, what the action's do. */
  ghost predicate SaysEach<T>(f: Option<Tree>, xs: seq<T>, says: (Tree, T) -> bool) {
    && f.Some? && f.value.Arr? && Length(f.value) == |xs|
    && forall i: nat :: i < |xs| ==> Item(f.value, i).Some? && says(Item(f.value, i).value, xs[i])
  }

  predicate SaysCancel(t: Tree, c: CancelWire) {
    HasKeys(t, ["a", "o"]) && IsNum(Field(t, "a"), c.asset) && IsNum(Field(t, "o"), c.oid)
  }

  predicate SaysByCloid(t: Tree, c: CancelByCloidWire) {
    HasKeys(t, ["asset", "cloid"]) && IsNum(Field(t, "asset"), c.asset) && IsCloid(Field(t, "cloid"), c.cloid)
  }

  /** The keys of an action, in order. */
  function ActionKeys(a: Action): seq<string> {
    match a
    case Order(_, _, b) => ["type", "orders", "grouping"] + (if b.Some? then ["builder"] else [])
    case Cancel(_, fast) => ["type", "cancels"] + (if fast then ["f"] else [])
    case CancelByCloid(_, fast) => ["type", "cancels"] + (if fast then ["f"] else [])
    case BatchModify(_) => ["type", "modifies"]
    case ScheduleCancel(time) => ["type"] + (if time.Some? then ["time"] else [])
    case UpdateLeverage(_, _, _) => ["type", "asset", "isCross", "leverage"]
    case UpdateIsolatedMargin(_, _) => ["type", "asset", "isBuy", "ntli"]
    case Noop => ["type"]
    case ReserveRequestWeight(_) => ["type", "weight"]
  }

  ghost predicate SaysAction(t: Tree, a: Action) { HasKeys(t, ActionKeys(a)) && SaysFields(t, a) }

  ghost predicate SaysFields(t: Tree, a: Action) {
    match a
    case Order(os, g, b) =>
      && IsWord(Field(t, "type"), "order") && SaysEach(Field(t, "orders"), os, SaysOrder)
      && SaysGrouping(Field(t, "grouping"), g) && SaysBuilder(Field(t, "builder"), b)
    case Cancel(cs, fast) =>
      && IsWord(Field(t, "type"), "cancel") && SaysEach(Field(t, "cancels"), cs, SaysCancel)
      && SaysFast(Field(t, "f"), fast)
    case CancelByCloid(cs, fast) =>
      && IsWord(Field(t, "type"), "cancelByCloid") && SaysEach(Field(t, "cancels"), cs, SaysByCloid)
      && SaysFast(Field(t, "f"), fast)
    case BatchModify(ms) => IsWord(Field(t, "type"), "batchModify") && SaysEach(Field(t, "modifies"), ms, SaysModify)
    case ScheduleCancel(time) =>
      && IsWord(Field(t, "type"), "scheduleCancel")
      && (if time.Some? then IsNum(Field(t, "time"), time.value) else Field(t, "time") == None)
    case UpdateLeverage(asset, isCross, leverage) =>
      && IsWord(Field(t, "type"), "updateLeverage") && IsNum(Field(t, "asset"), asset)
      && IsBool(Field(t, "isCross"), isCross) && IsNum(Field(t, "leverage"), leverage)
    case UpdateIsolatedMargin(asset, micro) =>
      && IsWord(Field(t, "type"), "updateIsolatedMargin") && IsNum(Field(t, "asset"), asset)
      && IsBool(Field(t, "isBuy"), true) && IsNum(Field(t, "ntli"), micro)
    case Noop => IsWord(Field(t, "type"), "noop")
    case ReserveRequestWeight(weight) =>
      IsWord(Field(t, "type"), "reserveRequestWeight") && IsNum(Field(t, "weight"), weight)
  }

  // ── orders ──────────────────────────────────────────────────────────────────

  lemma Here(k: string, v: Tree, rest: Entries)
    ensures Lookup(Entry(k, v, rest), k) == Some(v)
  {}

  lemma Past(k: string, v: Tree, rest: Entries, key: string)
    requires k != key
    ensures Lookup(Entry(k, v, rest), key) == Lookup(rest, key)
  {}

  lemma Keys1(k: string, v: Tree, rest: Entries)
    ensures Keys(Entry(k, v, rest)) == [k] + Keys(rest)
    ensures rest.End? ==> Keys(Entry(k, v, rest)) == [k]
  {}

  lemma Keys2(k: string, v: Tree, k': string, v': Tree, rest: Entries)
    ensures Keys(Entry(k, v, Entry(k', v', rest))) == [k, k'] + Keys(rest)
    ensures rest.End? ==> Keys(Entry(k, v, Entry(k', v', rest))) == [k, k']
  {
    Keys1(k, v, Entry(k', v', rest));
    Keys1(k', v', rest);
  }

  lemma Keys3(k: string, v: Tree, k': string, v': Tree, k'': string, v'': Tree, rest: Entries)
    ensures Keys(Entry(k, v, Entry(k', v', Entry(k'', v'', rest)))) == [k, k', k''] + Keys(rest)
    ensures rest.End? ==> Keys(Entry(k, v, Entry(k', v', Entry(k'', v'', rest)))) == [k, k', k'']
  {
    Keys1(k, v, Entry(k', v', Entry(k'', v'', rest)));
    Keys2(k', v', k'', v'', rest);
    assert [k] + ([k', k''] + Keys(rest)) == [k, k', k''] + Keys(rest);
  }

  lemma DecimalSaid(raw: D.Raw)
    ensures IsDecimal(Some(S(D.Text(raw))), raw)
  {
    D.TextRoundTrip(raw);
  }

  lemma CloidSaid(c: H.Cloid)
    ensures IsCloid(Some(S(H.CloidText(c))), c)
  {
    H.CloidRoundTrip(c);
  }

  lemma TriggerSaid(g: Trigger)
    ensures var u := Map(TriggerEntries(g));
            && HasKeys(u, ["isMarket", "triggerPx", "tpsl"])
            && IsBool(Field(u, "isMarket"), g.isMarket) && IsDecimal(Field(u, "triggerPx"), g.px)
            && IsWord(Field(u, "tpsl"), if g.kind.TakeProfit? then "tp" else "sl")
  {
    Keys3("isMarket", B(g.isMarket), "triggerPx", S(D.Text(g.px)), "tpsl", S(KindText(g.kind)), End);
    DecimalSaid(g.px);
    var tpsl := Entry("tpsl", S(KindText(g.kind)), End);
    var px := Entry("triggerPx", S(D.Text(g.px)), tpsl);
    assert "isMarket"[0] == 'i' && "triggerPx"[1] == 'r' && "tpsl"[1] == 'p';
    Past("isMarket", B(g.isMarket), px, "triggerPx");
    Past("isMarket", B(g.isMarket), px, "tpsl");
    Past("triggerPx", S(D.Text(g.px)), tpsl, "tpsl");
  }

  lemma TypeSaid(o: OrderWire)
    ensures SaysType(Map(TypeEntries(o)), o)
  {
    match o.trigger
    case Some(g) => TriggerTypeSaid(g);
    case None => LimitTypeSaid(S(TifText(o.tif)));
  }

  lemma TriggerTypeSaid(g: Trigger)
    ensures var t, u := Map(Entry("trigger", Map(TriggerEntries(g)), End)), Map(TriggerEntries(g));
            && HasKeys(t, ["trigger"]) && Field(t, "trigger") == Some(u)
              && HasKeys(u, ["isMarket", "triggerPx", "tpsl"])
            && IsBool(Field(u, "isMarket"), g.isMarket) && IsDecimal(Field(u, "triggerPx"), g.px)
            && IsWord(Field(u, "tpsl"), if g.kind.TakeProfit? then "tp" else "sl")
  {
    TriggerSaid(g);
    Single("trigger", Map(TriggerEntries(g)));
  }

  lemma LimitTypeSaid(tif: Tree)
    ensures var l := Map(Entry("tif", tif, End)); var t := Map(Entry("limit", l, End));
            HasKeys(t, ["limit"]) && Field(t, "limit") == Some(l) && HasKeys(l, ["tif"]) && Field(l, "tif") == Some(tif)
  {
    Single("tif", tif);
    Single("limit", Map(Entry("tif", tif, End)));
  }

  lemma Single(k: string, v: Tree)
    ensures var t := Map(Entry(k, v, End)); HasKeys(t, [k]) && Field(t, k) == Some(v)
  {
    Keys1(k, v, End);
  }

  lemma TailSaid(o: OrderWire)
    ensures var t := Map(TailEntries(o));
            && IsDecimal(Field(t, "s"), o.sz) && IsBool(Field(t, "r"), o.reduceOnly)
            && Field(t, "t") == Some(Map(TypeEntries(o)))
            && (if o.cloid.Some? then IsCloid(Field(t, "c"), o.cloid.value) else Field(t, "c") == None)
  {
    DecimalSaid(o.sz);
    if o.cloid.Some? { CloidSaid(o.cloid.value); }
    var c := CloidEntries(o.cloid);
    var t := Entry("t", Map(TypeEntries(o)), c);
    var r := Entry("r", B(o.reduceOnly), t);
    Here("s", S(D.Text(o.sz)), r);
    Past("s", S(D.Text(o.sz)), r, "r"); Past("s", S(D.Text(o.sz)), r, "t"); Past("s", S(D.Text(o.sz)), r, "c");
    Here("r", B(o.reduceOnly), t);
    Past("r", B(o.reduceOnly), t, "t"); Past("r", B(o.reduceOnly), t, "c");
    Here("t", Map(TypeEntries(o)), c);
    Past("t", Map(TypeEntries(o)), c, "c");
  }

  /** The tree of an order carries each of its fields under the venue's name for it. */
  lemma OrderSaid(o: OrderWire)
    ensures SaysOrder(OrderTree(o), o)
  {
    OrderKeysSaid(o);
    FrontSaid(o);
    TailSaid(o);
    TypeSaid(o);
    TailKey(o, "s"); TailKey(o, "r"); TailKey(o, "t"); TailKey(o, "c");
  }

  lemma FrontSaid(o: OrderWire)
    ensures var t := OrderTree(o);
            IsNum(Field(t, "a"), o.asset) && IsBool(Field(t, "b"), o.isBuy) && IsDecimal(Field(t, "p"), o.px)
  {
    var p := Entry("p", S(D.Text(o.px)), TailEntries(o));
    var b := Entry("b", B(o.isBuy), p);
    DecimalSaid(o.px);
    Here("a", N(o.asset), b);
    Past("a", N(o.asset), b, "b"); Past("a", N(o.asset), b, "p");
    Here("b", B(o.isBuy), p);
    Past("b", B(o.isBuy), p, "p");
    Here("p", S(D.Text(o.px)), TailEntries(o));
  }

  lemma OrderKeysSaid(o: OrderWire)
    ensures HasKeys(OrderTree(o), ["a", "b", "p", "s", "r", "t"] + (if o.cloid.Some? then ["c"] else []))
  {
    var cs := if o.cloid.Some? then ["c"] else [];
    TailKeysSaid(o);
    Keys3("a", N(o.asset), "b", B(o.isBuy), "p", S(D.Text(o.px)), TailEntries(o));
    Six("a", "b", "p", "s", "r", "t", cs);
  }

  lemma Six(a: string, b: string, c: string, d: string, e: string, f: string, rest: seq<string>)
    ensures [a, b, c] + ([d, e, f] + rest) == [a, b, c, d, e, f] + rest
  {}

  lemma TailKeysSaid(o: OrderWire)
    ensures Keys(TailEntries(o)) == ["s", "r", "t"] + (if o.cloid.Some? then ["c"] else [])
  {
    Keys3("s", S(D.Text(o.sz)), "r", B(o.reduceOnly), "t", Map(TypeEntries(o)), CloidEntries(o.cloid));
    if o.cloid.Some? { Keys1("c", S(H.CloidText(o.cloid.value)), End); }
  }

  lemma TailKey(o: OrderWire, key: string)
    requires key != "a" && key != "b" && key != "p"
    ensures Field(OrderTree(o), key) == Lookup(TailEntries(o), key)
  {
    var p := Entry("p", S(D.Text(o.px)), TailEntries(o));
    var b := Entry("b", B(o.isBuy), p);
    Past("a", N(o.asset), b, key);
    Past("b", B(o.isBuy), p, key);
    Past("p", S(D.Text(o.px)), TailEntries(o), key);
  }

  // ── lists ───────────────────────────────────────────────────────────────────

  lemma {:induction false} OrdersListed(os: seq<OrderWire>, i: nat)
    ensures Count(OrderTrees(os)) == |os|
    ensures i < |os| ==> Nth(OrderTrees(os), i) == Some(OrderTree(os[i]))
  {
    if |os| != 0 { OrdersListed(os[1..], if i == 0 then 0 else i - 1); }
  }

  lemma {:induction false} CancelsListed(cs: seq<CancelWire>, i: nat)
    ensures Count(CancelTrees(cs)) == |cs|
    ensures i < |cs| ==> Nth(CancelTrees(cs), i) == Some(CancelTree(cs[i]))
  {
    if |cs| != 0 { CancelsListed(cs[1..], if i == 0 then 0 else i - 1); }
  }

  lemma {:induction false} ByCloidsListed(cs: seq<CancelByCloidWire>, i: nat)
    ensures Count(ByCloidTrees(cs)) == |cs|
    ensures i < |cs| ==> Nth(ByCloidTrees(cs), i) == Some(ByCloidTree(cs[i]))
  {
    if |cs| != 0 { ByCloidsListed(cs[1..], if i == 0 then 0 else i - 1); }
  }

  lemma {:induction false} ModifiesListed(ms: seq<ModifyWire>, i: nat)
    ensures Count(ModifyTrees(ms)) == |ms|
    ensures i < |ms| ==> Nth(ModifyTrees(ms), i) == Some(ModifyTree(ms[i]))
  {
    if |ms| != 0 { ModifiesListed(ms[1..], if i == 0 then 0 else i - 1); }
  }

  lemma CancelSaid(c: CancelWire)
    ensures SaysCancel(CancelTree(c), c)
  {
    Pair("a", N(c.asset), "o", N(c.oid));
  }

  lemma ByCloidSaid(c: CancelByCloidWire)
    ensures SaysByCloid(ByCloidTree(c), c)
  {
    CloidSaid(c.cloid);
    assert "asset"[0] == 'a' && "cloid"[0] == 'c';
    Pair("asset", N(c.asset), "cloid", S(H.CloidText(c.cloid)));
  }

  lemma Pair(k: string, v: Tree, k': string, v': Tree)
    requires k != k'
    ensures var t := Map(Entry(k, v, Entry(k', v', End)));
            HasKeys(t, [k, k']) && Field(t, k) == Some(v) && Field(t, k') == Some(v')
  {
    Keys2(k, v, k', v', End);
    Past(k, v, Entry(k', v', End), k');
  }

  lemma ModifySaid(m: ModifyWire)
    ensures SaysModify(ModifyTree(m), m)
  {
    assert "oid"[1] == 'i' && "order"[1] == 'r';
    Pair("oid", TargetTree(m.target), "order", OrderTree(m.order));
    TargetSaid(m.target);
    OrderSaid(m.order);
  }

  lemma TargetSaid(t: Target)
    ensures t.ByOid? ==> IsNum(Some(TargetTree(t)), t.oid)
    ensures t.ByCloid? ==> IsCloid(Some(TargetTree(t)), t.cloid)
  {
    if t.ByCloid? { CloidSaid(t.cloid); }
  }

  lemma OrdersSaid(os: seq<OrderWire>)
    ensures SaysEach(Some(Arr(OrderTrees(os))), os, SaysOrder)
  {
    OrdersListed(os, 0);
    forall i: nat | i < |os|
      ensures Nth(OrderTrees(os), i) == Some(OrderTree(os[i])) && SaysOrder(OrderTree(os[i]), os[i]) {
      OrdersListed(os, i);
      OrderSaid(os[i]);
    }
  }

  lemma CancelsSaid(cs: seq<CancelWire>)
    ensures SaysEach(Some(Arr(CancelTrees(cs))), cs, SaysCancel)
  {
    CancelsListed(cs, 0);
    forall i: nat | i < |cs|
      ensures Nth(CancelTrees(cs), i) == Some(CancelTree(cs[i])) && SaysCancel(CancelTree(cs[i]), cs[i])
    {
      CancelsListed(cs, i);
      CancelSaid(cs[i]);
    }
  }

  lemma ByCloidsSaid(cs: seq<CancelByCloidWire>)
    ensures SaysEach(Some(Arr(ByCloidTrees(cs))), cs, SaysByCloid)
  {
    ByCloidsListed(cs, 0);
    forall i: nat | i < |cs|
      ensures Nth(ByCloidTrees(cs), i) == Some(ByCloidTree(cs[i])) && SaysByCloid(ByCloidTree(cs[i]), cs[i])
    {
      ByCloidsListed(cs, i);
      ByCloidSaid(cs[i]);
    }
  }

  lemma ModifiesSaid(ms: seq<ModifyWire>)
    ensures SaysEach(Some(Arr(ModifyTrees(ms))), ms, SaysModify)
  {
    ModifiesListed(ms, 0);
    forall i: nat | i < |ms|
      ensures Nth(ModifyTrees(ms), i) == Some(ModifyTree(ms[i])) && SaysModify(ModifyTree(ms[i]), ms[i])
    {
      ModifiesListed(ms, i);
      ModifySaid(ms[i]);
    }
  }

  // ── actions ─────────────────────────────────────────────────────────────────

  lemma BodyKey(a: Action, key: string)
    requires key != "type"
    ensures Field(TreeOf(a), key) == Lookup(BodyOf(a), key)
  {
    Past("type", S(Name(a)), BodyOf(a), key);
  }

  lemma TypeIsName(a: Action)
    ensures IsWord(Field(TreeOf(a), "type"), Name(a))
  {
    Here("type", S(Name(a)), BodyOf(a));
  }

  lemma BuilderSaid(b: Option<Builder>)
    ensures SaysBuilder(Lookup(BuilderEntries(b), "builder"), b)
  {
    if b.Some? {
      var address := S(H.AddressText(b.value.address));
      H.BytesTextSpells(b.value.address);
      assert H.AddressText(b.value.address)[2..] == H.BytesText(b.value.address);
      Pair("b", address, "f", N(b.value.fee));
      Here("builder", Map(Entry("b", address, Entry("f", N(b.value.fee), End))), End);
    }
  }

  lemma GroupingSaid(g: Grouping)
    ensures SaysGrouping(Some(GroupingTree(g)), g)
  {
    if g.Priority? { Single("p", N(g.rate)); }
  }

  lemma OrderActionSaid(a: Action)
    requires a.Order?
    ensures SaysFields(TreeOf(a), a)
  {
    TypeIsName(a);
    OrdersSaid(a.orders);
    GroupingSaid(a.grouping);
    BuilderSaid(a.builder);
    assert "orders"[0] == 'o' && "grouping"[0] == 'g' && "builder"[0] == 'b' && "type"[0] == 't';
    BodyKey(a, "orders"); BodyKey(a, "grouping"); BodyKey(a, "builder");
    var list, rest := Arr(OrderTrees(a.orders)), Entry("grouping", GroupingTree(a.grouping), BuilderEntries(a.builder));
    Here("orders", list, rest);
    Past("orders", list, rest, "grouping"); Past("orders", list, rest, "builder");
    Here("grouping", GroupingTree(a.grouping), BuilderEntries(a.builder));
    Past("grouping", GroupingTree(a.grouping), BuilderEntries(a.builder), "builder");
  }

  lemma FastSaid(fast: bool)
    ensures SaysFast(Lookup(FastEntries(fast), "f"), fast)
  {}

  lemma CancelActionSaid(a: Action)
    requires a.Cancel? || a.CancelByCloid? || a.BatchModify?
    ensures SaysFields(TreeOf(a), a)
  {
    TypeIsName(a);
    assert "cancels"[0] == 'c' && "modifies"[0] == 'm' && "type"[0] == 't' && "f"[0] == 'f';
    match a
    case Cancel(cs, fast) =>
      CancelsSaid(cs);
      BodyKey(a, "cancels"); BodyKey(a, "f");
      Here("cancels", Arr(CancelTrees(cs)), FastEntries(fast));
      Past("cancels", Arr(CancelTrees(cs)), FastEntries(fast), "f");
      FastSaid(fast);
    case CancelByCloid(cs, fast) =>
      ByCloidsSaid(cs);
      BodyKey(a, "cancels"); BodyKey(a, "f");
      Here("cancels", Arr(ByCloidTrees(cs)), FastEntries(fast));
      Past("cancels", Arr(ByCloidTrees(cs)), FastEntries(fast), "f");
      FastSaid(fast);
    case BatchModify(ms) =>
      ModifiesSaid(ms);
      BodyKey(a, "modifies");
      Here("modifies", Arr(ModifyTrees(ms)), End);
  }

  lemma Three(k1: string, v1: Tree, k2: string, v2: Tree, k3: string, v3: Tree)
    requires k1 != k2 && k1 != k3 && k2 != k3
    ensures var es := Entry(k1, v1, Entry(k2, v2, Entry(k3, v3, End)));
            Lookup(es, k1) == Some(v1) && Lookup(es, k2) == Some(v2) && Lookup(es, k3) == Some(v3)
  {
    var last := Entry(k3, v3, End);
    Past(k1, v1, Entry(k2, v2, last), k2); Past(k1, v1, Entry(k2, v2, last), k3);
    Past(k2, v2, last, k3);
  }

  lemma SettingSaid(a: Action)
    requires !a.Order? && !a.Cancel? && !a.CancelByCloid? && !a.BatchModify?
    ensures SaysFields(TreeOf(a), a)
  {
    TypeIsName(a);
    assert "type"[0] == 't' && "time"[1] == 'i' && "type"[1] == 'y';
    match a
    case ScheduleCancel(time) =>
      BodyKey(a, "time");
      if time.Some? { Here("time", N(time.value), End); }
    case UpdateLeverage(asset, isCross, leverage) =>
      assert "asset"[0] == 'a' && "isCross"[0] == 'i' && "leverage"[0] == 'l';
      BodyKey(a, "asset"); BodyKey(a, "isCross"); BodyKey(a, "leverage");
      Three("asset", N(asset), "isCross", B(isCross), "leverage", N(leverage));
    case UpdateIsolatedMargin(asset, micro) =>
      assert "asset"[0] == 'a' && "isBuy"[0] == 'i' && "ntli"[0] == 'n';
      BodyKey(a, "asset"); BodyKey(a, "isBuy"); BodyKey(a, "ntli");
      Three("asset", N(asset), "isBuy", B(true), "ntli", N(micro));
    case Noop =>
    case ReserveRequestWeight(weight) =>
      assert "weight"[0] == 'w';
      BodyKey(a, "weight");
      Here("weight", N(weight), End);
  }

  lemma ActionKeysSaid(a: Action)
    ensures HasKeys(TreeOf(a), ActionKeys(a))
  {
    var name := S(Name(a));
    Keys1("type", name, BodyOf(a));
    BodyKeysSaid(a);
  }

  lemma BodyKeysSaid(a: Action)
    ensures ["type"] + Keys(BodyOf(a)) == ActionKeys(a)
  {
    match a
    case Order(os, g, b) =>
      Keys2("orders", Arr(OrderTrees(os)), "grouping", GroupingTree(g), BuilderEntries(b));
      if b.Some? { Keys1("builder", BuilderEntries(b).value, End); }
    case Cancel(cs, fast) =>
      Keys1("cancels", Arr(CancelTrees(cs)), FastEntries(fast));
      Keys1("f", B(true), End);
    case CancelByCloid(cs, fast) =>
      Keys1("cancels", Arr(ByCloidTrees(cs)), FastEntries(fast));
      Keys1("f", B(true), End);
    case BatchModify(ms) => Keys1("modifies", Arr(ModifyTrees(ms)), End);
    case ScheduleCancel(time) => if time.Some? { Keys1("time", N(time.value), End); }
    case UpdateLeverage(asset, isCross, leverage) =>
      Keys3("asset", N(asset), "isCross", B(isCross), "leverage", N(leverage), End);
    case UpdateIsolatedMargin(asset, micro) =>
      Keys3("asset", N(asset), "isBuy", B(true), "ntli", N(micro), End);
    case Noop =>
    case ReserveRequestWeight(weight) => Keys1("weight", N(weight), End);
  }

  lemma ActionSaid(a: Action)
    ensures SaysAction(TreeOf(a), a)
  {
    ActionKeysSaid(a);
    if a.Order? {
      OrderActionSaid(a);
    } else if a.Cancel? || a.CancelByCloid? || a.BatchModify? {
      CancelActionSaid(a);
    } else {
      SettingSaid(a);
    }
  }

  /** Both encodings decode, with nothing left over, to something that says the action field by field. */
  ghost predicate BothSay(pack: string, json: string, a: Action) {
    && Shrinks(M.Next) && Shrinks(J.Next)
    && var p, j := Unpack(M.Next, pack), Scan(J.Next, json);
       p.Got? && p.rest == "" && SaysAction(p.value, a) && j.Got? && j.rest == "" && SaysAction(j.value, a)
  }

  /** What is signed and what is sent say the action, read back by the venue's names. */
  lemma EncodingsSay(a: Action)
    requires InRange(a)
    ensures BothSay(PackOf(a), JsonOf(a), a)
  {
    FormsAgree(a);
    ActionSaid(a);
  }
}
