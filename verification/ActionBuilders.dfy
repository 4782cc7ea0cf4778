/** The builders of src/om/Actions.cpp: each appends one action to a packed buffer and to a text. */
module ActionBuilders {
  import opened Basics
  import opened WireTree
  import opened Actions
  import opened ActionTrees
  import opened ActionFields
  import H = HexText
  import D = DecimalText
  import M = MsgPack
  import J = JsonText

  // ── one order ───────────────────────────────────────────────────────────────

  method PackDecimal(w: M.Writer, raw: D.Raw)
    modifies w
    ensures w.buf == old(w.buf) + M.Emit(Str(D.Text(raw)))
  {
    var text := D.ToChars(raw);
    w.PutStr(text);
  }

  method PackTrigger(w: M.Writer, t: Trigger)
    modifies w
    ensures w.buf == PackTo(M.Emit, old(w.buf), Map(TriggerEntries(t)))
  {
    ghost var es := TriggerEntries(t);
    ghost var goal := PackTo(M.Emit, w.buf, Map(es));
    TriggerCount(t);
    w.MapHeader(3);
    PackLeaf(M.Emit, w.buf, es);
    w.PutStr("isMarket");
    w.Boolean(t.isMarket);
    PackLeaf(M.Emit, w.buf, es.rest);
    w.PutStr("triggerPx");
    PackDecimal(w, t.px);
    PackLeaf(M.Emit, w.buf, es.rest.rest);
    w.PutStr("tpsl");
    w.PutStr(KindText(t.kind));
    assert goal == w.buf;
  }

  lemma TriggerCount(t: Trigger)
    ensures CountEntries(TriggerEntries(t)) == 3
  {
    assert CountEntries(TriggerEntries(t).rest.rest) == 1;
  }

  method PackType(w: M.Writer, o: OrderWire)
    modifies w
    ensures w.buf == PackTo(M.Emit, old(w.buf), Map(TypeEntries(o)))
  {
    ghost var es := TypeEntries(o);
    assert CountEntries(es) == 1 && es.rest.End?;
    w.MapHeader(1);
    PackEntry(M.Emit, w.buf, es);
    match o.trigger {
      case Some(t) =>
        w.PutStr("trigger");
        PackTrigger(w, t);
      case None =>
        w.PutStr("limit");
        ghost var e := Entry("tif", S(TifText(o.tif)), End);
        assert CountEntries(e) == 1;
        w.MapHeader(1);
        PackLeaf(M.Emit, w.buf, e);
        w.PutStr("tif");
        w.PutStr(TifText(o.tif));
    }
  }

  method PackTail(w: M.Writer, o: OrderWire)
    modifies w
    ensures w.buf == PackEntriesTo(M.Emit, old(w.buf), TailEntries(o))
  {
    ghost var es := TailEntries(o);
    PackLeaf(M.Emit, w.buf, es);
    w.PutStr("s");
    PackDecimal(w, o.sz);
    PackLeaf(M.Emit, w.buf, es.rest);
    w.PutStr("r");
    w.Boolean(o.reduceOnly);
    PackEntry(M.Emit, w.buf, es.rest.rest);
    w.PutStr("t");
    PackType(w, o);
    if o.cloid.Some? {
      PackLeaf(M.Emit, w.buf, CloidEntries(o.cloid));
      w.PutStr("c");
      var text := H.WriteCloid(o.cloid.value);
      w.PutStr(text);
    }
  }

  method PackOrder(w: M.Writer, o: OrderWire)
    modifies w
    ensures w.buf == PackTo(M.Emit, old(w.buf), OrderTree(o))
  {
    ghost var es := OrderEntries(o);
    OrderOk(o);
    w.MapHeader(if o.cloid.Some? then 7 else 6);
    PackLeaf(M.Emit, w.buf, es);
    w.PutStr("a");
    w.Uint(o.asset);
    PackLeaf(M.Emit, w.buf, es.rest);
    w.PutStr("b");
    w.Boolean(o.isBuy);
    PackLeaf(M.Emit, w.buf, es.rest.rest);
    w.PutStr("p");
    PackDecimal(w, o.px);
    PackTail(w, o);
  }

  function K(k: string): string { Key(J.Emit, k) }

  method JsonTrigger(start: string, t: Trigger) returns (j: string)
    ensures j == TextTo(J.Emit, start, Map(TriggerEntries(t)))
  {
    ghost var es := TriggerEntries(t);
    j := start + "{";
    TextLeaf(J.Emit, j, es);
    j := j + K("isMarket");
    j := j + (if t.isMarket then "true" else "false");
    j := j + ",";
    TextLeaf(J.Emit, j, es.rest);
    j := j + K("triggerPx");
    var px := D.ToChars(t.px);
    j := j + J.Quoted(px);
    j := j + ",";
    TextLeaf(J.Emit, j, es.rest.rest);
    j := j + K("tpsl");
    j := j + J.Quoted(KindText(t.kind));
    j := j + "}";
  }

  method JsonType(start: string, o: OrderWire) returns (j: string)
    ensures j == TextTo(J.Emit, start, Map(TypeEntries(o)))
  {
    ghost var es := TypeEntries(o);
    j := start + "{";
    TextEntry(J.Emit, j, es);
    match o.trigger {
      case Some(t) =>
        j := j + K("trigger");
        j := JsonTrigger(j, t);
      case None =>
        j := j + K("limit");
        ghost var e := Entry("tif", S(TifText(o.tif)), End);
        j := j + "{";
        TextLeaf(J.Emit, j, e);
        j := j + K("tif");
        j := j + J.Quoted(TifText(o.tif));
        j := j + "}";
    }
    j := j + "}";
  }

  method JsonTail(start: string, o: OrderWire) returns (j: string)
    ensures j == TextEntriesTo(J.Emit, start, TailEntries(o))
  {
    ghost var es := TailEntries(o);
    j := start;
    TextLeaf(J.Emit, j, es);
    j := j + K("s");
    var sz := D.ToChars(o.sz);
    j := j + J.Quoted(sz);
    j := j + ",";
    TextLeaf(J.Emit, j, es.rest);
    j := j + K("r");
    j := j + (if o.reduceOnly then "true" else "false");
    j := j + ",";
    TextEntry(J.Emit, j, es.rest.rest);
    j := j + K("t");
    j := JsonType(j, o);
    if o.cloid.Some? {
      j := j + ",";
      TextLeaf(J.Emit, j, CloidEntries(o.cloid));
      j := j + K("c");
      var text := H.WriteCloid(o.cloid.value);
      j := j + J.Quoted(text);
    }
  }

  method JsonOrder(start: string, o: OrderWire) returns (j: string)
    ensures j == TextTo(J.Emit, start, OrderTree(o))
  {
    ghost var es := OrderEntries(o);
    j := start + "{";
    TextLeaf(J.Emit, j, es);
    j := j + K("a");
    j := j + J.NumText(o.asset);
    j := j + ",";
    TextLeaf(J.Emit, j, es.rest);
    j := j + K("b");
    j := j + (if o.isBuy then "true" else "false");
    j := j + ",";
    TextLeaf(J.Emit, j, es.rest.rest);
    j := j + K("p");
    var px := D.ToChars(o.px);
    j := j + J.Quoted(px);
    j := j + ",";
    j := JsonTail(j, o);
    j := j + "}";
  }

  // ── lists ───────────────────────────────────────────────────────────────────

  lemma Slices<T>(xs: seq<T>, i: nat)
    requires i < |xs|
    ensures xs[i..][0] == xs[i] && xs[i..][1..] == xs[i + 1..]
  {}

  method PackOrders(w: M.Writer, os: seq<OrderWire>)
    modifies w
    ensures w.buf == PackItemsTo(M.Emit, old(w.buf), OrderTrees(os))
  {
    ghost var goal := PackItemsTo(M.Emit, w.buf, OrderTrees(os));
    assert os[0..] == os;
    for i := 0 to |os|
      invariant goal == PackItemsTo(M.Emit, w.buf, OrderTrees(os[i..]))
    {
      Slices(os, i);
      PackOrder(w, os[i]);
    }
  }

  /** Where a text stands before its i-th item: a comma is due before every item but the first. */
  ghost predicate Due(goal: string, j: string, first: bool, ts: Trees) {
    if ts.Nil? then goal == j else goal == TextItemsTo(J.Emit, if first then j else j + ",", ts)
  }

  lemma DueStep(goal: string, j: string, first: bool, ts: Trees)
    requires ts.Cons? && Due(goal, j, first, ts)
    ensures Due(goal, TextTo(J.Emit, if first then j else j + ",", ts.head), false, ts.tail)
  {}

  method JsonOrders(start: string, os: seq<OrderWire>) returns (j: string)
    ensures j == TextItemsTo(J.Emit, start, OrderTrees(os))
  {
    ghost var goal := TextItemsTo(J.Emit, start, OrderTrees(os));
    j := start;
    assert os[0..] == os;
    for i := 0 to |os|
      invariant Due(goal, j, i == 0, OrderTrees(os[i..]))
    {
      Slices(os, i);
      DueStep(goal, j, i == 0, OrderTrees(os[i..]));
      if i != 0 { j := j + ","; }
      j := JsonOrder(j, os[i]);
    }
  }

  datatype Encoded = Encoded(pack: string, json: string)

  ghost predicate Encodes(e: Encoded, a: Action) { e.pack == PackOf(a) && e.json == JsonOf(a) }

  /** Both encodings, decoded, say the action field by field. */
  ghost predicate Says(e: Encoded, a: Action) { InRange(a) ==> BothSay(e.pack, e.json, a) }

  lemma EncodedSays(e: Encoded, a: Action)
    requires Encodes(e, a)
    ensures Says(e, a)
  {
    if InRange(a) { EncodingsSay(a); }
  }

  // ── order ───────────────────────────────────────────────────────────────────

  method PackBuilder(w: M.Writer, b: Builder)
    modifies w
    ensures w.buf == PackEntriesTo(M.Emit, old(w.buf), BuilderEntries(Some(b)))
  {
    ghost var es := BuilderEntries(Some(b));
    ghost var inner := es.value.entries;
    PackEntry(M.Emit, w.buf, es);
    w.PutStr("builder");
    assert CountEntries(inner.rest) == 1;
    w.MapHeader(2);
    PackLeaf(M.Emit, w.buf, inner);
    w.PutStr("b");
    w.PutStr(H.AddressText(b.address));
    PackLeaf(M.Emit, w.buf, inner.rest);
    w.PutStr("f");
    w.Uint(b.fee);
  }

  method PackGrouping(w: M.Writer, g: Grouping)
    modifies w
    ensures w.buf == PackTo(M.Emit, old(w.buf), GroupingTree(g))
  {
    match g {
      case Priority(rate) =>
        ghost var e := Entry("p", N(rate), End);
        assert CountEntries(e) == 1;
        w.MapHeader(1);
        PackLeaf(M.Emit, w.buf, e);
        w.PutStr("p");
        w.Uint(rate);
      case Na => w.PutStr("na");
      case NormalTpsl => w.PutStr("normalTpsl");
      case PositionTpsl => w.PutStr("positionTpsl");
    }
  }

  /** The opening of every packed action: its entry count and its type. */
  method PackStart(w: M.Writer, a: Action, count: nat)
    requires count == 1 + CountEntries(BodyOf(a))
    modifies w
    ensures PackTo(M.Emit, old(w.buf), TreeOf(a)) == PackEntriesTo(M.Emit, w.buf, BodyOf(a))
  {
    ghost var es := Entry("type", S(Name(a)), BodyOf(a));
    w.MapHeader(count);
    PackLeaf(M.Emit, w.buf, es);
    w.PutStr("type");
    w.PutStr(Name(a));
  }

  lemma Packed(a: Action, buf: string)
    requires buf == PackTo(M.Emit, "", TreeOf(a))
    ensures buf == PackOf(a)
  {
    PackToIs(M.Emit, "", TreeOf(a));
    assert "" + PackOf(a) == PackOf(a);
  }

  method JsonStart(a: Action) returns (j: string)
    ensures BodyOf(a).Entry? ==> TextTo(J.Emit, "", TreeOf(a)) == TextEntriesTo(J.Emit, j + ",", BodyOf(a)) + "}"
    ensures BodyOf(a).End? ==> TextTo(J.Emit, "", TreeOf(a)) == j + "}"
  {
    ghost var es := Entry("type", S(Name(a)), BodyOf(a));
    j := "" + "{";
    TextLeaf(J.Emit, j, es);
    j := j + K("type");
    j := j + J.Quoted(Name(a));
  }

  lemma Printed(a: Action, j: string)
    requires j == TextTo(J.Emit, "", TreeOf(a))
    ensures j == JsonOf(a)
  {
    TextToIs(J.Emit, "", TreeOf(a));
    assert "" + JsonOf(a) == JsonOf(a);
  }

  method PackOrderAction(a: Action) returns (buf: string)
    requires a.Order? && InRange(a)
    ensures buf == PackOf(a)
  {
    var w := new M.Writer();
    OrderBodyOk(a);
    PackStart(w, a, if a.builder.Some? then 4 else 3);
    ghost var es := BodyOf(a);
    PackEntry(M.Emit, w.buf, es);
    w.PutStr("orders");
    OrdersOk(a.orders);
    w.ArrayHeader(|a.orders|);
    PackOrders(w, a.orders);
    PackEntry(M.Emit, w.buf, es.rest);
    w.PutStr("grouping");
    PackGrouping(w, a.grouping);
    if a.builder.Some? { PackBuilder(w, a.builder.value); }
    Packed(a, w.buf);
    buf := w.buf;
  }

  method JsonGrouping(start: string, g: Grouping) returns (j: string)
    ensures j == TextTo(J.Emit, start, GroupingTree(g))
  {
    j := start;
    match g {
      case Priority(rate) =>
        j := j + "{";
        TextLeaf(J.Emit, j, Entry("p", N(rate), End));
        j := j + K("p");
        j := j + J.NumText(rate);
        j := j + "}";
      case Na => j := j + J.Quoted("na");
      case NormalTpsl => j := j + J.Quoted("normalTpsl");
      case PositionTpsl => j := j + J.Quoted("positionTpsl");
    }
  }

  method JsonBuilder(start: string, b: Builder) returns (j: string)
    ensures j == TextEntriesTo(J.Emit, start, BuilderEntries(Some(b)))
  {
    ghost var es := BuilderEntries(Some(b));
    ghost var inner := es.value.entries;
    j := start;
    TextEntry(J.Emit, j, es);
    j := j + K("builder");
    j := j + "{";
    TextLeaf(J.Emit, j, inner);
    j := j + K("b");
    j := j + J.Quoted(H.AddressText(b.address));
    j := j + ",";
    TextLeaf(J.Emit, j, inner.rest);
    j := j + K("f");
    j := j + J.NumText(b.fee);
    j := j + "}";
  }

  method JsonOrderAction(a: Action) returns (j: string)
    requires a.Order?
    ensures j == JsonOf(a)
  {
    ghost var es := BodyOf(a);
    j := JsonStart(a);
    j := j + ",";
    TextEntry(J.Emit, j, es);
    j := j + K("orders");
    j := j + "[";
    j := JsonOrders(j, a.orders);
    j := j + "]";
    j := j + ",";
    TextEntry(J.Emit, j, es.rest);
    j := j + K("grouping");
    j := JsonGrouping(j, a.grouping);
    if a.builder.Some? {
      j := j + ",";
      j := JsonBuilder(j, a.builder.value);
    }
    j := j + "}";
    Printed(a, j);
  }

  method BuildOrder(orders: seq<OrderWire>, grouping: Grouping, builder: Option<Builder>) returns (e: Encoded)
    requires |orders| < 0x1_0000_0000
    ensures Encodes(e, Order(orders, grouping, builder)) && Says(e, Order(orders, grouping, builder))
  {
    var pack := PackOrderAction(Order(orders, grouping, builder));
    var json := JsonOrderAction(Order(orders, grouping, builder));
    e := Encoded(pack, json);
    EncodedSays(e, Order(orders, grouping, builder));
  }

  // ── cancels ─────────────────────────────────────────────────────────────────

  method PackCancel(w: M.Writer, c: CancelWire)
    modifies w
    ensures w.buf == PackTo(M.Emit, old(w.buf), CancelTree(c))
  {
    ghost var es := Entry("a", N(c.asset), Entry("o", N(c.oid), End));
    assert CountEntries(es.rest) == 1;
    w.MapHeader(2);
    PackLeaf(M.Emit, w.buf, es);
    w.PutStr("a");
    w.Uint(c.asset);
    PackLeaf(M.Emit, w.buf, es.rest);
    w.PutStr("o");
    w.Uint(c.oid);
  }

  method JsonCancel(start: string, c: CancelWire) returns (j: string)
    ensures j == TextTo(J.Emit, start, CancelTree(c))
  {
    ghost var es := Entry("a", N(c.asset), Entry("o", N(c.oid), End));
    j := start + "{";
    TextLeaf(J.Emit, j, es);
    j := j + K("a");
    j := j + J.NumText(c.asset);
    j := j + ",";
    TextLeaf(J.Emit, j, es.rest);
    j := j + K("o");
    j := j + J.NumText(c.oid);
    j := j + "}";
  }

  /** The `fast` flag and the closing brace of either cancel action. */
  method Finish(w: M.Writer, start: string, fast: bool) returns (j: string)
    modifies w
    ensures w.buf == PackEntriesTo(M.Emit, old(w.buf), FastEntries(fast))
    ensures j == (if fast then TextEntriesTo(J.Emit, start + ",", FastEntries(fast)) else start) + "}"
  {
    j := start;
    if fast {
      PackLeaf(M.Emit, w.buf, FastEntries(true));
      w.PutStr("f");
      w.Boolean(true);
      j := j + ",";
      TextLeaf(J.Emit, j, FastEntries(true));
      j := j + K("f");
      j := j + "true";
    }
    j := j + "}";
  }

  method PackCancels(w: M.Writer, start: string, cs: seq<CancelWire>) returns (j: string)
    modifies w
    ensures w.buf == PackItemsTo(M.Emit, old(w.buf), CancelTrees(cs))
            && j == TextItemsTo(J.Emit, start, CancelTrees(cs))
  {
    ghost var packGoal := PackItemsTo(M.Emit, w.buf, CancelTrees(cs));
    ghost var textGoal := TextItemsTo(J.Emit, start, CancelTrees(cs));
    j := start;
    assert cs[0..] == cs;
    for i := 0 to |cs|
      invariant packGoal == PackItemsTo(M.Emit, w.buf, CancelTrees(cs[i..]))
      invariant Due(textGoal, j, i == 0, CancelTrees(cs[i..]))
    {
      Slices(cs, i);
      DueStep(textGoal, j, i == 0, CancelTrees(cs[i..]));
      PackCancel(w, cs[i]);
      if i != 0 { j := j + ","; }
      j := JsonCancel(j, cs[i]);
    }
  }

  method BuildCancel(cancels: seq<CancelWire>, fast: bool) returns (e: Encoded)
    requires |cancels| < 0x1_0000_0000
    ensures Encodes(e, Cancel(cancels, fast)) && Says(e, Cancel(cancels, fast))
  {
    ghost var a := Cancel(cancels, fast);
    var w := new M.Writer();
    BatchBodyOk(a);
    PackStart(w, Cancel(cancels, fast), if fast then 3 else 2);
    var j := JsonStart(Cancel(cancels, fast));
    PackEntry(M.Emit, w.buf, BodyOf(a));
    w.PutStr("cancels");
    CancelsOk(cancels);
    w.ArrayHeader(|cancels|);
    j := j + ",";
    TextEntry(J.Emit, j, BodyOf(a));
    j := j + K("cancels");
    j := j + "[";
    j := PackCancels(w, j, cancels);
    j := j + "]";
    j := Finish(w, j, fast);
    Packed(a, w.buf);
    Printed(a, j);
    e := Encoded(w.buf, j);
    EncodedSays(e, a);
  }

  method PackByCloid(w: M.Writer, start: string, c: CancelByCloidWire) returns (j: string)
    modifies w
    ensures w.buf == PackTo(M.Emit, old(w.buf), ByCloidTree(c)) && j == TextTo(J.Emit, start, ByCloidTree(c))
  {
    ghost var es := Entry("asset", N(c.asset), Entry("cloid", S(H.CloidText(c.cloid)), End));
    var cloid := H.WriteCloid(c.cloid);
    assert CountEntries(es.rest) == 1;
    w.MapHeader(2);
    PackLeaf(M.Emit, w.buf, es);
    w.PutStr("asset");
    w.Uint(c.asset);
    PackLeaf(M.Emit, w.buf, es.rest);
    w.PutStr("cloid");
    w.PutStr(cloid);
    j := start + "{";
    TextLeaf(J.Emit, j, es);
    j := j + K("asset");
    j := j + J.NumText(c.asset);
    j := j + ",";
    TextLeaf(J.Emit, j, es.rest);
    j := j + K("cloid");
    j := j + J.Quoted(cloid);
    j := j + "}";
  }

  method PackByCloids(w: M.Writer, start: string, cs: seq<CancelByCloidWire>) returns (j: string)
    modifies w
    ensures w.buf == PackItemsTo(M.Emit, old(w.buf), ByCloidTrees(cs))
            && j == TextItemsTo(J.Emit, start, ByCloidTrees(cs))
  {
    ghost var packGoal := PackItemsTo(M.Emit, w.buf, ByCloidTrees(cs));
    ghost var textGoal := TextItemsTo(J.Emit, start, ByCloidTrees(cs));
    j := start;
    assert cs[0..] == cs;
    for i := 0 to |cs|
      invariant packGoal == PackItemsTo(M.Emit, w.buf, ByCloidTrees(cs[i..]))
      invariant Due(textGoal, j, i == 0, ByCloidTrees(cs[i..]))
    {
      Slices(cs, i);
      DueStep(textGoal, j, i == 0, ByCloidTrees(cs[i..]));
      if i != 0 { j := j + ","; }
      j := PackByCloid(w, j, cs[i]);
    }
  }

  method BuildCancelByCloid(cancels: seq<CancelByCloidWire>, fast: bool) returns (e: Encoded)
    requires |cancels| < 0x1_0000_0000
    ensures Encodes(e, CancelByCloid(cancels, fast)) && Says(e, CancelByCloid(cancels, fast))
  {
    ghost var a := CancelByCloid(cancels, fast);
    var w := new M.Writer();
    BatchBodyOk(a);
    PackStart(w, CancelByCloid(cancels, fast), if fast then 3 else 2);
    var j := JsonStart(CancelByCloid(cancels, fast));
    PackEntry(M.Emit, w.buf, BodyOf(a));
    w.PutStr("cancels");
    ByCloidsOk(cancels);
    w.ArrayHeader(|cancels|);
    j := j + ",";
    TextEntry(J.Emit, j, BodyOf(a));
    j := j + K("cancels");
    j := j + "[";
    j := PackByCloids(w, j, cancels);
    j := j + "]";
    j := Finish(w, j, fast);
    Packed(a, w.buf);
    Printed(a, j);
    e := Encoded(w.buf, j);
    EncodedSays(e, a);
  }

  // ── amendments ──────────────────────────────────────────────────────────────

  method PackModify(w: M.Writer, start: string, m: ModifyWire) returns (j: string)
    modifies w
    ensures w.buf == PackTo(M.Emit, old(w.buf), ModifyTree(m)) && j == TextTo(J.Emit, start, ModifyTree(m))
  {
    ghost var es := Entry("oid", TargetTree(m.target), Entry("order", OrderTree(m.order), End));
    assert CountEntries(es.rest) == 1;
    w.MapHeader(2);
    PackLeaf(M.Emit, w.buf, es);
    w.PutStr("oid");
    j := start + "{";
    TextLeaf(J.Emit, j, es);
    j := j + K("oid");
    match m.target {
      case ByOid(oid) =>
        w.Uint(oid);
        j := j + J.NumText(oid);
      case ByCloid(c) =>
        var cloid := H.WriteCloid(c);
        w.PutStr(cloid);
        j := j + J.Quoted(cloid);
    }
    PackEntry(M.Emit, w.buf, es.rest);
    w.PutStr("order");
    PackOrder(w, m.order);
    j := j + ",";
    TextEntry(J.Emit, j, es.rest);
    j := j + K("order");
    j := JsonOrder(j, m.order);
    j := j + "}";
  }

  method PackModifies(w: M.Writer, start: string, ms: seq<ModifyWire>) returns (j: string)
    modifies w
    ensures w.buf == PackItemsTo(M.Emit, old(w.buf), ModifyTrees(ms))
            && j == TextItemsTo(J.Emit, start, ModifyTrees(ms))
  {
    ghost var packGoal := PackItemsTo(M.Emit, w.buf, ModifyTrees(ms));
    ghost var textGoal := TextItemsTo(J.Emit, start, ModifyTrees(ms));
    j := start;
    assert ms[0..] == ms;
    for i := 0 to |ms|
      invariant packGoal == PackItemsTo(M.Emit, w.buf, ModifyTrees(ms[i..]))
      invariant Due(textGoal, j, i == 0, ModifyTrees(ms[i..]))
    {
      Slices(ms, i);
      DueStep(textGoal, j, i == 0, ModifyTrees(ms[i..]));
      if i != 0 { j := j + ","; }
      j := PackModify(w, j, ms[i]);
    }
  }

  method BuildBatchModify(ms: seq<ModifyWire>) returns (e: Encoded)
    requires |ms| < 0x1_0000_0000
    ensures Encodes(e, BatchModify(ms)) && Says(e, BatchModify(ms))
  {
    ghost var a := BatchModify(ms);
    var w := new M.Writer();
    BatchBodyOk(a);
    PackStart(w, BatchModify(ms), 2);
    var j := JsonStart(BatchModify(ms));
    PackEntry(M.Emit, w.buf, BodyOf(a));
    w.PutStr("modifies");
    ModifiesOk(ms);
    w.ArrayHeader(|ms|);
    j := j + ",";
    TextEntry(J.Emit, j, BodyOf(a));
    j := j + K("modifies");
    j := j + "[";
    j := PackModifies(w, j, ms);
    j := j + "]";
    j := j + "}";
    Packed(a, w.buf);
    Printed(a, j);
    e := Encoded(w.buf, j);
    EncodedSays(e, a);
  }

  // ── settings ────────────────────────────────────────────────────────────────

  method BuildScheduleCancel(time: Option<U64>) returns (e: Encoded)
    ensures Encodes(e, ScheduleCancel(time)) && Says(e, ScheduleCancel(time))
  {
    ghost var a := ScheduleCancel(time);
    var w := new M.Writer();
    assert CountEntries(BodyOf(a)) == if time.Some? then 1 else 0;
    PackStart(w, ScheduleCancel(time), if time.Some? then 2 else 1);
    var j := JsonStart(ScheduleCancel(time));
    if time.Some? {
      PackLeaf(M.Emit, w.buf, BodyOf(a));
      w.PutStr("time");
      w.Uint(time.value);
      j := j + ",";
      TextLeaf(J.Emit, j, BodyOf(a));
      j := j + K("time");
      j := j + J.NumText(time.value);
    }
    j := j + "}";
    Packed(a, w.buf);
    Printed(a, j);
    e := Encoded(w.buf, j);
    EncodedSays(e, a);
  }

  method BuildUpdateLeverage(asset: U32, isCross: bool, leverage: U32) returns (e: Encoded)
    ensures Encodes(e, UpdateLeverage(asset, isCross, leverage)) && Says(e, UpdateLeverage(asset, isCross, leverage))
  {
    ghost var a := UpdateLeverage(asset, isCross, leverage);
    ghost var es := BodyOf(a);
    var w := new M.Writer();
    assert CountEntries(es.rest.rest) == 1;
    PackStart(w, UpdateLeverage(asset, isCross, leverage), 4);
    PackLeaf(M.Emit, w.buf, es);
    w.PutStr("asset");
    w.Uint(asset);
    PackLeaf(M.Emit, w.buf, es.rest);
    w.PutStr("isCross");
    w.Boolean(isCross);
    PackLeaf(M.Emit, w.buf, es.rest.rest);
    w.PutStr("leverage");
    w.Uint(leverage);
    Packed(a, w.buf);
    var j := JsonStart(UpdateLeverage(asset, isCross, leverage));
    j := j + ",";
    TextLeaf(J.Emit, j, es);
    j := j + K("asset");
    j := j + J.NumText(asset);
    j := j + ",";
    TextLeaf(J.Emit, j, es.rest);
    j := j + K("isCross");
    j := j + (if isCross then "true" else "false");
    j := j + ",";
    TextLeaf(J.Emit, j, es.rest.rest);
    j := j + K("leverage");
    j := j + J.NumText(leverage);
    j := j + "}";
    Printed(a, j);
    e := Encoded(w.buf, j);
    EncodedSays(e, a);
  }

  /** Amounts finer than a millionth are refused; the sign of the amount is kept. */
  method BuildUpdateIsolatedMargin(asset: U32, usdc: D.Raw) returns (e: Option<Encoded>)
    ensures e.Some? <==> usdc % 100 == 0
    ensures e.Some? ==> Encodes(e.value, UpdateIsolatedMargin(asset, usdc / 100))
    ensures e.Some? ==> Says(e.value, UpdateIsolatedMargin(asset, usdc / 100))
    ensures e.Some? ==> InRange(UpdateIsolatedMargin(asset, usdc / 100))
  {
    if usdc % 100 != 0 { return None; }
    var micro: int := usdc / 100;
    ghost var a := UpdateIsolatedMargin(asset, micro);
    ghost var es := BodyOf(a);
    var w := new M.Writer();
    assert CountEntries(es.rest.rest) == 1;
    PackStart(w, UpdateIsolatedMargin(asset, micro), 4);
    PackLeaf(M.Emit, w.buf, es);
    w.PutStr("asset");
    w.Uint(asset);
    PackLeaf(M.Emit, w.buf, es.rest);
    w.PutStr("isBuy");
    w.Boolean(true);
    PackLeaf(M.Emit, w.buf, es.rest.rest);
    w.PutStr("ntli");
    w.Sint(micro);
    Packed(a, w.buf);
    var j := JsonStart(UpdateIsolatedMargin(asset, micro));
    j := j + ",";
    TextLeaf(J.Emit, j, es);
    j := j + K("asset");
    j := j + J.NumText(asset);
    j := j + ",";
    TextLeaf(J.Emit, j, es.rest);
    j := j + K("isBuy");
    j := j + "true";
    j := j + ",";
    TextLeaf(J.Emit, j, es.rest.rest);
    j := j + K("ntli");
    j := j + J.NumText(micro);
    j := j + "}";
    Printed(a, j);
    e := Some(Encoded(w.buf, j));
    EncodedSays(e.value, a);
  }

  method BuildNoop() returns (e: Encoded)
    ensures Encodes(e, Noop) && Says(e, Noop)
  {
    var w := new M.Writer();
    PackStart(w, Noop, 1);
    Packed(Noop, w.buf);
    var j := JsonStart(Noop);
    j := j + "}";
    Printed(Noop, j);
    e := Encoded(w.buf, j);
    EncodedSays(e, Noop);
  }

  method BuildReserveRequestWeight(weight: U64) returns (e: Encoded)
    ensures Encodes(e, ReserveRequestWeight(weight)) && Says(e, ReserveRequestWeight(weight))
  {
    ghost var a := ReserveRequestWeight(weight);
    var w := new M.Writer();
    assert CountEntries(BodyOf(a)) == 1;
    PackStart(w, ReserveRequestWeight(weight), 2);
    PackLeaf(M.Emit, w.buf, BodyOf(a));
    w.PutStr("weight");
    w.Uint(weight);
    Packed(a, w.buf);
    var j := JsonStart(ReserveRequestWeight(weight));
    j := j + ",";
    TextLeaf(J.Emit, j, BodyOf(a));
    j := j + K("weight");
    j := j + J.NumText(weight);
    j := j + "}";
    Printed(a, j);
    e := Encoded(w.buf, j);
    EncodedSays(e, a);
  }
}
