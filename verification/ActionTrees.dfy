/** Every action can be written in both forms, and both read back as the same tree. */
module ActionTrees {
  import opened Basics
  import opened WireTree
  import opened Actions
  import H = HexText
  import D = DecimalText
  import M = MsgPack
  import J = JsonText

  /** A string that both forms can carry. */
  predicate Word(s: string) { |s| < 0x1_0000_0000 && J.Plain(s) }

  /** A tree that both forms can carry. */
  ghost predicate Writable(t: Tree) { Packable(M.Fits, t) && Printable(J.Sendable, t) }
  ghost predicate WritableItems(ts: Trees) { PackableItems(M.Fits, ts) && PrintableItems(J.Sendable, ts) }
  ghost predicate WritableEntries(es: Entries) { PackableEntries(M.Fits, es) && PrintableEntries(J.Sendable, es) }

  lemma StrOk(s: string)
    requires Word(s)
    ensures Writable(S(s))
  {}

  lemma NumOk(n: int)
    requires -0x8000_0000_0000_0000 <= n < 0x1_0000_0000_0000_0000
    ensures Writable(N(n))
  {}

  lemma BoolOk(b: bool)
    ensures Writable(B(b))
  {}

  lemma NoEntries()
    ensures WritableEntries(End) && CountEntries(End) == 0
  {}

  lemma EntryOk(k: string, v: Tree, rest: Entries)
    requires Word(k) && Writable(v) && WritableEntries(rest)
    ensures WritableEntries(Entry(k, v, rest)) && CountEntries(Entry(k, v, rest)) == 1 + CountEntries(rest)
  {}

  lemma MapOk(es: Entries)
    requires WritableEntries(es) && CountEntries(es) < 0x1_0000_0000
    ensures Writable(Map(es))
  {}

  lemma ArrOk(ts: Trees)
    requires WritableItems(ts) && Count(ts) < 0x1_0000_0000
    ensures Writable(Arr(ts))
  {}

  // ── words ───────────────────────────────────────────────────────────────────

  lemma {:induction false} DigitsPlain(s: string)
    requires D.AllDigits(s)
    ensures J.Plain(s)
  {}

  lemma WrittenPlain(sign: string, ints: string, dot: bool, fracs: string)
    requires D.IsNumeral(sign, ints, dot, fracs)
    ensures J.Plain(D.Written(sign, ints, dot, fracs))
  {
    DigitsPlain(ints);
    DigitsPlain(fracs);
    var body := ints + D.Point(dot, fracs);
    assert J.Plain(D.Point(dot, fracs));
    assert J.Plain(body);
  }

  lemma DecimalWord(raw: D.Raw)
    ensures Word(D.Text(raw))
  {
    D.TextIsCanonical(raw);
    var sign, ints, dot, fracs :| D.Canonical(sign, ints, dot, fracs)
      && D.Text(raw) == D.Written(sign, ints, dot, fracs);
    WrittenPlain(sign, ints, dot, fracs);
  }

  lemma CloidWord(c: H.Cloid)
    ensures Word(H.CloidText(c))
  {
    H.CloidTextClean(c);
  }

  lemma AddressWord(a: H.Address)
    ensures Word(H.AddressText(a))
  {
    H.AddressTextClean(a);
  }

  // ── orders ──────────────────────────────────────────────────────────────────

  lemma TriggerOk(t: Trigger)
    ensures Writable(Map(TriggerEntries(t)))
  {
    BoolOk(t.isMarket);
    DecimalWord(t.px);
    StrOk(D.Text(t.px));
    StrOk(KindText(t.kind));
    NoEntries();
    var e3 := Entry("tpsl", S(KindText(t.kind)), End);
    EntryOk("tpsl", S(KindText(t.kind)), End);
    var e2 := Entry("triggerPx", S(D.Text(t.px)), e3);
    EntryOk("triggerPx", S(D.Text(t.px)), e3);
    EntryOk("isMarket", B(t.isMarket), e2);
    MapOk(TriggerEntries(t));
  }

  lemma TypeOk(o: OrderWire)
    ensures Writable(Map(TypeEntries(o)))
  {
    NoEntries();
    match o.trigger
    case Some(t) =>
      TriggerOk(t);
      EntryOk("trigger", Map(TriggerEntries(t)), End);
      MapOk(TypeEntries(o));
    case None =>
      StrOk(TifText(o.tif));
      var e := Entry("tif", S(TifText(o.tif)), End);
      EntryOk("tif", S(TifText(o.tif)), End);
      MapOk(e);
      EntryOk("limit", Map(e), End);
      MapOk(TypeEntries(o));
  }

  lemma TailOk(o: OrderWire)
    ensures WritableEntries(TailEntries(o)) && CountEntries(TailEntries(o)) == if o.cloid.Some? then 4 else 3
  {
    NoEntries();
    if o.cloid.Some? {
      CloidWord(o.cloid.value);
      StrOk(H.CloidText(o.cloid.value));
      EntryOk("c", S(H.CloidText(o.cloid.value)), End);
    }
    TypeOk(o);
    BoolOk(o.reduceOnly);
    DecimalWord(o.sz);
    StrOk(D.Text(o.sz));
    var e3 := Entry("t", Map(TypeEntries(o)), CloidEntries(o.cloid));
    EntryOk("t", Map(TypeEntries(o)), CloidEntries(o.cloid));
    var e2 := Entry("r", B(o.reduceOnly), e3);
    EntryOk("r", B(o.reduceOnly), e3);
    EntryOk("s", S(D.Text(o.sz)), e2);
    assert CountEntries(CloidEntries(o.cloid)) == if o.cloid.Some? then 1 else 0;
    assert CountEntries(e2) == 2 + CountEntries(CloidEntries(o.cloid));
  }

  lemma OrderOk(o: OrderWire)
    ensures Writable(OrderTree(o)) && CountEntries(OrderEntries(o)) == if o.cloid.Some? then 7 else 6
  {
    TailOk(o);
    NumOk(o.asset);
    BoolOk(o.isBuy);
    DecimalWord(o.px);
    StrOk(D.Text(o.px));
    var e3 := Entry("p", S(D.Text(o.px)), TailEntries(o));
    EntryOk("p", S(D.Text(o.px)), TailEntries(o));
    var e2 := Entry("b", B(o.isBuy), e3);
    EntryOk("b", B(o.isBuy), e3);
    EntryOk("a", N(o.asset), e2);
    assert CountEntries(e2) == 2 + CountEntries(TailEntries(o));
    MapOk(OrderEntries(o));
  }

  lemma {:induction false} OrdersOk(os: seq<OrderWire>)
    ensures WritableItems(OrderTrees(os)) && Count(OrderTrees(os)) == |os|
  {
    if |os| != 0 {
      OrderOk(os[0]);
      OrdersOk(os[1..]);
    }
  }

  lemma CancelOk(c: CancelWire)
    ensures Writable(CancelTree(c))
  {
    NoEntries();
    NumOk(c.asset);
    NumOk(c.oid);
    var e := Entry("o", N(c.oid), End);
    EntryOk("o", N(c.oid), End);
    EntryOk("a", N(c.asset), e);
    MapOk(Entry("a", N(c.asset), e));
  }

  lemma {:induction false} CancelsOk(cs: seq<CancelWire>)
    ensures WritableItems(CancelTrees(cs)) && Count(CancelTrees(cs)) == |cs|
  {
    if |cs| != 0 {
      CancelOk(cs[0]);
      CancelsOk(cs[1..]);
    }
  }

  lemma ByCloidOk(c: CancelByCloidWire)
    ensures Writable(ByCloidTree(c))
  {
    NoEntries();
    NumOk(c.asset);
    CloidWord(c.cloid);
    StrOk(H.CloidText(c.cloid));
    var e := Entry("cloid", S(H.CloidText(c.cloid)), End);
    EntryOk("cloid", S(H.CloidText(c.cloid)), End);
    EntryOk("asset", N(c.asset), e);
    MapOk(Entry("asset", N(c.asset), e));
  }

  lemma {:induction false} ByCloidsOk(cs: seq<CancelByCloidWire>)
    ensures WritableItems(ByCloidTrees(cs)) && Count(ByCloidTrees(cs)) == |cs|
  {
    if |cs| != 0 {
      ByCloidOk(cs[0]);
      ByCloidsOk(cs[1..]);
    }
  }

  lemma ModifyOk(m: ModifyWire)
    ensures Writable(ModifyTree(m))
  {
    NoEntries();
    match m.target {
      case ByOid(oid) => NumOk(oid);
      case ByCloid(c) => CloidWord(c); StrOk(H.CloidText(c));
    }
    OrderOk(m.order);
    var e := Entry("order", OrderTree(m.order), End);
    EntryOk("order", OrderTree(m.order), End);
    EntryOk("oid", TargetTree(m.target), e);
    MapOk(Entry("oid", TargetTree(m.target), e));
  }

  lemma {:induction false} ModifiesOk(ms: seq<ModifyWire>)
    ensures WritableItems(ModifyTrees(ms)) && Count(ModifyTrees(ms)) == |ms|
  {
    if |ms| != 0 {
      ModifyOk(ms[0]);
      ModifiesOk(ms[1..]);
    }
  }

  // ── actions ─────────────────────────────────────────────────────────────────

  /** Within the widths the formats have. */
  predicate InRange(a: Action) {
    match a
    case Order(os, _, _) => |os| < 0x1_0000_0000
    case Cancel(cs, _) => |cs| < 0x1_0000_0000
    case CancelByCloid(cs, _) => |cs| < 0x1_0000_0000
    case BatchModify(ms) => |ms| < 0x1_0000_0000
    case UpdateIsolatedMargin(_, micro) => -0x8000_0000_0000_0000 <= micro < 0x8000_0000_0000_0000
    case _ => true
  }

  lemma GroupingOk(g: Grouping)
    ensures Writable(GroupingTree(g))
  {
    match g
    case Priority(rate) =>
      NoEntries();
      NumOk(rate);
      EntryOk("p", N(rate), End);
      MapOk(Entry("p", N(rate), End));
    case Na => StrOk("na");
    case NormalTpsl => StrOk("normalTpsl");
    case PositionTpsl => StrOk("positionTpsl");
  }

  lemma BuilderOk(b: Option<Builder>)
    ensures WritableEntries(BuilderEntries(b)) && CountEntries(BuilderEntries(b)) == if b.Some? then 1 else 0
  {
    NoEntries();
    if b.Some? {
      var address, fee := S(H.AddressText(b.value.address)), N(b.value.fee);
      AddressWord(b.value.address);
      StrOk(H.AddressText(b.value.address));
      NumOk(b.value.fee);
      EntryOk("f", fee, End);
      EntryOk("b", address, Entry("f", fee, End));
      MapOk(Entry("b", address, Entry("f", fee, End)));
      EntryOk("builder", Map(Entry("b", address, Entry("f", fee, End))), End);
    }
  }

  lemma OrderBodyOk(a: Action)
    requires a.Order? && InRange(a)
    ensures WritableEntries(BodyOf(a)) && CountEntries(BodyOf(a)) == if a.builder.Some? then 3 else 2
  {
    OrdersOk(a.orders);
    ArrOk(OrderTrees(a.orders));
    GroupingOk(a.grouping);
    BuilderOk(a.builder);
    OrderKeys();
    PairOk("orders", Arr(OrderTrees(a.orders)), "grouping", GroupingTree(a.grouping), BuilderEntries(a.builder));
  }

  lemma OrderKeys()
    ensures Word("orders") && Word("grouping")
  {}

  lemma PairOk(k: string, v: Tree, k': string, v': Tree, rest: Entries)
    requires Word(k) && Writable(v) && Word(k') && Writable(v') && WritableEntries(rest)
    ensures var e := Entry(k, v, Entry(k', v', rest)); WritableEntries(e) && CountEntries(e) == 2 + CountEntries(rest)
  {
    EntryOk(k', v', rest);
    EntryOk(k, v, Entry(k', v', rest));
  }

  lemma FastOk(fast: bool)
    ensures WritableEntries(FastEntries(fast)) && CountEntries(FastEntries(fast)) == if fast then 1 else 0
  {
    NoEntries();
    BoolOk(true);
    EntryOk("f", B(true), End);
  }

  lemma BatchBodyOk(a: Action)
    requires (a.Cancel? || a.CancelByCloid? || a.BatchModify?) && InRange(a)
    ensures WritableEntries(BodyOf(a)) && CountEntries(BodyOf(a)) == if !a.BatchModify? && a.fast then 2 else 1
  {
    NoEntries();
    match a
    case Cancel(cs, fast) =>
      CancelsOk(cs);
      ArrOk(CancelTrees(cs));
      FastOk(fast);
      EntryOk("cancels", Arr(CancelTrees(cs)), FastEntries(fast));
    case CancelByCloid(cs, fast) =>
      ByCloidsOk(cs);
      ArrOk(ByCloidTrees(cs));
      FastOk(fast);
      EntryOk("cancels", Arr(ByCloidTrees(cs)), FastEntries(fast));
    case BatchModify(ms) =>
      ModifiesOk(ms);
      ArrOk(ModifyTrees(ms));
      EntryOk("modifies", Arr(ModifyTrees(ms)), End);
  }

  lemma SettingBodyOk(a: Action)
    requires !a.Order? && !a.Cancel? && !a.CancelByCloid? && !a.BatchModify? && InRange(a)
    ensures WritableEntries(BodyOf(a)) && CountEntries(BodyOf(a)) <= 3
  {
    NoEntries();
    match a
    case ScheduleCancel(t) =>
      if t.Some? { NumOk(t.value); EntryOk("time", N(t.value), End); }
    case UpdateLeverage(asset, isCross, leverage) =>
      NumOk(asset);
      BoolOk(isCross);
      NumOk(leverage);
      var e := Entry("leverage", N(leverage), End);
      EntryOk("leverage", N(leverage), End);
      EntryOk("isCross", B(isCross), e);
      EntryOk("asset", N(asset), Entry("isCross", B(isCross), e));
    case UpdateIsolatedMargin(asset, micro) =>
      NumOk(asset);
      BoolOk(true);
      NumOk(micro);
      var e := Entry("ntli", N(micro), End);
      EntryOk("ntli", N(micro), End);
      EntryOk("isBuy", B(true), e);
      EntryOk("asset", N(asset), Entry("isBuy", B(true), e));
    case ReserveRequestWeight(weight) =>
      NumOk(weight);
      EntryOk("weight", N(weight), End);
    case Noop =>
  }

  lemma ShortNames()
    ensures Word("type") && Word("order") && Word("cancel") && Word("noop") && Word("cancelByCloid")
  {}

  lemma LongNames()
    ensures Word("batchModify") && Word("scheduleCancel") && Word("updateLeverage")
  {}

  lemma LongestNames()
    ensures Word("updateIsolatedMargin") && Word("reserveRequestWeight")
  {}

  lemma NameWord(a: Action)
    ensures Word(Name(a)) && Word("type")
  {
    ShortNames();
    LongNames();
    LongestNames();
  }

  lemma ActionOk(a: Action)
    requires InRange(a)
    ensures Writable(TreeOf(a))
  {
    if a.Order? {
      OrderBodyOk(a);
    } else if a.Cancel? || a.CancelByCloid? || a.BatchModify? {
      BatchBodyOk(a);
    } else {
      SettingBodyOk(a);
    }
    NameWord(a);
    StrOk(Name(a));
    EntryOk("type", S(Name(a)), BodyOf(a));
    MapOk(Entry("type", S(Name(a)), BodyOf(a)));
  }

  // ── the two forms ───────────────────────────────────────────────────────────

  function PackOf(a: Action): string { Pack(M.Emit, TreeOf(a)) }
  function JsonOf(a: Action): string { Text(J.Emit, TreeOf(a)) }

  /** What is signed and what is sent decode to one tree, and nothing is left over in either. */
  lemma FormsAgree(a: Action)
    requires InRange(a)
    ensures Shrinks(M.Next) && Unpack(M.Next, PackOf(a)) == Got(TreeOf(a), "")
    ensures Shrinks(J.Next) && Scan(J.Next, JsonOf(a)) == Got(TreeOf(a), "")
  {
    ActionOk(a);
    M.PackRoundTrip(TreeOf(a), "");
    assert PackOf(a) + "" == PackOf(a);
    J.TextRoundTrip(TreeOf(a));
  }

  // ── what is hashed ──────────────────────────────────────────────────────────

  /** The hashed bytes: the packed action, the nonce, the vault and the expiry. */
  function PreImage(a: Action, nonce: U64, vault: Option<seq<Byte>>, expiry: Option<U64>): string {
    PackOf(a) + After(nonce, vault, expiry)
  }

  function AddressBytes(v: seq<Byte>): (s: string)
    ensures |s| == |v|
  {
    seq(|v|, i requires 0 <= i < |v| => M.ByteChar(v[i]))
  }

  function VaultPart(vault: Option<seq<Byte>>): string {
    match vault case Some(v) => [M.ByteChar(1)] + AddressBytes(v) case None => [M.ByteChar(0)]
  }

  function ExpiryPart(expiry: Option<U64>): string {
    match expiry case Some(t) => [M.ByteChar(0)] + M.NetworkText(t, 8) case None => ""
  }

  function After(nonce: U64, vault: Option<seq<Byte>>, expiry: Option<U64>): string {
    M.NetworkText(nonce, 8) + (VaultPart(vault) + ExpiryPart(expiry))
  }

  lemma BigEndianInjective(m: U64, n: U64)
    requires M.NetworkText(m, 8) == M.NetworkText(n, 8)
    ensures m == n
  {
    M.Widths();
    M.ValueOfBigEndian(m, 8);
    M.ValueOfBigEndian(n, 8);
  }

  lemma AddressBytesInjective(v: seq<Byte>, w: seq<Byte>)
    requires AddressBytes(v) == AddressBytes(w)
    ensures v == w
  {
    assert |v| == |w|;
    forall i | 0 <= i < |v| ensures v[i] == w[i] { assert AddressBytes(v)[i] == AddressBytes(w)[i]; }
  }

  predicate IsAddress(vault: Option<seq<Byte>>) { vault.Some? ==> |vault.value| == 20 }

  lemma AfterInjective(n: U64, v: Option<seq<Byte>>, e: Option<U64>, n': U64, v': Option<seq<Byte>>, e': Option<U64>)
    requires IsAddress(v) && IsAddress(v') && After(n, v, e) == After(n', v', e')
    ensures n == n' && v == v' && e == e'
  {
    var s, rest, rest' := After(n, v, e), VaultPart(v) + ExpiryPart(e), VaultPart(v') + ExpiryPart(e');
    assert s[..8] == M.NetworkText(n, 8) && s[..8] == M.NetworkText(n', 8);
    BigEndianInjective(n, n');
    assert s[8..] == rest && s[8..] == rest';
    RestInjective(v, e, v', e');
  }

  lemma RestInjective(v: Option<seq<Byte>>, e: Option<U64>, v': Option<seq<Byte>>, e': Option<U64>)
    requires IsAddress(v) && IsAddress(v') && VaultPart(v) + ExpiryPart(e) == VaultPart(v') + ExpiryPart(e')
    ensures v == v' && e == e'
  {
    var r := VaultPart(v) + ExpiryPart(e);
    assert r[0] == VaultPart(v)[0] && r[0] == VaultPart(v')[0];
    var k := |VaultPart(v)|;
    assert r[..k] == VaultPart(v) && r[..k] == VaultPart(v');
    assert r[k..] == ExpiryPart(e) && r[k..] == ExpiryPart(e');
    if v.Some? {
      assert VaultPart(v)[1..] == AddressBytes(v.value) && VaultPart(v')[1..] == AddressBytes(v'.value);
      AddressBytesInjective(v.value, v'.value);
    }
    if e.Some? && e'.Some? {
      assert ExpiryPart(e)[1..] == M.NetworkText(e.value, 8) && ExpiryPart(e')[1..] == M.NetworkText(e'.value, 8);
      BigEndianInjective(e.value, e'.value);
    }
  }

  /**
    * The hashed bytes determine the action as far as the wire carries it, the nonce, the vault and the expiry: two
    * requests with the same pre-image ask for the same thing.
    */
  lemma PreImageDetermines(a: Action, n: U64, v: Option<seq<Byte>>, e: Option<U64>,
                           a': Action, n': U64, v': Option<seq<Byte>>, e': Option<U64>)
    requires InRange(a) && InRange(a') && IsAddress(v) && IsAddress(v')
             && PreImage(a, n, v, e) == PreImage(a', n', v', e')
    ensures WireAction(a) == WireAction(a') && n == n' && v == v' && e == e'
  {
    ActionOk(a);
    ActionOk(a');
    M.PackRoundTrip(TreeOf(a), After(n, v, e));
    M.PackRoundTrip(TreeOf(a'), After(n', v', e'));
    TreeInjective(a, a');
    AfterInjective(n, v, e, n', v', e');
  }
}
