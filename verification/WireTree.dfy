/**
  * Action payloads as ordered trees, written as counted tokens (MessagePack) and as bracketed text (JSON), for any way
  * to write single tokens.
  */
module WireTree {
  datatype Tree = Leaf(token: Token) | Arr(items: Trees) | Map(entries: Entries)
  datatype Trees = Nil | Cons(head: Tree, tail: Trees)
  datatype Entries = End | Entry(key: string, value: Tree, rest: Entries)

  /** What a writer puts out in one call. */
  datatype Token = Num(n: int) | Bool(b: bool) | Str(s: string) | ArrHead(count: nat) | MapHead(count: nat)

  datatype Got<T> = Bad | Got(value: T, rest: string)

  /** How tokens are read; a token takes at least one byte. */
  type Reader = string -> Got<Token>
  type Writer = Token -> string

  ghost predicate Shrinks(next: Reader) {
    forall s :: next(s).Got? ==> |next(s).rest| < |s|
  }

  function Count(ts: Trees): nat { if ts.Nil? then 0 else 1 + Count(ts.tail) }
  function CountEntries(es: Entries): nat { if es.End? then 0 else 1 + CountEntries(es.rest) }

  // ── counted form ────────────────────────────────────────────────────────────

  function Pack(emit: Writer, t: Tree): string {
    match t
    case Leaf(token) => emit(token)
    case Arr(items) => emit(ArrHead(Count(items))) + PackItems(emit, items)
    case Map(entries) => emit(MapHead(CountEntries(entries))) + PackEntries(emit, entries)
  }

  function PackItems(emit: Writer, ts: Trees): string {
    match ts
    case Nil => ""
    case Cons(t, more) => Pack(emit, t) + PackItems(emit, more)
  }

  function PackEntries(emit: Writer, es: Entries): string {
    match es
    case End => ""
    case Entry(k, v, more) => emit(Str(k)) + (Pack(emit, v) + PackEntries(emit, more))
  }

  function Unpack(next: Reader, s: string): (g: Got<Tree>)
    requires Shrinks(next)
    ensures g.Got? ==> |g.rest| < |s|
    decreases |s|, 0
  {
    match next(s)
    case Bad => Bad
    case Got(token, rest) =>
      match token
      case ArrHead(n) =>
        var g := UnpackItems(next, n, rest);
        if g.Bad? then Bad else Got(Arr(g.value), g.rest)
      case MapHead(n) =>
        var g := UnpackEntries(next, n, rest);
        if g.Bad? then Bad else Got(Map(g.value), g.rest)
      case _ => Got(Leaf(token), rest)
  }

  function UnpackItems(next: Reader, n: nat, s: string): (g: Got<Trees>)
    requires Shrinks(next)
    ensures g.Got? ==> |g.rest| <= |s|
    decreases |s|, 1
  {
    if n == 0 then Got(Nil, s)
    else
      var first := Unpack(next, s);
      if first.Bad? then Bad
      else
        var more := UnpackItems(next, n - 1, first.rest);
        if more.Bad? then Bad else Got(Cons(first.value, more.value), more.rest)
  }

  function UnpackEntries(next: Reader, n: nat, s: string): (g: Got<Entries>)
    requires Shrinks(next)
    ensures g.Got? ==> |g.rest| <= |s|
    decreases |s|, 1
  {
    if n == 0 then Got(End, s)
    else
      var key := next(s);
      if key.Bad? || !key.value.Str? then Bad
      else
        var value := Unpack(next, key.rest);
        if value.Bad? then Bad
        else
          var more := UnpackEntries(next, n - 1, value.rest);
          if more.Bad? then Bad else Got(Entry(key.value.s, value.value, more.value), more.rest)
  }

  /** Every token of the tree is one that `ok` admits. */
  ghost predicate Packable(ok: Token -> bool, t: Tree) {
    match t
    case Leaf(token) => ok(token) && !token.ArrHead? && !token.MapHead?
    case Arr(items) => ok(ArrHead(Count(items))) && PackableItems(ok, items)
    case Map(entries) => ok(MapHead(CountEntries(entries))) && PackableEntries(ok, entries)
  }

  ghost predicate PackableItems(ok: Token -> bool, ts: Trees) {
    ts.Cons? ==> Packable(ok, ts.head) && PackableItems(ok, ts.tail)
  }

  ghost predicate PackableEntries(ok: Token -> bool, es: Entries) {
    es.Entry? ==> ok(Str(es.key)) && Packable(ok, es.value) && PackableEntries(ok, es.rest)
  }

  /** Tokens are read back whatever follows them. */
  ghost predicate Reads(next: Reader, emit: Writer, ok: Token -> bool) {
    forall token, tail {:trigger next(emit(token) + tail)} :: ok(token) ==> next(emit(token) + tail) == Got(token, tail)
  }

  /** Counts match the entries that follow, and nothing is left over. */
  lemma {:induction false} UnpackPack(next: Reader, emit: Writer, ok: Token -> bool, t: Tree, tail: string)
    requires Shrinks(next) && Reads(next, emit, ok) && Packable(ok, t)
    ensures Unpack(next, Pack(emit, t) + tail) == Got(t, tail)
    decreases t
  {
    match t
    case Leaf(token) => assert next(emit(token) + tail) == Got(token, tail);
    case Arr(items) =>
      var head := emit(ArrHead(Count(items)));
      assert Pack(emit, t) + tail == head + (PackItems(emit, items) + tail);
      UnpackPackItems(next, emit, ok, items, tail);
    case Map(entries) =>
      var head := emit(MapHead(CountEntries(entries)));
      assert Pack(emit, t) + tail == head + (PackEntries(emit, entries) + tail);
      UnpackPackEntries(next, emit, ok, entries, tail);
  }

  lemma {:induction false} UnpackPackItems(next: Reader, emit: Writer, ok: Token -> bool, ts: Trees, tail: string)
    requires Shrinks(next) && Reads(next, emit, ok) && PackableItems(ok, ts)
    ensures UnpackItems(next, Count(ts), PackItems(emit, ts) + tail) == Got(ts, tail)
    decreases ts
  {
    if ts.Cons? {
      var more := PackItems(emit, ts.tail) + tail;
      assert PackItems(emit, ts) + tail == Pack(emit, ts.head) + more;
      UnpackPack(next, emit, ok, ts.head, more);
      UnpackPackItems(next, emit, ok, ts.tail, tail);
    } else {
      assert PackItems(emit, ts) + tail == tail;
    }
  }

  lemma {:induction false} UnpackPackEntries(next: Reader, emit: Writer, ok: Token -> bool, es: Entries, tail: string)
    requires Shrinks(next) && Reads(next, emit, ok) && PackableEntries(ok, es)
    ensures UnpackEntries(next, CountEntries(es), PackEntries(emit, es) + tail) == Got(es, tail)
    decreases es
  {
    if es.Entry? {
      var more := PackEntries(emit, es.rest) + tail;
      assert PackEntries(emit, es) + tail == emit(Str(es.key)) + (Pack(emit, es.value) + more);
      UnpackPack(next, emit, ok, es.value, more);
      UnpackPackEntries(next, emit, ok, es.rest, tail);
    } else {
      assert PackEntries(emit, es) + tail == tail;
    }
  }

  // ── bracketed form ──────────────────────────────────────────────────────────

  function Text(emit: Writer, t: Tree): string {
    match t
    case Leaf(token) => emit(token)
    case Arr(items) => "[" + (TextItems(emit, items) + "]")
    case Map(entries) => "{" + (TextEntries(emit, entries) + "}")
  }

  function TextItems(emit: Writer, ts: Trees): string {
    match ts
    case Nil => ""
    case Cons(t, more) => Text(emit, t) + (if more.Nil? then "" else "," + TextItems(emit, more))
  }

  function TextEntries(emit: Writer, es: Entries): string {
    match es
    case End => ""
    case Entry(k, v, more) =>
      emit(Str(k)) + (":" + (Text(emit, v) + (if more.End? then "" else "," + TextEntries(emit, more))))
  }

  /** What may follow a value. */
  predicate Delimited(tail: string) {
    tail == "" || tail[0] == ',' || tail[0] == ']' || tail[0] == '}' || tail[0] == ':'
  }

  predicate Opens(s: string) { s != "" && (s[0] == '[' || s[0] == '{') }
  predicate Closes(s: string) { s != "" && (s[0] == ']' || s[0] == '}') }

  function Scan(next: Reader, s: string): (g: Got<Tree>)
    requires Shrinks(next)
    ensures g.Got? ==> |g.rest| < |s|
    decreases |s|, 0
  {
    if s == "" then Bad
    else if s[0] == '[' then
      var g := ScanItems(next, s[1..]);
      if g.Bad? then Bad else Got(Arr(g.value), g.rest)
    else if s[0] == '{' then
      var g := ScanEntries(next, s[1..]);
      if g.Bad? then Bad else Got(Map(g.value), g.rest)
    else
      var g := next(s);
      if g.Bad? then Bad else Got(Leaf(g.value), g.rest)
  }

  /** Items up to the closing bracket. */
  function ScanItems(next: Reader, s: string): (g: Got<Trees>)
    requires Shrinks(next)
    ensures g.Got? ==> |g.rest| <= |s|
    decreases |s|, 1
  {
    if s != "" && s[0] == ']' then Got(Nil, s[1..])
    else
      var first := Scan(next, s);
      if first.Bad? || first.rest == "" then Bad
      else if first.rest[0] == ']' then Got(Cons(first.value, Nil), first.rest[1..])
      else if first.rest[0] != ',' || Closes(first.rest[1..]) then Bad
      else
        var more := ScanItems(next, first.rest[1..]);
        if more.Bad? then Bad else Got(Cons(first.value, more.value), more.rest)
  }

  function ScanEntries(next: Reader, s: string): (g: Got<Entries>)
    requires Shrinks(next)
    ensures g.Got? ==> |g.rest| <= |s|
    decreases |s|, 1
  {
    if s != "" && s[0] == '}' then Got(End, s[1..])
    else
      var key := next(s);
      if key.Bad? || !key.value.Str? || key.rest == "" || key.rest[0] != ':' then Bad
      else
        var value := Scan(next, key.rest[1..]);
        if value.Bad? || value.rest == "" then Bad
        else if value.rest[0] == '}' then Got(Entry(key.value.s, value.value, End), value.rest[1..])
        else if value.rest[0] != ',' || Closes(value.rest[1..]) then Bad
        else
          var more := ScanEntries(next, value.rest[1..]);
          if more.Bad? then Bad else Got(Entry(key.value.s, value.value, more.value), more.rest)
  }

  /** Every leaf and key of the tree is one that `ok` admits. */
  ghost predicate Printable(ok: Token -> bool, t: Tree) {
    match t
    case Leaf(token) => ok(token)
    case Arr(items) => PrintableItems(ok, items)
    case Map(entries) => PrintableEntries(ok, entries)
  }

  ghost predicate PrintableItems(ok: Token -> bool, ts: Trees) {
    ts.Cons? ==> Printable(ok, ts.head) && PrintableItems(ok, ts.tail)
  }

  ghost predicate PrintableEntries(ok: Token -> bool, es: Entries) {
    es.Entry? ==> ok(Str(es.key)) && Printable(ok, es.value) && PrintableEntries(ok, es.rest)
  }

  /** A token is read back when something follows that cannot belong to it, and never looks like a bracket. */
  ghost predicate Scans(next: Reader, emit: Writer, ok: Token -> bool) {
    && (forall token, tail {:trigger next(emit(token) + tail)} ::
          ok(token) && Delimited(tail) ==> next(emit(token) + tail) == Got(token, tail))
    && (forall token :: ok(token) ==> emit(token) != "" && !Opens(emit(token)) && !Closes(emit(token)))
  }

  lemma TextStarts(next: Reader, emit: Writer, ok: Token -> bool, t: Tree)
    requires Scans(next, emit, ok) && Printable(ok, t)
    ensures Text(emit, t) != "" && !Closes(Text(emit, t))
  {}

  /** The text of a tree reads back as the tree. */
  lemma {:induction false} ScanText(next: Reader, emit: Writer, ok: Token -> bool, t: Tree, tail: string)
    requires Shrinks(next) && Scans(next, emit, ok) && Printable(ok, t) && Delimited(tail)
    ensures Scan(next, Text(emit, t) + tail) == Got(t, tail)
    decreases t
  {
    var s := Text(emit, t) + tail;
    match t
    case Leaf(token) =>
      assert s[0] == emit(token)[0] && next(s) == Got(token, tail);
    case Arr(items) =>
      assert s[0] == '[' && s[1..] == TextItems(emit, items) + ("]" + tail);
      ScanTextItems(next, emit, ok, items, tail);
    case Map(entries) =>
      assert s[0] == '{' && s[1..] == TextEntries(emit, entries) + ("}" + tail);
      ScanTextEntries(next, emit, ok, entries, tail);
  }

  lemma {:induction false} ScanTextItems(next: Reader, emit: Writer, ok: Token -> bool, ts: Trees, tail: string)
    requires Shrinks(next) && Scans(next, emit, ok) && PrintableItems(ok, ts)
    ensures ScanItems(next, TextItems(emit, ts) + ("]" + tail)) == Got(ts, tail)
    decreases ts
  {
    var s := TextItems(emit, ts) + ("]" + tail);
    if ts.Nil? {
      assert s == "]" + tail && s[1..] == tail;
    } else {
      var t, more := ts.head, (if ts.tail.Nil? then "" else "," + TextItems(emit, ts.tail)) + ("]" + tail);
      assert s == Text(emit, t) + more;
      TextStarts(next, emit, ok, t);
      assert s[0] == Text(emit, t)[0];
      ScanText(next, emit, ok, t, more);
      if ts.tail.Nil? {
        assert more == "]" + tail && more[1..] == tail;
      } else {
        assert more == "," + (TextItems(emit, ts.tail) + ("]" + tail));
        assert more[1..] == TextItems(emit, ts.tail) + ("]" + tail);
        TextStarts(next, emit, ok, ts.tail.head);
        assert more[1..][0] == Text(emit, ts.tail.head)[0];
        ScanTextItems(next, emit, ok, ts.tail, tail);
      }
    }
  }

  lemma {:induction false} ScanTextEntries(next: Reader, emit: Writer, ok: Token -> bool, es: Entries, tail: string)
    requires Shrinks(next) && Scans(next, emit, ok) && PrintableEntries(ok, es)
    ensures ScanEntries(next, TextEntries(emit, es) + ("}" + tail)) == Got(es, tail)
    decreases es
  {
    var s := TextEntries(emit, es) + ("}" + tail);
    if es.End? {
      assert s == "}" + tail && s[1..] == tail;
    } else {
      var key, text := emit(Str(es.key)), Text(emit, es.value);
      var more := (if es.rest.End? then "" else "," + TextEntries(emit, es.rest)) + ("}" + tail);
      assert s == key + (":" + (text + more)) && s[0] == key[0];
      assert next(s) == Got(Str(es.key), ":" + (text + more));
      ScanText(next, emit, ok, es.value, more);
      if es.rest.End? {
        assert more == "}" + tail;
        LastEntry(next, s, es.key, es.value, text + more, tail);
      } else {
        var after := TextEntries(emit, es.rest) + ("}" + tail);
        assert more == "," + after && after[0] == emit(Str(es.rest.key))[0];
        ScanTextEntries(next, emit, ok, es.rest, tail);
        OneEntry(next, s, es, text + more, after, tail);
      }
    }
  }

  lemma LastEntry(next: Reader, s: string, k: string, v: Tree, r: string, tail: string)
    requires Shrinks(next) && s != "" && s[0] != '}' && next(s) == Got(Str(k), ":" + r)
             && Scan(next, r) == Got(v, "}" + tail)
    ensures ScanEntries(next, s) == Got(Entry(k, v, End), tail)
  {
    assert (":" + r)[1..] == r && ("}" + tail)[1..] == tail;
  }

  lemma OneEntry(next: Reader, s: string, es: Entries, r: string, after: string, tail: string)
    requires Shrinks(next) && s != "" && s[0] != '}' && es.Entry? && next(s) == Got(Str(es.key), ":" + r)
    requires Scan(next, r) == Got(es.value, "," + after) && !Closes(after)
             && ScanEntries(next, after) == Got(es.rest, tail)
    ensures ScanEntries(next, s) == Got(es, tail)
  {
    assert (":" + r)[1..] == r && ("," + after)[1..] == after;
  }

  // ── the same texts, built by appending ──────────────────────────────────────

  function PackTo(emit: Writer, acc: string, t: Tree): string
    decreases t
  {
    match t
    case Leaf(token) => acc + emit(token)
    case Arr(items) => PackItemsTo(emit, acc + emit(ArrHead(Count(items))), items)
    case Map(entries) => PackEntriesTo(emit, acc + emit(MapHead(CountEntries(entries))), entries)
  }

  function PackItemsTo(emit: Writer, acc: string, ts: Trees): string
    decreases ts
  {
    match ts
    case Nil => acc
    case Cons(t, more) => PackItemsTo(emit, PackTo(emit, acc, t), more)
  }

  function PackEntriesTo(emit: Writer, acc: string, es: Entries): string
    decreases es
  {
    match es
    case End => acc
    case Entry(k, v, more) => PackEntriesTo(emit, PackTo(emit, acc + emit(Str(k)), v), more)
  }

  lemma {:induction false} PackToIs(emit: Writer, acc: string, t: Tree)
    ensures PackTo(emit, acc, t) == acc + Pack(emit, t)
    decreases t
  {
    match t
    case Leaf(token) =>
    case Arr(items) =>
      var head := emit(ArrHead(Count(items)));
      PackItemsToIs(emit, acc + head, items);
      assert (acc + head) + PackItems(emit, items) == acc + (head + PackItems(emit, items));
    case Map(entries) =>
      var head := emit(MapHead(CountEntries(entries)));
      PackEntriesToIs(emit, acc + head, entries);
      assert (acc + head) + PackEntries(emit, entries) == acc + (head + PackEntries(emit, entries));
  }

  lemma {:induction false} PackItemsToIs(emit: Writer, acc: string, ts: Trees)
    ensures PackItemsTo(emit, acc, ts) == acc + PackItems(emit, ts)
    decreases ts
  {
    if ts.Nil? {
      assert acc + "" == acc;
    } else {
      var x := Pack(emit, ts.head);
      PackToIs(emit, acc, ts.head);
      PackItemsToIs(emit, acc + x, ts.tail);
      assert (acc + x) + PackItems(emit, ts.tail) == acc + (x + PackItems(emit, ts.tail));
    }
  }

  lemma {:induction false} PackEntriesToIs(emit: Writer, acc: string, es: Entries)
    ensures PackEntriesTo(emit, acc, es) == acc + PackEntries(emit, es)
    decreases es
  {
    if es.End? {
      assert acc + "" == acc;
    } else {
      var k, x, r := emit(Str(es.key)), Pack(emit, es.value), PackEntries(emit, es.rest);
      PackToIs(emit, acc + k, es.value);
      PackEntriesToIs(emit, (acc + k) + x, es.rest);
      assert ((acc + k) + x) + r == acc + (k + (x + r));
    }
  }

  function TextTo(emit: Writer, acc: string, t: Tree): string
    decreases t
  {
    match t
    case Leaf(token) => acc + emit(token)
    case Arr(items) => TextItemsTo(emit, acc + "[", items) + "]"
    case Map(entries) => TextEntriesTo(emit, acc + "{", entries) + "}"
  }

  function TextItemsTo(emit: Writer, acc: string, ts: Trees): string
    decreases ts
  {
    match ts
    case Nil => acc
    case Cons(t, more) =>
      if more.Nil? then TextTo(emit, acc, t) else TextItemsTo(emit, TextTo(emit, acc, t) + ",", more)
  }

  function TextEntriesTo(emit: Writer, acc: string, es: Entries): string
    decreases es
  {
    match es
    case End => acc
    case Entry(k, v, more) =>
      var here := TextTo(emit, acc + (emit(Str(k)) + ":"), v);
      if more.End? then here else TextEntriesTo(emit, here + ",", more)
  }

  lemma {:induction false} TextToIs(emit: Writer, acc: string, t: Tree)
    ensures TextTo(emit, acc, t) == acc + Text(emit, t)
    decreases t
  {
    match t
    case Leaf(token) =>
    case Arr(items) =>
      TextItemsToIs(emit, acc + "[", items);
      assert (acc + "[") + TextItems(emit, items) + "]" == acc + ("[" + (TextItems(emit, items) + "]"));
    case Map(entries) =>
      TextEntriesToIs(emit, acc + "{", entries);
      assert (acc + "{") + TextEntries(emit, entries) + "}" == acc + ("{" + (TextEntries(emit, entries) + "}"));
  }

  lemma {:induction false} TextItemsToIs(emit: Writer, acc: string, ts: Trees)
    ensures TextItemsTo(emit, acc, ts) == acc + TextItems(emit, ts)
    decreases ts
  {
    if ts.Nil? {
      assert acc + "" == acc;
    } else {
      var x := Text(emit, ts.head);
      TextToIs(emit, acc, ts.head);
      if ts.tail.Nil? {
        assert x + "" == x;
      } else {
        TextItemsToIs(emit, (acc + x) + ",", ts.tail);
        assert ((acc + x) + ",") + TextItems(emit, ts.tail) == acc + (x + ("," + TextItems(emit, ts.tail)));
      }
    }
  }

  lemma Regroup(acc: string, k: string, x: string, r: string)
    ensures ((acc + (k + ":")) + x) + r == acc + (k + (":" + (x + r)))
  {
    assert (acc + (k + ":")) + (x + r) == acc + ((k + ":") + (x + r));
    assert (k + ":") + (x + r) == k + (":" + (x + r));
  }

  lemma {:induction false} TextEntriesToIs(emit: Writer, acc: string, es: Entries)
    ensures TextEntriesTo(emit, acc, es) == acc + TextEntries(emit, es)
    decreases es
  {
    if es.End? {
      assert acc + "" == acc;
    } else {
      var k, x := emit(Str(es.key)), Text(emit, es.value);
      TextToIs(emit, acc + (k + ":"), es.value);
      if es.rest.End? {
        Regroup(acc, k, x, "");
        assert x + "" == x;
      } else {
        var r := TextEntries(emit, es.rest);
        TextEntriesToIs(emit, ((acc + (k + ":")) + x) + ",", es.rest);
        Regroup(acc, k, x, "," + r);
        assert ((acc + (k + ":")) + x) + "," + r == ((acc + (k + ":")) + x) + ("," + r);
      }
    }
  }

  // ── one entry at a time ─────────────────────────────────────────────────────

  lemma PackLeaf(emit: Writer, acc: string, es: Entries)
    requires es.Entry? && es.value.Leaf?
    ensures PackEntriesTo(emit, acc, es)
            == PackEntriesTo(emit, (acc + emit(Str(es.key))) + emit(es.value.token), es.rest)
  {}

  lemma PackEntry(emit: Writer, acc: string, es: Entries)
    requires es.Entry?
    ensures PackEntriesTo(emit, acc, es)
            == PackEntriesTo(emit, PackTo(emit, acc + emit(Str(es.key)), es.value), es.rest)
  {}

  function Key(emit: Writer, k: string): string { emit(Str(k)) + ":" }

  /** An entry and the comma before the next, if there is one. */
  lemma TextEntry(emit: Writer, acc: string, es: Entries)
    requires es.Entry?
    ensures var here := TextTo(emit, acc + Key(emit, es.key), es.value);
            TextEntriesTo(emit, acc, es) == if es.rest.End? then here else TextEntriesTo(emit, here + ",", es.rest)
  {}

  lemma TextLeaf(emit: Writer, acc: string, es: Entries)
    requires es.Entry? && es.value.Leaf?
    ensures var here := (acc + Key(emit, es.key)) + emit(es.value.token);
            TextEntriesTo(emit, acc, es) == if es.rest.End? then here else TextEntriesTo(emit, here + ",", es.rest)
  {}
}
