/** From WebSocket frames to messages (sections 5.4 and 5.5 of RFC 6455), as src/net/WsCodec.cpp assembles them. */
module WsMessages {
  import opened Basics
  import opened Octets
  import opened Masking
  import opened Streams
  import opened WsFrames

  datatype Event = Message(opcode: nat, payload: seq<Octet>) | Control(opcode: nat, payload: seq<Octet>)
  datatype Assembly = Idle | Collecting(opcode: nat, data: seq<Octet>)

  /** What a complete frame means after the frames before it. */
  function Accept(a: Assembly, f: Frame, max: nat): Verdict<Assembly, Event> {
    if f.opcode >= 8 then
      if !f.fin || |f.payload| > 125 then Rejected(ProtocolError)
      else Accepted(a, [Control(f.opcode, f.payload)])
    else if f.opcode == CONTINUATION then
      if a.Idle? then Rejected(ProtocolError)
      else if |a.data| + |f.payload| > max then Rejected(MessageTooBig)
      else if f.fin then Accepted(Idle, [Message(a.opcode, a.data + f.payload)])
      else Accepted(Collecting(a.opcode, a.data + f.payload), [])
    else if f.opcode == TEXT || f.opcode == BINARY then
      if a.Collecting? then Rejected(ProtocolError)
      else if f.fin then Accepted(Idle, [Message(f.opcode, f.payload)])
      else Accepted(Collecting(f.opcode, f.payload), [])
    else Rejected(ProtocolError)
  }

  predicate IsControlCode(opcode: nat) { opcode >= 8 }
  predicate IsDataCode(opcode: nat) { opcode == 1 || opcode == 2 }

  /**
    * Exactly which frames are refused (sections 5.4 and 5.5 of RFC 6455): control frames that are fragmented or long,
    * continuations of nothing, data in the middle of a message, reserved codes, and messages over the maximum.
    */
  lemma RefusedExactly(a: Assembly, f: Frame, max: nat)
    ensures var v := Accept(a, f, max);
            && (v == Rejected(ProtocolError) <==>
                  || (IsControlCode(f.opcode) && (!f.fin || |f.payload| > 125))
                  || (f.opcode == 0 && a == Idle)
                  || (IsDataCode(f.opcode) && a != Idle)
                  || 3 <= f.opcode <= 7)
            && (v == Rejected(MessageTooBig) <==> f.opcode == 0 && a != Idle && |a.data| + |f.payload| > max)
            && (v.Rejected? ==> v.status == ProtocolError || v.status == MessageTooBig)
  {}

  /**
    * And what the others do: controls go straight through, a final frame completes the message, any other adds to it.
    */
  lemma AcceptedMeans(a: Assembly, f: Frame, max: nat)
    requires Accept(a, f, max).Accepted?
    ensures var v := Accept(a, f, max);
            var opcode := if a == Idle then f.opcode else a.opcode;
            var data := if a == Idle then f.payload else a.data + f.payload;
            && (IsControlCode(f.opcode) ==> v == Accepted(a, [Control(f.opcode, f.payload)]))
            && (!IsControlCode(f.opcode) && f.fin ==> v == Accepted(Idle, [Message(opcode, data)]))
            && (!IsControlCode(f.opcode) && !f.fin ==> v == Accepted(Collecting(opcode, data), []))
  {}

  type FrameCodec = Codec<Octet, Frame, Assembly, Event>

  function Ws(max: nat): FrameCodec {
    Codec((s: seq<Octet>) => ReadFrame(s, max), (a: Assembly, f: Frame) => Accept(a, f, max), Idle)
  }

  lemma WsLawful(max: nat)
    ensures Lawful(Ws(max))
  {
    var c := Ws(max);
    forall s: seq<Octet>, t: seq<Octet> | !c.read(s).NeedMore? ensures c.read(s + t) == c.read(s) {
      StableRead(s, t, max);
    }
    forall a, f | true ensures Disciplined(c.accept(a, f)) {
      AcceptDisciplined(a, f, max);
    }
  }

  lemma StableRead(s: seq<Octet>, t: seq<Octet>, max: nat)
    requires !Ws(max).read(s).NeedMore?
    ensures Ws(max).read(s + t) == Ws(max).read(s)
  {
    FrameStable(s, t, max);
  }

  lemma AcceptDisciplined(a: Assembly, f: Frame, max: nat)
    ensures Disciplined(Accept(a, f, max))
  {}

  type Goal = Served<Octet, Assembly, Event>

  /** What decoding `s` comes to while the k-th callback reacts as `script[k]` says. */
  ghost function ServeWs(s: seq<Octet>, a: Assembly, script: seq<Reaction<Octet>>, max: nat): Goal {
    WsLawful(max);
    Serve(Ws(max), s, a, script)
  }

  /** After `events`, decoding `s` will complete `goal`. */
  ghost predicate Owed(goal: Goal, events: seq<Event>, s: seq<Octet>, a: Assembly, script: seq<Reaction<Octet>>,
                      max: nat) {
    WsLawful(max);
    Ahead(Ws(max), goal, events, s, a, script)
  }

  ghost predicate Paid(goal: Goal, events: seq<Event>, p: Pass<Octet, Assembly, Event>, script: seq<Reaction<Octet>>,
                      max: nat) {
    WsLawful(max);
    Moved(Ws(max), goal, events, p, script)
  }

  ghost function PassOf(s: seq<Octet>, a: Assembly, max: nat): Pass<Octet, Assembly, Event> {
    WsLawful(max);
    OnePass(Ws(max), s, a)
  }

  lemma OwedAtFirst(s: seq<Octet>, a: Assembly, script: seq<Reaction<Octet>>, max: nat)
    ensures Owed(ServeWs(s, a, script, max), [], s, a, script, max)
  {}

  lemma OwedPass(goal: Goal, events: seq<Event>, s: seq<Octet>, a: Assembly, script: seq<Reaction<Octet>>, max: nat)
    requires Owed(goal, events, s, a, script, max)
    ensures Paid(goal, events, PassOf(s, a, max), script, max)
    ensures var p := PassOf(s, a, max); p.turn.Quiet? || p.turn.Deliver? ==> |p.rest| < |s|
  {
    WsLawful(max);
    AheadPass(Ws(max), goal, events, s, a, script);
  }

  /** However a stream is cut into reads, the events and the first error are those of the whole stream. */
  lemma ReadBoundariesDoNotMatter(chunks: seq<seq<Octet>>, max: nat)
    ensures Lawful(Ws(max))
    ensures var o, whole := FeedEach(Ws(max), [], chunks, Idle), Decode(Ws(max), Joined(chunks), Idle);
            && o.events == whole.events && o.status == whole.status && o.assembly == whole.assembly
            && (o.status == Good ==> o.rest == whole.rest)
  {
    WsLawful(max);
    assert [] + Joined(chunks) == Joined(chunks);
    CutsDoNotMatter(Ws(max), [], chunks, Idle);
  }

  ghost function DecodeWs(s: seq<Octet>, a: Assembly, max: nat): Outcome<Octet, Assembly, Event> {
    WsLawful(max);
    Decode(Ws(max), s, a)
  }

  /**
    * Whatever the callbacks do, bytes fed from inside them are decoded as if appended to the stream, in the order they
    * were fed, up to the callback that resets the decoder.
    */
  lemma CallbackBytesJoinTheStream(s: seq<Octet>, a: Assembly, script: seq<Reaction<Octet>>, max: nat)
    ensures var r := ServeWs(s, a, script, max);
            var whole := DecodeWs(s + Used(script, r.called), a, max);
            && r.called == |r.outcome.events| && r.outcome.events <= whole.events
            && (!WasReset(r, script) ==> r.staged == [] && r.outcome == whole)
  {
    WsLawful(max);
    CallbackBytesAreAppended(Ws(max), s, a, script);
  }

  predicate Fits(e: Event, max: nat) {
    match e
    case Message(op, payload) => (op == TEXT || op == BINARY) && |payload| <= max
    case Control(op, payload) => 8 <= op && |payload| <= 125
  }

  predicate Sound(a: Assembly, max: nat) {
    a.Collecting? ==> (a.opcode == TEXT || a.opcode == BINARY) && |a.data| <= max
  }

  /** Whatever the callbacks do, nothing larger than the maximum is ever delivered or collected. */
  lemma DeliveredFits(s: seq<Octet>, a: Assembly, script: seq<Reaction<Octet>>, max: nat)
    requires Sound(a, max)
    ensures var r := ServeWs(s, a, script, max);
            && Sound(r.outcome.assembly, max)
            && forall i :: 0 <= i < |r.outcome.events| ==> Fits(r.outcome.events[i], max)
  {
    var r := ServeWs(s, a, script, max);
    CallbackBytesJoinTheStream(s, a, script, max);
    DecodedFits(s + Used(script, r.called), a, max);
    if WasReset(r, script) { NextCallAfterReset(s, a, script, max, r.called - 1, []); }
  }

  lemma DecodedFits(s: seq<Octet>, a: Assembly, max: nat)
    requires Sound(a, max)
    ensures Sound(DecodeWs(s, a, max).assembly, max)
    ensures var e := DecodeWs(s, a, max).events; forall i :: 0 <= i < |e| ==> Fits(e[i], max)
  {
    WsLawful(max);
    forall b, t: seq<Octet> | Sound(b, max) && ReadFrame(t, max).Parsed?
      ensures Bounded(Accept(b, ReadFrame(t, max).frame, max), max)
    {
      AcceptBounded(b, ReadFrame(t, max).frame, max);
    }
    DecodeKeeps(Ws(max), s, a, b => Sound(b, max), e => Fits(e, max));
  }

  predicate Bounded(v: Verdict<Assembly, Event>, max: nat) {
    v.Accepted? ==> Sound(v.assembly, max) && forall i :: 0 <= i < |v.events| ==> Fits(v.events[i], max)
  }

  lemma AcceptBounded(b: Assembly, f: Frame, max: nat)
    requires Sound(b, max) && |f.payload| <= max
    ensures Bounded(Accept(b, f, max), max)
  {}

  // ── what a sender means ─────────────────────────────────────────────────────

  /** Part of a message, followed by control frames that interrupt it. */
  datatype Piece = Piece(data: seq<Octet>, interrupts: seq<Frame>)
  datatype Item = Single(control: Frame) | Whole(opcode: Nibble, pieces: seq<Piece>, last: seq<Octet>)

  predicate IsControl(f: Frame) { f.fin && 8 <= f.opcode && |f.payload| <= 125 }

  predicate AllControls(fs: seq<Frame>) { forall i :: 0 <= i < |fs| ==> IsControl(fs[i]) }

  function ControlEvents(fs: seq<Frame>): seq<Event> {
    if fs == [] then [] else [Control(fs[0].opcode, fs[0].payload)] + ControlEvents(fs[1..])
  }

  function PieceFrames(opcode: Nibble, pieces: seq<Piece>, last: seq<Octet>): seq<Frame>
    decreases |pieces|
  {
    if pieces == [] then [Frame(true, opcode, last)]
    else [Frame(false, opcode, pieces[0].data)] + pieces[0].interrupts + PieceFrames(CONTINUATION, pieces[1..], last)
  }

  function Interrupts(pieces: seq<Piece>): seq<Event> {
    if pieces == [] then [] else ControlEvents(pieces[0].interrupts) + Interrupts(pieces[1..])
  }

  function Text(pieces: seq<Piece>, last: seq<Octet>): seq<Octet>
    decreases |pieces|
  {
    if pieces == [] then last else pieces[0].data + Text(pieces[1..], last)
  }

  function ItemFrames(i: Item): seq<Frame> {
    match i
    case Single(f) => [f]
    case Whole(op, pieces, last) => PieceFrames(op, pieces, last)
  }

  function ItemEvents(i: Item): seq<Event> {
    match i
    case Single(f) => ControlEvents([f])
    case Whole(op, pieces, last) => Interrupts(pieces) + [Message(op, Text(pieces, last))]
  }

  predicate Proper(i: Item, max: nat) {
    match i
    case Single(f) => IsControl(f)
    case Whole(op, pieces, last) =>
      && (op == TEXT || op == BINARY) && |Text(pieces, last)| <= max
      && forall i :: 0 <= i < |pieces| ==> AllControls(pieces[i].interrupts)
  }

  lemma {:induction false} ControlsMean(a: Assembly, fs: seq<Frame>, max: nat)
    requires AllControls(fs)
    ensures Means(Ws(max), a, fs, ControlEvents(fs), a)
    decreases |fs|
  {
    if fs != [] {
      ControlsMean(a, fs[1..], max);
      assert ControlEvents(fs)[1..] == ControlEvents(fs[1..]);
    }
  }

  /** The continuation of a message whose first part is `data`. */
  lemma {:induction false} PiecesMean(op: nat, data: seq<Octet>, pieces: seq<Piece>, last: seq<Octet>, max: nat)
    requires |data| + |Text(pieces, last)| <= max
    requires forall i :: 0 <= i < |pieces| ==> AllControls(pieces[i].interrupts)
    ensures Means(Ws(max), Collecting(op, data), PieceFrames(CONTINUATION, pieces, last),
                  Interrupts(pieces) + [Message(op, data + Text(pieces, last))], Idle)
    decreases |pieces|
  {
    var a := Collecting(op, data);
    if pieces == [] {
      OneMeans(Ws(max), a, Frame(true, CONTINUATION, last));
      assert Interrupts(pieces) + [Message(op, data + last)] == [Message(op, data + last)];
    } else {
      assert data + Text(pieces, last) == (data + pieces[0].data) + Text(pieces[1..], last);
      FirstPieceMeans(a, CONTINUATION, op, data + pieces[0].data, pieces, last, max);
    }
  }

  lemma {:induction false} FirstPieceMeans(a: Assembly, opcode: Nibble, op: nat, data: seq<Octet>, pieces: seq<Piece>,
                      last: seq<Octet>, max: nat)
    requires pieces != [] && |data| + |Text(pieces[1..], last)| <= max
    requires forall i :: 0 <= i < |pieces| ==> AllControls(pieces[i].interrupts)
    requires Accept(a, Frame(false, opcode, pieces[0].data), max) == Accepted(Collecting(op, data), [])
    ensures Means(Ws(max), a, PieceFrames(opcode, pieces, last),
                  Interrupts(pieces) + [Message(op, data + Text(pieces[1..], last))], Idle)
    decreases |pieces|, 0
  {
    var p, more, a' := pieces[0], pieces[1..], Collecting(op, data);
    var f := Frame(false, opcode, p.data);
    var end := [Message(op, data + Text(more, last))];
    OneMeans(Ws(max), a, f);
    ControlsMean(a', p.interrupts, max);
    MeansThen(Ws(max), a, [f], [], a', p.interrupts, ControlEvents(p.interrupts), a');
    PiecesMean(op, data, more, last, max);
    var e1, e2 := ControlEvents(p.interrupts), Interrupts(more) + end;
    assert [] + e1 == e1 && e1 + e2 == Interrupts(pieces) + end;
    MeansThen(Ws(max), a, [f] + p.interrupts, e1, a', PieceFrames(CONTINUATION, more, last), e2, Idle);
  }

  lemma ItemMeans(i: Item, max: nat)
    requires Proper(i, max)
    ensures Means(Ws(max), Idle, ItemFrames(i), ItemEvents(i), Idle)
  {
    match i
    case Single(f) =>
      ControlsMean(Idle, [f], max);
    case Whole(op, pieces, last) =>
      if pieces == [] {
        OneMeans(Ws(max), Idle, Frame(true, op, last));
        assert Interrupts(pieces) + [Message(op, last)] == [Message(op, last)];
      } else {
        FirstPieceMeans(Idle, op, op, pieces[0].data, pieces, last, max);
      }
  }

  function AllFrames(items: seq<Item>): seq<Frame> {
    if items == [] then [] else ItemFrames(items[0]) + AllFrames(items[1..])
  }

  function AllEvents(items: seq<Item>): seq<Event> {
    if items == [] then [] else ItemEvents(items[0]) + AllEvents(items[1..])
  }

  lemma {:induction false} ItemsMean(items: seq<Item>, max: nat)
    requires forall i :: 0 <= i < |items| ==> Proper(items[i], max)
    ensures Means(Ws(max), Idle, AllFrames(items), AllEvents(items), Idle)
    decreases |items|
  {
    if items != [] {
      ItemMeans(items[0], max);
      ItemsMean(items[1..], max);
      MeansThen(Ws(max), Idle, ItemFrames(items[0]), ItemEvents(items[0]), Idle, AllFrames(items[1..]),
                AllEvents(items[1..]), Idle);
    }
  }

  /** Every frame written out, the i-th masked with `keys[i]` or not at all. */
  predicate WireOf(frames: seq<Frame>, keys: seq<Option<Key>>, wire: seq<seq<Octet>>) {
    |keys| == |frames| && |wire| == |frames| && forall i :: 0 <= i < |frames| ==> wire[i] == Wire(frames[i], keys[i])
  }

  /**
    * Round trip for whole conversations: any messages, fragmented anyhow, interrupted by any control frames, each
    * frame masked or not, come out as exactly those messages and controls, each message where its last fragment was.
    */
  lemma ConversationRoundTrip(items: seq<Item>, keys: seq<Option<Key>>, wire: seq<seq<Octet>>, max: nat)
    requires forall i :: 0 <= i < |items| ==> Proper(items[i], max)
    requires WireOf(AllFrames(items), keys, wire)
    requires forall i :: 0 <= i < |AllFrames(items)| ==> |AllFrames(items)[i].payload| <= max < 0x1_0000_0000_0000_0000
    ensures Lawful(Ws(max)) && Decode(Ws(max), Joined(wire), Idle) == Outcome(AllEvents(items), Good, Idle, [])
  {
    WsLawful(max);
    ItemsMean(items, max);
    WireIsRead(AllFrames(items), keys, wire, max);
    DecodeAllWritten(Ws(max), AllFrames(items), wire, Idle, AllEvents(items), Idle);
  }

  lemma WireIsRead(frames: seq<Frame>, keys: seq<Option<Key>>, wire: seq<seq<Octet>>, max: nat)
    requires WireOf(frames, keys, wire)
    requires forall i :: 0 <= i < |frames| ==> |frames[i].payload| <= max < 0x1_0000_0000_0000_0000
    ensures Written(Ws(max), frames, wire)
  {
    forall i, t: seq<Octet> | 0 <= i < |frames| ensures Ws(max).read(wire[i] + t) == Parsed(frames[i], |wire[i]|) {
      FrameRead(frames[i], keys[i], t, max);
    }
  }

  // ── bytes fed after a reset, inside the callback that reset ─────────────────

  /** Bytes stay staged after a call exactly when a callback that was made reset the decoder and then fed some. */
  lemma StagedAfterReset(s: seq<Octet>, a: Assembly, script: seq<Reaction<Octet>>, max: nat)
    ensures var r := ServeWs(s, a, script, max);
            r.staged == [] <==> forall k: nat :: Streams.Reset(r, script, k) ==> script[k].later == []
  {
    WsLawful(max);
    StagedExactly(Ws(max), s, a, script);
  }

  /**
    * After a reset the next call decodes its own bytes and then those the resetting callback fed: a clean stream
    * exactly when there were none.
    */
  lemma NextCallAfterReset(s: seq<Octet>, a: Assembly, script: seq<Reaction<Octet>>, max: nat, k: nat, data: seq<Octet>)
    requires Streams.Reset(ServeWs(s, a, script, max), script, k)
    ensures var r := ServeWs(s, a, script, max);
            && r.outcome.assembly == Idle && r.outcome.rest + data + r.staged == data + script[k].later
            && (r.staged == [] <==> r.outcome.rest + data + r.staged == data)
  {
    WsLawful(max);
    NextCall(Ws(max), s, a, script, k, data);
  }

  function TextFrame(payload: seq<Octet>): Frame { Frame(true, TEXT, payload) }

  /** Decoding one written frame and then the rest. */
  lemma FrameThenRest(f: Frame, key: Option<Key>, tail: seq<Octet>, a: Assembly, max: nat)
    requires |f.payload| <= max && |f.payload| < 0x1_0000_0000_0000_0000 && Accept(a, f, max).Accepted?
    ensures var v := Accept(a, f, max);
            DecodeWs(Wire(f, key) + tail, a, max) == After(v.events, DecodeWs(tail, v.assembly, max))
  {
    WsLawful(max);
    var w := Wire(f, key);
    FrameRead(f, key, tail, max);
    assert (w + tail)[|w|..] == tail;
  }

  lemma TwoTexts(p: seq<Octet>, q: seq<Octet>, max: nat)
    requires |p| <= max && |q| <= max < 0x1_0000_0000_0000_0000
    ensures DecodeWs(Wire(TextFrame(p), None) + Wire(TextFrame(q), None), Idle, max).events
            == [Message(TEXT, p), Message(TEXT, q)]
  {
    FrameThenRest(TextFrame(p), None, Wire(TextFrame(q), None), Idle, max);
    FrameThenRest(TextFrame(q), None, [], Idle, max);
    assert Wire(TextFrame(q), None) + [] == Wire(TextFrame(q), None);
  }

  /**
    * When that condition fails, order is lost: for any two whole messages, `p` fed after the reset and `q` read by the
    * next call, `q` is delivered first although `p` arrived first.
    */
  lemma BytesAfterResetAreOvertaken(s: seq<Octet>, a: Assembly, script: seq<Reaction<Octet>>, max: nat, k: nat,
                                    p: seq<Octet>, q: seq<Octet>)
    requires |p| <= max && |q| <= max < 0x1_0000_0000_0000_0000
    requires Streams.Reset(ServeWs(s, a, script, max), script, k) && script[k].later == Wire(TextFrame(p), None)
    ensures var r := ServeWs(s, a, script, max);
            && r.staged != [] && r.outcome.assembly == Idle
            && DecodeWs(r.outcome.rest + Wire(TextFrame(q), None) + r.staged, Idle, max).events
              == [Message(TEXT, q), Message(TEXT, p)]
  {
    NextCallAfterReset(s, a, script, max, k, Wire(TextFrame(q), None));
    TwoTexts(q, p, max);
  }

  /** Such calls exist: a first message whose callback resets the decoder and then feeds anything. */
  lemma ResetHappens(later: seq<Octet>, max: nat)
    ensures var script := [Restart(later)];
            Streams.Reset(ServeWs(Wire(TextFrame([]), None), Idle, script, max), script, 0)
  {
    var w := Wire(TextFrame([]), None);
    WsLawful(max);
    FrameRead(TextFrame([]), None, [], max);
    assert w + [] == w;
  }

  /** Two messages of any content: the second to arrive is delivered first. */
  lemma OrderIsLost(p: seq<Octet>, q: seq<Octet>, max: nat)
    requires |p| <= max && |q| <= max < 0x1_0000_0000_0000_0000
    ensures var r := ServeWs(Wire(TextFrame([]), None), Idle, [Restart(Wire(TextFrame(p), None))], max);
            DecodeWs(r.outcome.rest + Wire(TextFrame(q), None) + r.staged, Idle, max).events
              == [Message(TEXT, q), Message(TEXT, p)]
  {
    var script := [Restart(Wire(TextFrame(p), None))];
    ResetHappens(Wire(TextFrame(p), None), max);
    BytesAfterResetAreOvertaken(Wire(TextFrame([]), None), Idle, script, max, 0, p, q);
  }
}
