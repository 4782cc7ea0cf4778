/** The frame writer and the incremental, re-entrant decoder of src/net/WsCodec.cpp. */
module WsCodec {
  import opened Basics
  import opened Octets
  import opened Masking
  import opened Streams
  import opened WsFrames
  import opened WsMessages

  // ── writing ─────────────────────────────────────────────────────────────────

  method WriteNetwork(p: array<Octet>, at: nat, n: nat, width: nat)
    requires at + width <= p.Length
    modifies p
    ensures p[at..at + width] == ToNetwork(n, width)
    ensures forall j :: 0 <= j < at || at + width <= j < p.Length ==> p[j] == old(p[j])
  {
    var i, v := width, n;
    ghost var goal := ToNetwork(n, width);
    while i > 0
      invariant 0 <= i <= width && ToNetwork(v, i) == goal[..i]
      invariant forall j :: i <= j < width ==> p[at + j] == goal[j]
      invariant forall j :: 0 <= j < at || at + width <= j < p.Length ==> p[j] == old(p[j])
    {
      i := i - 1;
      p[at + i] := Oct(v % 256);
      assert ToNetwork(v, i + 1)[i] == goal[..i + 1][i];
      assert ToNetwork(v, i + 1)[..i] == ToNetwork(v / 256, i) && goal[..i + 1][..i] == goal[..i];
      v := v / 256;
    }
  }

  method WriteLength(p: array<Octet>, n: nat)
    requires p.Length >= 1 + |LengthBytes(true, n)|
    modifies p
    ensures p[1..1 + |LengthBytes(true, n)|] == LengthBytes(true, n) && p[0] == old(p[0])
  {
    if n < 126 {
      p[1] := SecondByte(true, n);
    } else if n <= 0xFFFF {
      p[1] := SecondByte(true, 126);
      WriteNetwork(p, 2, n, 2);
      assert p[1..4] == [p[1]] + p[2..4];
    } else {
      p[1] := SecondByte(true, 127);
      WriteNetwork(p, 2, n, 8);
      assert p[1..10] == [p[1]] + p[2..10];
    }
  }

  method WriteKey(p: array<Octet>, at: nat, key: Key)
    requires at + 4 <= p.Length
    modifies p
    ensures p[at..at + 4] == key && p[..at] == old(p[..at])
  {
    p[at], p[at + 1], p[at + 2], p[at + 3] := key[0], key[1], key[2], key[3];
  }

  /** Everything before the payload, up to index `size`. */
  method WriteFront(p: array<Octet>, first: Octet, n: nat, key: Key, size: nat)
    requires size == 5 + |LengthBytes(true, n)| <= p.Length
    modifies p
    ensures p[..size] == [first] + LengthBytes(true, n) + key
  {
    p[0] := first;
    WriteLength(p, n);
    assert p[..size - 4] == [p[0]] + p[1..size - 4];
    WriteKey(p, size - 4, key);
    assert p[..size] == p[..size - 4] + p[size - 4..size];
  }

  /** Header, key and masked payload, in a buffer of their size. */
  method FillFrame(p: array<Octet>, first: Octet, payload: seq<Octet>, key: Key, size: nat)
    requires size == 5 + |LengthBytes(true, |payload|)| && p.Length == size + |payload|
    modifies p
    ensures p[..] == ([first] + LengthBytes(true, |payload|) + key) + Mask(payload, key)
  {
    WriteFront(p, first, |payload|, key, size);
    ghost var front := p[..size];
    MaskInto(payload, key, p, size);
    assert p[..size] == front;
    assert p[..] == p[..size] + p[size..size + |payload|];
  }

  /** Appends one masked frame to `out`. */
  method EncodeFrame(opcode: Nibble, payload: seq<Octet>, key: Key, out: seq<Octet>) returns (r: seq<Octet>)
    ensures r == out + Wire(Frame(true, opcode, payload), Some(key))
  {
    var n := |payload|;
    var size := 2 + 4;
    if 126 <= n <= 0xFFFF { size := size + 2; } else if n > 0xFFFF { size := size + 8; }
    var p := new Octet[size + n];
    FillFrame(p, FirstByte(Frame(true, opcode, payload)), payload, key, size);
    WireMasked(Frame(true, opcode, payload), key);
    r := out + p[..];
  }

  lemma WireMasked(f: Frame, key: Key)
    ensures Wire(f, Some(key)) == ([FirstByte(f)] + LengthBytes(true, |f.payload|) + key) + Mask(f.payload, key)
  {}

  // ── reading ─────────────────────────────────────────────────────────────────

  /** `payloadLen = (payloadLen << 8) | p[2 + i]`, for each of `width` bytes. */
  method ReadNetwork(p: seq<Octet>, width: nat) returns (n: nat)
    requires 2 + width <= |p|
    ensures n == Network(p[2..2 + width])
  {
    n := 0;
    var i := 0;
    while i < width
      invariant 0 <= i <= width && n == Network(p[2..2 + i])
    {
      n := 256 * n + Num(p[2 + i]);
      i := i + 1;
      assert p[2..2 + i][..i - 1] == p[2..2 + i - 1];
    }
  }

  method TryHeader(p: seq<Octet>) returns (h: Option<Header>)
    ensures h == ReadHeader(p)
  {
    if |p| < 2 { return None; }
    var masked, n, size := Masked(p[1]), ShortLength(p[1]), 2;
    if n == 126 {
      if |p| < 4 { return None; }
      n := ReadNetwork(p, 2);
      size := 4;
    } else if n == 127 {
      if |p| < 10 { return None; }
      n := ReadNetwork(p, 8);
      size := 10;
    }
    if masked { size := size + 4; }
    h := Some(Header(masked, n, size));
  }

  /** Unmasks `n` bytes of the buffer in place. */
  method UnmaskInPlace(buffer: seq<Octet>, at: nat, n: nat, key: Key) returns (b: seq<Octet>)
    requires at + n <= |buffer|
    ensures |b| == |buffer| && b[at..at + n] == Mask(buffer[at..at + n], key)
    ensures b[..at] == buffer[..at] && b[at + n..] == buffer[at + n..]
  {
    b := buffer;
    var i := 0;
    while i < n
      invariant 0 <= i <= n && |b| == |buffer|
      invariant forall j :: 0 <= j < i ==> b[at + j] == Xor(buffer[at + j], key[j % 4])
      invariant forall j :: 0 <= j < |b| && !(at <= j < at + i) ==> b[j] == buffer[j]
    {
      b := b[at + i := Xor(b[at + i], key[i % 4])];
      i := i + 1;
    }
  }

  function TurnOf(v: Verdict<Assembly, Event>): Turn<Event> {
    match v
    case Rejected(status) => Fail(status)
    case Accepted(_, events) => if events == [] then Quiet else Deliver(events[0])
  }

  class Decoder {
    var buffer: seq<Octet>
    var consumed: nat
    var fragments: seq<Octet>
    var fragmentOpcode: nat
    var inFragmentedMessage: bool
    var decoding: bool
    var staging: seq<Octet>
    var epoch: nat
    const max: nat

    ghost predicate Valid()
      reads this
    {
      consumed <= |buffer|
    }

    /** The bytes not yet decoded. */
    function Pending(): seq<Octet>
      reads this
      requires Valid()
    {
      buffer[consumed..]
    }

    function Collected(): Assembly
      reads this
    {
      if inFragmentedMessage then Collecting(fragmentOpcode, fragments) else Idle
    }

    constructor (max: nat)
      ensures Valid() && Pending() == [] && Collected() == Idle && staging == [] && !decoding && this.max == max
    {
      buffer, consumed, fragments, fragmentOpcode, inFragmentedMessage := [], 0, [], TEXT, false;
      decoding, staging, epoch := false, [], 0;
      this.max := max;
    }

    method Reset()
      modifies this
      ensures Valid() && Pending() == [] && Collected() == Idle && staging == []
      ensures epoch == old(epoch) + 1 && decoding == old(decoding)
    {
      epoch := epoch + 1;
      staging, buffer, consumed, fragments, inFragmentedMessage := [], [], 0, [], false;
    }

    /** Takes the next frame off the buffer, if one is complete. */
    method TakeFrame() returns (p: Parse<Frame>)
      requires Valid()
      modifies this`buffer, this`consumed
      ensures Valid() && p == ReadFrame(old(Pending()), max)
      ensures Pending() == if p.Parsed? then old(Pending())[p.size..] else old(Pending())
    {
      var h := TryHeader(buffer[consumed..]);
      if h.None? { return NeedMore; }
      var Header(masked, n, size) := h.value;
      if n > max { return Oversize; }
      if |buffer| - consumed < size + n { return NeedMore; }
      var fin, opcode := Fin(buffer[consumed]), Opcode(buffer[consumed]);
      var body := TakeBody(h.value);
      return Parsed(Frame(fin, opcode, body), size + n);
    }

    method TakeBody(h: Header) returns (body: seq<Octet>)
      requires Valid() && KeySize(h.masked) <= h.size && h.size + h.length <= |Pending()|
      modifies this`buffer, this`consumed
      ensures Valid() && body == Unmasked(old(Pending()), h) && Pending() == old(Pending())[h.size + h.length..]
    {
      var at := consumed + h.size;
      assert Pending()[h.size..h.size + h.length] == buffer[at..at + h.length];
      if h.masked {
        assert Pending()[h.size - 4..h.size] == buffer[at - 4..at];
        buffer := UnmaskInPlace(buffer, at, h.length, buffer[at - 4..at]);
      }
      body := buffer[at..at + h.length];
      consumed := at + h.length;
    }

    /** Handles one complete frame. */
    method TakeMeaning(f: Frame) returns (t: Turn<Event>)
      modifies this`fragments, this`fragmentOpcode, this`inFragmentedMessage
      ensures t == TurnOf(Accept(old(Collected()), f, max))
      ensures var v := Accept(old(Collected()), f, max);
              Collected() == if v.Accepted? then v.assembly else old(Collected())
    {
      if f.opcode >= 8 {
        if !f.fin || |f.payload| > 125 { return Fail(ProtocolError); }
        return Deliver(Control(f.opcode, f.payload));
      } else if f.opcode == CONTINUATION {
        if !inFragmentedMessage { return Fail(ProtocolError); }
        if |fragments| + |f.payload| > max { return Fail(MessageTooBig); }
        fragments := fragments + f.payload;
        if f.fin {
          inFragmentedMessage := false;
          var message := fragments;
          fragments := [];
          return Deliver(Message(fragmentOpcode, message));
        }
        return Quiet;
      } else if f.opcode == TEXT || f.opcode == BINARY {
        if inFragmentedMessage { return Fail(ProtocolError); }
        if f.fin { return Deliver(Message(f.opcode, f.payload)); }
        inFragmentedMessage, fragmentOpcode, fragments := true, f.opcode, f.payload;
        return Quiet;
      } else {
        return Fail(ProtocolError);
      }
    }

    method TakePass() returns (t: Turn<Event>)
      requires Valid()
      modifies this`buffer, this`consumed, this`fragments, this`fragmentOpcode, this`inFragmentedMessage
      ensures Valid() && Pass(t, Pending(), Collected()) == PassOf(old(Pending()), old(Collected()), max)
    {
      var p := TakeFrame();
      match p {
        case NeedMore => return Pause;
        case Oversize => return Fail(MessageTooBig);
        case Parsed(f, size) => t := TakeMeaning(f);
      }
    }

    /** Drops consumed bytes once they dominate the buffer. */
    method Compact()
      requires Valid()
      modifies this`buffer, this`consumed
      ensures Valid() && Pending() == old(Pending())
    {
      if consumed == |buffer| {
        buffer, consumed := [], 0;
      } else if consumed > 64 * 1024 && consumed * 2 > |buffer| {
        buffer, consumed := buffer[consumed..], 0;
      }
    }
  
    method StageBytes(data: seq<Octet>)
      modifies this`staging
      ensures staging == old(staging) + data
    {
      staging := staging + data;
    }

    method Unstage()
      requires Valid()
      modifies this`buffer, this`staging
      ensures Valid() && Pending() == old(Pending()) + old(staging) && staging == []
    {
      if staging != [] {
        buffer := buffer + staging;
        staging := [];
      } else {
        assert Pending() + staging == Pending();
      }
    }

    /** What a callback does to the decoder before it returns. */
    method React(r: Reaction<Octet>)
      requires Valid() && decoding && staging == []
      modifies this
      ensures Valid() && decoding && (epoch == old(epoch) <==> r.Stage?)
      ensures r.Stage? ==> staging == r.bytes && Pending() == old(Pending()) && Collected() == old(Collected())
      ensures r.Restart? ==> staging == r.later && Pending() == [] && Collected() == Idle
    {
      match r {
        case Stage(bytes) => StageBytes(bytes);
        case Restart(later) => Reset(); StageBytes(later);
      }
    }

    method Advance(ghost goal: Goal, ghost events: seq<Event>, ghost todo: seq<Reaction<Octet>>)
      returns (t: Turn<Event>)
      requires Valid() && Owed(goal, events, Pending() + staging, Collected(), todo, max)
      modifies this
      ensures Valid() && decoding == old(decoding) && epoch == old(epoch) && staging == []
      ensures Paid(goal, events, Pass(t, Pending(), Collected()), todo, max)
      ensures t.Quiet? || t.Deliver? ==> |Pending()| < |old(Pending()) + old(staging)|
    {
      Unstage();
      OwedPass(goal, events, Pending(), Collected(), todo, max);
      t := TakePass();
    }

    /** One pass and the callback it makes; `done` when the loop is left. */
    method PassAndReact(ghost goal: Goal, events: seq<Event>, todo: seq<Reaction<Octet>>)
      returns (done: bool, status: Status, events': seq<Event>, todo': seq<Reaction<Octet>>)
      requires Valid() && decoding && Owed(goal, events, Pending() + staging, Collected(), todo, max)
      modifies this
      ensures Valid() && decoding
      ensures done ==> goal == Served(Outcome(events', status, Collected(), Pending()), staging, |events'|)
      ensures !done ==> Owed(goal, events', Pending() + staging, Collected(), todo', max)
      ensures !done ==> |Pending() + staging| + |Staged(todo')| < |old(Pending()) + old(staging)| + |Staged(todo)|
    {
      var began := epoch;
      var t := Advance(goal, events, todo);
      done, status, events', todo' := false, Good, events, todo;
      assert Pending() + staging == Pending();
      match t {
        case Pause => done := true;
        case Fail(st) => done, status := true, st;
        case Quiet =>
        case Deliver(e) =>
          events' := events + [e];
          if todo != [] {
            React(todo[0]);
            todo' := todo[1..];
            done := epoch != began;
          }
      }
    }

    /** The decoding loop; `script[k]` is what the k-th callback does to the decoder. */
    method Drain(script: seq<Reaction<Octet>>) returns (status: Status, events: seq<Event>)
      requires Valid() && decoding
      modifies this
      ensures Valid() && decoding
      ensures ServeWs(old(Pending()) + old(staging), old(Collected()), script, max)
           == Served(Outcome(events, status, Collected(), Pending()), staging, |events|)
    {
      ghost var goal := ServeWs(Pending() + staging, Collected(), script, max);
      OwedAtFirst(Pending() + staging, Collected(), script, max);
      var done, todo := false, script;
      status, events := Good, [];
      while !done
        invariant Valid() && decoding
        invariant done ==> goal == Served(Outcome(events, status, Collected(), Pending()), staging, |events|)
        invariant !done ==> Owed(goal, events, Pending() + staging, Collected(), todo, max)
        decreases !done, |Pending() + staging| + |Staged(todo)|
      {
        done, status, events, todo := PassAndReact(goal, events, todo);
      }
    }

    method Append(data: seq<Octet>)
      requires Valid()
      modifies this`buffer
      ensures Valid() && Pending() == old(Pending()) + data
    {
      buffer := buffer + data;
    }

    method FeedOutside(data: seq<Octet>, script: seq<Reaction<Octet>>) returns (status: Status, events: seq<Event>)
      requires Valid() && !decoding
      modifies this
      ensures Valid() && !decoding
      ensures ServeWs(old(Pending()) + data + old(staging), old(Collected()), script, max)
           == Served(Outcome(events, status, Collected(), Pending()), staging, |events|)
    {
      decoding := true;
      Append(data);
      status, events := Drain(script);
      decoding := false;
      Compact();
    }

    /**
      * Decodes as far as the bytes reach. While decoding, that is when called from a callback, it only stages them;
      * outside, `script[k]` is what the k-th callback does to the decoder before it returns.
      */
    method Feed(data: seq<Octet>, script: seq<Reaction<Octet>>) returns (status: Status, events: seq<Event>)
      requires Valid()
      modifies this
      ensures Valid() && decoding == old(decoding)
      ensures decoding ==> status == Good && events == [] && staging == old(staging) + data
      ensures decoding ==> Pending() == old(Pending()) && Collected() == old(Collected())
      ensures !decoding ==> (ServeWs(old(Pending()) + data + old(staging), old(Collected()), script, max)
                             == Served(Outcome(events, status, Collected(), Pending()), staging, |events|))
    {
      if decoding {
        StageBytes(data);
        return Good, [];
      }
      status, events := FeedOutside(data, script);
    }
  }

  /** Feeds a stream as it was cut into reads, up to the first error. */
  method DecodeReads(chunks: seq<seq<Octet>>, max: nat) returns (status: Status, events: seq<Event>)
    ensures status == DecodeWs(Joined(chunks), Idle, max).status && events == DecodeWs(Joined(chunks), Idle, max).events
  {
    var d := new Decoder(max);
    status, events := Good, [];
    var i := 0;
    ghost var goal := DecodeWs(Joined(chunks), Idle, max);
    StartReads(chunks, max);
    while i < |chunks| && status == Good
      invariant 0 <= i <= |chunks| && fresh(d) && d.Valid() && !d.decoding && d.max == max
      invariant status == Good
                ==> d.staging == [] && ReadsLeft(goal, events, d.Pending(), chunks[i..], d.Collected(), max)
      invariant status != Good ==> status == goal.status && events == goal.events
    {
      ghost var rest, a := d.Pending(), d.Collected();
      var e: seq<Event>;
      status, e := d.Feed(chunks[i], []);
      assert rest + chunks[i] + [] == rest + chunks[i];
      NextRead(goal, events, rest, chunks[i..], a, max);
      PlainFeed(rest + chunks[i], a, max);
      events := events + e;
      i := i + 1;
    }
    if status == Good { assert chunks[i..] == []; LastRead(goal, events, d.Pending(), d.Collected(), max); }
  }

  /** Feeding the remaining `chunks` completes `goal`. */
  ghost predicate ReadsLeft(goal: Outcome<Octet, Assembly, Event>, events: seq<Event>, rest: seq<Octet>,
                      chunks: seq<seq<Octet>>, a: Assembly, max: nat) {
    WsLawful(max);
    Reading(Ws(max), goal, events, rest, chunks, a)
  }

  lemma StartReads(chunks: seq<seq<Octet>>, max: nat)
    ensures ReadsLeft(DecodeWs(Joined(chunks), Idle, max), [], [], chunks[0..], Idle, max)
  {
    assert chunks[0..] == chunks;
    ReadBoundariesDoNotMatter(chunks, max);
  }

  lemma NextRead(goal: Outcome<Octet, Assembly, Event>, events: seq<Event>, rest: seq<Octet>, chunks: seq<seq<Octet>>,
                 a: Assembly, max: nat)
    requires chunks != [] && ReadsLeft(goal, events, rest, chunks, a, max)
    ensures var o := DecodeWs(rest + chunks[0], a, max);
            if o.status == Good then ReadsLeft(goal, events + o.events, o.rest, chunks[1..], o.assembly, max)
            else goal.status == o.status && goal.events == events + o.events
  {
    WsLawful(max);
    ReadingStep(Ws(max), goal, events, rest, chunks, a);
  }

  lemma LastRead(goal: Outcome<Octet, Assembly, Event>, events: seq<Event>, rest: seq<Octet>, a: Assembly, max: nat)
    requires ReadsLeft(goal, events, rest, [], a, max)
    ensures goal.status == Good && goal.events == events
  {}

  lemma PlainFeed(s: seq<Octet>, a: Assembly, max: nat)
    ensures ServeWs(s, a, [], max).staged == [] && ServeWs(s, a, [], max).outcome == DecodeWs(s, a, max)
  {
    CallbackBytesJoinTheStream(s, a, [], max);
    assert s + [] == s;
  }
}
