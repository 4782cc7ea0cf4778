/**
  * Incremental decoding of a byte stream into frames and of frames into events, for any frame reader that never
  * changes its mind when more bytes arrive.
  */
module Streams {
  import opened Basics

  datatype Status = Good | ProtocolError | MessageTooBig
  datatype Parse<F> = NeedMore | Oversize | Parsed(frame: F, size: nat)
  datatype Verdict<A, E> = Rejected(status: Status) | Accepted(assembly: A, events: seq<E>)

  /** How frames are read off the stream, and what one means to a decoder that has assembled `A` so far. */
  datatype Codec<!B, !F, !A, !E> = Codec(read: seq<B> -> Parse<F>, accept: (A, F) -> Verdict<A, E>, idle: A)

  /** A rejection names an error, and a frame makes at most one event. */
  predicate Disciplined<A, E>(v: Verdict<A, E>) {
    match v
    case Rejected(status) => status != Good
    case Accepted(_, events) => |events| <= 1
  }

  ghost predicate Lawful<B(!new), F(!new), A(!new), E>(c: Codec<B, F, A, E>) {
    && (forall s: seq<B> :: c.read(s).Parsed? ==> 0 < c.read(s).size <= |s|)
    && (forall s: seq<B>, t: seq<B> {:trigger c.read(s + t)} :: !c.read(s).NeedMore? ==> c.read(s + t) == c.read(s))
    && (forall a, f :: Disciplined(c.accept(a, f)))
  }

  // ── one-shot decoding ───────────────────────────────────────────────────────

  datatype Outcome<B, A, E> = Outcome(events: seq<E>, status: Status, assembly: A, rest: seq<B>)

  function After<B, A, E>(events: seq<E>, o: Outcome<B, A, E>): Outcome<B, A, E> {
    o.(events := events + o.events)
  }

  /** One-shot decoding of a whole stream up to its first error or its last complete frame. */
  function Decode<B(!new), F(!new), A(!new), E>(c: Codec<B, F, A, E>, s: seq<B>, a: A): Outcome<B, A, E>
    requires Lawful(c)
    decreases |s|
  {
    match c.read(s)
    case NeedMore => Outcome([], Good, a, s)
    case Oversize => Outcome([], MessageTooBig, a, s)
    case Parsed(f, size) =>
      match c.accept(a, f)
      case Rejected(status) => Outcome([], status, a, s[size..])
      case Accepted(a', events) => After(events, Decode(c, s[size..], a'))
  }

  lemma AfterAfter<B, A, E>(e: seq<E>, e': seq<E>, o: Outcome<B, A, E>)
    ensures After(e, After(e', o)) == After(e + e', o)
  {
    assert e + (e' + o.events) == (e + e') + o.events;
  }

  lemma DecodeStep<B(!new), F(!new), A(!new), E>(c: Codec<B, F, A, E>, s: seq<B>, t: seq<B>, a: A)
    requires Lawful(c) && c.read(s).Parsed? && c.accept(a, c.read(s).frame).Accepted?
    ensures var p := c.read(s); var v := c.accept(a, p.frame);
            Decode(c, s + t, a) == After(v.events, Decode(c, s[p.size..] + t, v.assembly))
  {
    assert (s + t)[c.read(s).size..] == s[c.read(s).size..] + t;
  }

  /** Decoding a prefix first and the remainder later is decoding the whole. */
  lemma {:induction false} DecodeAppend<B(!new), F(!new), A(!new), E>(c: Codec<B, F, A, E>, s: seq<B>, t: seq<B>, a: A)
    requires Lawful(c)
    ensures var o := Decode(c, s, a);
            Decode(c, s + t, a) == if o.status == Good then After(o.events, Decode(c, o.rest + t, o.assembly))
                                   else o.(rest := o.rest + t)
    decreases |s|
  {
    var p := c.read(s);
    if p.Parsed? {
      var v := c.accept(a, p.frame);
      if v.Accepted? {
        var o := Decode(c, s[p.size..], v.assembly);
        DecodeStep(c, s, t, a);
        DecodeAppend(c, s[p.size..], t, v.assembly);
        AfterAfter(v.events, o.events, Decode(c, o.rest + t, o.assembly));
      } else {
        assert (s + t)[p.size..] == s[p.size..] + t;
      }
    }
  }

  // ── read boundaries ─────────────────────────────────────────────────────────

  /** One `feed` after another, stopping at the first that reports an error. */
  function FeedEach<B(!new), F(!new), A(!new), E>(
    c: Codec<B, F, A, E>, rest: seq<B>, chunks: seq<seq<B>>, a: A): Outcome<B, A, E>
    requires Lawful(c)
    decreases |chunks|
  {
    if chunks == [] then Outcome([], Good, a, rest)
    else
      var o := Decode(c, rest + chunks[0], a);
      if o.status != Good then o else After(o.events, FeedEach(c, o.rest, chunks[1..], o.assembly))
  }

  /** After `events`, feeding the remaining chunks completes `goal`. */
  ghost predicate Reading<B(!new), F(!new), A(!new), E>(
    c: Codec<B, F, A, E>, goal: Outcome<B, A, E>, events: seq<E>, rest: seq<B>, chunks: seq<seq<B>>, a: A)
    requires Lawful(c)
  {
    var o := FeedEach(c, rest, chunks, a);
    goal.events == events + o.events && goal.status == o.status
  }

  lemma ReadingStep<B(!new), F(!new), A(!new), E>(
    c: Codec<B, F, A, E>, goal: Outcome<B, A, E>, events: seq<E>, rest: seq<B>, chunks: seq<seq<B>>, a: A)
    requires Lawful(c) && chunks != [] && Reading(c, goal, events, rest, chunks, a)
    ensures var o := Decode(c, rest + chunks[0], a);
            if o.status == Good then Reading(c, goal, events + o.events, o.rest, chunks[1..], o.assembly)
            else goal.status == o.status && goal.events == events + o.events
  {
    var o := Decode(c, rest + chunks[0], a);
    if o.status == Good {
      var more := FeedEach(c, o.rest, chunks[1..], o.assembly);
      assert events + (o.events + more.events) == (events + o.events) + more.events;
    }
  }

  /** However the stream is cut, the events, their order and the first error are those of the whole. */
  lemma {:induction false} CutsDoNotMatter<B(!new), F(!new), A(!new), E>(
    c: Codec<B, F, A, E>, rest: seq<B>, chunks: seq<seq<B>>, a: A)
    requires Lawful(c) && c.read(rest).NeedMore?
    ensures var o, whole := FeedEach(c, rest, chunks, a), Decode(c, rest + Joined(chunks), a);
            && o.events == whole.events && o.status == whole.status && o.assembly == whole.assembly
            && (o.status == Good ==> o.rest == whole.rest)
    decreases |chunks|
  {
    if chunks == [] {
      assert rest + [] == rest;
    } else {
      var o := Decode(c, rest + chunks[0], a);
      assert rest + Joined(chunks) == (rest + chunks[0]) + Joined(chunks[1..]);
      DecodeAppend(c, rest + chunks[0], Joined(chunks[1..]), a);
      if o.status == Good {
        DecodeStops(c, rest + chunks[0], a);
        CutsDoNotMatter(c, o.rest, chunks[1..], o.assembly);
      }
    }
  }

  lemma {:induction false} DecodeStops<B(!new), F(!new), A(!new), E>(c: Codec<B, F, A, E>, s: seq<B>, a: A)
    requires Lawful(c) && Decode(c, s, a).status == Good
    ensures c.read(Decode(c, s, a).rest).NeedMore?
    decreases |s|
  {
    var p := c.read(s);
    if p.Parsed? {
      var v := c.accept(a, p.frame);
      if v.Accepted? { DecodeStops(c, s[p.size..], v.assembly); }
    }
  }

  /** What every accepted frame keeps of the assembly and says of its events holds of whole streams. */
  lemma {:induction false} DecodeKeeps<B(!new), F(!new), A(!new), E(!new)>(
    c: Codec<B, F, A, E>, s: seq<B>, a: A, sound: A -> bool, fits: E -> bool)
    requires Lawful(c) && sound(a)
    requires forall b, t: seq<B> {:trigger c.accept(b, c.read(t).frame)} :: sound(b) && c.read(t).Parsed? ==>
               var v := c.accept(b, c.read(t).frame);
               v.Accepted? ==> sound(v.assembly) && forall i :: 0 <= i < |v.events| ==> fits(v.events[i])
    ensures sound(Decode(c, s, a).assembly)
    ensures var e := Decode(c, s, a).events; forall i :: 0 <= i < |e| ==> fits(e[i])
    decreases |s|
  {
    var p := c.read(s);
    if p.Parsed? {
      var v := c.accept(a, p.frame);
      if v.Accepted? { DecodeKeeps(c, s[p.size..], v.assembly, sound, fits); }
    }
  }

  // ── what frames mean ────────────────────────────────────────────────────────

  /** `frames` take assembly `a` to `a'` and deliver `events` on the way. */
  ghost predicate Means<B(!new), F(!new), A(!new), E>(c: Codec<B, F, A, E>, a: A, frames: seq<F>, events: seq<E>, a': A)
    decreases |frames|
  {
    if |frames| == 0 then events == [] && a' == a
    else
      var v := c.accept(a, frames[0]);
      v.Accepted? && v.events <= events && Means(c, v.assembly, frames[1..], events[|v.events|..], a')
  }

  lemma {:induction false} MeansThen<B(!new), F(!new), A(!new), E>(
    c: Codec<B, F, A, E>, a: A, f: seq<F>, e: seq<E>, a1: A,
                                                       f': seq<F>, e': seq<E>, a2: A)
    requires Means(c, a, f, e, a1) && Means(c, a1, f', e', a2)
    ensures Means(c, a, f + f', e + e', a2)
    decreases |f|
  {
    if |f| == 0 {
      assert f + f' == f' && e + e' == e';
    } else {
      var v := c.accept(a, f[0]);
      MeansThen(c, v.assembly, f[1..], e[|v.events|..], a1, f', e', a2);
      assert (f + f')[1..] == f[1..] + f' && (e + e')[|v.events|..] == e[|v.events|..] + e';
    }
  }

  lemma OneMeans<B(!new), F(!new), A(!new), E>(c: Codec<B, F, A, E>, a: A, f: F)
    requires c.accept(a, f).Accepted?
    ensures var v := c.accept(a, f); Means(c, a, [f], v.events, v.assembly)
  {
    var v := c.accept(a, f);
    assert [f][1..] == [] && v.events[|v.events|..] == [];
    assert Means(c, v.assembly, [], [], v.assembly);
  }

  /** `wire` is a way to write `frames` that the reader understands whatever follows. */
  ghost predicate Written<B(!new), F(!new), A(!new), E>(c: Codec<B, F, A, E>, frames: seq<F>, wire: seq<seq<B>>) {
    && |wire| == |frames|
    && forall i, t: seq<B> {:trigger c.read(wire[i] + t)} ::
         0 <= i < |frames| ==> c.read(wire[i] + t) == Parsed(frames[i], |wire[i]|)
  }

  /** Decoding written frames delivers what the frames mean and goes on with the bytes after them. */
  lemma {:induction false} DecodeWritten<B(!new), F(!new), A(!new), E>(
    c: Codec<B, F, A, E>, frames: seq<F>, wire: seq<seq<B>>, tail: seq<B>,
                                                           a: A, events: seq<E>, a': A)
    requires Lawful(c) && Written(c, frames, wire) && Means(c, a, frames, events, a')
    ensures Decode(c, Joined(wire) + tail, a) == After(events, Decode(c, tail, a'))
    decreases |wire|
  {
    if |wire| == 0 {
      assert Joined(wire) + tail == tail && events + Decode(c, tail, a').events == Decode(c, tail, a').events;
    } else {
      var w, more := wire[0], Joined(wire[1..]) + tail;
      assert Joined(wire) + tail == w + more;
      assert c.read(w + more) == Parsed(frames[0], |w|) && (w + more)[|w|..] == more;
      var v := c.accept(a, frames[0]);
      assert Written(c, frames[1..], wire[1..]) by {
        forall i, t: seq<B> | 0 <= i < |frames[1..]|
          ensures c.read(wire[1..][i] + t) == Parsed(frames[1..][i], |wire[1..][i]|)
        {
          assert c.read(wire[i + 1] + t) == Parsed(frames[i + 1], |wire[i + 1]|);
        }
      }
      DecodeWritten(c, frames[1..], wire[1..], tail, v.assembly, events[|v.events|..], a');
      assert events == v.events + events[|v.events|..];
      AfterAfter(v.events, events[|v.events|..], Decode(c, tail, a'));
    }
  }

  lemma DecodeAllWritten<B(!new), F(!new), A(!new), E>(c: Codec<B, F, A, E>, frames: seq<F>, wire: seq<seq<B>>,
                                                       a: A, events: seq<E>, a': A)
    requires Lawful(c) && c.read([]).NeedMore? && Written(c, frames, wire) && Means(c, a, frames, events, a')
    ensures Decode(c, Joined(wire), a) == Outcome(events, Good, a', [])
  {
    DecodeWritten(c, frames, wire, [], a, events, a');
    assert Joined(wire) + [] == Joined(wire) && events + [] == events;
  }

  // ── callbacks that feed or reset the decoder ────────────────────────────────

  /** What a callback does to the decoder: feeds bytes, or resets it and then perhaps feeds bytes. */
  datatype Reaction<B> = Stage(bytes: seq<B>) | Restart(later: seq<B>)

  function Staged<B>(script: seq<Reaction<B>>): seq<B> {
    if |script| == 0 then []
    else (if script[0].Stage? then script[0].bytes else []) + Staged(script[1..])
  }

  /** `staged` holds bytes fed after a reset; `called` counts the callbacks that were made. */
  datatype Served<B, A, E> = Served(outcome: Outcome<B, A, E>, staged: seq<B>, called: nat)

  function Behind<B, A, E>(events: seq<E>, r: Served<B, A, E>): Served<B, A, E> {
    Served(After(events, r.outcome), r.staged, |events| + r.called)
  }

  /** Decoding `s` while the k-th callback reacts as `script[k]` says; callbacks past its end do nothing. */
  function Serve<B(!new), F(!new), A(!new), E>(
    c: Codec<B, F, A, E>, s: seq<B>, a: A, script: seq<Reaction<B>>): Served<B, A, E>
    requires Lawful(c)
    decreases |s| + |Staged(script)|
  {
    match c.read(s)
    case NeedMore => Served(Outcome([], Good, a, s), [], 0)
    case Oversize => Served(Outcome([], MessageTooBig, a, s), [], 0)
    case Parsed(f, size) =>
      match c.accept(a, f)
      case Rejected(status) => Served(Outcome([], status, a, s[size..]), [], 0)
      case Accepted(a', events) =>
        if |events| == 0 || |script| == 0 then Behind(events, Serve(c, s[size..], a', script))
        else match script[0]
          case Stage(bytes) => Behind(events, Serve(c, s[size..] + bytes, a', script[1..]))
          case Restart(later) => Served(Outcome(events, Good, c.idle, []), later, 1)
  }

  /** One pass of the decoding loop: what it comes to, and what is left. */
  datatype Turn<E> = Pause | Fail(status: Status) | Quiet | Deliver(event: E)
  datatype Pass<B, A, E> = Pass(turn: Turn<E>, rest: seq<B>, assembly: A)

  function OnePass<B(!new), F(!new), A(!new), E>(c: Codec<B, F, A, E>, s: seq<B>, a: A): Pass<B, A, E>
    requires Lawful(c)
  {
    match c.read(s)
    case NeedMore => Pass(Pause, s, a)
    case Oversize => Pass(Fail(MessageTooBig), s, a)
    case Parsed(f, size) =>
      match c.accept(a, f)
      case Rejected(status) => Pass(Fail(status), s[size..], a)
      case Accepted(a', events) => Pass(if |events| == 0 then Quiet else Deliver(events[0]), s[size..], a')
  }

  /** `Serve`, told pass by pass. */
  function ServeOn<B(!new), F(!new), A(!new), E>(
    c: Codec<B, F, A, E>, p: Pass<B, A, E>, script: seq<Reaction<B>>): Served<B, A, E>
    requires Lawful(c)
  {
    match p.turn
    case Pause => Served(Outcome([], Good, p.assembly, p.rest), [], 0)
    case Fail(status) => Served(Outcome([], status, p.assembly, p.rest), [], 0)
    case Quiet => Behind([], Serve(c, p.rest, p.assembly, script))
    case Deliver(e) =>
      if |script| == 0 then Behind([e], Serve(c, p.rest, p.assembly, script))
      else match script[0]
        case Stage(bytes) => Behind([e], Serve(c, p.rest + bytes, p.assembly, script[1..]))
        case Restart(later) => Served(Outcome([e], Good, c.idle, []), later, 1)
  }

  lemma ServePass<B(!new), F(!new), A(!new), E>(c: Codec<B, F, A, E>, s: seq<B>, a: A, script: seq<Reaction<B>>)
    requires Lawful(c)
    ensures Serve(c, s, a, script) == ServeOn(c, OnePass(c, s, a), script)
    ensures var p := OnePass(c, s, a); p.turn.Quiet? || p.turn.Deliver? ==> |p.rest| < |s|
  {
    var p := c.read(s);
    if p.Parsed? {
      var v := c.accept(a, p.frame);
      assert Disciplined(v);
      assert v.Accepted? && |v.events| != 0 ==> v.events == [v.events[0]];
    }
  }

  lemma BehindBehind<B, A, E>(e: seq<E>, e': seq<E>, r: Served<B, A, E>)
    ensures Behind(e, Behind(e', r)) == Behind(e + e', r)
  {
    AfterAfter(e, e', r.outcome);
  }

  /** `goal` is what is left to do after `events`, with `s` still to decode. */
  ghost predicate Ahead<B(!new), F(!new), A(!new), E>(
    c: Codec<B, F, A, E>, goal: Served<B, A, E>, events: seq<E>, s: seq<B>, a: A, script: seq<Reaction<B>>)
    requires Lawful(c)
  {
    goal == Behind(events, Serve(c, s, a, script))
  }

  ghost predicate Moved<B(!new), F(!new), A(!new), E>(
    c: Codec<B, F, A, E>, goal: Served<B, A, E>, events: seq<E>, p: Pass<B, A, E>, script: seq<Reaction<B>>)
    requires Lawful(c)
  {
    match p.turn
    case Pause => goal == Served(Outcome(events, Good, p.assembly, p.rest), [], |events|)
    case Fail(status) => goal == Served(Outcome(events, status, p.assembly, p.rest), [], |events|)
    case Quiet => Ahead(c, goal, events, p.rest, p.assembly, script)
    case Deliver(e) =>
      if |script| == 0 then Ahead(c, goal, events + [e], p.rest, p.assembly, script)
      else match script[0]
        case Stage(bytes) => Ahead(c, goal, events + [e], p.rest + bytes, p.assembly, script[1..])
        case Restart(later) => goal == Served(Outcome(events + [e], Good, c.idle, []), later, |events| + 1)
  }

  /** One pass of the loop moves towards the goal or reaches it. */
  lemma AheadPass<B(!new), F(!new), A(!new), E>(
    c: Codec<B, F, A, E>, goal: Served<B, A, E>, events: seq<E>, s: seq<B>, a: A, script: seq<Reaction<B>>)
    requires Lawful(c) && Ahead(c, goal, events, s, a, script)
    ensures Moved(c, goal, events, OnePass(c, s, a), script)
    ensures var p := OnePass(c, s, a); p.turn.Quiet? || p.turn.Deliver? ==> |p.rest| < |s|
  {
    ServePass(c, s, a, script);
    var Pass(t, rest, a') := OnePass(c, s, a);
    assert events + [] == events;
    if t.Quiet? {
      BehindBehind(events, [], Serve(c, rest, a', script));
    } else if t.Deliver? {
      if |script| == 0 {
        BehindBehind(events, [t.event], Serve(c, rest, a', script));
      } else if script[0].Stage? {
        BehindBehind(events, [t.event], Serve(c, rest + script[0].bytes, a', script[1..]));
      }
    }
  }

  function Used<B>(script: seq<Reaction<B>>, called: nat): seq<B> {
    Staged(if called < |script| then script[..called] else script)
  }

  /** The last callback that was made reset the decoder. */
  predicate WasReset<B, A, E>(r: Served<B, A, E>, script: seq<Reaction<B>>) {
    0 < r.called <= |script| && script[r.called - 1].Restart?
  }

  ghost predicate Appended<B(!new), F(!new), A(!new), E>(
    c: Codec<B, F, A, E>, s: seq<B>, a: A, script: seq<Reaction<B>>, r: Served<B, A, E>)
    requires Lawful(c)
  {
    var whole := Decode(c, s + Used(script, r.called), a);
    && r.called == |r.outcome.events| && r.outcome.events <= whole.events
    && (WasReset(r, script) || (r.staged == [] && r.outcome == whole))
  }

  /**
    * Whatever the callbacks do, bytes they feed are decoded exactly as if they had been appended to the stream, up to
    * the callback that resets the decoder.
    */
  lemma {:induction false} CallbackBytesAreAppended<B(!new), F(!new), A(!new), E>(
    c: Codec<B, F, A, E>, s: seq<B>, a: A, script: seq<Reaction<B>>)
    requires Lawful(c)
    ensures Appended(c, s, a, script, Serve(c, s, a, script))
    decreases |s| + |Staged(script)|
  {
    var p := c.read(s);
    if p.Parsed? && c.accept(a, p.frame).Accepted? {
      var v := c.accept(a, p.frame);
      assert Disciplined(v);
      if |v.events| == 0 || |script| == 0 {
        CallbackBytesAreAppended(c, s[p.size..], v.assembly, script);
        QuietStep(c, s, a, script, Serve(c, s[p.size..], v.assembly, script));
      } else if script[0].Stage? {
        var s' := s[p.size..] + script[0].bytes;
        CallbackBytesAreAppended(c, s', v.assembly, script[1..]);
        StagingStep(c, s, a, script, Serve(c, s', v.assembly, script[1..]));
      } else {
        RestartStep(c, s, a, script, Serve(c, s, a, script));
      }
    } else {
      assert s + [] == s;
    }
  }

  lemma QuietStep<B(!new), F(!new), A(!new), E>(
    c: Codec<B, F, A, E>, s: seq<B>, a: A, script: seq<Reaction<B>>, r: Served<B, A, E>)
    requires Lawful(c) && c.read(s).Parsed? && c.accept(a, c.read(s).frame).Accepted?
    requires var p := c.read(s); var v := c.accept(a, p.frame);
             (|v.events| == 0 || |script| == 0) && Appended(c, s[p.size..], v.assembly, script, r)
    ensures Appended(c, s, a, script, Behind(c.accept(a, c.read(s).frame).events, r))
  {
    DecodeStep(c, s, Used(script, r.called), a);
  }

  lemma StagingStep<B(!new), F(!new), A(!new), E>(
    c: Codec<B, F, A, E>, s: seq<B>, a: A, script: seq<Reaction<B>>, r: Served<B, A, E>)
    requires Lawful(c) && c.read(s).Parsed? && c.accept(a, c.read(s).frame).Accepted? && |script| != 0
             && script[0].Stage?
    requires var p := c.read(s); var v := c.accept(a, p.frame);
             |v.events| == 1 && Appended(c, s[p.size..] + script[0].bytes, v.assembly, script[1..], r)
    ensures Appended(c, s, a, script, Behind(c.accept(a, c.read(s).frame).events, r))
  {
    DecodeStep(c, s, Used(script, r.called + 1), a);
    UsedBehind(s[c.read(s).size..], script, r.called);
  }

  lemma RestartStep<B(!new), F(!new), A(!new), E>(
    c: Codec<B, F, A, E>, s: seq<B>, a: A, script: seq<Reaction<B>>, r: Served<B, A, E>)
    requires Lawful(c) && c.read(s).Parsed? && c.accept(a, c.read(s).frame).Accepted?
    requires |script| != 0 && script[0].Restart? && r.called == 1 == |r.outcome.events|
    requires r.outcome.events == c.accept(a, c.read(s).frame).events
    ensures Appended(c, s, a, script, r)
  {
    UsedRestart(s, script);
    DecodeStep(c, s, [], a);
    assert s + [] == s;
  }

  lemma UsedRestart<B>(s: seq<B>, script: seq<Reaction<B>>)
    requires |script| != 0 && script[0].Restart?
    ensures s + Used(script, 1) == s
  {
    var made := if 1 < |script| then script[..1] else script;
    assert made[1..] == [] && Staged(made) == [];
  }

  lemma UsedBehind<B>(rest: seq<B>, script: seq<Reaction<B>>, called: nat)
    requires |script| != 0 && script[0].Stage?
    ensures rest + Used(script, called + 1) == (rest + script[0].bytes) + Used(script[1..], called)
  {
    if called + 1 < |script| { assert script[..called + 1][1..] == script[1..][..called]; }
  }

  // ── callbacks that reset the decoder ────────────────────────────────────────

  /** Callback `k` was made, and it reset the decoder. */
  predicate Reset<B, A, E>(r: Served<B, A, E>, script: seq<Reaction<B>>, k: nat) {
    k < |script| && k < r.called && script[k].Restart?
  }

  /** A reset is the last thing a call does: nothing is unread, nothing collected, and only its own bytes are staged. */
  lemma {:induction false} ResetEndsTheCall<B(!new), F(!new), A(!new), E>(
    c: Codec<B, F, A, E>, s: seq<B>, a: A, script: seq<Reaction<B>>, k: nat)
    requires Lawful(c) && Reset(Serve(c, s, a, script), script, k)
    ensures var r := Serve(c, s, a, script);
            r.called == k + 1 && r.staged == script[k].later && r.outcome.rest == [] && r.outcome.assembly == c.idle
    decreases |s| + |Staged(script)|
  {
    var p := c.read(s);
    if p.Parsed? && c.accept(a, p.frame).Accepted? {
      var v := c.accept(a, p.frame);
      assert Disciplined(v);
      if |v.events| == 0 {
        ResetEndsTheCall(c, s[p.size..], v.assembly, script, k);
      } else if script[0].Stage? {
        ResetEndsTheCall(c, s[p.size..] + script[0].bytes, v.assembly, script[1..], k - 1);
      }
    }
  }

  /** Without a reset nothing stays staged. */
  lemma {:induction false} NothingStaged<B(!new), F(!new), A(!new), E>(
    c: Codec<B, F, A, E>, s: seq<B>, a: A, script: seq<Reaction<B>>)
    requires Lawful(c) && forall k: nat :: !Reset(Serve(c, s, a, script), script, k)
    ensures Serve(c, s, a, script).staged == []
    decreases |s| + |Staged(script)|
  {
    var p := c.read(s);
    if p.Parsed? && c.accept(a, p.frame).Accepted? {
      var v := c.accept(a, p.frame);
      var r := Serve(c, s, a, script);
      assert Disciplined(v);
      if |v.events| == 0 || |script| == 0 {
        var r' := Serve(c, s[p.size..], v.assembly, script);
        forall k: nat ensures !Reset(r', script, k) { assert !Reset(r, script, k); }
        NothingStaged(c, s[p.size..], v.assembly, script);
      } else if script[0].Stage? {
        var s' := s[p.size..] + script[0].bytes;
        var r' := Serve(c, s', v.assembly, script[1..]);
        forall k: nat ensures !Reset(r', script[1..], k) { assert !Reset(r, script, k + 1); }
        NothingStaged(c, s', v.assembly, script[1..]);
      } else {
        assert Reset(r, script, 0);
      }
    }
  }

  /** Bytes stay staged after a call exactly when a callback that was made reset the decoder and then fed some. */
  lemma StagedExactly<B(!new), F(!new), A(!new), E>(c: Codec<B, F, A, E>, s: seq<B>, a: A, script: seq<Reaction<B>>)
    requires Lawful(c)
    ensures var r := Serve(c, s, a, script);
            r.staged == [] <==> forall k: nat :: Reset(r, script, k) ==> script[k].later == []
  {
    var r := Serve(c, s, a, script);
    forall k: nat | Reset(r, script, k) ensures r.staged == script[k].later { ResetEndsTheCall(c, s, a, script, k); }
    if forall k: nat :: !Reset(r, script, k) { NothingStaged(c, s, a, script); }
  }

  /** What the next call decodes after a reset: its own bytes, then those the resetting callback fed. */
  lemma NextCall<B(!new), F(!new), A(!new), E>(
    c: Codec<B, F, A, E>, s: seq<B>, a: A, script: seq<Reaction<B>>, k: nat, data: seq<B>)
    requires Lawful(c) && Reset(Serve(c, s, a, script), script, k)
    ensures var r := Serve(c, s, a, script);
            && r.outcome.assembly == c.idle && r.outcome.rest + data + r.staged == data + script[k].later
            && (r.staged == [] <==> r.outcome.rest + data + r.staged == data)
  {
    ResetEndsTheCall(c, s, a, script, k);
    var r := Serve(c, s, a, script);
    assert [] + data == data;
    assert data + r.staged == data ==> |r.staged| == 0;
  }
}
