/**
  * The resumable response parser of src/net/HttpCodec.cpp as a machine that takes one byte at a time, for any reading
  * of the head and of the chunk-size and trailer lines.
  */
module HttpMachine {
  import opened Basics

  type Positive = n: nat | n > 0 witness 1

  datatype Framing = NoBody | Chunked | Length(length: nat) | ToClose
  datatype Head = BadHead | Head(status: int, keepAlive: bool, retryAfter: int, framing: Framing)

  datatype Rules<!B> = Rules(
    ends: seq<B> -> bool,            // the bytes read so far end with a blank line
    parse: seq<B> -> Head,
    newline: B -> bool,
    size: seq<B> -> Option<nat>,     // the size a chunk-size line states
    blank: seq<B> -> bool)

  datatype Phase<B> = InHead(head: seq<B>) | Fixed(left: Positive) | SizeLine(line: seq<B>) | Data(left: Positive)
                    | DataEnd(left: Positive) | Trailer(line: seq<B>) | UntilClose | Done | Failed

  datatype Parser<B> = Parser(phase: Phase<B>, head: Head, body: seq<B>)

  const HEAD_LIMIT: nat := 64 * 1024
  const LINE_LIMIT: nat := 1024

  function Fresh<B>(): Parser<B> { Parser(InHead([]), BadHead, []) }

  predicate Stopped<B>(p: Parser<B>) { p.phase.Done? || p.phase.Failed? }

  // ── one byte ────────────────────────────────────────────────────────────────

  function BodyPhase<B>(framing: Framing): Phase<B> {
    match framing
    case NoBody => Done
    case Chunked => SizeLine([])
    case Length(n) => if n == 0 then Done else Fixed(n)
    case ToClose => UntilClose
  }

  function EndHead<B>(r: Rules<B>, p: Parser<B>, head: seq<B>): Parser<B> {
    var h := r.parse(head);
    if h.BadHead? then p.(phase := Failed) else p.(phase := BodyPhase(h.framing), head := h)
  }

  function EndSizeLine<B>(r: Rules<B>, p: Parser<B>, line: seq<B>): Parser<B> {
    match r.size(line)
    case None => p.(phase := Failed)
    case Some(n) => p.(phase := if n == 0 then Trailer([]) else Data(n))
  }

  function LongerLine<B>(line: seq<B>, c: B, phase: seq<B> -> Phase<B>): Phase<B> {
    if |line| + 1 > LINE_LIMIT then Failed else phase(line + [c])
  }

  /** What one more byte does; the head may be of any length. */
  function Step<B>(r: Rules<B>, p: Parser<B>, c: B): Parser<B> {
    match p.phase
    case InHead(head) => if r.ends(head + [c]) then EndHead(r, p, head + [c]) else p.(phase := InHead(head + [c]))
    case Fixed(n) => Parser(if n == 1 then Done else Fixed(n - 1), p.head, p.body + [c])
    case SizeLine(line) =>
      if r.newline(c) then EndSizeLine(r, p, line) else p.(phase := LongerLine(line, c, l => SizeLine(l)))
    case Data(n) => Parser(if n == 1 then DataEnd(2) else Data(n - 1), p.head, p.body + [c])
    case DataEnd(n) => p.(phase := if n == 1 then SizeLine([]) else DataEnd(n - 1))
    case Trailer(line) =>
      if r.newline(c) then p.(phase := if r.blank(line) then Done else Trailer([]))
      else p.(phase := LongerLine(line, c, l => Trailer(l)))
    case UntilClose => p.(body := p.body + [c])
    case Done => p
    case Failed => p
  }

  // ── many bytes ──────────────────────────────────────────────────────────────

  /** A parser and the bytes it left for the next response. */
  datatype Left<B> = Left(parser: Parser<B>, rest: seq<B>)

  function Run<B>(r: Rules<B>, p: Parser<B>, s: seq<B>): Left<B>
    decreases |s|
  {
    if |s| == 0 || Stopped(p) then Left(p, s) else Run(r, Step(r, p, s[0]), s[1..])
  }

  lemma {:induction false} RunAppend<B>(r: Rules<B>, p: Parser<B>, s: seq<B>, t: seq<B>)
    ensures var l := Run(r, p, s); Run(r, p, s + t) == Run(r, l.parser, l.rest + t)
    decreases |s|
  {
    if |s| == 0 || Stopped(p) {
      assert s + t == Run(r, p, s).rest + t;
    } else {
      assert (s + t)[0] == s[0] && (s + t)[1..] == s[1..] + t;
      RunAppend(r, Step(r, p, s[0]), s[1..], t);
    }
  }

  lemma {:induction false} RunLeaves<B>(r: Rules<B>, p: Parser<B>, s: seq<B>)
    ensures var l := Run(r, p, s);
            (l.rest == [] || Stopped(l.parser)) && |l.rest| <= |s| && l.rest == s[|s| - |l.rest|..]
    decreases |s|
  {
    if |s| != 0 && !Stopped(p) {
      RunLeaves(r, Step(r, p, s[0]), s[1..]);
    }
  }

  // ── whole reads ─────────────────────────────────────────────────────────────

  /** No blank line ends within `s` after its first `from` bytes. */
  ghost predicate Unended<B>(r: Rules<B>, s: seq<B>, from: nat) {
    forall k :: from < k <= |s| ==> !r.ends(s[..k])
  }

  /** The size check, made once per read: the head is over the limit and still has no end. */
  ghost predicate TooLong<B>(r: Rules<B>, p: Parser<B>, s: seq<B>) {
    p.phase.InHead? && |p.phase.head| + |s| > HEAD_LIMIT && Unended(r, p.phase.head + s, |p.phase.head|)
  }

  /** One `feed` call. */
  ghost function Feed<B>(r: Rules<B>, p: Parser<B>, s: seq<B>): Left<B> {
    if TooLong(r, p, s) then Left(p.(phase := Failed), s) else Run(r, p, s)
  }

  /** Reads fed one after the other until the parser stops. */
  ghost function FeedEach<B>(r: Rules<B>, p: Parser<B>, parts: seq<seq<B>>): Left<B>
    decreases |parts|
  {
    if |parts| == 0 || Stopped(p) then Left(p, Joined(parts))
    else
      var l := Feed(r, p, parts[0]);
      if Stopped(l.parser) then Left(l.parser, l.rest + Joined(parts[1..])) else FeedEach(r, l.parser, parts[1..])
  }

  /** Alike to a caller: both failed, or the same response with the same bytes left over. */
  predicate Alike<B(==)>(a: Left<B>, b: Left<B>) {
    (a.parser.phase.Failed? && b.parser.phase.Failed?) || a == b
  }

  /** While the head has no end, running only collects bytes. */
  lemma {:induction false} RunHead<B>(r: Rules<B>, p: Parser<B>, s: seq<B>)
    requires p.phase.InHead? && Unended(r, p.phase.head + s, |p.phase.head|)
    ensures Run(r, p, s) == Left(p.(phase := InHead(p.phase.head + s)), [])
    decreases |s|
  {
    var head := p.phase.head;
    if |s| == 0 {
      assert head + s == head;
    } else {
      assert (head + s)[..|head| + 1] == head + [s[0]];
      assert (head + [s[0]]) + s[1..] == head + s;
      RunHead(r, p.(phase := InHead(head + [s[0]])), s[1..]);
    }
  }

  /** The byte that ends the head hands over to the body. */
  lemma EndFound<B>(r: Rules<B>, p: Parser<B>, s: seq<B>, k: nat)
    requires p.phase.InHead? && 0 < k <= |s|
    requires Unended(r, p.phase.head + s[..k - 1], |p.phase.head|) && r.ends(p.phase.head + s[..k - 1] + [s[k - 1]])
    ensures !TooLong(r, p, s)
    ensures var got := p.phase.head + s[..k - 1];
            Run(r, p, s) == Run(r, EndHead(r, p.(phase := InHead(got)), got + [s[k - 1]]), s[k..])
  {
    var early, late := s[..k - 1], s[k - 1..];
    assert s == early + late && [] + late == late;
    RunHead(r, p, early);
    RunAppend(r, p, early, late);
    RunEnd(r, p.(phase := InHead(p.phase.head + early)), late);
    assert late[1..] == s[k..];
    EndInTime(r, p, s, k);
  }

  lemma EndInTime<B>(r: Rules<B>, p: Parser<B>, s: seq<B>, k: nat)
    requires p.phase.InHead? && 0 < k <= |s| && r.ends(p.phase.head + s[..k - 1] + [s[k - 1]])
    ensures !TooLong(r, p, s)
  {
    assert (p.phase.head + s)[..|p.phase.head| + k] == p.phase.head + s[..k - 1] + [s[k - 1]];
  }

  lemma RunEnd<B>(r: Rules<B>, p: Parser<B>, s: seq<B>)
    requires p.phase.InHead? && |s| > 0 && r.ends(p.phase.head + [s[0]])
    ensures Run(r, p, s) == Run(r, EndHead(r, p, p.phase.head + [s[0]]), s[1..])
  {}

  // ── when read boundaries matter ─────────────────────────────────────────────

  /** The head does end, but only after more than `HEAD_LIMIT + 1` bytes. */
  ghost predicate LateHead<B>(r: Rules<B>, head: seq<B>, s: seq<B>) {
    && |head + s| > HEAD_LIMIT + 1
    && Unended(r, (head + s)[..HEAD_LIMIT + 1], |head|)
    && !Unended(r, head + s, |head|)
  }

  ghost predicate Late<B>(r: Rules<B>, p: Parser<B>, s: seq<B>) {
    p.phase.InHead? && LateHead(r, p.phase.head, s)
  }

  lemma UnendedPrefix<B>(r: Rules<B>, s: seq<B>, k: nat, from: nat)
    requires k <= |s| && Unended(r, s, from)
    ensures Unended(r, s[..k], from)
  {
    forall j | from < j <= k ensures !r.ends(s[..k][..j]) { assert s[..k][..j] == s[..j]; }
  }

  /** A read is only rejected for its length if the whole stream is, or if the head ends late. */
  lemma TooLongEarly<B>(r: Rules<B>, p: Parser<B>, s: seq<B>, t: seq<B>)
    requires TooLong(r, p, s) && !Late(r, p, s + t)
    ensures TooLong(r, p, s + t)
  {
    var head := p.phase.head;
    assert head + (s + t) == (head + s) + t;
    if t == [] {
      assert s + t == s;
    } else if !Unended(r, head + (s + t), |head|) {
      var whole := head + (s + t);
      assert whole[..|head + s|] == head + s;
      UnendedPrefix(r, head + s, HEAD_LIMIT + 1, |head|);
      assert (head + s)[..HEAD_LIMIT + 1] == whole[..HEAD_LIMIT + 1];
    }
  }

  lemma {:induction false} StillInHead<B>(r: Rules<B>, p: Parser<B>, s: seq<B>)
    requires p.phase.InHead? && Run(r, p, s).parser.phase.InHead?
    ensures Unended(r, p.phase.head + s, |p.phase.head|)
    decreases |s|
  {
    var head := p.phase.head;
    if |s| != 0 {
      var head' := head + [s[0]];
      assert head' + s[1..] == head + s;
      if r.ends(head') {
        LeftHead(r, Step(r, p, s[0]), s[1..]);
      } else {
        StillInHead(r, p.(phase := InHead(head')), s[1..]);
        forall k | |head| < k <= |head + s| ensures !r.ends((head + s)[..k]) {
          if k == |head| + 1 { assert (head + s)[..k] == head'; }
        }
      }
    }
  }

  lemma {:induction false} LeftHead<B>(r: Rules<B>, p: Parser<B>, s: seq<B>)
    requires !p.phase.InHead?
    ensures !Run(r, p, s).parser.phase.InHead?
    decreases |s|
  {
    if |s| != 0 && !Stopped(p) { LeftHead(r, Step(r, p, s[0]), s[1..]); }
  }

  /** Reading on from where the first read stopped is reading the whole, up to the length check. */
  lemma FeedOn<B>(r: Rules<B>, p: Parser<B>, s: seq<B>, t: seq<B>)
    requires !TooLong(r, p, s) && !Stopped(Run(r, p, s).parser)
    ensures Run(r, p, s).rest == [] && Run(r, p, s + t) == Run(r, Run(r, p, s).parser, t)
    ensures Follows(r, p, s, t, Run(r, p, s).parser)
  {
    RunAppend(r, p, s, t);
    RunLeaves(r, p, s);
    assert [] + t == t;
    var q := Run(r, p, s).parser;
    if !p.phase.InHead? {
      LeftHead(r, p, s);
    } else if q.phase.InHead? {
      StillInHead(r, p, s);
      RunHead(r, p, s);
      HeadFollows(r, p, s, t);
    } else {
      HeadEnded(r, p, s, t);
    }
  }

  /** How the length check on `s + t` relates to the one on `t` after `s`. */
  ghost predicate Follows<B>(r: Rules<B>, p: Parser<B>, s: seq<B>, t: seq<B>, q: Parser<B>) {
    && (TooLong(r, p, s + t) <==> TooLong(r, q, t))
    && (Late(r, q, t) ==> Late(r, p, s + t))
    && (q.phase.InHead? && (p.phase.InHead? ==> |p.phase.head| <= HEAD_LIMIT) ==> |q.phase.head| <= HEAD_LIMIT)
  }

  lemma HeadFollows<B>(r: Rules<B>, p: Parser<B>, s: seq<B>, t: seq<B>)
    requires p.phase.InHead? && !TooLong(r, p, s) && Unended(r, p.phase.head + s, |p.phase.head|)
    ensures Follows(r, p, s, t, p.(phase := InHead(p.phase.head + s)))
  {
    assert p.phase.head + (s + t) == (p.phase.head + s) + t;
    LongerHead(r, p.phase.head, s, t);
  }

  lemma HeadEnded<B>(r: Rules<B>, p: Parser<B>, s: seq<B>, t: seq<B>)
    requires p.phase.InHead? && !Run(r, p, s).parser.phase.InHead?
    ensures !TooLong(r, p, s + t)
  {
    var head := p.phase.head;
    if Unended(r, head + (s + t), |head|) {
      UnendedPrefix(r, head + (s + t), |head + s|, |head|);
      assert (head + (s + t))[..|head + s|] == head + s;
      RunHead(r, p, s);
    }
  }

  lemma LongerHead<B>(r: Rules<B>, head: seq<B>, s: seq<B>, t: seq<B>)
    requires Unended(r, head + s, |head|)
    ensures Unended(r, head + (s + t), |head|) <==> Unended(r, head + s + t, |head + s|)
    ensures |head + s| <= HEAD_LIMIT && LateHead(r, head + s, t) ==> LateHead(r, head, s + t)
  {
    var whole := head + (s + t);
    assert whole == head + s + t;
    forall k | |head| < k <= |head + s| ensures !r.ends(whole[..k]) { assert whole[..k] == (head + s)[..k]; }
    if |head + s| <= HEAD_LIMIT && LateHead(r, head + s, t) {
      var front := whole[..HEAD_LIMIT + 1];
      forall k | |head| < k <= |front| ensures !r.ends(front[..k]) {
        if k <= |head + s| { assert front[..k] == (head + s)[..k]; }
      }
    }
  }

  /** Separate reads either run into the length check or come to what the bytes come to one at a time. */
  lemma {:induction false} FeedEachRuns<B>(r: Rules<B>, p: Parser<B>, parts: seq<seq<B>>)
    ensures var l := FeedEach(r, p, parts); l.parser.phase.Failed? || l == Run(r, p, Joined(parts))
    decreases |parts|
  {
    if |parts| != 0 && !Stopped(p) && !TooLong(r, p, parts[0]) {
      RunAppend(r, p, parts[0], Joined(parts[1..]));
      RunLeaves(r, p, parts[0]);
      var l := Run(r, p, parts[0]);
      if !Stopped(l.parser) {
        assert l.rest + Joined(parts[1..]) == Joined(parts[1..]);
        FeedEachRuns(r, l.parser, parts[1..]);
      }
    }
  }

  /** If the head does not end late, every way to cut the stream gives what one read gives. */
  lemma {:induction false} CutsAgree<B>(r: Rules<B>, p: Parser<B>, parts: seq<seq<B>>)
    requires !Stopped(p) && (p.phase.InHead? ==> |p.phase.head| <= HEAD_LIMIT) && !Late(r, p, Joined(parts))
    ensures Alike(FeedEach(r, p, parts), Feed(r, p, Joined(parts)))
    decreases |parts|
  {
    if |parts| != 0 {
      var s, t := parts[0], Joined(parts[1..]);
      if TooLong(r, p, s) {
        TooLongEarly(r, p, s, t);
      } else {
        var l := Run(r, p, s);
        if Stopped(l.parser) {
          RunAppend(r, p, s, t);
          if p.phase.InHead? { HeadEnded(r, p, s, t); }
        } else {
          FeedOn(r, p, s, t);
          CutsAgree(r, l.parser, parts[1..]);
        }
      }
    }
  }

  /**
    * Exactly when read boundaries do not matter: the head ends within 64 KiB and a byte, or not at all, or the
    * response is malformed however it is read.
    */
  lemma CutsAgreeExactly<B>(r: Rules<B>, s: seq<B>)
    ensures (forall parts: seq<seq<B>> | Joined(parts) == s :: Alike(FeedEach(r, Fresh(), parts), Feed(r, Fresh(), s)))
       <==> (!Late(r, Fresh(), s) || Run(r, Fresh(), s).parser.phase.Failed?)
  {
    var p: Parser<B> := Fresh();
    if !Late(r, p, s) {
      forall parts: seq<seq<B>> | Joined(parts) == s ensures Alike(FeedEach(r, p, parts), Feed(r, p, s)) {
        CutsAgree(r, p, parts);
      }
    } else {
      if Run(r, p, s).parser.phase.Failed? {
        forall parts: seq<seq<B>> | Joined(parts) == s ensures Alike(FeedEach(r, p, parts), Feed(r, p, s)) {
          FeedEachRuns(r, p, parts);
        }
      } else {
        CutAtLimit(r, s);
      }
    }
  }

  lemma CutAtLimit<B>(r: Rules<B>, s: seq<B>)
    requires Late(r, Fresh(), s)
    ensures var parts := [s[..HEAD_LIMIT + 1], s[HEAD_LIMIT + 1..]];
            Joined(parts) == s && FeedEach(r, Fresh(), parts).parser.phase.Failed?
              && Feed(r, Fresh(), s) == Run(r, Fresh(), s)
  {
    var first, second := s[..HEAD_LIMIT + 1], s[HEAD_LIMIT + 1..];
    var parts := [first, second];
    assert parts[1..] == [second] && Joined([second]) == second;
    assert first + second == s && [] + s == s && [] + first == first;
    assert TooLong(r, Fresh(), first);
  }

  /** A head whose only end is its last byte hands the bytes after it to the body. */
  lemma RunWholeHead<B>(r: Rules<B>, head: seq<B>, t: seq<B>)
    requires |head| > 0 && r.ends(head) && forall k :: 0 <= k < |head| ==> !r.ends(head[..k])
    ensures Run(r, Fresh(), head + t) == Run(r, EndHead(r, Fresh(), head), t)
    ensures Late(r, Fresh(), head + t) <==> |head| > HEAD_LIMIT + 1
  {
    var s, n := head + t, |head|;
    var front := s[..n - 1];
    forall k | 0 < k <= |front| ensures !r.ends(front[..k]) { assert front[..k] == head[..k]; }
    assert [] + front == front && front + [s[n - 1]] == head && s[n..] == t;
    EndFound(r, Fresh(), s, n);
    assert [] + s == s;
    if n > HEAD_LIMIT + 1 {
      var cut := s[..HEAD_LIMIT + 1];
      forall k | 0 < k <= |cut| ensures !r.ends(cut[..k]) { assert cut[..k] == head[..k]; }
      assert s[..n] == head;
    } else if |s| > HEAD_LIMIT + 1 {
      assert s[..HEAD_LIMIT + 1][..n] == head;
    }
  }

  // ── bodies ──────────────────────────────────────────────────────────────────

  lemma {:induction false} RunFixed<B>(r: Rules<B>, p: Parser<B>, s: seq<B>, t: seq<B>)
    requires p.phase.Fixed? && |s| <= p.phase.left
    ensures var n := p.phase.left;
            Run(r, p, s + t) == Run(r, Parser(if |s| == n then Done else Fixed(n - |s|), p.head, p.body + s), t)
    decreases |s|
  {
    if |s| == 0 {
      assert s + t == t && p.body + s == p.body;
    } else {
      assert (s + t)[0] == s[0] && (s + t)[1..] == s[1..] + t;
      assert p.body + s == (p.body + [s[0]]) + s[1..];
      if |s| == 1 { assert s == [s[0]] && s[1..] + t == t; } else { RunFixed(r, Step(r, p, s[0]), s[1..], t); }
    }
  }

  lemma {:induction false} RunData<B>(r: Rules<B>, p: Parser<B>, s: seq<B>, t: seq<B>)
    requires p.phase.Data? && |s| <= p.phase.left
    ensures var n := p.phase.left;
            Run(r, p, s + t) == Run(r, Parser(if |s| == n then DataEnd(2) else Data(n - |s|), p.head, p.body + s), t)
    decreases |s|
  {
    if |s| == 0 {
      assert s + t == t && p.body + s == p.body;
    } else {
      assert (s + t)[0] == s[0] && (s + t)[1..] == s[1..] + t;
      assert p.body + s == (p.body + [s[0]]) + s[1..];
      if |s| == 1 { assert s == [s[0]] && s[1..] + t == t; } else { RunData(r, Step(r, p, s[0]), s[1..], t); }
    }
  }

  lemma {:induction false} RunUntilClose<B>(r: Rules<B>, p: Parser<B>, s: seq<B>)
    requires p.phase.UntilClose?
    ensures Run(r, p, s) == Left(p.(body := p.body + s), [])
    decreases |s|
  {
    if |s| == 0 {
      assert p.body + s == p.body;
    } else {
      assert p.body + s == (p.body + [s[0]]) + s[1..];
      RunUntilClose(r, Step(r, p, s[0]), s[1..]);
    }
  }

  /** A line of at most `LINE_LIMIT` bytes, without its newline. */
  ghost predicate IsLine<B>(r: Rules<B>, line: seq<B>) {
    |line| <= LINE_LIMIT && forall i :: 0 <= i < |line| ==> !r.newline(line[i])
  }

  lemma {:induction false} RunSizeLine<B>(r: Rules<B>, p: Parser<B>, line: seq<B>, nl: B, t: seq<B>)
    requires p.phase.SizeLine? && IsLine(r, p.phase.line + line) && r.newline(nl)
    ensures Run(r, p, line + [nl] + t) == Run(r, EndSizeLine(r, p, p.phase.line + line), t)
    decreases |line|
  {
    var s := line + [nl] + t;
    var got := p.phase.line;
    if |line| == 0 {
      assert s[0] == nl && s[1..] == t && got + line == got;
    } else {
      assert s[0] == line[0] && s[1..] == line[1..] + [nl] + t;
      assert (got + line)[|got|] == line[0];
      assert got + [line[0]] + line[1..] == got + line;
      RunSizeLine(r, p.(phase := SizeLine(got + [line[0]])), line[1..], nl, t);
    }
  }

  lemma {:induction false} RunTrailer<B>(r: Rules<B>, p: Parser<B>, line: seq<B>, nl: B, t: seq<B>)
    requires p.phase.Trailer? && IsLine(r, p.phase.line + line) && r.newline(nl)
    ensures Run(r, p, line + [nl] + t)
         == Run(r, p.(phase := if r.blank(p.phase.line + line) then Done else Trailer([])), t)
    decreases |line|
  {
    var s := line + [nl] + t;
    var got := p.phase.line;
    if |line| == 0 {
      assert s[0] == nl && s[1..] == t && got + line == got;
    } else {
      assert s[0] == line[0] && s[1..] == line[1..] + [nl] + t;
      assert (got + line)[|got|] == line[0];
      assert got + [line[0]] + line[1..] == got + line;
      RunTrailer(r, p.(phase := Trailer(got + [line[0]])), line[1..], nl, t);
    }
  }

  /** A chunk as sent: its size line, its data and two bytes that end the data. */
  datatype Chunk<B> = Chunk(line: seq<B>, data: seq<B>, end: seq<B>)

  ghost predicate IsChunk<B>(r: Rules<B>, c: Chunk<B>) {
    IsLine(r, c.line) && r.size(c.line) == Some(|c.data|) && |c.data| > 0 && |c.end| == 2
  }

  ghost predicate AllChunks<B>(r: Rules<B>, chunks: seq<Chunk<B>>) {
    |chunks| == 0 || (IsChunk(r, chunks[0]) && AllChunks(r, chunks[1..]))
  }

  ghost predicate AllTrailers<B>(r: Rules<B>, lines: seq<seq<B>>) {
    |lines| == 0 || (IsLine(r, lines[0]) && !r.blank(lines[0]) && AllTrailers(r, lines[1..]))
  }

  function ChunkWire<B>(c: Chunk<B>, nl: B): seq<B> { c.line + [nl] + c.data + c.end }

  function ChunksWire<B>(chunks: seq<Chunk<B>>, nl: B): seq<B> {
    if |chunks| == 0 then [] else ChunkWire(chunks[0], nl) + ChunksWire(chunks[1..], nl)
  }

  function DataOf<B>(chunks: seq<Chunk<B>>): seq<B> {
    if |chunks| == 0 then [] else chunks[0].data + DataOf(chunks[1..])
  }

  function LinesWire<B>(lines: seq<seq<B>>, nl: B): seq<B> {
    if |lines| == 0 then [] else lines[0] + [nl] + LinesWire(lines[1..], nl)
  }

  lemma RunDataEnd<B>(r: Rules<B>, p: Parser<B>, end: seq<B>, t: seq<B>)
    requires p.phase == DataEnd(2) && |end| == 2
    ensures Run(r, p, end + t) == Run(r, p.(phase := SizeLine([])), t)
  {
    var q := p.(phase := DataEnd(1));
    assert (end + t)[0] == end[0] && (end + t)[1..] == [end[1]] + t;
    assert ([end[1]] + t)[0] == end[1] && ([end[1]] + t)[1..] == t;
    assert Run(r, q, [end[1]] + t) == Run(r, Step(r, q, end[1]), t);
  }

  lemma RunChunk<B>(r: Rules<B>, p: Parser<B>, c: Chunk<B>, nl: B, t: seq<B>)
    requires p.phase == SizeLine([]) && IsChunk(r, c) && r.newline(nl)
    ensures Run(r, p, ChunkWire(c, nl) + t) == Run(r, p.(body := p.body + c.data), t)
  {
    var p1 := p.(phase := Data(|c.data|));
    assert ChunkWire(c, nl) + t == c.line + [nl] + (c.data + (c.end + t));
    assert [] + c.line == c.line;
    RunSizeLine(r, p, c.line, nl, c.data + (c.end + t));
    RunData(r, p1, c.data, c.end + t);
    RunDataEnd(r, Parser(DataEnd(2), p.head, p.body + c.data), c.end, t);
  }

  lemma {:induction false} RunChunks<B>(r: Rules<B>, p: Parser<B>, chunks: seq<Chunk<B>>, nl: B, t: seq<B>)
    requires p.phase == SizeLine([]) && r.newline(nl) && AllChunks(r, chunks)
    ensures Run(r, p, ChunksWire(chunks, nl) + t) == Run(r, p.(body := p.body + DataOf(chunks)), t)
    decreases |chunks|
  {
    if |chunks| == 0 {
      assert ChunksWire(chunks, nl) + t == t && p.body + DataOf(chunks) == p.body;
    } else {
      var c, more := chunks[0], ChunksWire(chunks[1..], nl) + t;
      assert ChunksWire(chunks, nl) + t == ChunkWire(c, nl) + more;
      RunChunk(r, p, c, nl, more);
      RunChunks(r, p.(body := p.body + c.data), chunks[1..], nl, t);
      assert p.body + DataOf(chunks) == (p.body + c.data) + DataOf(chunks[1..]);
    }
  }

  lemma {:induction false} RunTrailers<B>(r: Rules<B>, p: Parser<B>, lines: seq<seq<B>>, nl: B, t: seq<B>)
    requires p.phase == Trailer([]) && r.newline(nl) && AllTrailers(r, lines)
    ensures Run(r, p, LinesWire(lines, nl) + t) == Run(r, p, t)
    decreases |lines|
  {
    if |lines| == 0 {
      assert LinesWire(lines, nl) + t == t;
    } else {
      var more := LinesWire(lines[1..], nl) + t;
      assert LinesWire(lines, nl) + t == lines[0] + [nl] + more;
      assert [] + lines[0] == lines[0];
      RunTrailer(r, p, lines[0], nl, more);
      RunTrailers(r, p, lines[1..], nl, t);
    }
  }

  /** A chunked body: chunks, a last chunk of size zero, trailer lines and a blank line. */
  datatype ChunkedBody<B> = ChunkedBody(chunks: seq<Chunk<B>>, last: seq<B>, trailers: seq<seq<B>>, blank: seq<B>)

  ghost predicate IsChunkedBody<B>(r: Rules<B>, b: ChunkedBody<B>) {
    && AllChunks(r, b.chunks)
    && IsLine(r, b.last) && r.size(b.last) == Some(0)
    && AllTrailers(r, b.trailers)
    && IsLine(r, b.blank) && r.blank(b.blank)
  }

  function BodyWire<B>(b: ChunkedBody<B>, nl: B): seq<B> {
    ChunksWire(b.chunks, nl) + (b.last + [nl] + (LinesWire(b.trailers, nl) + (b.blank + [nl])))
  }

  /** Any chunked body gives its data back and leaves the bytes after it alone. */
  lemma ChunkedRecovered<B>(r: Rules<B>, p: Parser<B>, b: ChunkedBody<B>, nl: B, t: seq<B>)
    requires p.phase == SizeLine([]) && r.newline(nl) && IsChunkedBody(r, b)
    ensures Run(r, p, BodyWire(b, nl) + t) == Left(p.(phase := Done, body := p.body + DataOf(b.chunks)), t)
  {
    var t1 := b.blank + [nl] + t;
    var t2 := LinesWire(b.trailers, nl) + t1;
    assert BodyWire(b, nl) + t == ChunksWire(b.chunks, nl) + (b.last + [nl] + t2);
    RunChunks(r, p, b.chunks, nl, b.last + [nl] + t2);
    RunLast(r, p.(body := p.body + DataOf(b.chunks)), b, nl, t);
  }

  lemma RunLast<B>(r: Rules<B>, p: Parser<B>, b: ChunkedBody<B>, nl: B, t: seq<B>)
    requires p.phase == SizeLine([]) && r.newline(nl) && IsChunkedBody(r, b)
    ensures Run(r, p, b.last + [nl] + (LinesWire(b.trailers, nl) + (b.blank + [nl] + t))) == Left(p.(phase := Done), t)
  {
    var t1 := b.blank + [nl] + t;
    assert [] + b.last == b.last && [] + b.blank == b.blank;
    RunSizeLine(r, p, b.last, nl, LinesWire(b.trailers, nl) + t1);
    var q := p.(phase := Trailer([]));
    RunTrailers(r, q, b.trailers, nl, t1);
    RunTrailer(r, q, b.blank, nl, t);
  }
}
