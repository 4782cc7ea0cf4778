/** The parser object of src/net/HttpCodec.cpp: fields updated in place by reads of any length. */
module HttpParser {
  import opened Basics
  import opened HttpMachine

  datatype Tag = TagHead | TagFixed | TagSizeLine | TagData | TagDataEnd | TagTrailer | TagUntilClose | TagDone
  datatype Status = NeedMore | Complete | Error

  class ResponseParser<B> {
    const rules: Rules<B>
    var phase: Tag
    var head: seq<B>
    var line: seq<B>
    var remaining: nat
    var info: Head
    var body: seq<B>

    ghost predicate Valid()
      reads this
    {
      && (phase.TagFixed? || phase.TagData? || phase.TagDataEnd? ==> remaining > 0)
      && (phase.TagHead? ==> |head| <= HEAD_LIMIT)
      && (!phase.TagSizeLine? && !phase.TagTrailer? && !phase.TagDone? ==> line == [])
    }

    ghost function Abstract(): Phase<B>
      reads this
      requires Valid()
    {
      match phase
      case TagHead => InHead(head)
      case TagFixed => Fixed(remaining)
      case TagSizeLine => SizeLine(line)
      case TagData => Data(remaining)
      case TagDataEnd => DataEnd(remaining)
      case TagTrailer => Trailer(line)
      case TagUntilClose => UntilClose
      case TagDone => Done
    }

    ghost function View(): Parser<B>
      reads this
      requires Valid()
    {
      Parser(Abstract(), info, body)
    }

    constructor (rules: Rules<B>)
      ensures Valid() && View() == Fresh() && this.rules == rules
    {
      this.rules := rules;
      phase, head, line, remaining, info, body := TagHead, [], [], 0, BadHead, [];
    }

    method Reset()
      modifies this
      ensures Valid() && View() == Fresh()
    {
      phase, head, line, remaining, info, body := TagHead, [], [], 0, BadHead, [];
    }

    /** Where the blank line after the first `before` bytes of the head ends. */
    method FindEnd(before: nat) returns (end: Option<nat>)
      requires before <= |head|
      ensures end.None? ==> Unended(rules, head, before)
      ensures end.Some? ==> before < end.value <= |head| && rules.ends(head[..end.value])
      ensures end.Some? ==> Unended(rules, head[..end.value - 1], before)
    {
      var k := before + 1;
      while k <= |head|
        invariant before < k <= |head| + 1
        invariant forall j :: before < j < k ==> !rules.ends(head[..j])
      {
        if rules.ends(head[..k]) {
          ghost var front := head[..k - 1];
          forall j | before < j <= |front| ensures !rules.ends(front[..j]) { assert front[..j] == head[..j]; }
          return Some(k);
        }
        k := k + 1;
      }
      return None;
    }

    /** Takes what the head says, or refuses it. */
    method ParseHead(ghost was: Parser<B>) returns (ok: bool)
      requires Valid() || |head| > HEAD_LIMIT
      requires phase.TagHead? && line == [] && was == Parser(was.phase, info, body)
      modifies this
      ensures ok <==> !EndHead(rules, was, old(head)).phase.Failed?
      ensures ok ==> Valid() && View() == EndHead(rules, was, old(head))
      ensures body == old(body)
    {
      var h := rules.parse(head);
      match h {
        case BadHead => return false;
        case Head(_, _, _, framing) =>
          info := h;
          match framing {
            case NoBody => phase := TagDone;
            case Chunked => phase := TagSizeLine;
            case Length(n) =>
              remaining := n;
              phase := if n == 0 then TagDone else TagFixed;
            case ToClose => phase := TagUntilClose;
          }
      }
      return true;
    }

    /** The head branch: append, look for the end in the new bytes, and either wait, fail or go on to the body. */
    method TakeHead(s: seq<B>) returns (k: nat, ok: bool)
      requires Valid() && phase.TagHead? && |s| > 0
      modifies this
      ensures 0 < k <= |s|
      ensures !ok
              ==> Feed(rules, old(View()), s).parser.phase.Failed? && body == Feed(rules, old(View()), s).parser.body
      ensures ok ==> Valid() && Feed(rules, old(View()), s) == Run(rules, View(), s[k..])
      ensures ok ==> k == |s| || !View().phase.InHead?
    {
      ghost var p := View();
      var before := |head|;
      head := head + s;
      var end := FindEnd(before);
      if end.None? {
        RunHead(rules, p, s);
        ok, k := |head| <= HEAD_LIMIT, |s|;
        return;
      }
      k := end.value - before;
      ghost var early := s[..k - 1];
      assert head[..end.value - 1] == p.phase.head + early && head[..end.value] == p.phase.head + early + [s[k - 1]];
      head := head[..end.value];
      ghost var q := p.(phase := InHead(p.phase.head + early));
      EndFound(rules, p, s, k);
      ok := ParseHead(q);
      ghost var next := EndHead(rules, q, p.phase.head + early + [s[k - 1]]);
      assert Run(rules, next, s[k..]).parser.phase.Failed? || ok;
    }

    method TakeFixed(s: seq<B>) returns (k: nat)
      requires Valid() && phase.TagFixed? && |s| > 0
      modifies this
      ensures 0 < k <= |s| && Valid() && Run(rules, old(View()), s) == Run(rules, View(), s[k..])
      ensures !View().phase.InHead?
    {
      k := if remaining < |s| then remaining else |s|;
      RunFixed(rules, View(), s[..k], s[k..]);
      assert s[..k] + s[k..] == s;
      body := body + s[..k];
      remaining := remaining - k;
      if remaining == 0 { phase := TagDone; }
    }

    method TakeData(s: seq<B>) returns (k: nat)
      requires Valid() && phase.TagData? && |s| > 0
      modifies this
      ensures 0 < k <= |s| && Valid() && Run(rules, old(View()), s) == Run(rules, View(), s[k..])
      ensures !View().phase.InHead?
    {
      k := if remaining < |s| then remaining else |s|;
      RunData(rules, View(), s[..k], s[k..]);
      assert s[..k] + s[k..] == s;
      body := body + s[..k];
      remaining := remaining - k;
      if remaining == 0 { phase, remaining := TagDataEnd, 2; }
    }

    /** One byte of a chunk-size or trailer line. */
    method TakeLineByte(c: B) returns (ok: bool)
      requires Valid() && (phase.TagSizeLine? || phase.TagTrailer?)
      modifies this
      ensures ok <==> !Step(rules, old(View()), c).phase.Failed?
      ensures ok ==> Valid() && View() == Step(rules, old(View()), c)
      ensures body == old(body)
    {
      if !rules.newline(c) {
        line := line + [c];
        return |line| <= LINE_LIMIT;
      }
      if phase.TagTrailer? {
        if rules.blank(line) { phase := TagDone; }
        line := [];
        return true;
      }
      var size := rules.size(line);
      if size.None? { return false; }
      line := [];
      if size.value == 0 {
        phase := TagTrailer;
      } else {
        remaining := size.value;
        phase := TagData;
      }
      return true;
    }

    /** One pass of the parsing loop over the unread bytes `s`. */
    method TakeSome(s: seq<B>) returns (k: nat, ok: bool)
      requires Valid() && !phase.TagDone? && |s| > 0
      modifies this
      ensures 0 < k <= |s|
      ensures !ok
              ==> Feed(rules, old(View()), s).parser.phase.Failed? && body == Feed(rules, old(View()), s).parser.body
      ensures ok ==> Valid() && Feed(rules, old(View()), s) == Run(rules, View(), s[k..])
      ensures ok ==> k == |s| || !View().phase.InHead?
    {
      k, ok := 1, true;
      ghost var next := Step(rules, View(), s[0]);
      assert Stopped(next) ==> Run(rules, next, s[1..]) == Left(next, s[1..]);
      match phase {
        case TagHead => k, ok := TakeHead(s);
        case TagFixed => k := TakeFixed(s);
        case TagData => k := TakeData(s);
        case TagSizeLine => ok := TakeLineByte(s[0]);
        case TagTrailer => ok := TakeLineByte(s[0]);
        case TagDataEnd =>
          remaining := remaining - 1;
          if remaining == 0 { phase := TagSizeLine; }
        case TagUntilClose =>
          RunUntilClose(rules, View(), s);
          body := body + s;
          k := |s|;
          assert s[k..] == [];
      }
    }

    /** Consumes bytes of one read; `consumed` of them belong to this response. */
    method FeedRead(data: seq<B>) returns (status: Status, consumed: nat)
      requires Valid()
      modifies this
      ensures status.Error? <==> Feed(rules, old(View()), data).parser.phase.Failed?
      ensures body == Feed(rules, old(View()), data).parser.body
      ensures !status.Error?
              ==> Valid() && consumed <= |data| && Left(View(), data[consumed..]) == Feed(rules, old(View()), data)
      ensures !status.Error? ==> (status.Complete? <==> phase.TagDone?)
    {
      ghost var goal := Feed(rules, View(), data);
      var i := 0;
      assert data[0..] == data;
      while i < |data| && !phase.TagDone?
        invariant i <= |data| && Valid() && goal == Feed(rules, View(), data[i..])
      {
        var k, ok := TakeSome(data[i..]);
        if !ok { return Error, i; }
        assert data[i..][k..] == data[i + k..];
        i := i + k;
      }
      consumed := i;
      status := if phase.TagDone? then Complete else NeedMore;
    }

    /** The connection closed: that ends a body without a length and breaks any other. */
    method FinishOnClose() returns (status: Status)
      requires Valid()
      modifies this`phase
      ensures status == if old(View()).phase.UntilClose? || old(View()).phase.Done? then Complete else Error
      ensures status.Complete? ==> Valid() && View() == old(View()).(phase := Done)
    {
      if phase.TagUntilClose? || phase.TagDone? {
        phase := TagDone;
        return Complete;
      }
      return Error;
    }
  }

  /** Parses one response out of separate reads; `rest` holds the bytes that follow it. */
  method ParseReads<B>(rules: Rules<B>, parts: seq<seq<B>>)
    returns (status: Status, head: Head, body: seq<B>, rest: seq<B>)
    ensures status.Error? <==> FeedEach(rules, Fresh(), parts).parser.phase.Failed?
    ensures var l := FeedEach(rules, Fresh(), parts);
            !status.Error? ==> && head == l.parser.head && body == l.parser.body && rest == l.rest
                               && (status.Complete? <==> l.parser.phase.Done?)
  {
    var p := new ResponseParser<B>(rules);
    status, rest := NeedMore, [];
    var i := 0;
    ghost var goal := FeedEach(rules, Fresh(), parts);
    assert parts[0..] == parts;
    while i < |parts| && status.NeedMore?
      invariant i <= |parts| && fresh(p) && p.rules == rules
      invariant status.NeedMore?
                ==> p.Valid() && !Stopped(p.View()) && rest == [] && goal == FeedEach(rules, p.View(), parts[i..])
      invariant status.Complete?
                ==> p.Valid() && p.View().phase.Done? && goal == Left(p.View(), rest + Joined(parts[i..]))
      invariant status.Error? ==> goal.parser.phase.Failed?
    {
      var k: nat;
      RunLeaves(rules, p.View(), parts[i]);
      status, k := p.FeedRead(parts[i]);
      assert parts[i..][1..] == parts[i + 1..];
      if status.Complete? { rest := parts[i][k..]; }
      i := i + 1;
    }
    var unread := Flatten(parts[i..]);
    rest := rest + unread;
    head, body := p.info, p.body;
  }

  method Flatten<B>(parts: seq<seq<B>>) returns (all: seq<B>)
    ensures all == Joined(parts)
  {
    all := [];
    var i := |parts|;
    assert parts[i..] == [];
    while i > 0
      invariant 0 <= i <= |parts| && all == Joined(parts[i..])
    {
      i := i - 1;
      assert parts[i..][1..] == parts[i + 1..];
      all := parts[i] + all;
    }
    assert parts[0..] == parts;
  }
}
