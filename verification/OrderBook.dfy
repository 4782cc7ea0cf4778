/** The book object of src/md/OrderBook.cpp: two fixed arrays of levels changed in place. */
module OrderBook {
  import opened Basics
  import opened BookLevels

  /** Moves `n` levels from `from` to `to` within the array. */
  method MoveLevels(a: array<Level>, to: nat, from: nat, n: nat)
    requires to + n <= a.Length && from + n <= a.Length
    modifies a
    ensures a[to..to + n] == old(a[from..from + n])
    ensures forall i :: 0 <= i < to || to + n <= i < a.Length ==> a[i] == old(a[i])
  {
    forall i | to <= i < to + n { a[i] := a[from + (i - to)]; }
  }

  method OverlayTop(levels: array<Level>, count: nat, best: Level, isBid: bool) returns (kept: nat)
    requires levels.Length == MAX_LEVELS && count <= MAX_LEVELS
    modifies levels
    ensures kept <= MAX_LEVELS && levels[..kept] == Overlay(isBid, old(levels[..count]), best)
  {
    ghost var before := levels[..count];
    var drop := 0;
    assert before[0..] == before;
    while drop < count && (if isBid then levels[drop].px > best.px else levels[drop].px < best.px)
      invariant drop <= count && Lead(isBid, before, best.px) == drop + Lead(isBid, before[drop..], best.px)
    {
      assert before[drop..][1..] == before[drop + 1..] && before[drop..][0] == levels[drop];
      drop := drop + 1;
    }
    assert Lead(isBid, before, best.px) == drop by { assert drop < count ==> before[drop..][0] == levels[drop]; }
    if drop < count && levels[drop].px == best.px {
      kept := ResizeTop(levels, count, drop, best);
    } else {
      kept := InsertTop(levels, count, drop, best);
    }
  }

  /** Replaces the first `drop` levels by the new best. */
  method InsertTop(levels: array<Level>, count: nat, drop: nat, best: Level) returns (kept: nat)
    requires levels.Length == MAX_LEVELS && drop <= count <= MAX_LEVELS
    modifies levels
    ensures kept <= MAX_LEVELS && levels[..kept] == Cut([best] + old(levels[..count])[drop..])
  {
    ghost var before := levels[..count];
    if drop == 0 {
      assert before[0..] == before;
      kept := ShiftTop(levels, count, best);
    } else {
      if drop > 1 { MoveLevels(levels, 1, drop, count - drop); }
      kept := count - (drop - 1);
      PutTop(levels, best, kept, before[drop..]);
    }
  }

  /** Makes room at the top; the last level falls off a full side. */
  method ShiftTop(levels: array<Level>, count: nat, best: Level) returns (kept: nat)
    requires levels.Length == MAX_LEVELS && count <= MAX_LEVELS
    modifies levels
    ensures kept <= MAX_LEVELS && levels[..kept] == Cut([best] + old(levels[..count]))
  {
    ghost var before := levels[..count];
    var keep := if count < MAX_LEVELS - 1 then count else MAX_LEVELS - 1;
    assert levels[0..keep] == before[..keep];
    MoveLevels(levels, 1, 0, keep);
    kept := keep + 1;
    PutTop(levels, best, kept, before[..keep]);
    CutTop(best, before, keep);
  }

  lemma CutTop(best: Level, ls: seq<Level>, keep: nat)
    requires keep == if |ls| < MAX_LEVELS - 1 then |ls| else MAX_LEVELS - 1
    ensures [best] + ls[..keep] == Cut([best] + ls)
  {}

  method PutTop(levels: array<Level>, best: Level, kept: nat, ghost rest: seq<Level>)
    requires 0 < kept <= levels.Length && levels[1..kept] == rest
    modifies levels
    ensures levels[..kept] == [best] + rest
  {
    levels[0] := best;
    assert levels[..kept] == [best] + levels[1..kept];
  }

  /** Brings the level at `drop` to the top with its new size. */
  method ResizeTop(levels: array<Level>, count: nat, drop: nat, best: Level) returns (kept: nat)
    requires levels.Length == MAX_LEVELS && drop < count <= MAX_LEVELS
    modifies levels
    ensures kept <= MAX_LEVELS && levels[..kept] == Cut([best] + old(levels[..count])[drop + 1..])
  {
    ghost var before := levels[..count];
    kept := count;
    if drop != 0 {
      MoveLevels(levels, 0, drop, count - drop);
      kept := count - drop;
      assert levels[0..kept] == before[drop..];
    }
    assert levels[1..kept] == before[drop + 1..];
    levels[0] := best;
    assert levels[..kept] == [best] + levels[1..kept];
  }

  /** Keeps, in place, the levels that do not cross `limit`. */
  method DropCrossing(levels: array<Level>, count: nat, limit: int, isBid: bool) returns (kept: nat)
    requires count <= levels.Length
    modifies levels
    ensures kept <= count && levels[..kept] == Beyond(isBid, old(levels[..count]), limit)
  {
    ghost var before := levels[..count];
    kept := 0;
    var i := 0;
    while i < count
      invariant kept <= i <= count && levels[..kept] == Beyond(isBid, before[..i], limit)
      invariant forall j :: i <= j < count ==> levels[j] == before[j]
    {
      assert before[..i + 1][..i] == before[..i];
      var crosses := if isBid then levels[i].px >= limit else levels[i].px <= limit;
      if !crosses {
        levels[kept] := levels[i];
        kept := kept + 1;
        assert levels[..kept] == levels[..kept - 1] + [before[i]];
      }
      i := i + 1;
    }
    assert before[..count] == before;
  }

  lemma BboKeepsSound(was: Book, now: Book, bid: Option<Level>, ask: Option<Level>, time: int)
    requires now == Step(was, Bbo(bid, ask, time))
    ensures Sound(was) ==> Sound(now)
  {
    if Sound(was) { StepKeepsSound(was, Bbo(bid, ask, time)); }
  }

  class L2Book {
    const bids: array<Level>
    const asks: array<Level>
    var bidCount: nat
    var askCount: nat
    var timeMs: int
    var snapshotTimeMs: int
    var updates: nat

    ghost predicate Valid()
      reads this
    {
      && bids != asks && bids.Length == MAX_LEVELS && asks.Length == MAX_LEVELS
      && bidCount <= MAX_LEVELS && askCount <= MAX_LEVELS
    }

    ghost function View(): Book
      reads this, bids, asks
      requires bidCount <= bids.Length && askCount <= asks.Length
    {
      Book(bids[..bidCount], asks[..askCount], timeMs, snapshotTimeMs)
    }

    constructor ()
      ensures Valid() && View() == Book([], [], 0, 0) && fresh(bids) && fresh(asks)
    {
      bids := new Level[MAX_LEVELS](_ => Level(0, 0));
      asks := new Level[MAX_LEVELS](_ => Level(0, 0));
      bidCount, askCount, timeMs, snapshotTimeMs, updates := 0, 0, 0, 0, 0;
    }

    method CopyLevels(src: seq<Level>, dst: array<Level>) returns (n: nat)
      requires dst.Length == MAX_LEVELS
      modifies dst
      ensures n <= MAX_LEVELS && dst[..n] == Cut(src)
    {
      n := if |src| < MAX_LEVELS then |src| else MAX_LEVELS;
      forall i | 0 <= i < n { dst[i] := src[i]; }
      assert dst[..n] == src[..n];
    }

    method ApplySnapshot(bidLevels: seq<Level>, askLevels: seq<Level>, time: int)
      requires Valid()
      modifies this, bids, asks
      ensures Valid() && View() == Step(old(View()), Snapshot(bidLevels, askLevels, time))
      ensures Sound(View()) <==> ProperEvent(Snapshot(bidLevels, askLevels, time))
      ensures updates == old(updates) + 1
    {
      bidCount := CopyLevels(bidLevels, bids);
      askCount := CopyLevels(askLevels, asks);
      timeMs, snapshotTimeMs := time, time;
      updates := updates + 1;
    }

    method ApplySide(levels: array<Level>, count: nat, best: Option<Level>, isBid: bool) returns (kept: nat)
      requires levels.Length == MAX_LEVELS && count <= MAX_LEVELS
      modifies levels
      ensures kept <= MAX_LEVELS && levels[..kept] == Side(isBid, old(levels[..count]), best, None)
    {
      if best.Some? {
        kept := OverlayTop(levels, count, best.value, isBid);
      } else {
        kept := 0;
      }
    }

    method Uncross(levels: array<Level>, count: nat, other: Option<Level>, isBid: bool) returns (kept: nat)
      requires count <= levels.Length
      modifies levels
      ensures kept <= count
      ensures levels[..kept] == if other.Some? then Beyond(isBid, old(levels[..count]), other.value.px)
                                else old(levels[..count])
    {
      kept := count;
      if other.Some? { kept := DropCrossing(levels, count, other.value.px, isBid); }
    }

    /** Overlays both tops, then drops what either new top crosses. */
    method UpdateLevels(bid: Option<Level>, ask: Option<Level>)
      requires Valid()
      modifies this`bidCount, this`askCount, bids, asks
      ensures Valid()
      ensures bids[..bidCount] == Side(true, old(bids[..bidCount]), bid, ask)
      ensures asks[..askCount] == Side(false, old(asks[..askCount]), ask, bid)
    {
      bidCount := ApplySide(bids, bidCount, bid, true);
      askCount := ApplySide(asks, askCount, ask, false);
      bidCount := Uncross(bids, bidCount, ask, true);
      askCount := Uncross(asks, askCount, bid, false);
    }

    method ApplyBbo(bid: Option<Level>, ask: Option<Level>, time: int) returns (applied: bool)
      requires Valid()
      modifies this, bids, asks
      ensures Valid() && View() == Step(old(View()), Bbo(bid, ask, time))
      ensures applied <==> time >= old(snapshotTimeMs)
      ensures old(Sound(View())) ==> Sound(View())
      ensures updates == old(updates) + (if applied then 1 else 0)
    {
      if time < snapshotTimeMs { return false; }
      ghost var was := View();
      UpdateLevels(bid, ask);
      timeMs := time;
      updates := updates + 1;
      applied := true;
      BboKeepsSound(was, View(), bid, ask, time);
    }

    method Empty()
      requires Valid()
      modifies this`bidCount, this`askCount
      ensures Valid() && View() == Step(old(View()), Clear) && Sound(View())
    {
      bidCount, askCount := 0, 0;
    }
  }
}
