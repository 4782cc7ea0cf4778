/** One side of a level-2 book and the book's updates as operations on sorted levels (src/md/OrderBook.cpp). */
module BookLevels {
  import opened Basics

  datatype Level = Level(px: int, sz: int)

  const MAX_LEVELS: nat := 64

  /** Strictly worse than a price: lower for bids, higher for asks. */
  predicate Worse(isBid: bool, l: Level, px: int) { if isBid then l.px < px else l.px > px }

  /** Best first, no price twice. */
  ghost predicate Sorted(isBid: bool, ls: seq<Level>) {
    forall i, j :: 0 <= i < j < |ls| ==> Worse(isBid, ls[j], ls[i].px)
  }

  /** The levels strictly worse than a price, in order. */
  function Beyond(isBid: bool, ls: seq<Level>, px: int): (r: seq<Level>)
    ensures |r| <= |ls|
  {
    if ls == [] then []
    else
      var r := Beyond(isBid, ls[..|ls| - 1], px);
      if Worse(isBid, ls[|ls| - 1], px) then r + [ls[|ls| - 1]] else r
  }

  function Cut(ls: seq<Level>): (r: seq<Level>)
    ensures |r| <= MAX_LEVELS && r <= ls
  {
    if |ls| <= MAX_LEVELS then ls else ls[..MAX_LEVELS]
  }

  predicate Better(isBid: bool, l: Level, px: int) { if isBid then l.px > px else l.px < px }

  /** How many leading levels are strictly better than a price. */
  function Lead(isBid: bool, ls: seq<Level>, px: int): (n: nat)
    ensures n <= |ls|
  {
    if ls != [] && Better(isBid, ls[0], px) then 1 + Lead(isBid, ls[1..], px) else 0
  }

  /** What stays under a new best price: the levels after the better ones, without the one at that price. */
  function Under(isBid: bool, ls: seq<Level>, px: int): seq<Level> {
    var n := Lead(isBid, ls, px);
    if n < |ls| && ls[n].px == px then ls[n + 1..] else ls[n..]
  }

  function Overlay(isBid: bool, ls: seq<Level>, best: Level): seq<Level> {
    Cut([best] + Under(isBid, ls, best.px))
  }

  // ── what these keep ─────────────────────────────────────────────────────────

  ghost predicate AllWorse(isBid: bool, ls: seq<Level>, px: int) {
    forall i :: 0 <= i < |ls| ==> Worse(isBid, ls[i], px)
  }

  lemma {:induction false} BeyondIsWorse(isBid: bool, ls: seq<Level>, px: int)
    ensures AllWorse(isBid, Beyond(isBid, ls, px), px)
  {
    if ls != [] { BeyondIsWorse(isBid, ls[..|ls| - 1], px); }
  }

  /** Nothing strictly worse is lost. */
  lemma {:induction false} BeyondIsComplete(isBid: bool, ls: seq<Level>, px: int, l: Level)
    ensures l in Beyond(isBid, ls, px) <==> l in ls && Worse(isBid, l, px)
  {
    if ls != [] {
      BeyondIsComplete(isBid, ls[..|ls| - 1], px, l);
      assert l in ls <==> l in ls[..|ls| - 1] || l == ls[|ls| - 1] by { assert ls == ls[..|ls| - 1] + [ls[|ls| - 1]]; }
    }
  }

  lemma KeptIsOld(isBid: bool, ls: seq<Level>, px: int, i: nat) returns (k: nat)
    requires i < |Beyond(isBid, ls, px)|
    ensures k < |ls| && ls[k] == Beyond(isBid, ls, px)[i]
  {
    var l := Beyond(isBid, ls, px)[i];
    BeyondIsComplete(isBid, ls, px, l);
    assert l in Beyond(isBid, ls, px);
    k :| 0 <= k < |ls| && ls[k] == l;
  }

  lemma {:induction false} BeyondSorted(isBid: bool, ls: seq<Level>, px: int)
    requires Sorted(isBid, ls)
    ensures Sorted(isBid, Beyond(isBid, ls, px))
  {
    if ls != [] {
      var front, last := ls[..|ls| - 1], ls[|ls| - 1];
      BeyondSorted(isBid, front, px);
      var r := Beyond(isBid, front, px);
      forall i | 0 <= i < |r| ensures Worse(isBid, last, r[i].px) {
        var k := KeptIsOld(isBid, front, px, i);
        assert ls[k] == r[i];
      }
    }
  }

  /** On sorted levels a new best leaves everything strictly worse under it. */
  lemma OverlaySorted(isBid: bool, ls: seq<Level>, best: Level)
    requires Sorted(isBid, ls)
    ensures Overlay(isBid, ls, best) == Cut([best] + Beyond(isBid, ls, best.px))
    ensures Sorted(isBid, Overlay(isBid, ls, best)) && Overlay(isBid, ls, best)[0] == best
  {
    var r := Beyond(isBid, ls, best.px);
    UnderSorted(isBid, ls, best.px);
    BeyondSorted(isBid, ls, best.px);
    BeyondIsWorse(isBid, ls, best.px);
    ConsSorted(isBid, best, r);
    assert forall i :: 0 <= i < |Cut([best] + r)| ==> Cut([best] + r)[i] == ([best] + r)[i];
  }

  lemma {:induction false} LeadSplits(isBid: bool, ls: seq<Level>, px: int)
    ensures var n := Lead(isBid, ls, px);
            && (forall i :: 0 <= i < n ==> Better(isBid, ls[i], px))
            && (n < |ls| ==> !Better(isBid, ls[n], px))
  {
    if ls != [] && Better(isBid, ls[0], px) {
      LeadSplits(isBid, ls[1..], px);
      assert forall i :: 0 < i < |ls| ==> ls[i] == ls[1..][i - 1];
    }
  }

  lemma UnderSorted(isBid: bool, ls: seq<Level>, px: int)
    requires Sorted(isBid, ls)
    ensures Under(isBid, ls, px) == Beyond(isBid, ls, px)
  {
    var n := Lead(isBid, ls, px);
    LeadSplits(isBid, ls, px);
    if n < |ls| && ls[n].px == px {
      BeyondIsSuffix(isBid, ls, px, n + 1);
    } else {
      forall i | n <= i < |ls| ensures Worse(isBid, ls[i], px) { assert i > n ==> Worse(isBid, ls[i], ls[n].px); }
      BeyondIsSuffix(isBid, ls, px, n);
    }
  }

  lemma ConsSorted(isBid: bool, best: Level, r: seq<Level>)
    requires Sorted(isBid, r) && AllWorse(isBid, r, best.px)
    ensures Sorted(isBid, [best] + r)
  {
    var t := [best] + r;
    forall i, j | 0 <= i < j < |t| ensures Worse(isBid, t[j], t[i].px) {
      assert t[j] == r[j - 1];
      if i > 0 { assert t[i] == r[i - 1]; }
    }
  }

  /** On sorted levels the strictly worse ones are those after the first `drop`. */
  lemma {:induction false} BeyondIsSuffix(isBid: bool, ls: seq<Level>, px: int, drop: nat)
    requires drop <= |ls|
    requires forall i :: 0 <= i < drop ==> !Worse(isBid, ls[i], px)
    requires forall i :: drop <= i < |ls| ==> Worse(isBid, ls[i], px)
    ensures Beyond(isBid, ls, px) == ls[drop..]
  {
    if ls != [] {
      var front := ls[..|ls| - 1];
      if drop == |ls| {
        BeyondIsSuffix(isBid, front, px, drop - 1);
        assert ls[drop..] == [] && front[drop - 1..] == [];
      } else {
        BeyondIsSuffix(isBid, front, px, drop);
        assert ls[drop..] == front[drop..] + [ls[|ls| - 1]];
      }
    }
  }

  // ── the book ────────────────────────────────────────────────────────────────

  datatype Book = Book(bids: seq<Level>, asks: seq<Level>, time: int, snapshotTime: int)

  datatype Event =
    | Snapshot(bids: seq<Level>, asks: seq<Level>, time: int)
    | Bbo(bid: Option<Level>, ask: Option<Level>, time: int)
    | Clear

  function Side(isBid: bool, ls: seq<Level>, best: Option<Level>, other: Option<Level>): seq<Level> {
    var top := if best.Some? then Overlay(isBid, ls, best.value) else [];
    if other.Some? then Beyond(isBid, top, other.value.px) else top
  }

  function Step(b: Book, e: Event): Book {
    match e
    case Snapshot(bids, asks, time) => Book(Cut(bids), Cut(asks), time, time)
    case Clear => b.(bids := [], asks := [])
    case Bbo(bid, ask, time) =>
      if time < b.snapshotTime then b
      else Book(Side(true, b.bids, bid, ask), Side(false, b.asks, ask, bid), time, b.snapshotTime)
  }

  /** Which moment the book shows: that of the last snapshot or current update; only a snapshot makes updates stale. */
  lemma Clock(b: Book, e: Event)
    ensures var n := Step(b, e);
            && (e.Snapshot? ==> n.time == n.snapshotTime == e.time)
            && (!e.Snapshot? ==> n.snapshotTime == b.snapshotTime)
            && (e.Bbo? ==> n.time == if e.time < b.snapshotTime then b.time else e.time)
            && (e.Clear? ==> n.time == b.time && n.bids == [] && n.asks == [])
            && |n.bids| <= if e.Clear? || (e.Bbo? && e.time < b.snapshotTime) then |b.bids| else 64
  {}

  function Run(b: Book, es: seq<Event>): Book {
    if es == [] then b else Step(Run(b, es[..|es| - 1]), es[|es| - 1])
  }

  /** Sorted, bounded and uncrossed. */
  ghost predicate Sound(b: Book) {
    && Sorted(true, b.bids) && Sorted(false, b.asks) && |b.bids| <= MAX_LEVELS && |b.asks| <= MAX_LEVELS
    && Uncrossed(b.bids, b.asks)
  }

  ghost predicate Uncrossed(bids: seq<Level>, asks: seq<Level>) {
    forall i, j :: 0 <= i < |bids| && 0 <= j < |asks| ==> bids[i].px < asks[j].px
  }

  /** A snapshot's first levels are sorted and do not cross. */
  ghost predicate ProperEvent(e: Event) {
    e.Snapshot? ==> Sound(Book(Cut(e.bids), Cut(e.asks), 0, 0))
  }

  /** No better than a price. */
  predicate Within(isBid: bool, l: Level, px: int) { if isBid then l.px <= px else l.px >= px }

  ghost predicate AllWithin(isBid: bool, ls: seq<Level>, px: int) {
    forall i :: 0 <= i < |ls| ==> Within(isBid, ls[i], px)
  }

  lemma SideSorted(isBid: bool, ls: seq<Level>, best: Option<Level>, other: Option<Level>)
    requires Sorted(isBid, ls)
    ensures var r := Side(isBid, ls, best, other);
            && Sorted(isBid, r) && |r| <= MAX_LEVELS
            && (other.Some? ==> AllWorse(isBid, r, other.value.px))
            && (best.Some? ==> AllWithin(isBid, r, best.value.px))
            && (best.None? ==> r == [])
  {
    if best.Some? {
      OverlaySorted(isBid, ls, best.value);
      var top := Overlay(isBid, ls, best.value);
      TopWithin(isBid, top);
      if other.Some? {
        BeyondSorted(isBid, top, other.value.px);
        BeyondIsWorse(isBid, top, other.value.px);
        var r := Beyond(isBid, top, other.value.px);
        forall i | 0 <= i < |r| ensures Within(isBid, r[i], best.value.px) {
          var k := KeptIsOld(isBid, top, other.value.px, i);
        }
      }
    }
  }

  lemma TopWithin(isBid: bool, top: seq<Level>)
    requires top != [] && Sorted(isBid, top)
    ensures AllWithin(isBid, top, top[0].px)
  {
    forall i | 0 <= i < |top| ensures Within(isBid, top[i], top[0].px) {
      if i > 0 { assert Worse(isBid, top[i], top[0].px); }
    }
  }

  /** A locked or crossed update resolves to an uncrossed book. */
  lemma BboUncrosses(b: Book, bid: Option<Level>, ask: Option<Level>)
    requires Sorted(true, b.bids) && Sorted(false, b.asks)
    ensures Uncrossed(Side(true, b.bids, bid, ask), Side(false, b.asks, ask, bid))
  {
    SideSorted(true, b.bids, bid, ask);
    SideSorted(false, b.asks, ask, bid);
  }

  /** Exactly the improper snapshots unmake a sound book. */
  lemma StepKeepsSound(b: Book, e: Event)
    requires Sound(b)
    ensures Sound(Step(b, e)) <==> ProperEvent(e)
  {
    if e.Bbo? {
      SideSorted(true, b.bids, e.bid, e.ask);
      SideSorted(false, b.asks, e.ask, e.bid);
      BboUncrosses(b, e.bid, e.ask);
    }
  }

  /** Sound at the start and after every event. */
  ghost predicate AlwaysSound(b: Book, es: seq<Event>) {
    if es == [] then Sound(b) else AlwaysSound(b, es[..|es| - 1]) && Sound(Run(b, es))
  }

  ghost predicate AllProper(es: seq<Event>) { forall i :: 0 <= i < |es| ==> ProperEvent(es[i]) }

  lemma AllProperSnoc(es: seq<Event>)
    requires es != []
    ensures AllProper(es) <==> AllProper(es[..|es| - 1]) && ProperEvent(es[|es| - 1])
  {
    assert forall i :: 0 <= i < |es| - 1 ==> es[i] == es[..|es| - 1][i];
  }

  /**
    * Over every run of snapshots, best-price updates and clears: the book stays sorted, bounded and uncrossed
    * throughout exactly when no snapshot brings unsorted or crossed levels among its first 64.
    */
  lemma {:induction false} RunKeepsSound(b: Book, es: seq<Event>)
    requires Sound(b)
    ensures AlwaysSound(b, es) <==> AllProper(es)
    ensures AllProper(es) ==> Sound(Run(b, es))
  {
    if es != [] {
      RunKeepsSound(b, es[..|es| - 1]);
      AllProperSnoc(es);
      if AllProper(es[..|es| - 1]) { StepKeepsSound(Run(b, es[..|es| - 1]), es[|es| - 1]); }
    }
  }

  /** Whatever came before, one proper snapshot or a clear makes the book sound again. */
  lemma {:induction false} RunRecovers(b: Book, es: seq<Event>)
    requires es != [] && !es[0].Bbo? && AllProper(es)
    ensures Sound(Run(b, es))
  {
    AllProperSnoc(es);
    if |es| == 1 {
      assert es[..0] == [] && Run(b, []) == b;
    } else {
      RunRecovers(b, es[..|es| - 1]);
      StepKeepsSound(Run(b, es[..|es| - 1]), es[|es| - 1]);
    }
  }

  /** An uncrossed update puts its best prices on top, whatever the book held. */
  lemma BboIsOnTop(b: Book, bid: Level, ask: Level, time: int)
    requires bid.px < ask.px && time >= b.snapshotTime
    ensures var n := Step(b, Bbo(Some(bid), Some(ask), time));
            n.bids != [] && n.bids[0] == bid && n.asks != [] && n.asks[0] == ask
  {
    FirstBeyond(true, Overlay(true, b.bids, bid), ask.px);
    FirstBeyond(false, Overlay(false, b.asks, ask), bid.px);
  }

  /** Both sides hold levels and the best prices do not cross. */
  predicate IsValid(b: Book) { b.bids != [] && b.asks != [] && b.bids[0].px < b.asks[0].px }

  /** A level of a sorted side is left under a best price that crosses `other`. */
  ghost predicate Remains(isBid: bool, ls: seq<Level>, best: int, other: int) {
    exists i :: 0 <= i < |ls| && Worse(isBid, ls[i], other) && (i < MAX_LEVELS - 1 || !Worse(isBid, ls[0], best))
  }

  /** The best price reaches the other side's. */
  predicate Crosses(isBid: bool, best: int, other: int) { if isBid then best >= other else best <= other }

  lemma LeftUnder(isBid: bool, ls: seq<Level>, best: Level, other: Level)
    requires Sorted(isBid, ls) && |ls| <= MAX_LEVELS && Crosses(isBid, best.px, other.px)
    ensures Side(isBid, ls, Some(best), Some(other)) != [] <==> Remains(isBid, ls, best.px, other.px)
  {
    if Remains(isBid, ls, best.px, other.px) {
      var i :| 0 <= i < |ls| && Worse(isBid, ls[i], other.px) && (i < MAX_LEVELS - 1 || !Worse(isBid, ls[0], best.px));
      InOverlay(isBid, ls, best, i);
      BeyondIsComplete(isBid, Overlay(isBid, ls, best), other.px, ls[i]);
    }
    if Side(isBid, ls, Some(best), Some(other)) != [] {
      var k := KeptIsOld(isBid, Overlay(isBid, ls, best), other.px, 0);
      BeyondIsWorse(isBid, Overlay(isBid, ls, best), other.px);
      var i := FromOverlay(isBid, ls, best, k);
    }
  }

  lemma InOverlay(isBid: bool, ls: seq<Level>, best: Level, i: nat)
    requires Sorted(isBid, ls) && i < |ls| <= MAX_LEVELS && Worse(isBid, ls[i], best.px)
    requires i < MAX_LEVELS - 1 || !Worse(isBid, ls[0], best.px)
    ensures ls[i] in Overlay(isBid, ls, best)
  {
    OverlaySorted(isBid, ls, best);
    BeyondIsTail(isBid, ls, best.px);
    var top, drop := Overlay(isBid, ls, best), |ls| - |Beyond(isBid, ls, best.px)|;
    assert top[1 + (i - drop)] == ([best] + ls[drop..])[1 + (i - drop)] == ls[i];
  }

  lemma FromOverlay(isBid: bool, ls: seq<Level>, best: Level, k: nat) returns (i: nat)
    requires Sorted(isBid, ls) && |ls| <= MAX_LEVELS && 0 < k < |Overlay(isBid, ls, best)|
    ensures i < |ls| && ls[i] == Overlay(isBid, ls, best)[k] && (i < MAX_LEVELS - 1 || !Worse(isBid, ls[0], best.px))
  {
    OverlaySorted(isBid, ls, best);
    BeyondIsTail(isBid, ls, best.px);
    var drop := |ls| - |Beyond(isBid, ls, best.px)|;
    i := drop + (k - 1);
    assert Overlay(isBid, ls, best)[k] == ([best] + ls[drop..])[k] == ls[i];
  }

  /** On sorted levels those strictly worse than a price come last, after the others. */
  lemma BeyondIsTail(isBid: bool, ls: seq<Level>, px: int)
    requires Sorted(isBid, ls)
    ensures var drop := |ls| - |Beyond(isBid, ls, px)|;
            && Beyond(isBid, ls, px) == ls[drop..]
            && forall i :: 0 <= i < |ls| ==> (Worse(isBid, ls[i], px) <==> i >= drop)
  {
    var n := Lead(isBid, ls, px);
    LeadSplits(isBid, ls, px);
    var drop := if n < |ls| && ls[n].px == px then n + 1 else n;
    forall i | drop <= i < |ls| ensures Worse(isBid, ls[i], px) { assert i > n ==> Worse(isBid, ls[i], ls[n].px); }
    BeyondIsSuffix(isBid, ls, px, drop);
  }

  /** The update makes a book valid by itself. */
  predicate Restores(e: Event, snapshotTime: int) {
    e.Bbo? && e.time >= snapshotTime && e.bid.Some? && e.ask.Some? && e.bid.value.px < e.ask.value.px
  }

  /**
    * Validity after an update of a sound book: as before if the update is stale; otherwise both best prices are given,
    * and either they do not cross or levels are left under both.
    */
  lemma ValidAfterBbo(b: Book, e: Event)
    requires Sound(b) && e.Bbo?
    ensures IsValid(Step(b, e)) <==>
            if e.time < b.snapshotTime then IsValid(b)
            else && e.bid.Some? && e.ask.Some?
                 && (|| e.bid.value.px < e.ask.value.px
                     || (&& Remains(true, b.bids, e.bid.value.px, e.ask.value.px)
                         && Remains(false, b.asks, e.ask.value.px, e.bid.value.px)))
  {
    if e.time >= b.snapshotTime {
      BboUncrosses(b, e.bid, e.ask);
      if e.bid.Some? && e.ask.Some? {
        if e.bid.value.px < e.ask.value.px {
          BboIsOnTop(b, e.bid.value, e.ask.value, e.time);
        } else {
          LeftUnder(true, b.bids, e.bid.value, e.ask.value);
          LeftUnder(false, b.asks, e.ask.value, e.bid.value);
        }
      } else {
        OneSidedIsInvalid(b, e);
      }
    }
  }

  /** Whatever the book held, a one-sided update leaves a side empty. */
  lemma OneSidedIsInvalid(b: Book, e: Event)
    requires e.Bbo? && e.time >= b.snapshotTime && (e.bid.None? || e.ask.None?)
    ensures Step(b, e).bids == [] || Step(b, e).asks == []
  {
    assert Beyond(true, [], 0) == [] && Beyond(false, [], 0) == [];
  }

  predicate HasEmptySide(b: Book) { b.bids == [] || b.asks == [] }

  /** Without a snapshot a book with an empty side becomes valid by an uncrossed two-sided update, and only by one. */
  lemma EmptySideFills(b: Book, e: Event)
    requires HasEmptySide(b) && !e.Snapshot?
    ensures IsValid(Step(b, e)) <==> Restores(e, b.snapshotTime)
    ensures !Restores(e, b.snapshotTime) ==> HasEmptySide(Step(b, e))
  {
    if e.Bbo? && e.time >= b.snapshotTime {
      if e.bid.None? || e.ask.None? {
        OneSidedIsInvalid(b, e);
      } else if e.bid.value.px < e.ask.value.px {
        BboIsOnTop(b, e.bid.value, e.ask.value, e.time);
      } else {
        CrossedEmpties(true, e.bid.value, e.ask.value);
        CrossedEmpties(false, e.ask.value, e.bid.value);
      }
    }
  }

  /** On an empty side a best price that crosses the other leaves nothing. */
  lemma CrossedEmpties(isBid: bool, best: Level, other: Level)
    requires Crosses(isBid, best.px, other.px)
    ensures Side(isBid, [], Some(best), Some(other)) == []
  {
    assert Overlay(isBid, [], best) == [best];
    assert [best][..0] == [] && Beyond(isBid, [], other.px) == [];
  }

  /** Invalid at the start and after every event. */
  ghost predicate NeverValid(b: Book, es: seq<Event>) {
    if es == [] then !IsValid(b) else NeverValid(b, es[..|es| - 1]) && !IsValid(Run(b, es))
  }

  predicate NoneRestores(es: seq<Event>, snapshotTime: int) {
    es == [] || (NoneRestores(es[..|es| - 1], snapshotTime) && !Restores(es[|es| - 1], snapshotTime))
  }

  /**
    * Over every run without a snapshot a book with an empty side stays invalid throughout if and only if no event
    * restores it.
    */
  lemma {:induction false} InvalidUntilRestored(b: Book, es: seq<Event>)
    requires HasEmptySide(b) && forall i :: 0 <= i < |es| ==> !es[i].Snapshot?
    ensures NeverValid(b, es) <==> NoneRestores(es, b.snapshotTime)
    ensures NoneRestores(es, b.snapshotTime) ==> HasEmptySide(Run(b, es))
    ensures Run(b, es).snapshotTime == b.snapshotTime
  {
    if es != [] {
      var front := es[..|es| - 1];
      InvalidUntilRestored(b, front);
      if NoneRestores(front, b.snapshotTime) { EmptySideFills(Run(b, front), es[|es| - 1]); }
    }
  }

  lemma {:induction false} FirstBeyond(isBid: bool, ls: seq<Level>, px: int)
    requires ls != [] && Worse(isBid, ls[0], px)
    ensures Beyond(isBid, ls, px) != [] && Beyond(isBid, ls, px)[0] == ls[0]
  {
    if |ls| > 1 { FirstBeyond(isBid, ls[..|ls| - 1], px); } else { assert ls[..0] == []; }
  }
}
