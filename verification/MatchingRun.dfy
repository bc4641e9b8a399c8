/** The matching loop seen from the market: what holds between two trades, and that the end of the loop is
    one execution. */
module MatchingRun {
  import opened Api
  import opened BookModel
  import opened Market
  import opened QueueView
  import opened MatchTheory
  import opened EngineModel

  // A matching run in progress

  /** The market after the fills so far have turned the opposite queue into q. */
  function Progress(s: State, b: nat, side: Side, id: uint64, q: seq<Order>, done: seq<Fill>): State
    requires b < |s.books|
  {
    s.(books := s.books[b := SetQueue(s.books[b], Opposite(side), q)],
       log := s.log + TradeEvents(done, s.nextTrade, s.books[b].instrumentId, id, side),
       nextTrade := s.nextTrade + |done|)
  }

  /** Matching from here on completes the matching begun with q0 and qty0. */
  ghost predicate Resumes(q0: seq<Order>, side: Side, isMarket: bool, limit: int, qty0: nat, q: seq<Order>, left: nat,
                          done: seq<Fill>) {
    var m0, m := Match(q0, side, isMarket, limit, qty0), Match(q, side, isMarket, limit, left);
    m0.rest == m.rest && m0.left == m.left && m0.fills == done + m.fills
  }

  lemma ResumeOne(q0: seq<Order>, side: Side, isMarket: bool, limit: int, qty0: nat, q: seq<Order>, left: nat,
                  done: seq<Fill>)
    requires Resumes(q0, side, isMarket, limit, qty0, q, left, done)
    requires left > 0 && |q| > 0 && q[0].open > 0 && Marketable(side, isMarket, limit, q[0].price)
    ensures var fill := Min(left, q[0].open);
      Resumes(q0, side, isMarket, limit, qty0, AfterFill(q, fill), left - fill, done +
        [Fill(q[0].id, q[0].price, fill)])
  {
    var fill := Min(left, q[0].open);
    var f := Fill(q[0].id, q[0].price, fill);
    var m := Match(AfterFill(q, fill), side, isMarket, limit, left - fill);
    assert Match(q, side, isMarket, limit, left).fills == [f] + m.fills;
    assert done + ([f] + m.fills) == (done + [f]) + m.fills;
  }

  lemma OneMoreEvent(log: seq<Event>, done: seq<Fill>, f: Fill, first: nat, inst: uint32, id: uint64, side: Side)
    ensures log + TradeEvents(done + [f], first, inst, id, side) ==
      log + TradeEvents(done, first, inst, id, side) +
        [Trade(first + |done|, inst, f.price, f.quantity, f.restingId, id, side)]
  {
    assert TradeEvents(done + [f], first, inst, id, side) ==
      TradeEvents(done, first, inst, id, side) +
        [Trade(first + |done|, inst, f.price, f.quantity, f.restingId, id, side)];
  }

  lemma ProgressOne(s: State, b: nat, side: Side, id: uint64, q: seq<Order>, done: seq<Fill>, fill: nat)
    requires b < |s.books| && |q| > 0 && fill <= q[0].open
    ensures TradeOne(Progress(s, b, side, id, q, done), b, side, id, fill) ==
      Progress(s, b, side, id, AfterFill(q, fill), done + [Fill(q[0].id, q[0].price, fill)])
  {
    hide AfterFill, TradeEvents;
    OneMoreEvent(s.log, done, Fill(q[0].id, q[0].price, fill), s.nextTrade, s.books[b].instrumentId, id, side);
  }

  /** What matching leaves alone: everything but books, records and the events; the aggressor has traded
      the difference in its open quantity. */
  ghost predicate AggressorFrame(sys: Sys, sys': Sys, b: nat, agg: uint32) {
    && b < |sys.views| == |sys'.views| && |sys'.recs| == |sys.recs| && ClosedKept(sys.recs, sys'.recs, agg)
    && IsAggressor(sys, b, agg) && IsAggressor(sys', b, agg)
    && sys' == sys.(views := sys'.views, recs := sys'.recs, log := sys'.log, nextTrade := sys'.nextTrade)
    && sys'.views == sys.views[b := sys'.views[b]]
    && sys'.views[b].instrumentId == sys.views[b].instrumentId && sys'.views[b].prices == sys.views[b].prices
    && sys'.recs[agg].openQty <= sys.recs[agg].openQty
    && sys'.recs[agg] == sys.recs[agg].(openQty := sys'.recs[agg].openQty, filledQty := sys'.recs[agg].filledQty)
    && sys'.recs[agg].filledQty + sys'.recs[agg].openQty == sys.recs[agg].filledQty + sys.recs[agg].openQty
  }

  ghost predicate CanMatch(sys: Sys, b: nat, agg: uint32, side: Side) {
    && SysOk(sys) && IsAggressor(sys, b, agg)
    && Small(Queue(Abs(sys).books[b], Opposite(side))) && Positive(Queue(Abs(sys).books[b], Opposite(side)))
  }

  /** The trades `done` were made and the opposite queue is now q. */
  ghost predicate Underway(
    sys0: Sys, sys: Sys, b: nat, agg: uint32, side: Side, isMarket: bool, limit: int, q: seq<Order>, done: seq<Fill>)
  {
    && CanMatch(sys0, b, agg, side) && SysOk(sys) && AggressorFrame(sys0, sys, b, agg) && Small(q) && Positive(q)
    && Abs(sys) == Progress(Abs(sys0), b, side, sys0.recs[agg].id, q, done)
    && Resumes(Queue(Abs(sys0).books[b], Opposite(side)), side, isMarket, limit, sys0.recs[agg].openQty,
               q, sys.recs[agg].openQty, done)
  }

  /** One execution of the market took place. */
  ghost predicate Executed(sys: Sys, sys': Sys, b: nat, agg: uint32, side: Side, isMarket: bool, limit: int) {
    && SysOk(sys) && SysOk(sys') && AggressorFrame(sys, sys', b, agg)
    && Execute(Abs(sys), b, side, isMarket, limit, sys.recs[agg].id, sys.recs[agg].openQty) ==
      (Abs(sys'), sys'.recs[agg].openQty)
  }

  lemma Begin(sys: Sys, b: nat, agg: uint32, side: Side, isMarket: bool, limit: int)
    requires CanMatch(sys, b, agg, side)
    ensures SysOk(sys) && b < |sys.views|
    ensures Underway(sys, sys, b, agg, side, isMarket, limit, Queue(Abs(sys).books[b], Opposite(side)), [])
  {
    var s, q := Abs(sys), Queue(Abs(sys).books[b], Opposite(side));
    hide SysOk, Abs;
    assert s.books[b := SetQueue(s.books[b], Opposite(side), q)] == s.books;
    assert s.log + TradeEvents([], s.nextTrade, s.books[b].instrumentId, sys.recs[agg].id, side) == s.log;
    assert [] + Match(q, side, isMarket, limit, sys.recs[agg].openQty).fills ==
      Match(q, side, isMarket, limit, sys.recs[agg].openQty).fills;
  }

  /** The opposite queue of a run under way. */
  lemma QueueNow(sys0: Sys, sys: Sys, b: nat, agg: uint32, side: Side, isMarket: bool, limit: int, q: seq<Order>,
                 done: seq<Fill>)
    requires Underway(sys0, sys, b, agg, side, isMarket, limit, q, done)
    ensures b < |sys.views| && Queue(Abs(sys).books[b], Opposite(side)) == q && IsAggressor(sys, b, agg)
    ensures sys.views[b].instrumentId == sys0.views[b].instrumentId
  {
    hide SysOk, Abs, Resumes;
  }

  /** One more trade. */
  lemma Advance(sys0: Sys, sys: Sys, sys': Sys, b: nat, agg: uint32, side: Side, isMarket: bool, limit: int,
                idx: uint32,
                q: seq<Order>, done: seq<Fill>) returns (q': seq<Order>, done': seq<Fill>)
    requires Underway(sys0, sys, b, agg, side, isMarket, limit, q, done)
    requires CanTrade(sys, b, agg, side, idx) && OneTrade(sys, sys', b, agg, side, idx)
    requires |q| > 0 && Marketable(side, isMarket, limit, q[0].price)
    ensures Underway(sys0, sys', b, agg, side, isMarket, limit, q', done')
    ensures agg < |sys'.recs| == |sys.recs| && sys'.recs[agg].openQty < sys.recs[agg].openQty
  {
    hide SysOk, Abs, Resumes, Progress, TradeOne, BookRep;
    QueueNow(sys0, sys, b, agg, side, isMarket, limit, q, done);
    var qty := sys.recs[agg].openQty;
    var fill := Min(qty, q[0].open);
    q', done' := AfterFill(q, fill), done + [Fill(q[0].id, q[0].price, fill)];
    ProgressOne(Abs(sys0), b, side, sys0.recs[agg].id, q, done, fill);
    ResumeOne(Queue(Abs(sys0).books[b], Opposite(side)), side, isMarket, limit, sys0.recs[agg].openQty, q, qty, done);
    AfterFillFacts(q, fill);
    FrameOn(sys0, sys, sys', b, agg, side, idx, fill);
  }

  lemma AfterFillFacts(q: seq<Order>, fill: nat)
    requires |q| > 0 && fill <= q[0].open && Small(q) && Positive(q)
    ensures Small(AfterFill(q, fill)) && Positive(AfterFill(q, fill))
  {
  }

  lemma FrameOn(sys0: Sys, sys: Sys, sys': Sys, b: nat, agg: uint32, side: Side, idx: uint32, fill: uint32)
    requires AggressorFrame(sys0, sys, b, agg) && FillFrame(sys, sys', b, agg, side, idx, fill)
    ensures AggressorFrame(sys0, sys', b, agg) && sys'.recs[agg].openQty == sys.recs[agg].openQty - fill
  {
  }

  /** The loop ends when the aggressor is filled or the opposite side has nothing more for it. */
  lemma Finish(sys0: Sys, sys: Sys, b: nat, agg: uint32, side: Side, isMarket: bool, limit: int, q: seq<Order>,
               done: seq<Fill>)
    requires Underway(sys0, sys, b, agg, side, isMarket, limit, q, done)
    requires sys.recs[agg].openQty == 0 || |q| == 0 || !Marketable(side, isMarket, limit, q[0].price)
    ensures Executed(sys0, sys, b, agg, side, isMarket, limit)
  {
    hide SysOk, Abs;
    var m := Match(q, side, isMarket, limit, sys.recs[agg].openQty);
    assert m.rest == q && m.fills == [] && done + m.fills == done;
  }

  /** Level idx is the best of its side and has this price and at least one order. */
  ghost predicate IsBestLevel(sys: Sys, b: nat, side: Side, idx: int, price: int) {
    && b < |sys.views| && SideOf(sys.views[b], side).best == idx
    && 0 <= idx < |sys.views[b].prices| == |SideOf(sys.views[b], side).levels| && sys.views[b].prices[idx] == price
    && SideOf(sys.views[b], side).levels[idx].head != INVALID_SLOT
  }

  /** A level that still has orders is still the best. */
  ghost predicate LevelLeft(sys: Sys, b: nat, side: Side, idx: nat, price: int) {
    && b < |sys.views| && idx < |sys.views[b].prices| == |SideOf(sys.views[b], side).levels|
    && (SideOf(sys.views[b], side).levels[idx].head != INVALID_SLOT ==> IsBestLevel(sys, b, side, idx, price))
  }

  /** What the loops read off a run under way. */
  lemma MatchFacts(sys0: Sys, sys: Sys, b: nat, agg: uint32, side: Side, isMarket: bool, limit: int, q: seq<Order>,
                   done: seq<Fill>)
    requires Underway(sys0, sys, b, agg, side, isMarket, limit, q, done)
    ensures SysOk(sys) && b < |sys.views| && agg < |sys.recs|
    ensures SideOf(sys.views[b], Opposite(side)).best >= 0 <==> |q| > 0
    ensures |q| > 0 ==>
      var idx := SideOf(sys.views[b], Opposite(side)).best;
      && LevelLeft(sys, b, Opposite(side), idx, q[0].price) && sys.views[b].prices[idx] == q[0].price
      && SideOf(sys.views[b], Opposite(side)).levels[idx].head != INVALID_SLOT
  {
    hide Abs, Resumes;
    QueueNow(sys0, sys, b, agg, side, isMarket, limit, q, done);
    BestIffOrders(sys, b, Opposite(side));
    if |q| > 0 { var slot := HeadFacts(sys, b, Opposite(side)); }
  }

  lemma TradeNow(sys0: Sys, sys: Sys, b: nat, agg: uint32, side: Side, isMarket: bool, limit: int, idx: uint32,
                 price: int,
                 q: seq<Order>, done: seq<Fill>)
    requires Underway(sys0, sys, b, agg, side, isMarket, limit, q, done)
    requires agg < |sys.recs| && sys.recs[agg].openQty > 0 && IsBestLevel(sys, b, Opposite(side), idx, price)
    ensures CanTrade(sys, b, agg, side, idx) && |q| > 0 && q[0].price == price
    ensures sys.views[b].instrumentId == sys0.views[b].instrumentId
  {
    hide Abs, Resumes, SysOk;
    QueueNow(sys0, sys, b, agg, side, isMarket, limit, q, done);
    MatchFacts(sys0, sys, b, agg, side, isMarket, limit, q, done);
  }

  lemma LevelAfter(sys: Sys, sys': Sys, b: nat, agg: uint32, side: Side, idx: uint32, price: int)
    requires CanTrade(sys, b, agg, side, idx) && OneTrade(sys, sys', b, agg, side, idx)
    requires IsBestLevel(sys, b, Opposite(side), idx, price)
    ensures SysOk(sys') && LevelLeft(sys', b, Opposite(side), idx, price)
  {
    hide Abs;
    BestIffOrders(sys', b, Opposite(side));
  }

  // The feasibility walk

  /** The walk stands at level idx, or past the last one, with `rest` still ahead. */
  ghost predicate WalkAt(sys: Sys, b: nat, side: Side, idx: int, rest: seq<Order>) {
    && SysOk(sys) && b < |sys.views|
    && (idx < 0 ==> rest == [])
    && (idx >= 0 ==> idx in SideOf(sys.views[b], side).occupied && idx < |sys.views[b].prices|
                     && rest == From(sys.views[b], sys.recs, side, idx))
  }

  lemma WalkStart(sys: Sys, b: nat, side: Side)
    requires SysOk(sys) && b < |sys.views|
    ensures WalkAt(sys, b, side, SideOf(sys.views[b], side).best, Queue(Abs(sys).books[b], side))
    ensures SideOf(sys.views[b], side).best >= 0 <==> |Queue(Abs(sys).books[b], side)| > 0
  {
    var v := sys.views[b];
    BestIffOrders(sys, b, side);
    LevelsMatch(v, sys.recs, side);
    hide BookRep, LadderOk, Orders, From;
    if SideOf(v, side).best >= 0 { NothingBefore(v, sys.recs, side, SideOf(v, side).best); }
  }

  lemma WalkHere(sys: Sys, b: nat, side: Side, idx: nat, rest: seq<Order>)
    requires WalkAt(sys, b, side, idx, rest)
    ensures idx < |sys.views[b].prices| == |SideOf(sys.views[b], side).levels|
    ensures |rest| > 0 && rest[0].price == sys.views[b].prices[idx]
  {
    LevelHead(sys.views[b], sys.recs, side, idx);
  }

  /** One level of the walk. */
  lemma WalkOneLevel(sys: Sys, b: nat, side: Side, isMarket: bool, limit: int, needed: uint32, available: uint32,
                     idx: nat,
                     next: int, rest: seq<Order>) returns (rest': seq<Order>)
    requires WalkAt(sys, b, Opposite(side), idx, rest) && |rest| > 0 && Marketable(side, isMarket, limit, rest[0].price)
    requires idx < |SideOf(sys.views[b], Opposite(side)).levels|
    requires IsNext(Opposite(side), SideOf(sys.views[b], Opposite(side)).occupied, idx, next)
    ensures WalkAt(sys, b, Opposite(side), next, rest') && |rest'| < |rest|
    ensures var sum := (available + SideOf(sys.views[b], Opposite(side)).levels[idx].totalQty) % TWO_32;
      FokWalk(rest, side, isMarket, limit, needed, available) <==>
        sum >= needed || FokWalk(rest', side, isMarket, limit, needed, sum)
  {
    hide BookRep, From, Split, FokWalk, LevelSize, LadderOk, Sum, Marketable;
    var v, opp := sys.views[b], Opposite(side);
    LevelHead(v, sys.recs, opp, idx);
    NextLevel(v, sys.recs, opp, idx, next);
    FokLevel(rest, side, isMarket, limit, needed, available);
    rest' := rest[LevelSize(rest, rest[0].price)..];
  }

  /** The walk over a queue, one level at a time. */
  lemma FokLevel(q: seq<Order>, side: Side, isMarket: bool, limit: int, needed: nat, available: nat)
    requires |q| > 0 && Marketable(side, isMarket, limit, q[0].price)
    ensures 0 < LevelSize(q, q[0].price) <= |q|
    ensures var k := LevelSize(q, q[0].price);
      var sum := (available + Sum(q[..k]) % TWO_32) % TWO_32;
      FokWalk(q, side, isMarket, limit, needed, available) <==>
        sum >= needed || FokWalk(q[k..], side, isMarket, limit, needed, sum)
  {
    WrapAdd(Sum(q[..LevelSize(q, q[0].price)]), available);
  }

  /** The walk ends at the first level that is not marketable. */
  lemma FokEnd(q: seq<Order>, side: Side, isMarket: bool, limit: int, needed: nat, available: nat)
    requires |q| == 0 || !Marketable(side, isMarket, limit, q[0].price)
    ensures FokWalk(q, side, isMarket, limit, needed, available) <==> available >= needed
  {
  }

  lemma NothingToFill(side: Side, isMarket: bool, limit: int, needed: nat)
    requires needed > 0
    ensures forall q :: |q| == 0 ==> !FokWalk(q, side, isMarket, limit, needed, 0)
  {
  }

  lemma WalkEnds(sys: Sys, b: nat, side: Side, isMarket: bool, limit: int, needed: nat, available: nat, idx: int,
                 rest: seq<Order>)
    requires WalkAt(sys, b, Opposite(side), idx, rest)
    requires idx < 0 || (|rest| > 0 && !Marketable(side, isMarket, limit, rest[0].price))
    ensures FokWalk(rest, side, isMarket, limit, needed, available) <==> available >= needed
  {
    FokEnd(rest, side, isMarket, limit, needed, available);
  }
}
