/** The matching engine: order entry, cancellation and replacement over shared storage, refining the market. */
module Engine {
  import opened Api
  import opened TickTable
  import opened OrderPool
  import opened Fifo
  import opened BookModel
  import opened Market
  import opened QueueView
  import opened MarketInvariant
  import opened EngineModel
  import opened MatchingRun
  import opened MarketRun
  import opened MarketLaws
  import opened RequestModel
  import opened Configuration
  import opened NaiveView
  import M = Market
  import opened Band
  import B = OrderBook
  import FlatHashMap

  /** Order slots the index is sized for at configuration. */
  const ORDER_CAPACITY: nat := 0x100_0000

  class Engine {
    const mix: uint64 -> uint64
    var configured: bool
    var orderIndex: FlatHashMap.FlatHashMap
    var instrumentIndex: FlatHashMap.FlatHashMap
    var pool: OrderPool
    var books: seq<B.OrderBook>
    var nextTradeId: nat
    /** The events delivered to the listener so far. */
    var log: seq<Event>
    /** The total quantity last requested for each accepted id. */
    ghost var asked: map<uint64, nat>
    /** The current view of each book. */
    ghost var views: seq<BookView>
    /** The objects the books are made of. */
    ghost var bookObjects: set<object>

    ghost function Snap(): Sys
      reads this, pool, orderIndex, instrumentIndex
    {
      Sys(configured, instrumentIndex.Contents(), orderIndex.Contents(), views, pool.recs, asked, nextTradeId, log)
    }

    /** The objects are separate and `views` shows the books. */
    ghost predicate Heap()
      reads this`books, this`views, this`bookObjects, this`pool, this`orderIndex, this`instrumentIndex
      reads orderIndex, instrumentIndex, bookObjects
    {
      && orderIndex != instrumentIndex && orderIndex.Valid() && instrumentIndex.Valid()
      && this !in bookObjects && pool !in bookObjects && orderIndex !in bookObjects && instrumentIndex !in bookObjects
      && |views| == |books|
      && (forall i :: 0 <= i < |books| ==>
            books[i] in bookObjects && books[i].Repr() <= bookObjects && books[i].Shape() &&
              books[i].View() == views[i])
      && (forall i, j :: 0 <= i < j < |books| ==> books[i].Repr() !! books[j].Repr())
    }

    ghost predicate Standing()
      reads this, pool, orderIndex, instrumentIndex, bookObjects
    {
      Heap() && SysOk(Snap())
    }

    /** The market this engine stands for. */
    ghost function Market(): State
      reads this, pool, orderIndex, instrumentIndex, bookObjects
      requires Standing()
    {
      Abs(Snap())
    }

    ghost predicate Valid()
      reads this, pool, orderIndex, instrumentIndex, bookObjects
    {
      Standing() && Inv(Market())
    }

    /** An engine that awaits its configuration. */
    constructor (mix: uint64 -> uint64)
      ensures Heap() && Snap() == EMPTY_SYS
    {
      this.mix := mix;
      configured := false;
      orderIndex := new FlatHashMap.FlatHashMap(mix);
      instrumentIndex := new FlatHashMap.FlatHashMap(mix);
      pool := new OrderPool();
      books, nextTradeId, log := [], 1, [];
      asked, views, bookObjects := map[], [], {};
      new;
    }

    /** A new engine stands for a market without books. */
    lemma NewIsValid()
      requires Heap() && Snap() == EMPTY_SYS
      ensures Valid() && !configured && Market() == State(false, map[], [], map[], map[], 1, [])
    {
      EmptySys(Snap());
    }

    /** What the system invariant says of one book. */
    lemma BookStands(b: nat)
      requires Heap() && ViewsOk(Snap()) && b < |Snap().views|
      ensures b < |books| && books[b].Valid(pool.recs) && books[b].View() == views[b] && LadderOk(views[b])
      ensures books[b].Repr() <= bookObjects && b < |views|
      ensures this !in bookObjects && pool !in bookObjects && orderIndex !in bookObjects
      ensures instrumentIndex !in bookObjects
    {
    }

    /** An operation on one book leaves the other books and both indexes as they were. */
    twostate lemma HeapKept(b: nat)
      requires old(Heap()) && b < |old(books)| && books == old(books) && bookObjects == old(bookObjects)
      requires pool == old(pool)
      requires orderIndex == old(orderIndex) && instrumentIndex == old(instrumentIndex)
      requires unchanged(orderIndex) && unchanged(instrumentIndex)
      requires unchanged(old(bookObjects) - old(books[b].Repr()))
      requires books[b].Repr() == old(books[b].Repr()) && books[b].Shape() && views == old(views)[b := books[b].View()]
      ensures Heap()
    {
      forall i | 0 <= i < |books|
        ensures books[i] in bookObjects && books[i].Repr() <= bookObjects && books[i].Shape()
        ensures books[i].View() == views[i]
        ensures books[i].Repr() == old(books[i].Repr())
      {
        if i != b {
          assert old(books[i].Repr()) !! old(books[b].Repr()) by {
            if i < b { assert old(books[i].Repr()) !! old(books[b].Repr()); }
          }
          assert books[i] in old(books[i].Repr());
        }
      }
    }

    /** Changing records, events or counters leaves the books' and the indexes' shape alone. */
    twostate lemma HeapSame()
      requires old(Heap()) && unchanged(`books) && unchanged(`views) && unchanged(`bookObjects)
      requires pool == old(pool) && orderIndex == old(orderIndex) && instrumentIndex == old(instrumentIndex)
      requires unchanged(orderIndex) && unchanged(instrumentIndex) && unchanged(bookObjects)
      ensures Heap()
    {
    }

    // Book operations: the heap stays in shape and the system moves as the model says

    /** Appends a closed record to its level. */
    method Rest(b: nat, slot: uint32, side: Side, price: int) returns (ghost idx: uint32)
      requires Heap() && SysOk(Snap()) && b < |Snap().views| && price in Snap().views[b].prices
      requires IsCandidate(Snap(), b, slot)
      modifies this`views, pool, bookObjects
      ensures Heap() && Rested(old(Snap()), Snap(), b, slot, side, idx, price)
    {
      hide SysOk, ViewsOk, Heap, LadderOk, BookRep, RestRecs, RestSide, CanRest;
      ViewsStand(Snap());
      BookStands(b);
      label before:
      idx := books[b].AddResting(pool, slot, side, price);
      views := views[b := books[b].View()];
      HeapKept@before(b);
    }

    /** Takes an open record off its queue; k is its position there. */
    method TakeOff(b: nat, slot: uint32) returns (ghost k: nat)
      requires Heap() && ViewsOk(Snap()) && b < |Snap().views| && IsResting(Snap(), b, slot)
      modifies this`views, pool, bookObjects
      ensures Heap() && TookOff(old(Snap()), Snap(), b, slot, k)
    {
      hide ViewsOk, Heap, LadderOk, Leaves, UnlinkLinks, CanLeave, BookRep;
      BookStands(b);
      label before:
      k := books[b].RemoveResting(pool, slot);
      views := views[b := books[b].View()];
      HeapKept@before(b);
    }

    /** Puts a closed record in the place of an open one. */
    method SpliceIn(b: nat, slot: uint32, heir: uint32) returns (ghost k: nat)
      requires Heap() && ViewsOk(Snap()) && b < |Snap().views| && IsResting(Snap(), b, slot)
      requires IsCandidate(Snap(), b, heir)
      modifies this`views, pool, bookObjects
      ensures Heap() && Spliced(old(Snap()), Snap(), b, slot, heir, k)
    {
      hide ViewsOk, Heap, LadderOk, SpliceRecs, SpliceSide, CanInherit, BookRep;
      BookStands(b);
      label before:
      k := books[b].ReplaceInPlace(pool, slot, heir);
      views := views[b := books[b].View()];
      HeapKept@before(b);
    }

    // Matching

    /** No other object of the engine is part of a book. */
    lemma BooksApart()
      requires Heap()
      ensures this !in bookObjects && pool !in bookObjects && orderIndex !in bookObjects
      ensures instrumentIndex !in bookObjects
    {
    }

    lemma IndexesStand()
      requires Heap()
      ensures orderIndex != instrumentIndex && orderIndex.Valid() && instrumentIndex.Valid()
    {
    }

    /** A book with its heap footprint, as a caller that knows nothing else of the engine needs it. */
    lemma BookShape(b: nat)
      requires Heap() && b < |books|
      ensures books[b].Shape() && books[b].View() == views[b] && books[b].Repr() <= bookObjects && |views| == |books|
      ensures |views[b].prices| == |books[b].ladder.levels|
      ensures this !in bookObjects && pool !in bookObjects && orderIndex !in bookObjects
      ensures instrumentIndex !in bookObjects
    {
    }

    /** Takes `fill` off a level's cached total. */
    method ReduceLevel(b: nat, side: Side, idx: uint32, fill: uint32)
      requires Heap() && b < |books| && b < |Snap().views|
      requires idx < |Snap().views[b].prices| == |SideOf(Snap().views[b], side).levels|
      modifies this`views, bookObjects
      ensures Heap() && Snap() == LevelReduced(old(Snap()), b, side, idx, fill)
    {
      hide Heap, B.OrderBook.Shape, B.OrderBook.View, FlatHashMap.FlatHashMap.Contents;
      BookShape(b);
      label before:
      var lvl := books[b].LevelAt(side, idx);
      books[b].StoreLevel(side, idx, lvl.(totalQty := (lvl.totalQty + TWO_32 - fill) % TWO_32));
      views := views[b := books[b].View()];
      HeapKept@before(b);
    }

    /** One trade between the aggressor and a resting order: trade id, event and both records. */
    method FillRecords(instrumentId: uint32, agg: uint32, slot: uint32, side: Side, fill: uint32)
      requires Heap() && agg < |Snap().recs| && slot < |Snap().recs| && agg != slot
      requires FillRecs.requires(Snap().recs, agg, fill) && FillRecs.requires(Snap().recs, slot, fill)
      modifies this`nextTradeId, this`log, pool
      ensures Heap() && Snap() == RecordsFilled(old(Snap()), instrumentId, agg, slot, side, fill)
    {
      hide Heap;
      BooksApart();
      label before:
      var resting := pool.recs[slot];
      var tradeId := nextTradeId;
      nextTradeId := nextTradeId + 1;
      log := log + [Trade(tradeId, instrumentId, resting.price, fill, resting.id, pool.recs[agg].id, side)];
      pool.recs := FillRecs(pool.recs, agg, fill);
      pool.recs := FillRecs(pool.recs, slot, fill);
      HeapSame@before();
    }

    /** A fill of the order at the head of the best opposite level: records and level total. */
    method FillHead(b: nat, instrumentId: uint32, agg: uint32, slot: uint32, side: Side, idx: uint32, fill: uint32)
      requires Heap() && b < |books| && CanFill(Snap(), b, agg, slot, side, idx, fill)
      requires instrumentId == Snap().views[b].instrumentId
      modifies this`views, this`nextTradeId, this`log, pool, bookObjects
      ensures Heap() && Snap() == FilledSys(old(Snap()), b, agg, slot, side, idx, fill)
    {
      hide Snap, SysOk, Heap, CanFill;
      FillReady(Snap(), b, agg, slot, side, idx, fill);
      FillRecords(instrumentId, agg, slot, side, fill);
      ReduceLevel(b, Opposite(side), idx, fill);
    }

    /** Trades the aggressor against the order at the head of the best opposite level. */
    method TradeHead(b: nat, instrumentId: uint32, agg: uint32, side: Side, idx: uint32)
      requires Heap() && b < |books| && CanTrade(Snap(), b, agg, side, idx) && instrumentId == views[b].instrumentId
      modifies this`views, this`nextTradeId, this`log, pool, bookObjects
      ensures Heap() && OneTrade(old(Snap()), Snap(), b, agg, side, idx)
    {
      hide SysOk, ViewsOk, Heap, Abs, LadderOk, BookRep, CanFill, OneTrade, FilledSys;
      ghost var sys := Snap();
      ViewsStand(sys);
      ghost var head := TradeReady(sys, b, agg, side, idx);
      BookStands(b);
      var lvl := books[b].LevelAt(Opposite(side), idx);
      var slot := lvl.head;
      var fill: uint32 := Min(pool.recs[agg].openQty, pool.recs[slot].openQty);
      FillHead(b, instrumentId, agg, slot, side, idx, fill);
      TradeFilled(sys, b, agg, slot, side, idx, fill);
      ViewsStand(Snap());
      if pool.recs[slot].openQty == 0 {
        ghost var k := TakeOff(b, slot);
        TradeRemoved(sys, Snap(), b, agg, slot, side, idx, fill, k);
      }
    }

    /** What a method that works through `Snap()` needs to know of book b. */
    lemma BookNow(b: nat)
      requires Heap() && b < |books| && SysOk(Snap())
      ensures b < |Snap().views| == |books| && Snap().recs == pool.recs && |pool.recs| <= INVALID_SLOT
      ensures books[b].Shape() && books[b].ladder.Valid() && books[b].View() == Snap().views[b]
      ensures |Snap().views[b].prices| == |books[b].ladder.levels| < TWO_32
      ensures Snap().views[b].prices == books[b].ladder.levels
      ensures books[b].Valid(pool.recs) && books[b].Repr() <= bookObjects
    {
      BookShape(b);
    }

    lemma BooksCounted()
      requires Heap()
      ensures |books| == |Snap().views|
    {
    }

    lemma RecsNow()
      ensures Snap().recs == pool.recs && Snap().configured == configured
      ensures Snap().nextTrade == nextTradeId && Snap().log == log
    {
    }

    // Reading a book: what these return is what the snapshot shows

    method BestOf(b: nat, side: Side) returns (idx: int)
      requires Heap() && b < |books| && SysOk(Snap())
      ensures b < |Snap().views| && idx == SideOf(Snap().views[b], side).best
    {
      BookNow(b);
      idx := -1;
      var has := books[b].HasBest(side);
      if has { idx := books[b].BestIndex(side); }
      BestIffOrders(Snap(), b, side);
    }

    method PriceOf(b: nat, idx: nat) returns (price: int)
      requires Heap() && b < |books| && SysOk(Snap()) && b < |Snap().views| && idx < |Snap().views[b].prices|
      ensures price == Snap().views[b].prices[idx] && idx < TWO_32
    {
      BookNow(b);
      price := books[b].ladder.IndexToPrice(idx);
    }

    method LevelOf(b: nat, side: Side, idx: nat) returns (lvl: Level)
      requires Heap() && b < |books| && SysOk(Snap()) && b < |Snap().views|
      requires idx < |Snap().views[b].prices| == |SideOf(Snap().views[b], side).levels|
      ensures lvl == SideOf(Snap().views[b], side).levels[idx]
    {
      BookNow(b);
      lvl := books[b].LevelAt(side, idx);
    }

    /** The level index of a price, negative when it has none. */
    method IndexOf(b: nat, price: int) returns (idx: int)
      requires Heap() && SysOk(Snap()) && b < |Snap().views|
      ensures idx < 0 <==> price !in Snap().views[b].prices
    {
      BookStands(b);
      idx := books[b].ladder.PriceToIndex(price);
    }

    method NextOf(b: nat, side: Side, after: nat) returns (next: int)
      requires Heap() && b < |books| && SysOk(Snap()) && b < |Snap().views| && after < |Snap().views[b].prices|
      ensures IsNext(side, SideOf(Snap().views[b], side).occupied, after, next)
    {
      BookNow(b);
      next := books[b].NextIndex(side, after);
    }

    /** One trade of a run under way. */
    method TradeNext(ghost sys: Sys, b: nat, instrumentId: uint32, agg: uint32, side: Side, ghost isMarket: bool,
                     ghost limit: int,
                     idx: uint32, ghost price: int, ghost q: seq<Order>, ghost done: seq<Fill>)
      returns (ghost q': seq<Order>, ghost done': seq<Fill>)
      requires Heap() && b < |books| && Underway(sys, Snap(), b, agg, side, isMarket, limit, q, done)
      requires agg < |Snap().recs| && Snap().recs[agg].openQty > 0 && instrumentId == sys.views[b].instrumentId
      requires IsBestLevel(Snap(), b, Opposite(side), idx, price) && Marketable(side, isMarket, limit, price)
      modifies this`views, this`nextTradeId, this`log, pool, bookObjects
      ensures Heap() && books == old(books) && bookObjects == old(bookObjects) && Snap().recs == pool.recs
      ensures SysOk(Snap()) && Underway(sys, Snap(), b, agg, side, isMarket, limit, q', done')
      ensures agg < |Snap().recs| && Snap().recs[agg].openQty < old(Snap()).recs[agg].openQty
      ensures LevelLeft(Snap(), b, Opposite(side), idx, price)
    {
      hide Heap, SysOk, Abs, Underway, CanTrade, OneTrade, BookRep, IsBestLevel, LevelLeft;
      ghost var mid := Snap();
      BooksApart();
      TradeNow(sys, mid, b, agg, side, isMarket, limit, idx, price, q, done);
      TradeHead(b, instrumentId, agg, side, idx);
      q', done' := Advance(sys, mid, Snap(), b, agg, side, isMarket, limit, idx, q, done);
      LevelAfter(mid, Snap(), b, agg, side, idx, price);
    }

    /** The inner loop of a run under way: trades through one level. */
    method TradeLevel(ghost sys: Sys, b: nat, instrumentId: uint32, agg: uint32, side: Side, ghost isMarket: bool,
                      ghost limit: int,
                      idx: uint32, ghost price: int, ghost q: seq<Order>, ghost done: seq<Fill>)
      returns (ghost q': seq<Order>, ghost done': seq<Fill>)
      requires Heap() && b < |books| && SysOk(Snap()) && Underway(sys, Snap(), b, agg, side, isMarket, limit, q, done)
      requires Snap().recs == pool.recs && agg < |pool.recs| && pool.recs[agg].openQty > 0
      requires instrumentId == sys.views[b].instrumentId
      requires IsBestLevel(Snap(), b, Opposite(side), idx, price) && Marketable(side, isMarket, limit, price)
      modifies this`views, this`nextTradeId, this`log, pool, bookObjects
      ensures Heap() && books == old(books) && bookObjects == old(bookObjects) && Snap().recs == pool.recs
      ensures SysOk(Snap()) && Underway(sys, Snap(), b, agg, side, isMarket, limit, q', done')
      ensures agg < |pool.recs| && pool.recs[agg].openQty < old(pool.recs)[agg].openQty
    {
      hide Snap, Heap, SysOk, Abs, Underway;
      BooksApart();
      q', done' := q, done;
      var lvl := LevelOf(b, Opposite(side), idx);
      while pool.recs[agg].openQty > 0 && lvl.head != INVALID_SLOT
        invariant Heap() && SysOk(Snap()) && Underway(sys, Snap(), b, agg, side, isMarket, limit, q', done')
        invariant books == old(books) && bookObjects == old(bookObjects) && Snap().recs == pool.recs
        invariant agg < |pool.recs|
        invariant LevelLeft(Snap(), b, Opposite(side), idx, price)
        invariant lvl == SideOf(Snap().views[b], Opposite(side)).levels[idx]
        invariant pool.recs[agg].openQty < old(pool.recs)[agg].openQty || lvl.head != INVALID_SLOT
        invariant pool.recs[agg].openQty <= old(pool.recs)[agg].openQty
        decreases pool.recs[agg].openQty
      {
        q', done' := TradeNext(sys, b, instrumentId, agg, side, isMarket, limit, idx, price, q', done');
        lvl := LevelOf(b, Opposite(side), idx);
      }
    }

    /** Executes an aggressor against the opposite side: best price first, oldest first at each price. */
    method RunMatching(b: nat, instrumentId: uint32, agg: uint32, side: Side, limit: int, isMarket: bool)
      requires Heap() && b < |books| && CanMatch(Snap(), b, agg, side) && instrumentId == Snap().views[b].instrumentId
      modifies this`views, this`nextTradeId, this`log, pool, bookObjects
      ensures Heap() && Executed(old(Snap()), Snap(), b, agg, side, isMarket, limit)
      ensures books == old(books) && bookObjects == old(bookObjects)
    {
      hide Snap, Heap, SysOk, Abs, Underway, Executed, Crosses, CanMatch, IsBestLevel;
      ghost var sys := Snap();
      RecsNow();
      BooksApart();
      Begin(sys, b, agg, side, isMarket, limit);
      ghost var q, done := Queue(Abs(sys).books[b], Opposite(side)), [];
      MatchFacts(sys, sys, b, agg, side, isMarket, limit, q, done);
      var idx := BestOf(b, Opposite(side));
      while pool.recs[agg].openQty > 0 && idx >= 0
        invariant Heap() && SysOk(Snap()) && Underway(sys, Snap(), b, agg, side, isMarket, limit, q, done)
        invariant books == old(books) && bookObjects == old(bookObjects) && Snap().recs == pool.recs
        invariant agg < |pool.recs|
        invariant b < |Snap().views| && idx == SideOf(Snap().views[b], Opposite(side)).best
        decreases pool.recs[agg].openQty
      {
        MatchFacts(sys, Snap(), b, agg, side, isMarket, limit, q, done);
        var price := PriceOf(b, idx);
        if !isMarket && !Crosses(side, limit, price) { break; }
        q, done := TradeLevel(sys, b, instrumentId, agg, side, isMarket, limit, idx, price, q, done);
        idx := BestOf(b, Opposite(side));
      }
      MatchFacts(sys, Snap(), b, agg, side, isMarket, limit, q, done);
      Finish(sys, Snap(), b, agg, side, isMarket, limit, q, done);
    }

    /** Whether the opposite side holds enough for a fill-or-kill order; reads the books, changes nothing. */
    method CanFullyFill(b: nat, side: Side, isMarket: bool, limit: int, needed: uint32) returns (r: bool)
      requires Heap() && b < |books| && SysOk(Snap()) && b < |Snap().views|
      ensures r <==>
        var q := Queue(Abs(Snap()).books[b], Opposite(side));
        |q| > 0 && FokWalk(q, side, isMarket, limit, needed, 0)
    {
      hide Snap, Heap, SysOk, Abs, Crosses, FokWalk, IsNext, WalkAt, BookRep;
      ghost var sys := Snap();
      ghost var rest := Queue(Abs(sys).books[b], Opposite(side));
      WalkStart(sys, b, Opposite(side));
      var idx := BestOf(b, Opposite(side));
      if idx < 0 { return false; }
      var available: uint32 := 0;
      while idx >= 0
        invariant WalkAt(sys, b, Opposite(side), idx, rest)
        invariant FokWalk(Queue(Abs(sys).books[b], Opposite(side)), side, isMarket, limit, needed, 0)
              <==> FokWalk(rest, side, isMarket, limit, needed, available)
        decreases |rest|
      {
        WalkHere(sys, b, Opposite(side), idx, rest);
        var price := PriceOf(b, idx);
        if !isMarket && !Crosses(side, limit, price) { break; }
        var lvl := LevelOf(b, Opposite(side), idx);
        var next := NextOf(b, Opposite(side), idx);
        rest := WalkOneLevel(sys, b, side, isMarket, limit, needed, available, idx, next, rest);
        available := (available + lvl.totalQty) % TWO_32;
        if available >= needed { return true; }
        idx := next;
      }
      WalkEnds(sys, b, side, isMarket, limit, needed, available, idx, rest);
      r := available >= needed;
    }

    // Events, ids and records

    /** Tells the listener. */
    method Notify(e: Event)
      requires Heap() && SysOk(Snap())
      modifies this`log
      ensures Heap() && SysOk(Snap()) && Abs(Snap()) == Emit(old(Abs(Snap())), e)
      ensures Snap() == old(Snap()).(log := old(Snap()).log + [e])
    {
      hide Heap, SysOk, Abs;
      BooksApart();
      EventStep(Snap(), asked, log, nextTradeId);
      EventStep(Snap(), asked, log + [e], nextTradeId);
      label before:
      log := log + [e];
      HeapSame@before();
    }

    /** Records what was asked for under an id. */
    ghost method Ask(id: uint64, total: nat)
      requires Heap() && SysOk(Snap())
      modifies this`asked
      ensures Heap() && SysOk(Snap()) && Abs(Snap()) == old(Abs(Snap())).(asked := old(Abs(Snap())).asked[id := total])
      ensures Snap() == old(Snap()).(asked := old(Snap()).asked[id := total])
    {
      hide Heap, SysOk, Abs;
      BooksApart();
      EventStep(Snap(), asked, log, nextTradeId);
      EventStep(Snap(), asked[id := total], log, nextTradeId);
      label before:
      asked := asked[id := total];
      HeapSame@before();
    }

    /** The slot an id maps to. */
    method FindSlot(id: uint64) returns (r: Option<uint32>)
      requires Heap()
      ensures r == if id in Snap().ids then Some(Snap().ids[id]) else None
    {
      r := orderIndex.Find(id);
    }

    /** The index of an instrument's book. */
    method FindBook(instrumentId: uint32) returns (r: Option<uint32>)
      requires Heap()
      ensures r == if instrumentId in Snap().index then Some(Snap().index[instrumentId]) else None
    {
      r := instrumentIndex.Find(instrumentId);
    }

    /** Allocates a slot and fills in its record. */
    method NewSlot(rec: OrderRecord) returns (slot: uint32)
      requires Heap() && |Snap().recs| < INVALID_SLOT
      modifies pool
      ensures Heap() && slot == |old(Snap()).recs| && Snap() == old(Snap()).(recs := old(Snap()).recs + [rec])
    {
      hide Heap;
      BooksApart();
      label before:
      slot := pool.Allocate();
      pool.recs := pool.recs[slot := rec];
      assert pool.recs == old(pool.recs) + [rec];
      HeapSame@before();
    }

    /** The id index may change as long as it stays a valid map. */
    twostate lemma HeapIndexed()
      requires old(Heap()) && unchanged(`books) && unchanged(`views) && unchanged(`bookObjects)
      requires pool == old(pool) && orderIndex == old(orderIndex) && instrumentIndex == old(instrumentIndex)
      requires orderIndex.Valid() && unchanged(instrumentIndex) && unchanged(bookObjects)
      ensures Heap()
    {
    }

    /** Maps an id to a slot, overwriting if it is known. */
    method MapId(id: uint64, slot: uint32, known: bool)
      requires Heap() && (known <==> id in Snap().ids)
      modifies orderIndex
      ensures Heap() && Snap() == old(Snap()).(ids := old(Snap()).ids[id := slot])
    {
      hide Heap, FlatHashMap.FlatHashMap.Valid, FlatHashMap.FlatHashMap.Contents;
      BooksApart();
      IndexesStand();
      label before:
      if known { orderIndex.AssignExisting(id, slot); } else { orderIndex.Insert(id, slot); }
      HeapIndexed@before();
    }

    /** Allocates a slot, fills in its record and maps the record's id to it. */
    method Register(rec: OrderRecord, known: bool) returns (slot: uint32)
      requires Heap() && |Snap().recs| < INVALID_SLOT && (known <==> rec.id in Snap().ids)
      modifies pool, orderIndex
      ensures Heap() && slot == |old(Snap()).recs| && Snap() == Allocated(old(Snap()), rec)
    {
      hide Heap, Snap;
      BooksApart();
      slot := NewSlot(rec);
      MapId(rec.id, slot, known);
    }

    /** Gives up what is left of an order that does not rest. */
    method Drop(slot: uint32, reason: CancelReason)
      requires Heap() && SysOk(Snap()) && slot < |Snap().recs| && !Snap().recs[slot].isOpen
      modifies this`log, pool
      ensures Heap() && SysOk(Snap()) && Snap() == Dropped(old(Snap()), slot, reason)
      ensures Abs(Snap()) ==
        Emit(old(Abs(Snap())), Canceled(old(Snap()).recs[slot].id, old(Snap()).recs[slot].openQty, reason))
    {
      hide Heap, SysOk, Abs;
      BooksApart();
      DropStep(Snap(), slot, reason);
      label before:
      var rec := pool.recs[slot];
      pool.recs := pool.recs[slot := rec.(openQty := 0)];
      log := log + [Canceled(rec.id, rec.openQty, reason)];
      HeapSame@before();
    }

    /** The order gets its quantity and the listener is told it was accepted. */
    method Admit(slot: uint32, id: uint64, qty: uint32)
      requires Heap() && slot < |Snap().recs|
      modifies this`log, this`asked, pool
      ensures Heap() && Snap() == Admitted(old(Snap()), slot, id, qty, qty, Accepted(id))
    {
      hide Heap;
      BooksApart();
      label before:
      pool.recs := pool.recs[slot := pool.recs[slot].(openQty := qty, filledQty := 0)];
      asked := asked[id := qty];
      log := log + [Accepted(id)];
      HeapSame@before();
    }

    // Submitting

    /** Rests or gives up what matching left of an order. */
    method Settle(b: nat, slot: uint32, o: NewOrder, isMarket: bool, price: int)
      requires Heap() && SysOk(Snap()) && IsEntrant(Snap(), b, slot, o.orderId, o.side)
      requires o.tif == Day ==> price in Snap().views[b].prices
      modifies this`views, this`log, pool, bookObjects
      ensures Heap() && SysOk(Snap()) && OneView(old(Snap()), Snap(), b) && b < |old(Abs(Snap())).books|
      ensures Abs(Snap()) == Settled(old(Abs(Snap())), b, o, isMarket, price, old(Snap()).recs[slot].openQty,
                                     old(Snap()).recs[slot].filledQty)
      ensures |Snap().recs| == |old(Snap()).recs|
      ensures Snap().ids == old(Snap()).ids && ClosedKept(old(Snap()).recs, Snap().recs, slot)
    {
      hide Heap, Snap, SysOk, Abs, RestOrder, Rested;
      BooksApart();
      RecsNow();
      ghost var matched := Snap();
      BookCount(matched);
      if pool.recs[slot].openQty > 0 {
        if o.tif == Day {
          ghost var idx := Rest(b, slot, o.side, price);
          RestedStep(matched, Snap(), b, slot, o.side, idx, price);
        } else {
          Drop(slot, if isMarket then NoLiquidity else if o.tif == Ioc then IocRemainder else FokUnfillable);
        }
      }
    }

    /** Executes an accepted order and settles what is left of it. */
    method AcceptOrder(b: nat, slot: uint32, o: NewOrder)
      requires Heap() && SysOk(Snap()) && Inv(Abs(Snap()))
      requires IsEntrant(Snap(), b, slot, o.orderId, o.side) && o.instrumentId == Snap().views[b].instrumentId
      requires o.quantity > 0 && (o.orderType == OrderType.Market ==> o.tif != Day)
      requires o.orderType == Limit ==> o.price in Snap().views[b].prices
      modifies this`views, this`asked, this`log, this`nextTradeId, pool, bookObjects
      ensures Heap() && SysOk(Snap()) && b < |old(Abs(Snap())).books| && Abs(Snap()) == M.Accept(old(Abs(Snap())), b, o)
      ensures OneView(old(Snap()), Snap(), b)
      ensures |Snap().recs| == |old(Snap()).recs|
      ensures !Refused(old(Abs(Snap())), Abs(Snap()))
      ensures Snap().ids == old(Snap()).ids && ClosedKept(old(Snap()).recs, Snap().recs, slot)
    {
      hide Heap, Snap, SysOk, Abs, Inv, Execute, FokWalk, CanMatch, Settled, M.Accept;
      BooksApart();
      ghost var sys := Snap();
      BookCount(sys);
      BooksCounted();
      var isMarket := o.orderType == OrderType.Market;
      var price := if isMarket then 0 else o.price;
      AcceptIs(Abs(sys), b, o);
      AcceptNotRefused(Abs(sys), b, o);
      AdmitStep(sys, b, slot, o.orderId, o.side, o.quantity);
      Admit(slot, o.orderId, o.quantity);
      if o.tif == Fok {
        var feasible := CanFullyFill(b, o.side, isMarket, price, o.quantity);
        if !feasible {
          NothingToFill(o.side, isMarket, price, o.quantity);
          Drop(slot, FokUnfillable);
          return;
        }
      }
      RunMatching(b, o.instrumentId, slot, o.side, price, isMarket);
      Settle(b, slot, o, isMarket, price);
    }

    /** A new order: validated in the engine's order, then executed, rested, cancelled or killed. */
    method Submit(o: NewOrder)
      requires Valid() && |pool.recs| < INVALID_SLOT
      modifies this`views, this`asked, this`log, this`nextTradeId, pool, orderIndex, bookObjects
      ensures Valid() && Market() == M.Submit(old(Market()), o)
      ensures OthersSame(old(Snap()), Snap(), InstrumentBook(old(Snap()), o.instrumentId))
      ensures |Snap().recs| <= |old(Snap()).recs| + 1
      ensures Refused(old(Market()), Market()) ==> Snap().views == old(Snap()).views
      ensures KeepsIds(old(Snap()), Snap()) && ClosedKept(old(Snap()).recs, Snap().recs, |old(Snap()).recs|)
    {
      hide Heap, Snap, SysOk, Abs, Inv, M.Accept, IsTickAligned, Allocated;
      ghost var sys := Snap();
      BooksApart();
      RecsNow();
      MarketFields(sys);
      SubmitKeeps(Abs(sys), o);
      if !configured {
        Notify(Rejected(o.orderId, NotConfigured));
        return;
      }
      var book := FindBook(o.instrumentId);
      if book.None? {
        Notify(Rejected(o.orderId, UnknownInstrument));
        return;
      }
      var known := FindSlot(o.orderId);
      if known.Some? {
        Notify(Rejected(o.orderId, DuplicateOrderId));
        return;
      }
      RegisterStep(sys, o);
      var slot := Register(NewRecord(o), false);
      EnterNew(book.value, slot, o);
    }

    /** Validates a registered order and executes it. */
    method EnterNew(b: nat, slot: uint32, o: NewOrder)
      requires Heap() && SysOk(Snap()) && Inv(Abs(Snap()))
      requires IsEntrant(Snap(), b, slot, o.orderId, o.side) && o.instrumentId == Snap().views[b].instrumentId
      modifies this`views, this`asked, this`log, this`nextTradeId, pool, bookObjects
      ensures Heap() && SysOk(Snap()) && b < |old(Abs(Snap())).books|
      ensures Abs(Snap()) == Entered(old(Abs(Snap())), b, o)
      ensures OneView(old(Snap()), Snap(), b)
      ensures |Snap().recs| == |old(Snap()).recs|
      ensures Refused(old(Abs(Snap())), Abs(Snap())) ==> Snap().views == old(Snap()).views
      ensures Snap().ids == old(Snap()).ids && ClosedKept(old(Snap()).recs, Snap().recs, slot)
    {
      hide Heap, Snap, SysOk, Abs, Inv, M.Accept, IsTickAligned;
      BooksApart();
      MarketFields(Snap());
      if o.quantity == 0 {
        Notify(Rejected(o.orderId, InvalidQuantity));
        return;
      }
      var isMarket := o.orderType == OrderType.Market;
      if isMarket && o.tif == Day {
        Notify(Rejected(o.orderId, InvalidTimeInForce));
        return;
      }
      if !isMarket {
        if !IsTickAligned(TICK_SCHEDULE, o.price) {
          Notify(Rejected(o.orderId, InvalidPriceTick));
          return;
        }
        var idx := IndexOf(b, o.price);
        PriceHasLevel(Snap(), b, o.price);
        if idx < 0 {
          Notify(Rejected(o.orderId, PriceOutOfBand));
          return;
        }
      }
      AcceptOrder(b, slot, o);
    }

    // Cancelling and replacing

    /** Takes a live order off the book and tells the listener. */
    method Withdraw(id: uint64, b: nat, slot: uint32)
      requires Heap() && SysOk(Snap()) && Inv(Abs(Snap())) && Rests(Snap(), id, b, slot)
      modifies this`views, this`log, pool, bookObjects
      ensures Heap() && SysOk(Snap()) && OneView(old(Snap()), Snap(), b) && IsOpen(old(Abs(Snap())), id)
      ensures Abs(Snap()) == Emit(TakeOut(old(Abs(Snap())), id),
                                  Canceled(id, old(Snap()).recs[slot].openQty, UserRequested))
      ensures |Snap().recs| == |old(Snap()).recs|
      ensures !Refused(old(Abs(Snap())), Abs(Snap()))
      ensures Snap().ids == old(Snap()).ids && ClosedKept(old(Snap()).recs, Snap().recs, slot)
    {
      hide Heap, Snap, SysOk, ViewsOk, Abs, Inv, TakeOut, IsOpen, TookOff;
      BooksApart();
      RecsNow();
      ViewsStand(Snap());
      ghost var sys := Snap();
      var openQty := pool.recs[slot].openQty;
      ghost var k := TakeOff(b, slot);
      TakenStep(sys, Snap(), id, b, slot, k);
      Notify(Canceled(id, openQty, UserRequested));
    }

    method Cancel(id: uint64)
      requires Valid()
      modifies this`views, this`log, pool, bookObjects
      ensures Valid() && Market() == M.Cancel(old(Market()), id)
      ensures OthersSame(old(Snap()), Snap(), HomeBook(old(Snap()), id))
      ensures |Snap().recs| == |old(Snap()).recs|
      ensures Refused(old(Market()), Market()) ==> Snap().views == old(Snap()).views
      ensures KeepsIds(old(Snap()), Snap()) && ClosedKept(old(Snap()).recs, Snap().recs, |old(Snap()).recs|)
    {
      hide Heap, Snap, SysOk, Abs, Inv, TakeOut, IsOpen, OpenOrder, HomeBook;
      BooksApart();
      RecsNow();
      ghost var sys := Snap();
      MarketFields(sys);
      CancelKeeps(Abs(sys), id);
      OpenIff(sys, id);
      if !configured {
        Notify(Rejected(id, NotConfigured));
        return;
      }
      var slot := FindSlot(id);
      if slot.Some? { IdFacts(sys, id); }
      if slot.None? || !pool.recs[slot.value].isOpen {
        Notify(Rejected(id, UnknownOrder));
        return;
      }
      ghost var home, s := LiveId(sys, id);
      var book := FindBook(pool.recs[slot.value].instrumentId);
      Withdraw(id, book.value, slot.value);
    }

    /** Matches an entering order if it may have become marketable and rests what is left. */
    method Reenter(b: nat, slot: uint32, instrumentId: uint32, side: Side, price: int, priceChanged: bool)
      requires Heap() && SysOk(Snap()) && Inv(Abs(Snap())) && b < |Abs(Snap()).books|
      requires slot < |Snap().recs| && IsEntrant(Snap(), b, slot, Snap().recs[slot].id, side)
      requires instrumentId == Snap().views[b].instrumentId
      requires Snap().recs[slot].openQty > 0 && Snap().recs[slot].openQty + Snap().recs[slot].filledQty < TWO_32
      requires price in Snap().views[b].prices
      requires !priceChanged ==>
        Execute(Abs(Snap()), b, side, false, price, Snap().recs[slot].id, Snap().recs[slot].openQty) ==
          (Abs(Snap()), Snap().recs[slot].openQty)
      modifies this`views, this`log, this`nextTradeId, pool, bookObjects
      ensures Heap() && SysOk(Snap()) && OneView(old(Snap()), Snap(), b)
      ensures Abs(Snap()) == EnterDay(old(Abs(Snap())), b, side, old(Snap()).recs[slot].id, price,
                                      old(Snap()).recs[slot].openQty, old(Snap()).recs[slot].filledQty)
      ensures |Snap().recs| == |old(Snap()).recs|
    {
      hide Heap, Snap, SysOk, Abs, Inv, Execute, RestOrder, Rested;
      BooksApart();
      BooksCounted();
      BookCount(Snap());
      QueueFits(Abs(Snap()), b, Opposite(side));
      if priceChanged { RunMatching(b, instrumentId, slot, side, price, false); }
      RecsNow();
      ghost var matched := Snap();
      if pool.recs[slot].openQty > 0 {
        ghost var idx := Rest(b, slot, side, price);
        RestedStep(matched, Snap(), b, slot, side, idx, price);
      }
    }

    /** The committed part of a replace that sends the order to the back of the queue. */
    method MoveOrder(r: ReplaceOrder, b: nat, slot: uint32, open: uint32, priceChanged: bool)
      requires Heap() && SysOk(Snap()) && Inv(Abs(Snap())) && |Snap().recs| < INVALID_SLOT
      requires CanReplace(Snap(), r, b, slot, open) && LosesPriority(Abs(Snap()), r)
      requires priceChanged <==> r.newPrice != Snap().recs[slot].price
      modifies this`views, this`asked, this`log, this`nextTradeId, pool, orderIndex, bookObjects
      ensures Heap() && SysOk(Snap()) && OneView(old(Snap()), Snap(), b)
      ensures Abs(Snap()) == M.Replace(old(Abs(Snap())), r)
      ensures |Snap().recs| == |old(Snap()).recs| + 1
      ensures !Refused(old(Abs(Snap())), Abs(Snap()))
    {
      hide Heap, Snap, SysOk, ViewsOk, Abs, Inv, Allocated, TookOff;
      hide TakeOut, M.Replace, ReadyToReenter, Replaceable, LosesPriority, EnterDay;
      BooksApart();
      RecsNow();
      ghost var sys := Snap();
      ghost var s := Abs(sys);
      SuccessorReady(sys, r, b, slot, open);
      var rec := Successor(pool.recs[slot], r, open);
      var newSlot := Register(rec, r.newOrderId == r.orderId);
      ghost var k := TakeOff(b, slot);
      LosingStep(sys, rec, Snap(), r.orderId, b, slot, k);
      Ask(r.newOrderId, r.newQuantity);
      Notify(Replaced(r.orderId, r.newOrderId, r.newPrice, open));
      ReadyStep(sys, Abs(Snap()), r, b, slot, open);
      Reenter(b, newSlot, rec.instrumentId, rec.side, r.newPrice, priceChanged);
      LosingKeeps(s, r);
      CommitNotRefused(s, r);
    }

    /** The committed part of a replace that keeps the order's place in its queue. */
    method SubstituteOrder(r: ReplaceOrder, b: nat, slot: uint32, open: uint32)
      requires Heap() && SysOk(Snap()) && Inv(Abs(Snap())) && |Snap().recs| < INVALID_SLOT
      requires CanReplace(Snap(), r, b, slot, open) && !LosesPriority(Abs(Snap()), r)
      modifies this`views, this`asked, this`log, pool, orderIndex, bookObjects
      ensures Heap() && SysOk(Snap()) && OneView(old(Snap()), Snap(), b)
      ensures Abs(Snap()) == M.Replace(old(Abs(Snap())), r)
      ensures |Snap().recs| == |old(Snap()).recs| + 1
      ensures !Refused(old(Abs(Snap())), Abs(Snap()))
    {
      hide Heap, Snap, SysOk, ViewsOk, Abs, Inv, M.Replace, Allocated, Spliced, Replaceable;
      BooksApart();
      RecsNow();
      ghost var sys := Snap();
      SuccessorReady(sys, r, b, slot, open);
      var rec := Successor(pool.recs[slot], r, open);
      var newSlot := Register(rec, r.newOrderId == r.orderId);
      ghost var k := SpliceIn(b, slot, newSlot);
      InPlaceStep(sys, rec, Snap(), r.orderId, b, slot, k);
      Ask(r.newOrderId, r.newQuantity);
      Notify(Replaced(r.orderId, r.newOrderId, r.newPrice, open));
      InPlaceIs(Abs(sys), r);
      CommitNotRefused(Abs(sys), r);
    }

    method Replace(r: ReplaceOrder)
      requires Valid() && |pool.recs| < INVALID_SLOT
      modifies this`views, this`asked, this`log, this`nextTradeId, pool, orderIndex, bookObjects
      ensures Valid() && Market() == M.Replace(old(Market()), r)
      ensures OthersSame(old(Snap()), Snap(), HomeBook(old(Snap()), r.orderId))
      ensures |Snap().recs| <= |old(Snap()).recs| + 1
      ensures Refused(old(Market()), Market()) ==> Snap().views == old(Snap()).views
    {
      hide Heap, Snap, SysOk, Abs, Inv, TakeOut, IsOpen, OpenOrder, HomeBook, IsTickAligned;
      BooksApart();
      RecsNow();
      ghost var sys := Snap();
      MarketFields(sys);
      ReplaceKeeps(Abs(sys), r);
      OpenIff(sys, r.orderId);
      if !configured {
        Notify(Rejected(r.newOrderId, NotConfigured));
        return;
      }
      var slot := FindSlot(r.orderId);
      if slot.Some? { IdFacts(sys, r.orderId); }
      if slot.None? || !pool.recs[slot.value].isOpen {
        Notify(Rejected(r.newOrderId, UnknownOrder));
        return;
      }
      ghost var home, s := LiveId(sys, r.orderId);
      var book := FindBook(pool.recs[slot.value].instrumentId);
      ReplaceLive(r, book.value, slot.value);
    }

    /** A replace of a live order: cancel it, refuse, or commit. */
    method ReplaceLive(r: ReplaceOrder, b: nat, slot: uint32)
      requires Heap() && SysOk(Snap()) && Inv(Abs(Snap())) && |Snap().recs| < INVALID_SLOT && Snap().configured
      requires Rests(Snap(), r.orderId, b, slot)
      modifies this`views, this`asked, this`log, this`nextTradeId, pool, orderIndex, bookObjects
      ensures Heap() && SysOk(Snap()) && OneView(old(Snap()), Snap(), b)
      ensures Abs(Snap()) == M.Replace(old(Abs(Snap())), r)
      ensures |Snap().recs| <= |old(Snap()).recs| + 1
      ensures Refused(old(Abs(Snap())), Abs(Snap())) ==> Snap().views == old(Snap()).views
    {
      hide Heap, Snap, SysOk, Abs, Inv, TakeOut, IsOpen, OpenOrder, IsTickAligned, EnterDay;
      BooksApart();
      RecsNow();
      ghost var sys := Snap();
      MarketFields(sys);
      ghost var home, s := LiveId(sys, r.orderId);
      var prior := pool.recs[slot];
      var open: uint32 := if r.newQuantity > prior.filledQty then r.newQuantity - prior.filledQty else 0;
      if open == 0 {
        Withdraw(r.orderId, b, slot);
        return;
      }
      var sameId := r.newOrderId == r.orderId;
      var taken := FindSlot(r.newOrderId);
      if !sameId && taken.Some? {
        Notify(Rejected(r.newOrderId, DuplicateOrderId));
        return;
      }
      if !IsTickAligned(TICK_SCHEDULE, r.newPrice) {
        Notify(Rejected(r.newOrderId, InvalidPriceTick));
        return;
      }
      var idx := IndexOf(b, r.newPrice);
      PriceHasLevel(sys, b, r.newPrice);
      if idx < 0 {
        Notify(Rejected(r.newOrderId, PriceOutOfBand));
        return;
      }
      var priceChanged := r.newPrice != prior.price;
      var qtyIncreased := open > prior.openQty;
      if priceChanged || qtyIncreased {
        MoveOrder(r, b, slot, open, priceChanged);
      } else {
        SubstituteOrder(r, b, slot, open);
      }
    }

    // Configuring

    /** These objects, and no shared ones, make up the books of the listed instruments. */
    static ghost predicate Built(bs: seq<B.OrderBook>, objs: set<object>, cfgs: seq<InstrumentConfig>)
      reads objs
    {
      && |bs| == |cfgs|
      && (forall i :: 0 <= i < |bs| ==> bs[i] in objs && bs[i].Repr() <= objs)
      && (forall i :: 0 <= i < |bs| && LadderFits(cfgs[i]) ==> bs[i].Shape() && bs[i].View() == ViewOf(cfgs[i]))
      && (forall i, j :: 0 <= i < j < |bs| ==> bs[i].Repr() !! bs[j].Repr())
    }

    static method BuildBook(cfg: InstrumentConfig) returns (b: B.OrderBook)
      requires IsValidConfig(cfg.referencePrice, cfg.bandBps)
      ensures fresh(b) && fresh(b.Repr())
      ensures LadderFits(cfg) ==> b.Shape() && b.View() == ViewOf(cfg)
    {
      hide IsValidConfig, B.EmptyView, B.OrderBook.Shape, B.OrderBook.View, Levels, BandLo, BandHi;
      b := new B.OrderBook();
      b.Configure(cfg.instrumentId, cfg.referencePrice, cfg.bandBps);
      LadderOfView(cfg);
    }

    /** One more book beside those already built. */
    static method BuildNext(bs: seq<B.OrderBook>, ghost objs: set<object>, ghost cfgs: seq<InstrumentConfig>,
                            cfg: InstrumentConfig)
      returns (bs': seq<B.OrderBook>, ghost objs': set<object>)
      requires IsValidConfig(cfg.referencePrice, cfg.bandBps) && Built(bs, objs, cfgs)
      ensures objs <= objs' && fresh(objs' - objs) && Built(bs', objs', cfgs + [cfg])
    {
      hide IsValidConfig, LadderFits, ViewOf;
      var b := BuildBook(cfg);
      bs', objs' := bs + [b], objs + b.Repr();
    }

    /** The instruments before the i-th are validated, built and indexed. */
    static ghost predicate Progressed(bs: seq<B.OrderBook>, objs: set<object>, index: FlatHashMap.FlatHashMap,
                                      cfgs: seq<InstrumentConfig>)
      requires |cfgs| < TWO_32
      reads objs, index
    {
      && AllValid(cfgs) && DistinctInstruments(cfgs) && Built(bs, objs, cfgs)
      && index !in objs && index.Valid() && index.Contents() == IndexMap(cfgs)
    }

    /** Validates, builds and indexes the i-th instrument. */
    method AddBook(cfgs: seq<InstrumentConfig>, i: nat, bs: seq<B.OrderBook>, ghost objs: set<object>,
                   index: FlatHashMap.FlatHashMap)
      returns (ok: bool, bs': seq<B.OrderBook>, ghost objs': set<object>)
      requires i < |cfgs| < TWO_32 && Progressed(bs, objs, index, cfgs[..i])
      modifies index
      ensures fresh(objs' - objs)
      ensures if ok then Progressed(bs', objs', index, cfgs[..i + 1]) else !IsValidSetup(cfgs)
    {
      hide IsValidConfig, AllValid, DistinctInstruments, IndexMap, Built;
      hide FlatHashMap.FlatHashMap.Valid, FlatHashMap.FlatHashMap.Contents;
      ok, bs', objs' := false, bs, objs;
      OneMore(cfgs, i);
      PrefixGood(cfgs, i + 1);
      if IsValidConfig(cfgs[i].referencePrice, cfgs[i].bandBps) {
        var known := index.Contains(cfgs[i].instrumentId);
        if !known {
          bs', objs' := BuildNext(bs, objs, cfgs[..i], cfgs[i]);
          index.Insert(cfgs[i].instrumentId, i);
          ok := true;
        }
      }
    }

    /** Validates the instruments and builds their books and index. */
    method BuildBooks(cfgs: seq<InstrumentConfig>)
      returns (ok: bool, bs: seq<B.OrderBook>, ghost objs: set<object>, index: FlatHashMap.FlatHashMap)
      requires 0 < |cfgs| < TWO_32
      ensures ok <==> IsValidSetup(cfgs)
      ensures fresh(objs) && fresh(index)
      ensures ok ==> Progressed(bs, objs, index, cfgs)
    {
      hide AllValid, DistinctInstruments, IndexMap, Built, Progressed;
      bs, objs := [], {};
      index := new FlatHashMap.FlatHashMap(mix);
      index.Reserve(|cfgs|);
      NothingBuilt(cfgs, index);
      ok := true;
      var i := 0;
      while i < |cfgs| && ok
        invariant i <= |cfgs| && fresh(objs) && fresh(index)
        invariant if ok then Progressed(bs, objs, index, cfgs[..i]) else !IsValidSetup(cfgs)
        decreases |cfgs| - i
      {
        ok, bs, objs := AddBook(cfgs, i, bs, objs, index);
        i := i + 1;
      }
      assert cfgs[..|cfgs|] == cfgs;
      if ok { ProgressedAll(bs, objs, index, cfgs); }
    }

    static lemma ProgressedAll(bs: seq<B.OrderBook>, objs: set<object>, index: FlatHashMap.FlatHashMap,
                               cfgs: seq<InstrumentConfig>)
      requires 0 < |cfgs| < TWO_32 && Progressed(bs, objs, index, cfgs)
      ensures IsValidSetup(cfgs)
    {
    }

    static lemma NothingBuilt(cfgs: seq<InstrumentConfig>, index: FlatHashMap.FlatHashMap)
      requires |cfgs| < TWO_32 && index.Valid() && index.Contents() == map[]
      ensures Progressed([], {}, index, cfgs[..0])
    {
      assert cfgs[..0] == [];
    }

    /** Sets up the instruments; a refused configuration leaves the engine as it was. */
    method Configure(cfgs: seq<InstrumentConfig>) returns (r: ConfigureResult)
      requires Valid()
      modifies this
      ensures r == if old(configured) then AlreadyConfigured
                   else if IsValidSetup(cfgs) then ConfigOk else InvalidArgument
      ensures r != ConfigOk ==> Valid() && Market() == old(Market())
      ensures r == ConfigOk && LaddersFit(cfgs) ==> Valid() && Market() == Opening(cfgs, old(nextTradeId), old(log))
      ensures r == ConfigOk ==> pool.recs == [] && fresh(pool) && fresh(bookObjects)
      ensures r == ConfigOk ==> fresh(orderIndex) && fresh(instrumentIndex)
    {
      hide IsValidConfig, LadderFits, ViewOf, AllValid, DistinctInstruments, IndexMap;
      hide Snap, Heap, SysOk, Abs, Inv, Progressed;
      if configured { return AlreadyConfigured; }
      if |cfgs| == 0 || |cfgs| >= TWO_32 { return InvalidArgument; }
      var ok, bs, objs, index := BuildBooks(cfgs);
      if !ok { return InvalidArgument; }
      var newPool := new OrderPool();
      var newOrderIndex := new FlatHashMap.FlatHashMap(mix);
      newOrderIndex.Reserve(ORDER_CAPACITY);
      Commit(cfgs, bs, objs, index, newPool, newOrderIndex);
      r := ConfigOk;
    }

    /** Installs what was built. */
    method Commit(cfgs: seq<InstrumentConfig>, bs: seq<B.OrderBook>, ghost objs: set<object>,
                  index: FlatHashMap.FlatHashMap,
                  newPool: OrderPool, newOrderIndex: FlatHashMap.FlatHashMap)
      requires IsValidSetup(cfgs) && Progressed(bs, objs, index, cfgs)
      requires newPool.recs == [] && newOrderIndex.Valid() && newOrderIndex.Contents() == map[]
      requires index != newOrderIndex && this !in objs && newPool !in objs && newOrderIndex !in objs
      modifies this
      ensures pool == newPool && orderIndex == newOrderIndex && instrumentIndex == index && bookObjects == objs
      ensures LaddersFit(cfgs) ==> Valid() && Market() == Opening(cfgs, old(nextTradeId), old(log))
    {
      hide IsValidConfig, LaddersFit, AllValid, DistinctInstruments, IndexMap, SysOk, Abs, Inv, Heap, Built;
      hide FlatHashMap.FlatHashMap.Valid, FlatHashMap.FlatHashMap.Contents, OpeningViews, Opening;
      books := bs;
      pool := newPool;
      instrumentIndex := index;
      orderIndex := newOrderIndex;
      configured := true;
      asked, views, bookObjects := map[], OpeningViews(cfgs), objs;
      OpeningStands(cfgs, nextTradeId, log);
      if LaddersFit(cfgs) { Installed(cfgs); }
    }

    /** Books built for the instruments, with their opening views, are in shape. */
    lemma Installed(cfgs: seq<InstrumentConfig>)
      requires |cfgs| < TWO_32 && LaddersFit(cfgs) && Progressed(books, bookObjects, instrumentIndex, cfgs)
      requires views == OpeningViews(cfgs) && orderIndex.Valid() && orderIndex != instrumentIndex
      requires this !in bookObjects && pool !in bookObjects && orderIndex !in bookObjects
      ensures Heap()
    {
      hide IsValidConfig, LadderFits, ViewOf, AllValid, DistinctInstruments, IndexMap;
      hide B.OrderBook.Shape, B.OrderBook.View;
      hide FlatHashMap.FlatHashMap.Valid, FlatHashMap.FlatHashMap.Contents;
    }

    /** Best bid and offer of one instrument; an unknown instrument reports nothing. */
    method TopOfBook(instrumentId: uint32) returns (tob: Api.TopOfBook)
      requires Valid()
      ensures instrumentId !in Market().index ==> tob == Api.TopOfBook(0, 0, 0, 0)
      ensures instrumentId in Market().index ==>
        var book := Market().books[Market().index[instrumentId]];
        tob == Top(book) && (|book.bids| > 0 && |book.asks| > 0 ==> tob.bidPrice < tob.askPrice)
      ensures instrumentId in Market().index ==>
        && ReportsSide(pool.recs, instrumentId, Buy, tob.bidPrice, tob.bidQuantity)
        && ReportsSide(pool.recs, instrumentId, Sell, tob.askPrice, tob.askQuantity)
    {
      hide Heap, SysOk, ViewsOk, Inv, Abs, Top, BookRep, ReportsSide;
      MarketFields(Snap());
      tob := Api.TopOfBook(0, 0, 0, 0);
      var book := FindBook(instrumentId);
      if book.Some? {
        ViewsStand(Snap());
        BookStands(book.value);
        tob := books[book.value].TopOfBook(pool.recs);
        BookQueues(Snap(), book.value);
        NeverCrossed(Market(), [], book.value);
        IndexedBook(Snap(), instrumentId);
        TopIsScan(views[book.value], pool.recs);
      }
    }

    // Runs

    /** Serves one request. */
    method Serve(req: Request)
      requires Valid() && |Snap().recs| < INVALID_SLOT
      modifies this`views, this`asked, this`log, this`nextTradeId, pool, orderIndex, bookObjects
      ensures Valid() && Market() == Step(old(Market()), req) && |Snap().recs| <= |old(Snap()).recs| + 1
    {
      hide Heap, SysOk, Inv, Abs, Snap, M.Submit, M.Cancel, M.Replace;
      BooksApart();
      RecsNow();
      match req
      case SubmitRequest(o) => Submit(o);
      case CancelRequest(id) => Cancel(id);
      case ReplaceRequest(r) => Replace(r);
    }

    /** Whole-run refinement: serving any sequence of requests leaves exactly the market - every book and
        every event - that the simple model gives. */
    method ServeAll(reqs: seq<Request>)
      requires Valid() && |Snap().recs| + |reqs| <= INVALID_SLOT
      modifies this`views, this`asked, this`log, this`nextTradeId, pool, orderIndex, bookObjects
      ensures Valid() && Market() == Run(old(Market()), reqs)
    {
      hide Heap, SysOk, Inv, Abs, Snap, Step;
      BooksApart();
      ghost var s := Market();
      for i := 0 to |reqs|
        invariant Valid() && Market() == Run(s, reqs[..i]) && |Snap().recs| + (|reqs| - i) <= INVALID_SLOT
        invariant pool == old(pool) && orderIndex == old(orderIndex) && bookObjects == old(bookObjects)
      {
        BooksApart();
        Serve(reqs[i]);
        assert reqs[..i + 1][..i] == reqs[..i];
      }
      assert reqs[..|reqs|] == reqs;
    }
  }
}
