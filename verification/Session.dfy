/** The engine from construction on, as its clients drive it. */
module Session {
  import opened Api
  import opened OrderPool
  import opened Fifo
  import opened BookModel
  import opened Market
  import opened MarketInvariant
  import opened MarketRun
  import opened EngineModel
  import opened Configuration
  import opened NaiveView
  import opened RequestModel
  import opened Canonical
  import opened MarketLaws
  import L = MarketLaws
  import B = OrderBook
  import E = Engine

  /** A new engine, configured and served any list of requests, holds exactly the books and has emitted
      exactly the events of the simple market model. */
  method Play(mix: uint64 -> uint64, cfgs: seq<InstrumentConfig>, reqs: seq<Request>) returns (e: E.Engine)
    requires IsValidSetup(cfgs) && LaddersFit(cfgs) && |reqs| <= INVALID_SLOT
    ensures fresh(e) && e.Valid() && Inv(Opening(cfgs, 1, []))
    ensures e.Market() == Run(Opening(cfgs, 1, []), reqs)
  {
    hide AllValid, LaddersFit, E.Engine.Heap, E.Engine.Standing, E.Engine.Snap, SysOk, Inv, Abs, Run, Opening;
    OpeningKeeps(cfgs, 1, []);
    e := new E.Engine(mix);
    e.NewIsValid();
    e.RecsNow();
    var r := e.Configure(cfgs);
    e.RecsNow();
    e.ServeAll(reqs);
  }

  /** Resting an order on a book and taking it off again restores the whole book and every other record. */
  method RestAndLeave(book: B.OrderBook, pool: OrderPool, slot: uint32, side: Side, price: int)
    requires book.Valid(pool.recs) && price in book.ladder.levels
    requires slot < |pool.recs| && !pool.recs[slot].isOpen && pool.recs[slot].instrumentId == book.instrumentId
    modifies book, book.bidBitmap, book.askBitmap, pool
    ensures book.View() == old(book.View()) && |pool.recs| == |old(pool.recs)|
    ensures forall s :: 0 <= s < |pool.recs| && s != slot ==> pool.recs[s] == old(pool.recs)[s]
    ensures !pool.recs[slot].isOpen && pool.recs[slot].openQty == old(pool.recs)[slot].openQty
  {
    hide BookRep, RestSide, RestRecs, CanRest, CanLeave, Leaves, UnlinkLinks;
    ghost var v, recs := book.View(), pool.recs;
    ghost var idx := book.AddResting(pool, slot, side, price);
    RestedOpen(v, recs, slot, side, idx);
    ghost var k := book.RemoveResting(pool, slot);
    RestThenLeave(v, recs, slot, side, idx, k, book.View());
  }

  lemma RestedOpen(v: BookView, recs: Records, slot: uint32, side: Side, idx: uint32)
    requires CanRest(v, recs, slot, idx)
    requires RestRecs.requires(recs, SideOf(v, side).levels[idx].tail, slot, side, v.prices[idx], idx)
    ensures var recs1 := RestRecs(recs, SideOf(v, side).levels[idx].tail, slot, side, v.prices[idx], idx);
      slot < |recs1| && recs1[slot].isOpen && recs1[slot].instrumentId == recs[slot].instrumentId == v.instrumentId
  {
  }

  lemma IdsStillAgree(sys: Sys, mid: Sys, sys': Sys)
    requires SysOk(sys) && KeepsIds(sys, mid) && KeepsIds(mid, sys')
    ensures IdsAgree(sys, sys')
  {
    hide ViewsOk;
    forall s | 0 <= s < |sys.recs| && sys.recs[s].isOpen ensures sys.recs[s].id in sys'.ids &&
      sys'.ids[sys.recs[s].id] == s {
    }
  }

  /** Undo: submitting a Day limit order that makes no trade and cancelling it leaves every book exactly as it
      was - levels, totals, bitmaps, best indices, queues - and every record that existed before. */
  method SubmitThenCancel(e: E.Engine, o: NewOrder)
    requires e.Valid() && |e.pool.recs| < INVALID_SLOT && RestsQuietly(e.Market(), o)
    modifies e`views, e`asked, e`log, e`nextTradeId, e.pool, e.orderIndex, e.bookObjects
    ensures e.Valid() && e.Snap().views == old(e.Snap()).views && |e.Snap().recs| >= |old(e.Snap()).recs|
    ensures forall s :: 0 <= s < |old(e.Snap()).recs| ==> e.Snap().recs[s] == old(e.Snap()).recs[s]
  {
    hide E.Engine.Heap, E.Engine.Snap, SysOk, Inv, Abs, Submit, Cancel, RestsQuietly, OthersSame, KeepsIds, IdsAgree;
    e.BooksApart();
    ghost var sys := e.Snap();
    L.SubmitThenCancel(Abs(sys), o);
    e.Submit(o);
    ghost var mid := e.Snap();
    e.Cancel(o.orderId);
    IdsStillAgree(sys, mid, e.Snap());
    ViewsAreCanonical(sys, e.Snap());
  }
}
