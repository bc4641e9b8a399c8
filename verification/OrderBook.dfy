/** The order book of one instrument: level arrays indexed through the price ladder, an occupancy
    bitmap and a cached best index per side. */
module OrderBook {
  import opened Api
  import opened TickTable
  import opened OrderPool
  import opened Fifo
  import opened BookModel
  import opened Market
  import opened QueueView
  import opened Band
  import PriceLadder
  import LevelBitset

  class OrderBook {
    var instrumentId: uint32
    var referencePrice: int
    var ladder: PriceLadder.PriceLadder
    var bidLevels: seq<Level>
    var askLevels: seq<Level>
    var bidBitmap: LevelBitset.LevelBitset
    var askBitmap: LevelBitset.LevelBitset
    /** Highest occupied bid index and lowest occupied ask index; -1 when there is none. */
    var bestBid: int
    var bestAsk: int
    /** The slots resting at each level, oldest first. */
    ghost var bidQueues: seq<seq<nat>>
    ghost var askQueues: seq<seq<nat>>

    ghost function Repr(): set<object>
      reads this
    {
      {this, ladder, bidBitmap, askBitmap}
    }

    ghost predicate Shape()
      reads this, ladder, bidBitmap, askBitmap
    {
      && ladder.Valid() && bidBitmap != askBitmap
      && |bidLevels| == |askLevels| == |ladder.levels|
      && |ladder.levels| <= 64 * |bidBitmap.words| && |ladder.levels| <= 64 * |askBitmap.words|
    }

    ghost function View(): BookView
      reads this, ladder, bidBitmap, askBitmap
    {
      BookView(instrumentId, ladder.bandLo, ladder.bandHi, ladder.levels,
               SideView(bidLevels, bidBitmap.Members(), bestBid, bidQueues),
               SideView(askLevels, askBitmap.Members(), bestAsk, askQueues))
    }

    /** The book's fields agree with one another and with the records of the pool. */
    ghost predicate Valid(recs: Records)
      reads this, ladder, bidBitmap, askBitmap
    {
      Shape() && BookRep(View(), recs)
    }

    constructor ()
      ensures fresh(Repr() - {this})
      ensures Shape() && View() == BookView(0, 0, 0, [], SideView([], {}, -1, []), SideView([], {}, -1, []))
    {
      instrumentId, referencePrice := 0, 0;
      ladder := new PriceLadder.PriceLadder();
      bidLevels, askLevels := [], [];
      bidBitmap := new LevelBitset.LevelBitset();
      askBitmap := new LevelBitset.LevelBitset();
      bestBid, bestAsk := -1, -1;
      bidQueues, askQueues := [], [];
      new;
    }

    /** Sets up an empty book over the instrument's band. */
    method Configure(id: uint32, refPrice: int, bandBps: uint32)
      requires IsValidConfig(refPrice, bandBps)
      modifies this
      ensures fresh(Repr() - {this}) && instrumentId == id
      ensures ladder.levels == Levels(TICK_SCHEDULE, BandLo(refPrice, bandBps), BandHi(refPrice, bandBps))
      ensures forall p :: p in ladder.levels <==> OnTick(p) && WithinBand(refPrice, bandBps, p)
      ensures |ladder.levels| < TWO_32 ==> Shape() && View() == EmptyView(id, refPrice, bandBps) && BookRep(View(), [])
    {
      hide Levels, BandLo, BandHi, IsValidConfig, BookRep, IsWellFormed, OnTick, WithinBand;
      BandLevels(refPrice, bandBps);
      ladder := BuildLadder(refPrice, bandBps);
      instrumentId, referencePrice := id, refPrice;
      Blank(ladder.totalCount);
      if |ladder.levels| < TWO_32 { EmptyBookRep(View()); }
    }

    /** Empty level arrays and bitmaps for n levels. */
    method Blank(n: nat)
      modifies this
      ensures ladder == old(ladder) && instrumentId == old(instrumentId)
      ensures fresh(bidBitmap) && fresh(askBitmap) && bidBitmap != askBitmap
      ensures n <= 64 * |bidBitmap.words| && n <= 64 * |askBitmap.words|
      ensures SideView(bidLevels, bidBitmap.Members(), bestBid, bidQueues) == EmptySide(n)
      ensures SideView(askLevels, askBitmap.Members(), bestAsk, askQueues) == EmptySide(n)
    {
      hide LevelBitset.LevelBitset.Members, EmptyLevels, EmptyQueues;
      bidLevels := EmptyLevels(n);
      askLevels := EmptyLevels(n);
      bidBitmap := BlankBitmap(n);
      askBitmap := BlankBitmap(n);
      bestBid, bestAsk := -1, -1;
      bidQueues, askQueues := EmptyQueues(n), EmptyQueues(n);
    }

    /** A bitmap for n levels, none of them occupied. */
    static method BlankBitmap(n: nat) returns (bitmap: LevelBitset.LevelBitset)
      ensures fresh(bitmap) && n <= 64 * |bitmap.words| && bitmap.Members() == {}
    {
      bitmap := new LevelBitset.LevelBitset();
      bitmap.Resize(n);
    }

    /** The ladder over [reference - band, reference + band], both ends pulled inward onto a tick. */
    static method BuildLadder(refPrice: int, bandBps: uint32) returns (l: PriceLadder.PriceLadder)
      requires IsValidConfig(refPrice, bandBps)
      ensures fresh(l) && l.bandLo == BandLo(refPrice, bandBps) && l.bandHi == BandHi(refPrice, bandBps)
      ensures IsWellFormed(TICK_SCHEDULE)
      ensures l.levels == Levels(TICK_SCHEDULE, BandLo(refPrice, bandBps), BandHi(refPrice, bandBps))
      ensures |l.levels| < TWO_32 ==> l.Valid()
    {
      BandFits(refPrice, bandBps);
      DeployedScheduleIsSound();
      hide IsTickAligned, Levels, IsSound, CeilToTick, FloorToTick;
      var delta := refPrice * bandBps / BPS_PER_UNIT;
      var rawLo := refPrice - delta;
      var rawHi := refPrice + delta;
      if rawLo < 1 { rawLo := 1; }
      var lo := CeilToTick(TICK_SCHEDULE, rawLo);
      var hi := FloorToTick(TICK_SCHEDULE, rawHi);
      l := new PriceLadder.PriceLadder();
      l.Build(TICK_SCHEDULE, lo, hi);
    }

    method HasBest(side: Side) returns (r: bool)
      ensures r <==> SideOf(View(), side).best >= 0
    {
      r := if side == Buy then bestBid >= 0 else bestAsk >= 0;
    }

    method BestIndex(side: Side) returns (r: int)
      ensures r == SideOf(View(), side).best
    {
      r := if side == Buy then bestBid else bestAsk;
    }

    method LevelAt(side: Side, idx: nat) returns (r: Level)
      requires Shape() && idx < |ladder.levels|
      ensures r == SideOf(View(), side).levels[idx]
    {
      r := if side == Buy then bidLevels[idx] else askLevels[idx];
    }

    /** Writes one level of a side. */
    method StoreLevel(side: Side, idx: nat, lvl: Level)
      requires Shape() && idx < |ladder.levels|
      modifies this`bidLevels, this`askLevels
      ensures Shape()
      ensures View() == WithSide(old(View()), side,
        SideOf(old(View()), side).(levels := SideOf(old(View()), side).levels[idx := lvl]))
    {
      if side == Buy { bidLevels := bidLevels[idx := lvl]; } else { askLevels := askLevels[idx := lvl]; }
    }

    /** The next occupied level past `after` in priority order; -1 if none remain. */
    method NextIndex(side: Side, after: nat) returns (r: int)
      requires Shape() && after < |ladder.levels|
      ensures IsNext(side, SideOf(View(), side).occupied, after, r)
    {
      if side == Buy { r := bidBitmap.FindHighestLe(after - 1); } else { r := askBitmap.FindLowestGe(after + 1); }
    }

    /** Appends a closed record to the tail of its price level. */
    method AddResting(pool: OrderPool, slot: uint32, side: Side, price: int) returns (ghost idx: uint32)
      requires Valid(pool.recs) && price in ladder.levels
      requires slot < |pool.recs| && !pool.recs[slot].isOpen && pool.recs[slot].instrumentId == instrumentId
      modifies this, bidBitmap, askBitmap, pool
      ensures ladder == old(ladder) && bidBitmap == old(bidBitmap) && askBitmap == old(askBitmap)
      ensures CanRest(old(View()), old(pool.recs), slot, idx) && ladder.levels[idx] == price
      ensures RestSide.requires(SideOf(old(View()), side), old(pool.recs), slot, side, idx)
      ensures View() == WithSide(old(View()), side, RestSide(SideOf(old(View()), side), old(pool.recs), slot, side,
                                                             idx))
      ensures RestRecs.requires(old(pool.recs), SideOf(old(View()), side).levels[idx].tail, slot, side, price, idx)
      ensures pool.recs == RestRecs(old(pool.recs), SideOf(old(View()), side).levels[idx].tail, slot, side, price, idx)
      ensures Valid(pool.recs)
    {
      hide BookRep;
      var signedIdx := ladder.PriceToIndex(price);
      var n: uint32 := signedIdx;
      idx := n;
      ghost var v, recs := View(), pool.recs;
      RestKeepsRep(v, recs, slot, side, n);
      RoomFor(v, recs, slot, side, n);
      OccupiedStays(v, recs, side, n);
      var lvl := LevelAt(side, n);
      LinkAtTail(pool, slot, side, price, n, lvl.tail);
      EnterLevel(side, n, slot, pool.recs[slot].openQty);
    }

    /** Prepares the record and links it behind the level's tail. */
    static method LinkAtTail(pool: OrderPool, slot: uint32, side: Side, price: int, idx: uint32, tail: uint32)
      requires RestRecs.requires(pool.recs, tail, slot, side, price, idx)
      modifies pool
      ensures pool.recs == RestRecs(old(pool.recs), tail, slot, side, price, idx)
    {
      pool.recs := pool.recs[slot := pool.recs[slot].(side := side, price := price, levelIndex := idx, isOpen := true)];
      pool.recs := pool.recs[slot := pool.recs[slot].(prev := tail, next := INVALID_SLOT)];
      if tail != INVALID_SLOT {
        pool.recs := pool.recs[tail := pool.recs[tail].(next := slot)];
      }
    }

    /** The book's own side of an append: level, bitmap and best index. */
    method EnterLevel(side: Side, idx: uint32, slot: uint32, qty: uint32)
      requires Shape() && idx < |ladder.levels| && |SideOf(View(), side).queues| == |ladder.levels|
      requires |SideOf(View(), side).levels| == |ladder.levels|
      requires SideOf(View(), side).levels[idx].orderCount < INVALID_SLOT
      requires SideOf(View(), side).levels[idx].orderCount > 0 ==> idx in SideOf(View(), side).occupied
      modifies this, bidBitmap, askBitmap
      ensures ladder == old(ladder) && bidBitmap == old(bidBitmap) && askBitmap == old(askBitmap) && Shape()
      ensures View() == WithSide(old(View()), side, EnterSide(SideOf(old(View()), side), slot, side, idx, qty))
    {
      hide View, Shape, AppendLevel;
      var lvl := LevelAt(side, idx);
      StoreLevel(side, idx, AppendLevel(lvl, slot, qty));
      AppendCount(lvl, slot, qty);
      if lvl.orderCount + 1 == 1 { MarkOccupied(side, idx); }
      assert SideOf(View(), side).occupied == SideOf(old(View()), side).occupied + {idx};
      EnterBest(side, idx);
      PushQueue(side, idx, slot);
    }

    /** An occupied level becomes best when there is none or it beats the cached one. */
    method EnterBest(side: Side, idx: uint32)
      requires Shape()
      modifies this`bestBid, this`bestAsk
      ensures Shape()
      ensures View() == WithSide(old(View()), side, SideOf(old(View()), side).(best :=
        if SideOf(old(View()), side).best < 0 || !BetterIndex(side, SideOf(old(View()), side).best, idx) then idx
        else SideOf(old(View()), side).best))
    {
      if side == Buy {
        if bestBid < 0 || idx > bestBid { bestBid := idx; }
      } else {
        if bestAsk < 0 || idx < bestAsk { bestAsk := idx; }
      }
    }

    ghost method PushQueue(side: Side, idx: uint32, slot: uint32)
      requires Shape() && idx < |SideOf(View(), side).queues|
      modifies this`bidQueues, this`askQueues
      ensures Shape()
      ensures View() == WithSide(old(View()), side, SideOf(old(View()), side).(queues :=
        SideOf(old(View()), side).queues[idx := SideOf(old(View()), side).queues[idx] + [slot]]))
    {
      if side == Buy {
        bidQueues := bidQueues[idx := bidQueues[idx] + [slot]];
      } else {
        askQueues := askQueues[idx := askQueues[idx] + [slot]];
      }
    }

    /** Takes an open record off its queue. */
    method RemoveResting(pool: OrderPool, slot: uint32) returns (ghost k: nat)
      requires Valid(pool.recs)
      requires slot < |pool.recs| && pool.recs[slot].isOpen && pool.recs[slot].instrumentId == instrumentId
      modifies this, bidBitmap, askBitmap, pool
      ensures ladder == old(ladder) && bidBitmap == old(bidBitmap) && askBitmap == old(askBitmap)
      ensures CanLeave(old(View()), old(pool.recs), slot, k)
      ensures UnlinkLinks.requires(old(pool.recs), slot) && pool.recs == UnlinkLinks(old(pool.recs), slot)
      ensures Leaves(old(View()), old(pool.recs), slot, k, View())
      ensures Valid(pool.recs)
    {
      hide BookRep, Complete, UnlinkLinks, LevelOk;
      ghost var v, recs := View(), pool.recs;
      var side, idx := pool.recs[slot].side, pool.recs[slot].levelIndex;
      ghost var i, pos := WhereIs(v, recs, slot);
      k := pos;
      LevelsMatch(v, recs, side);
      LinksFacts(v, recs, slot, k);
      var lvl := LevelAt(side, idx);
      var rec := pool.recs[slot];
      UnlinkRecord(pool, slot);
      LeaveLevel(side, idx, UnlinkLevel(lvl, rec), k);
      UnlinkKeepsRep(v, recs, slot, k, SideOf(View(), side));
    }

    /** Rewires the neighbours of a record and closes it. */
    static method UnlinkRecord(pool: OrderPool, slot: uint32)
      requires UnlinkLinks.requires(pool.recs, slot)
      modifies pool
      ensures pool.recs == UnlinkLinks(old(pool.recs), slot)
    {
      var rec := pool.recs[slot];
      if rec.prev != INVALID_SLOT {
        pool.recs := pool.recs[rec.prev := pool.recs[rec.prev].(next := rec.next)];
      }
      if rec.next != INVALID_SLOT {
        pool.recs := pool.recs[rec.next := pool.recs[rec.next].(prev := rec.prev)];
      }
      pool.recs := pool.recs[slot := pool.recs[slot].(isOpen := false, prev := INVALID_SLOT, next := INVALID_SLOT)];
    }

    /** The book's own side of an unlink: level, bitmap and, when the best level empties, best index. */
    method LeaveLevel(side: Side, idx: uint32, lvl: Level, ghost k: nat)
      requires Shape() && idx < |ladder.levels| == |SideOf(View(), side).queues| == |SideOf(View(), side).levels|
      requires k < |SideOf(View(), side).queues[idx]|
      requires BestOk(side, SideOf(View(), side).occupied, SideOf(View(), side).best)
      modifies this, bidBitmap, askBitmap
      ensures ladder == old(ladder) && bidBitmap == old(bidBitmap) && askBitmap == old(askBitmap) && Shape()
      ensures View() == WithSide(old(View()), side, SideOf(View(), side))
      ensures SideOf(View(), side).levels == SideOf(old(View()), side).levels[idx := lvl]
      ensures SideOf(View(), side).queues == SideOf(old(View()),
                                                    side).queues[idx := Without(SideOf(old(View()), side).queues[idx],
                                                        k)]
      ensures SideOf(View(), side).occupied ==
        if lvl.orderCount == 0 then SideOf(old(View()), side).occupied - {idx} else SideOf(old(View()), side).occupied
      ensures BestOk(side, SideOf(View(), side).occupied, SideOf(View(), side).best)
    {
      hide View, Shape, BestOk, Without;
      StoreLevel(side, idx, lvl);
      DropQueue(side, idx, k);
      if lvl.orderCount == 0 { Vacate(side, idx); }
    }

    /** Unmarks an emptied level and, if it was the best, relocates the best index. */
    method Vacate(side: Side, idx: uint32)
      requires Shape() && idx < |ladder.levels|
      requires BestOk(side, SideOf(View(), side).occupied, SideOf(View(), side).best)
      modifies this`bestBid, this`bestAsk, bidBitmap, askBitmap
      ensures Shape()
      ensures View() == WithSide(old(View()), side,
        SideOf(old(View()), side).(occupied := SideOf(old(View()), side).occupied - {idx},
                                   best := SideOf(View(), side).best))
      ensures BestOk(side, SideOf(View(), side).occupied, SideOf(View(), side).best)
    {
      hide BestOk;
      ghost var was, best := SideOf(View(), side).occupied, SideOf(View(), side).best;
      if side == Buy {
        bidBitmap.Clear(idx);
        if bestBid == idx {
          bestBid := bidBitmap.FindHighestLe(idx - 1);
          BestAfterRemove(side, was, bidBitmap.Members(), best, idx, bestBid);
        } else {
          BestKept(side, was, best, idx);
        }
      } else {
        askBitmap.Clear(idx);
        if bestAsk == idx {
          bestAsk := askBitmap.FindLowestGe(idx + 1);
          BestAfterRemove(side, was, askBitmap.Members(), best, idx, bestAsk);
        } else {
          BestKept(side, was, best, idx);
        }
      }
    }

    ghost method DropQueue(side: Side, idx: uint32, k: nat)
      requires Shape() && idx < |SideOf(View(), side).queues| && k < |SideOf(View(), side).queues[idx]|
      modifies this`bidQueues, this`askQueues
      ensures Shape()
      ensures View() == WithSide(old(View()), side, SideOf(old(View()), side).(queues :=
        SideOf(old(View()), side).queues[idx := Without(SideOf(old(View()), side).queues[idx], k)]))
    {
      if side == Buy {
        bidQueues := bidQueues[idx := Without(bidQueues[idx], k)];
      } else {
        askQueues := askQueues[idx := Without(askQueues[idx], k)];
      }
    }

    ghost method SwapInQueue(side: Side, idx: uint32, k: nat, heir: uint32)
      requires Shape() && idx < |SideOf(View(), side).queues| && k < |SideOf(View(), side).queues[idx]|
      modifies this`bidQueues, this`askQueues
      ensures Shape()
      ensures View() == WithSide(old(View()), side, SideOf(old(View()), side).(queues :=
        SideOf(old(View()), side).queues[idx := Substitute(SideOf(old(View()), side).queues[idx], k, heir)]))
    {
      if side == Buy {
        bidQueues := bidQueues[idx := Substitute(bidQueues[idx], k, heir)];
      } else {
        askQueues := askQueues[idx := Substitute(askQueues[idx], k, heir)];
      }
    }

    /** Puts a closed record exactly where an open one stands, closing the latter. */
    method ReplaceInPlace(pool: OrderPool, slot: uint32, heir: uint32) returns (ghost k: nat)
      requires Valid(pool.recs)
      requires slot < |pool.recs| && pool.recs[slot].isOpen && pool.recs[slot].instrumentId == instrumentId
      requires heir < |pool.recs| && !pool.recs[heir].isOpen && pool.recs[heir].instrumentId == instrumentId
      modifies this, pool
      ensures ladder == old(ladder) && bidBitmap == old(bidBitmap) && askBitmap == old(askBitmap)
      ensures CanInherit(old(View()), old(pool.recs), slot, heir, k)
      ensures SpliceRecs.requires(old(pool.recs), slot, heir) && pool.recs == SpliceRecs(old(pool.recs), slot, heir)
      ensures View() == WithSide(old(View()), old(pool.recs)[slot].side,
        SpliceSide(SideOf(old(View()), old(pool.recs)[slot].side), old(pool.recs), slot, heir, k))
      ensures Valid(pool.recs)
    {
      hide BookRep, Complete, LevelOk, SideRep, SpliceLinks, Substitute;
      ghost var v, recs := View(), pool.recs;
      var side, idx := pool.recs[slot].side, pool.recs[slot].levelIndex;
      ghost var i, pos := WhereIs(v, recs, slot);
      k := pos;
      LevelsMatch(v, recs, side);
      HeirOutside(v, recs, slot, heir, k);
      SpliceKeepsRep(v, recs, slot, heir, k);
      var lvl := LevelAt(side, idx);
      var lvl' := SpliceLevel(lvl, pool.recs[slot], heir, pool.recs[heir].openQty);
      SpliceRecord(pool, slot, heir);
      StoreLevel(side, idx, lvl');
      SwapInQueue(side, idx, k, heir);
    }

    /** Gives one record's links to another and closes the first. */
    static method SpliceRecord(pool: OrderPool, slot: uint32, heir: uint32)
      requires SpliceRecs.requires(pool.recs, slot, heir)
      modifies pool
      ensures pool.recs == SpliceRecs(old(pool.recs), slot, heir)
    {
      var rec := pool.recs[slot];
      pool.recs := pool.recs[heir := pool.recs[heir].(side := rec.side, price := rec.price,
                                                      levelIndex := rec.levelIndex,
        isOpen := true)];
      pool.recs := pool.recs[heir := pool.recs[heir].(prev := rec.prev, next := rec.next)];
      if rec.prev != INVALID_SLOT {
        pool.recs := pool.recs[rec.prev := pool.recs[rec.prev].(next := heir)];
      }
      if rec.next != INVALID_SLOT {
        pool.recs := pool.recs[rec.next := pool.recs[rec.next].(prev := heir)];
      }
      pool.recs := pool.recs[slot := pool.recs[slot].(isOpen := false, prev := INVALID_SLOT, next := INVALID_SLOT)];
    }

    /** Best bid and best ask, each with its level's cached total. */
    method TopOfBook(ghost recs: Records) returns (tob: Api.TopOfBook)
      requires Valid(recs)
      ensures tob == Top(Book(instrumentId, ladder.bandLo, ladder.bandHi, Orders(View(), recs, Buy),
                              Orders(View(), recs, Sell)))
    {
      tob := Api.TopOfBook(0, 0, 0, 0);
      BestLevel(View(), recs, Buy);
      BestLevel(View(), recs, Sell);
      hide BookRep, Sum, LevelSize;
      if bestBid >= 0 {
        var price := ladder.IndexToPrice(bestBid);
        tob := tob.(bidPrice := price, bidQuantity := bidLevels[bestBid].totalQty);
      }
      if bestAsk >= 0 {
        var price := ladder.IndexToPrice(bestAsk);
        tob := tob.(askPrice := price, askQuantity := askLevels[bestAsk].totalQty);
      }
    }

    method MarkOccupied(side: Side, idx: nat)
      requires Shape() && idx < |ladder.levels|
      modifies bidBitmap, askBitmap
      ensures View() == WithSide(old(View()), side,
        SideOf(old(View()), side).(occupied := SideOf(old(View()), side).occupied + {idx}))
      ensures Shape()
    {
      if side == Buy { bidBitmap.Set(idx); } else { askBitmap.Set(idx); }
    }
  }

  ghost function EmptyView(id: uint32, refPrice: int, bandBps: uint32): BookView {
    DeployedScheduleIsSound();
    var levels := Levels(TICK_SCHEDULE, BandLo(refPrice, bandBps), BandHi(refPrice, bandBps));
    BookView(id, BandLo(refPrice, bandBps), BandHi(refPrice, bandBps), levels, EmptySide(|levels|), EmptySide(|levels|))
  }
}
