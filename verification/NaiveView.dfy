/** The cached view of a book against the plain one: best prices, totals and counts computed by scanning every
    record of the pool; and an order that comes and goes leaves no trace in either. */
module NaiveView {
  import opened Api
  import opened OrderPool
  import opened Fifo
  import opened BookModel
  import opened Market
  import opened QueueView
  import opened EngineModel

  // Scanning the pool

  predicate IsAt(rec: OrderRecord, inst: uint32, side: Side, price: int) {
    IsOn(rec, inst, side) && rec.price == price
  }

  /** Sum of the open quantities at one price among the first n records. */
  function ScanTotal(recs: Records, n: nat, inst: uint32, side: Side, price: int): nat
    requires n <= |recs|
  {
    if n == 0 then 0
    else
      var here := if IsAt(recs[n - 1], inst, side, price) then recs[n - 1].openQty else 0;
      ScanTotal(recs, n - 1, inst, side, price) + here
  }

  function ScanCount(recs: Records, n: nat, inst: uint32, side: Side, price: int): nat
    requires n <= |recs|
  {
    if n == 0 then 0
    else ScanCount(recs, n - 1, inst, side, price) + (if IsAt(recs[n - 1], inst, side, price) then 1 else 0)
  }

  ghost predicate NoneOn(recs: Records, inst: uint32, side: Side) {
    forall s :: 0 <= s < |recs| ==> !IsOn(recs[s], inst, side)
  }

  /** The best price any open record of the side has. */
  ghost predicate IsBestPrice(recs: Records, inst: uint32, side: Side, price: int) {
    && (exists s :: 0 <= s < |recs| && IsAt(recs[s], inst, side, price))
    && (forall s :: 0 <= s < |recs| && IsOn(recs[s], inst, side) ==> AtLeastAsGood(side, price, recs[s].price))
  }

  /** q lists, once each, the records below n that rest at this price. */
  ghost predicate Lists(recs: Records, n: nat, q: seq<nat>, inst: uint32, side: Side, price: int)
    requires n <= |recs|
  {
    && Distinct(q)
    && (forall i :: 0 <= i < |q| ==> q[i] < n && IsAt(recs[q[i]], inst, side, price))
    && (forall s :: 0 <= s < n && IsAt(recs[s], inst, side, price) ==> s in q)
  }

  /** Whatever the order of a list, its sum and length are the scan's. */
  lemma {:induction false} ListIsScan(recs: Records, n: nat, q: seq<nat>, inst: uint32, side: Side, price: int)
    requires n <= |recs| && Lists(recs, n, q, inst, side, price)
    ensures InPool(recs, q) && SumOpen(recs, q) == ScanTotal(recs, n, inst, side, price)
    ensures |q| == ScanCount(recs, n, inst, side, price)
  {
    hide Lists, SumOpen, Without, InPool, IsAt;
    ListInPool(recs, n, q, inst, side, price);
    if n > 0 {
      var i := ListLast(recs, n, q, inst, side, price);
      if IsAt(recs[n - 1], inst, side, price) {
        SumWithout(recs, q, i);
        ListShorter(recs, n, q, i, inst, side, price);
        ListIsScan(recs, n - 1, Without(q, i), inst, side, price);
      } else {
        ListIsScan(recs, n - 1, q, inst, side, price);
      }
    }
  }

  lemma ListInPool(recs: Records, n: nat, q: seq<nat>, inst: uint32, side: Side, price: int)
    requires n <= |recs| && Lists(recs, n, q, inst, side, price)
    ensures InPool(recs, q) && (n == 0 ==> |q| == 0) && (|q| == 0 ==> SumOpen(recs, q) == 0)
  {
    assert |q| > 0 ==> q[0] < n;
  }

  /** Where the last record is listed, if it belongs in the list. */
  lemma ListLast(recs: Records, n: nat, q: seq<nat>, inst: uint32, side: Side, price: int) returns (k: nat)
    requires 0 < n <= |recs| && Lists(recs, n, q, inst, side, price)
    ensures IsAt(recs[n - 1], inst, side, price) ==> k < |q| && q[k] == n - 1
    ensures !(IsAt(recs[n - 1], inst, side, price)) ==> Lists(recs, n - 1, q, inst, side, price)
  {
    k := 0;
    if IsAt(recs[n - 1], inst, side, price) {
      k :| 0 <= k < |q| && q[k] == n - 1;
    }
  }

  lemma ListShorter(recs: Records, n: nat, q: seq<nat>, k: nat, inst: uint32, side: Side, price: int)
    requires 0 < n <= |recs| && Lists(recs, n, q, inst, side, price) && k < |q| && q[k] == n - 1
    ensures Lists(recs, n - 1, Without(q, k), inst, side, price) && |Without(q, k)| == |q| - 1
  {
    var r := Without(q, k);
    assert forall i :: 0 <= i < |r| ==> r[i] == q[if i < k then i else i + 1];
    forall s | 0 <= s < n - 1 && IsAt(recs[s], inst, side, price) ensures s in r {
      var i :| 0 <= i < |q| && q[i] == s;
      assert r[if i < k then i else i - 1] == s;
    }
  }

  /** A level's queue lists exactly the open records at its price. */
  lemma QueueLists(v: BookView, recs: Records, side: Side, i: nat)
    requires BookRep(v, recs) && i < |v.prices|
    ensures |SideOf(v, side).queues| == |v.prices|
    ensures Lists(recs, |recs|, SideOf(v, side).queues[i], v.instrumentId, side, v.prices[i])
  {
    LevelFacts(v, recs, side, i);
    var q := SideOf(v, side).queues[i];
    forall k | 0 <= k < |q| ensures q[k] < |recs| && IsOn(recs[q[k]], v.instrumentId, side) &&
      recs[q[k]].price == v.prices[i] {
      assert RestsAt(recs[q[k]], v.instrumentId, side, i, v.prices[i]);
    }
    forall s | 0 <= s < |recs| && IsAt(recs[s], v.instrumentId, side, v.prices[i]) ensures s in q {
      var j, k := WhereIs(v, recs, s);
    }
  }

  /** Every level's cached total and count are those of a full scan; the total modulo 2^32. */
  lemma LevelIsScan(v: BookView, recs: Records, side: Side, i: nat)
    requires BookRep(v, recs) && i < |v.prices|
    ensures |SideOf(v, side).levels| == |v.prices|
    ensures SideOf(v, side).levels[i].totalQty == ScanTotal(recs, |recs|, v.instrumentId, side, v.prices[i]) % TWO_32
    ensures SideOf(v, side).levels[i].orderCount == ScanCount(recs, |recs|, v.instrumentId, side, v.prices[i])
    ensures i in SideOf(v, side).occupied <==> ScanCount(recs, |recs|, v.instrumentId, side, v.prices[i]) > 0
  {
    hide BookRep, Chain, SumOpen;
    LevelFacts(v, recs, side, i);
    QueueLists(v, recs, side, i);
    ListIsScan(recs, |recs|, SideOf(v, side).queues[i], v.instrumentId, side, v.prices[i]);
  }

  /** The cached best index names the best price of a full scan. */
  lemma BestIsScan(v: BookView, recs: Records, side: Side)
    requires BookRep(v, recs)
    ensures -1 <= SideOf(v, side).best < |v.prices|
    ensures SideOf(v, side).best == -1 <==> NoneOn(recs, v.instrumentId, side)
    ensures SideOf(v, side).best >= 0 ==> IsBestPrice(recs, v.instrumentId, side, v.prices[SideOf(v, side).best])
  {
    var sv := SideOf(v, side);
    BestLevel(v, recs, side);
    LevelsMatch(v, recs, side);
    forall s | 0 <= s < |recs| && IsOn(recs[s], v.instrumentId, side)
      ensures sv.best >= 0 && AtLeastAsGood(side, v.prices[sv.best], recs[s].price)
    {
      OpenIsNoBetter(v, recs, side, s);
    }
    if sv.best >= 0 {
      BestHasOrder(v, recs, side);
    }
  }

  lemma OpenIsNoBetter(v: BookView, recs: Records, side: Side, s: nat)
    requires BookRep(v, recs) && s < |recs| && IsOn(recs[s], v.instrumentId, side)
    ensures 0 <= SideOf(v, side).best < |v.prices| && AtLeastAsGood(side, v.prices[SideOf(v, side).best], recs[s].price)
  {
    var i, k := WhereIs(v, recs, s);
    LevelFacts(v, recs, side, i);
    LevelsMatch(v, recs, side);
    BestLevel(v, recs, side);
    assert i in SideOf(v, side).occupied;
  }

  lemma BestHasOrder(v: BookView, recs: Records, side: Side)
    requires BookRep(v, recs) && SideOf(v, side).best >= 0
    ensures SideOf(v, side).best < |v.prices|
    ensures exists s :: 0 <= s < |recs| && IsAt(recs[s], v.instrumentId, side, v.prices[SideOf(v, side).best])
  {
    BestLevel(v, recs, side);
    LevelsMatch(v, recs, side);
    var i := SideOf(v, side).best;
    LevelFacts(v, recs, side, i);
    var q := SideOf(v, side).queues[i];
    assert RestsAt(recs[q[0]], v.instrumentId, side, i, v.prices[i]);
  }

  /** What top_of_book reports for a side, in terms of the records alone. */
  ghost predicate ReportsSide(recs: Records, inst: uint32, side: Side, price: int, quantity: uint32) {
    if NoneOn(recs, inst, side) then price == 0 && quantity == 0
    else IsBestPrice(recs, inst, side, price) && quantity == ScanTotal(recs, |recs|, inst, side, price) % TWO_32
  }

  /** The reported best bid and offer are the naive maximum and minimum over all open records, with the sum of
      the open quantities there: exactly, if that sum is below 2^32, and otherwise modulo 2^32. */
  lemma TopIsScan(v: BookView, recs: Records)
    requires BookRep(v, recs)
    ensures var top := Top(AbsBook(v, recs));
      && ReportsSide(recs, v.instrumentId, Buy, top.bidPrice, top.bidQuantity)
      && ReportsSide(recs, v.instrumentId, Sell, top.askPrice, top.askQuantity)
  {
    hide BookRep, Orders, Sum, LevelSize, ScanTotal, IsBestPrice, NoneOn;
    BestLevel(v, recs, Buy);
    BestLevel(v, recs, Sell);
    BestIsScan(v, recs, Buy);
    BestIsScan(v, recs, Sell);
    if v.bid.best >= 0 { LevelIsScan(v, recs, Buy, v.bid.best); }
    if v.ask.best >= 0 { LevelIsScan(v, recs, Sell, v.ask.best); }
  }

  /** A reported bid quantity of zero means "no buy orders", and likewise for asks, exactly unless the total at
      the best price is a multiple of 2^32. */
  lemma ZeroMeansNoOrders(v: BookView, recs: Records)
    requires BookRep(v, recs)
    ensures var top := Top(AbsBook(v, recs));
      var noBids, noAsks := NoneOn(recs, v.instrumentId, Buy), NoneOn(recs, v.instrumentId, Sell);
      var bids := ScanTotal(recs, |recs|, v.instrumentId, Buy, top.bidPrice);
      var asks := ScanTotal(recs, |recs|, v.instrumentId, Sell, top.askPrice);
      && ((top.bidQuantity == 0 <==> noBids) <==> noBids || bids % TWO_32 != 0)
      && ((top.askQuantity == 0 <==> noAsks) <==> noAsks || asks % TWO_32 != 0)
  {
    hide BookRep, Top, ScanTotal, IsBestPrice, NoneOn, AbsBook;
    TopIsScan(v, recs);
  }

  // An order that comes and goes

  /** The record of an order that rested at `price` and left again. */
  function Gone(rec: OrderRecord, side: Side, price: int, idx: uint32): OrderRecord {
    rec.(side := side, price := price, levelIndex := idx, isOpen := false, prev := INVALID_SLOT, next := INVALID_SLOT)
  }

  /** Appending a record and unlinking it again restores every other record, links included. */
  lemma LinksRestored(recs: Records, q: seq<nat>, slot: uint32, side: Side, price: int, idx: uint32)
    requires Chain(recs, q) && |recs| <= INVALID_SLOT && slot < |recs| && slot !in q
    requires RestRecs.requires(recs, At(q, |q| - 1), slot, side, price, idx)
    ensures var recs1 := RestRecs(recs, At(q, |q| - 1), slot, side, price, idx);
      && UnlinkLinks.requires(recs1, slot)
      && UnlinkLinks(recs1, slot) == recs[slot := Gone(recs[slot], side, price, idx)]
  {
    if |q| > 0 { assert LinkedAt(recs, q, |q| - 1); }
  }

  lemma LastPosition(q: seq<nat>, slot: nat, k: nat)
    requires slot !in q && k < |q + [slot]| && (q + [slot])[k] == slot
    ensures k == |q| && Without(q + [slot], k) == q
  {
  }

  /** Undo: resting a record and taking it off again restores every level's head, tail, total and count,
      bitmap, best index and queue, and every link of every other record. */
  lemma RestThenLeave(v: BookView, recs: Records, slot: uint32, side: Side, idx: uint32, k: nat, v2: BookView)
    requires CanRest(v, recs, slot, idx)
    requires RestSide.requires(SideOf(v, side), recs, slot, side, idx)
    requires RestRecs.requires(recs, SideOf(v, side).levels[idx].tail, slot, side, v.prices[idx], idx)
    requires var v1, recs1 := WithSide(v, side, RestSide(SideOf(v, side), recs, slot, side, idx)),
                              RestRecs(recs, SideOf(v, side).levels[idx].tail, slot, side, v.prices[idx], idx);
      && CanLeave(v1, recs1, slot, k) && Leaves(v1, recs1, slot, k, v2)
      && UnlinkLinks.requires(recs1, slot) && BookRep(v2, UnlinkLinks(recs1, slot))
    ensures v2 == v
    ensures UnlinkLinks(RestRecs(recs, SideOf(v, side).levels[idx].tail, slot, side, v.prices[idx], idx), slot)
         == recs[slot := Gone(recs[slot], side, v.prices[idx], idx)]
  {
    RoomFor(v, recs, slot, side, idx);
    LevelFacts(v, recs, side, idx);
    var sv, q := SideOf(v, side), SideOf(v, side).queues[idx];
    LinksRestored(recs, q, slot, side, v.prices[idx], idx);
    LastPosition(q, slot, k);
    var recs2 := recs[slot := Gone(recs[slot], side, v.prices[idx], idx)];
    var sv2 := SideOf(v2, side);
    assert sv.queues[idx := q + [slot]][idx := q] == sv.queues;
    assert v2.instrumentId == v.instrumentId && v2.prices == v.prices && sv2.queues == sv.queues;
    assert SideRep(sv, recs, v.instrumentId, side, v.prices) && SideRep(sv2, recs2, v.instrumentId, side, v.prices);
    SideCanonical(sv, recs, sv2, recs2, v.instrumentId, side, v.prices);
  }
}
