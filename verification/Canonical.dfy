/** The engine's redundant state is canonical: market books and the slots of open ids determine every level, link,
    bitmap and best index. */
module Canonical {
  import opened Api
  import opened TickTable
  import opened OrderPool
  import opened Fifo
  import opened BookModel
  import opened Market
  import opened QueueView
  import opened MarketInvariant
  import opened EngineModel

  // Prices

  /** An ascending sequence is determined by its members. */
  lemma {:induction false} AscendingUnique(p: seq<int>, q: seq<int>)
    requires forall i, j :: 0 <= i < j < |p| ==> p[i] < p[j]
    requires forall i, j :: 0 <= i < j < |q| ==> q[i] < q[j]
    requires forall x :: x in p <==> x in q
    ensures p == q
  {
    FirstIn(p);
    FirstIn(q);
    if |p| > 0 && |q| > 0 {
      var x, y := p[|p| - 1], q[|q| - 1];
      assert x in p && y in q;
      assert x == y;
      var p', q' := p[..|p| - 1], q[..|q| - 1];
      assert forall z :: z in p' <==> z in p && z != x;
      assert forall z :: z in q' <==> z in q && z != y;
      AscendingUnique(p', q');
    }
  }

  lemma FirstIn(p: seq<int>)
    ensures |p| > 0 ==> p[0] in p
  {
  }

  // Queues

  /** Which part of a split queue an order is in, told from its price. */
  lemma ClassAt(side: Side, price: int, a: seq<Order>, b: seq<Order>, c: seq<Order>, x: nat)
    requires forall o <- a :: !AtLeastAsGood(side, price, o.price)
    requires forall o <- b :: o.price == price
    requires forall o <- c :: !AtLeastAsGood(side, o.price, price)
    requires x < |a + b + c|
    ensures x < |a| <==> !AtLeastAsGood(side, price, (a + b + c)[x].price)
    ensures x < |a + b| <==> AtLeastAsGood(side, (a + b + c)[x].price, price)
  {
    var o := (a + b + c)[x];
    assert x < |a| ==> o == a[x];
    assert |a| <= x < |a + b| ==> o == b[x - |a|];
    assert |a + b| <= x ==> o == c[x - |a + b|];
  }

  /** One split's parts begin no later than the other's. */
  lemma CutsAgree(side: Side, price: int, p: Parts, p': Parts)
    requires p.better + p.level + p.worse == p'.better + p'.level + p'.worse
    requires forall o <- p.better + p'.better :: !AtLeastAsGood(side, price, o.price)
    requires forall o <- p.level + p'.level :: o.price == price
    requires forall o <- p.worse + p'.worse :: !AtLeastAsGood(side, o.price, price)
    ensures |p.better| <= |p'.better| && |p.better + p.level| <= |p'.better + p'.level|
  {
    hide AtLeastAsGood;
    var q, n, m := p.better + p.level + p.worse, |p'.better|, |p'.better + p'.level|;
    if n < |q| {
      ClassAt(side, price, p.better, p.level, p.worse, n);
      ClassAt(side, price, p'.better, p'.level, p'.worse, n);
    }
    if m < |q| {
      ClassAt(side, price, p.better, p.level, p.worse, m);
      ClassAt(side, price, p'.better, p'.level, p'.worse, m);
    }
  }

  /** A queue splits around a price in one way only. */
  lemma SplitUnique(side: Side, price: int, p: Parts, p': Parts)
    requires p.better + p.level + p.worse == p'.better + p'.level + p'.worse
    requires forall o <- p.better + p'.better :: !AtLeastAsGood(side, price, o.price)
    requires forall o <- p.level + p'.level :: o.price == price
    requires forall o <- p.worse + p'.worse :: !AtLeastAsGood(side, o.price, price)
    ensures p.level == p'.level
  {
    var q := p.better + p.level + p.worse;
    CutsAgree(side, price, p, p');
    CutsAgree(side, price, p', p);
    assert p.level == q[|p.better|..|p.better + p.level|];
    assert p'.level == q[|p'.better|..|p'.better + p'.level|];
  }

  /** Open records of one instrument with the same id are at the same slot. */
  ghost predicate SlotsAgree(recs: Records, recs': Records, inst: uint32) {
    forall s, s' :: 0 <= s < |recs| && 0 <= s' < |recs'| && SameOpenId(recs[s], recs'[s'], inst) ==> s == s'
  }

  ghost predicate SameOpenId(rec: OrderRecord, rec': OrderRecord, inst: uint32) {
    rec.isOpen && rec'.isOpen && rec.instrumentId == rec'.instrumentId == inst && rec.id == rec'.id
  }

  /** Two standings of one book side with the same market queue. */
  ghost predicate SameSide(v: BookView, recs: Records, v': BookView, recs': Records, side: Side) {
    && BookRep(v, recs) && BookRep(v', recs') && v'.instrumentId == v.instrumentId && v'.prices == v.prices
    && SlotsAgree(recs, recs', v.instrumentId) && Orders(v', recs', side) == Orders(v, recs, side)
  }

  lemma LevelsCanonical(v: BookView, recs: Records, v': BookView, recs': Records, side: Side, i: nat)
    requires SameSide(v, recs, v', recs', side) && i < |v.prices|
    ensures |SideOf(v, side).queues| == |SideOf(v', side).queues| == |v.prices|
    ensures InPool(recs, SideOf(v, side).queues[i]) && InPool(recs', SideOf(v', side).queues[i])
    ensures MapOrders(recs', SideOf(v', side).queues[i]) == MapOrders(recs, SideOf(v, side).queues[i])
  {
    hide BookRep, Orders, MapOrders, AtLeastAsGood, SlotsAgree;
    var p, p' := Split(v, recs, side, i), Split(v', recs', side, i);
    SplitUnique(side, v.prices[i], p, p');
  }

  /** The market queue determines the slots of every level. */
  lemma QueueCanonical(v: BookView, recs: Records, v': BookView, recs': Records, side: Side, i: nat)
    requires SameSide(v, recs, v', recs', side) && i < |v.prices|
    ensures |SideOf(v, side).queues| == |SideOf(v', side).queues| == |v.prices|
    ensures SideOf(v', side).queues[i] == SideOf(v, side).queues[i]
    ensures forall k :: 0 <= k < |SideOf(v, side).queues[i]| ==>
      var s := SideOf(v, side).queues[i][k];
      s < |recs| && s < |recs'| && AbsOrder(recs'[s]) == AbsOrder(recs[s])
  {
    LevelsCanonical(v, recs, v', recs', side, i);
    LevelFacts(v, recs, side, i);
    LevelFacts(v', recs', side, i);
    hide BookRep, Orders;
    var q, q' := SideOf(v, side).queues[i], SideOf(v', side).queues[i];
    assert |q'| == |MapOrders(recs', q')| == |q|;
    forall k | 0 <= k < |q| ensures q'[k] == q[k] && AbsOrder(recs'[q[k]]) == AbsOrder(recs[q[k]]) {
      assert MapOrders(recs, q)[k] == AbsOrder(recs[q[k]]) && MapOrders(recs', q')[k] == AbsOrder(recs'[q'[k]]);
      assert RestsAt(recs[q[k]], v.instrumentId, side, i, v.prices[i]);
      assert RestsAt(recs'[q'[k]], v.instrumentId, side, i, v.prices[i]);
      assert SameOpenId(recs[q[k]], recs'[q'[k]], v.instrumentId);
    }
  }

  /** The market queue determines the whole side and every link in it. */
  lemma SameSideViews(v: BookView, recs: Records, v': BookView, recs': Records, side: Side)
    requires SameSide(v, recs, v', recs', side)
    ensures SideOf(v', side) == SideOf(v, side)
    ensures forall s :: 0 <= s < |recs| && IsOn(recs[s], v.instrumentId, side) ==> s < |recs'| && recs'[s] == recs[s]
  {
    hide Orders, SlotsAgree, LevelOk;
    var sv, sv' := SideOf(v, side), SideOf(v', side);
    assert SideRep(sv, recs, v.instrumentId, side, v.prices) && SideRep(sv', recs', v.instrumentId, side, v.prices);
    forall i | 0 <= i < |v.prices|
      ensures sv'.queues[i] == sv.queues[i]
      ensures forall k :: 0 <= k < |sv.queues[i]| ==>
        sv.queues[i][k] < |recs| && sv.queues[i][k] < |recs'| &&
          AbsOrder(recs'[sv.queues[i][k]]) == AbsOrder(recs[sv.queues[i][k]])
    {
      QueueCanonical(v, recs, v', recs', side, i);
    }
    assert sv'.queues == sv.queues;
    SideCanonical(sv, recs, sv', recs', v.instrumentId, side, v.prices);
    forall s | 0 <= s < |recs| && IsOn(recs[s], v.instrumentId, side) ensures s < |recs'| && recs'[s] == recs[s] {
      RecordCanonical(v, recs, v', recs', side, s);
    }
  }

  /** An open record with the same order and the same links is the same record. */
  lemma RecordCanonical(v: BookView, recs: Records, v': BookView, recs': Records, side: Side, s: nat)
    requires BookRep(v, recs) && BookRep(v', recs') && v'.instrumentId == v.instrumentId && v'.prices == v.prices
    requires SideOf(v', side) == SideOf(v, side) && s < |recs| && IsOn(recs[s], v.instrumentId, side)
    requires |SideOf(v, side).queues| == |v.prices|
    requires forall i, k :: 0 <= i < |v.prices| && 0 <= k < |SideOf(v, side).queues[i]| ==>
      var x := SideOf(v, side).queues[i][k];
      && x < |recs| && x < |recs'| && AbsOrder(recs'[x]) == AbsOrder(recs[x])
      && recs'[x].prev == recs[x].prev && recs'[x].next == recs[x].next
    ensures s < |recs'| && recs'[s] == recs[s]
  {
    var i, k := WhereIs(v, recs, s);
    LevelFacts(v, recs, side, i);
    LevelFacts(v', recs', side, i);
    assert RestsAt(recs[SideOf(v, side).queues[i][k]], v.instrumentId, side, i, v.prices[i]);
    assert RestsAt(recs'[SideOf(v, side).queues[i][k]], v.instrumentId, side, i, v.prices[i]);
  }

  // Books and systems

  /** Every open id is at the same slot in both. */
  ghost predicate IdsAgree(sys: Sys, sys': Sys) {
    forall s :: 0 <= s < |sys.recs| && sys.recs[s].isOpen ==>
      sys.recs[s].id in sys'.ids && sys'.ids[sys.recs[s].id] == s
  }

  lemma AgreeingSlots(sys: Sys, sys': Sys, inst: uint32)
    requires OpenOk(sys') && IdsAgree(sys, sys')
    ensures SlotsAgree(sys.recs, sys'.recs, inst)
  {
    forall s, s' | 0 <= s < |sys.recs| && 0 <= s' < |sys'.recs| && SameOpenId(sys.recs[s], sys'.recs[s'], inst)
      ensures s == s'
    {
      assert sys.recs[s].isOpen && sys'.recs[s'].isOpen;
    }
  }

  lemma BookCanonical(sys: Sys, sys': Sys, b: nat)
    requires SysOk(sys) && SysOk(sys') && IdsAgree(sys, sys') && Abs(sys').books == Abs(sys).books && b < |sys.views|
    ensures b < |sys'.views| && sys'.views[b] == sys.views[b]
    ensures forall s :: 0 <= s < |sys.recs| && IsResting(sys, b, s) ==> s < |sys'.recs| && sys'.recs[s] == sys.recs[s]
  {
    hide Orders, SideRep, Complete, SlotsAgree, IdsAgree, PriceOk;
    BookQueues(sys, b);
    BookQueues(sys', b);
    var v, v' := sys.views[b], sys'.views[b];
    assert LadderOk(v) && LadderOk(v');
    AscendingUnique(v.prices, v'.prices);
    AgreeingSlots(sys, sys', v.instrumentId);
    SameSideViews(v, sys.recs, v', sys'.recs, Buy);
    SameSideViews(v, sys.recs, v', sys'.recs, Sell);
    assert v'.bid == SideOf(v', Buy) && v'.ask == SideOf(v', Sell);
  }

  /** Equal market books with the open ids at the same slots: every book is the same in every field, and so is
      every open record, links included. */
  lemma ViewsAreCanonical(sys: Sys, sys': Sys)
    requires SysOk(sys) && SysOk(sys') && IdsAgree(sys, sys') && Abs(sys').books == Abs(sys).books
    ensures sys'.views == sys.views
    ensures forall s :: 0 <= s < |sys.recs| && sys.recs[s].isOpen ==> s < |sys'.recs| && sys'.recs[s] == sys.recs[s]
  {
    hide SysOk, Abs, IdsAgree;
    BookCounts(sys);
    BookCounts(sys');
    forall b | 0 <= b < |sys.views|
      ensures sys'.views[b] == sys.views[b]
      ensures forall s :: 0 <= s < |sys.recs| && IsResting(sys, b, s) ==> s < |sys'.recs| && sys'.recs[s] == sys.recs[s]
    {
      BookCanonical(sys, sys', b);
    }
    forall s | 0 <= s < |sys.recs| && sys.recs[s].isOpen ensures s < |sys'.recs| && sys'.recs[s] == sys.recs[s] {
      var b := BookOfRecord(sys, s);
    }
  }

  lemma BookCounts(sys: Sys)
    requires SysOk(sys)
    ensures |Abs(sys).books| == |sys.views|
  {
  }

  /** Every open record belongs to a book. */
  lemma BookOfRecord(sys: Sys, s: nat) returns (b: nat)
    requires SysOk(sys) && s < |sys.recs| && sys.recs[s].isOpen
    ensures b < |sys.views| && sys.views[b].instrumentId == sys.recs[s].instrumentId
  {
    hide BookRep, LadderOk;
    b := sys.index[sys.recs[s].instrumentId];
  }
}
