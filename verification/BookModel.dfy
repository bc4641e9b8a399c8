/** How a book's redundant fields - linked lists, cached totals and counts, bitmap, best index - stand
    for one queue of slots per price level, and what each book operation does to them. */
module BookModel {
  import opened Api
  import opened OrderPool
  import opened Fifo
  import opened Pigeons

  datatype Level = Level(head: uint32, tail: uint32, totalQty: uint32, orderCount: uint32)

  const EMPTY_LEVEL := Level(INVALID_SLOT, INVALID_SLOT, 0, 0)

  /** One side of a book; `queues` is what the other fields stand for. */
  datatype SideView = SideView(levels: seq<Level>, occupied: set<nat>, best: int, queues: seq<seq<nat>>)

  datatype BookView = BookView(
    instrumentId: uint32, lo: int, hi: int, prices: seq<int>, bid: SideView, ask: SideView)

  function SideOf(v: BookView, side: Side): SideView {
    if side == Buy then v.bid else v.ask
  }

  function WithSide(v: BookView, side: Side, sv: SideView): BookView {
    if side == Buy then v.(bid := sv) else v.(ask := sv)
  }

  // The representation invariant

  /** A level's head, tail, count and total; the total is the true sum modulo 2^32. */
  ghost predicate LevelRep(lvl: Level, recs: Records, q: seq<nat>) {
    && Chain(recs, q)
    && lvl.head == At(q, 0) && lvl.tail == At(q, |q| - 1)
    && lvl.orderCount == |q|
    && lvl.totalQty == SumOpen(recs, q) % TWO_32
  }

  /** The record of an order resting at this place. */
  ghost predicate RestsAt(rec: OrderRecord, inst: uint32, side: Side, idx: nat, price: int) {
    rec.isOpen && rec.instrumentId == inst && rec.side == side && rec.levelIndex == idx && rec.price == price
  }

  ghost predicate Placed(recs: Records, q: seq<nat>, inst: uint32, side: Side, idx: nat, price: int)
    requires InPool(recs, q)
  {
    forall i :: 0 <= i < |q| ==> RestsAt(recs[q[i]], inst, side, idx, price)
  }

  ghost predicate LevelOk(sv: SideView, recs: Records, inst: uint32, side: Side, prices: seq<int>, i: nat)
    requires |sv.levels| == |sv.queues| == |prices| && i < |prices|
  {
    && LevelRep(sv.levels[i], recs, sv.queues[i])
    && Placed(recs, sv.queues[i], inst, side, i, prices[i])
    && (i in sv.occupied <==> |sv.queues[i]| > 0)
  }

  /** Index i is at least as good a price as index j. */
  predicate BetterIndex(side: Side, i: int, j: int) {
    if side == Buy then i >= j else i <= j
  }

  ghost predicate BestOk(side: Side, occupied: set<nat>, best: int) {
    if best == -1 then occupied == {}
    else best in occupied && forall j <- occupied :: BetterIndex(side, best, j)
  }

  ghost predicate SideRep(sv: SideView, recs: Records, inst: uint32, side: Side, prices: seq<int>) {
    && |sv.levels| == |sv.queues| == |prices|
    && (forall i :: 0 <= i < |prices| ==> LevelOk(sv, recs, inst, side, prices, i))
    && (forall i <- sv.occupied :: i < |prices|)
    && BestOk(side, sv.occupied, sv.best)
  }

  /** Every open record of the instrument is in the queue its side and level name. */
  ghost predicate Complete(v: BookView, recs: Records) {
    forall s :: 0 <= s < |recs| && recs[s].isOpen && recs[s].instrumentId == v.instrumentId ==>
      && recs[s].levelIndex < |SideOf(v, recs[s].side).queues|
      && s in SideOf(v, recs[s].side).queues[recs[s].levelIndex]
  }

  ghost predicate BookRep(v: BookView, recs: Records) {
    && |recs| <= INVALID_SLOT
    && (forall side :: SideRep(SideOf(v, side), recs, v.instrumentId, side, v.prices))
    && Complete(v, recs)
    && (forall i, j :: 0 <= i < j < |v.prices| ==> v.prices[i] < v.prices[j])
  }

  /** The queue position of an open record. */
  lemma WhereIs(v: BookView, recs: Records, s: nat) returns (i: nat, k: nat)
    requires BookRep(v, recs) && s < |recs| && recs[s].isOpen && recs[s].instrumentId == v.instrumentId
    ensures i == recs[s].levelIndex < |v.prices| && recs[s].price == v.prices[i]
    ensures |SideOf(v, recs[s].side).queues| == |v.prices|
    ensures k < |SideOf(v, recs[s].side).queues[i]| && SideOf(v, recs[s].side).queues[i][k] == s
  {
    var side := recs[s].side;
    i := recs[s].levelIndex;
    assert SideRep(SideOf(v, side), recs, v.instrumentId, side, v.prices);
    assert LevelOk(SideOf(v, side), recs, v.instrumentId, side, v.prices, i);
    k :| 0 <= k < |SideOf(v, side).queues[i]| && SideOf(v, side).queues[i][k] == s;
  }

  /** A level none of whose records changed still holds. */
  lemma LevelFrame(sv: SideView, sv': SideView, recs: Records, recs': Records, inst: uint32, side: Side,
                   prices: seq<int>, i: nat)
    requires |sv.levels| == |sv.queues| == |prices| && i < |prices| && LevelOk(sv, recs, inst, side, prices, i)
    requires |sv'.levels| == |sv'.queues| == |prices|
    requires sv'.levels[i] == sv.levels[i] && sv'.queues[i] == sv.queues[i] && (i in sv'.occupied <==> i in sv.occupied)
    requires |recs'| >= |recs|
    requires forall s :: 0 <= s < |recs| && RestsAt(recs[s], inst, side, i, prices[i]) ==> recs'[s] == recs[s]
    ensures LevelOk(sv', recs', inst, side, prices, i)
  {
    var q := sv.queues[i];
    forall k | 0 <= k < |q| ensures recs'[q[k]] == recs[q[k]] {
      assert RestsAt(recs[q[k]], inst, side, i, prices[i]);
    }
    ChainFrame(recs, recs', q);
    SumFrame(recs, recs', q);
  }

  /** recs' differs from recs only at unopened slots and, on one instrument, one side and one level. */
  ghost predicate LocalChange(recs: Records, recs': Records, inst: uint32, side: Side, idx: nat) {
    && |recs'| >= |recs|
    && (forall s :: 0 <= s < |recs| && recs[s].isOpen && recs'[s] != recs[s] ==>
          recs[s].instrumentId == inst && recs[s].side == side && recs[s].levelIndex == idx)
  }

  /** A change to one level leaves the rest of the book standing. */
  lemma SideAfterChange(v: BookView, sv': SideView, recs: Records, recs': Records, side: Side, idx: nat)
    requires BookRep(v, recs) && |recs'| <= INVALID_SLOT && idx < |v.prices|
    requires LocalChange(recs, recs', v.instrumentId, side, idx)
    requires |sv'.levels| == |sv'.queues| == |v.prices|
    requires LevelOk(sv', recs', v.instrumentId, side, v.prices, idx)
    requires forall i :: 0 <= i < |v.prices| && i != idx ==>
      sv'.levels[i] == SideOf(v, side).levels[i] && sv'.queues[i] == SideOf(v, side).queues[i]
    requires sv'.occupied - {idx} == SideOf(v, side).occupied - {idx}
    requires BestOk(side, sv'.occupied, sv'.best)
    requires Complete(WithSide(v, side, sv'), recs')
    ensures BookRep(WithSide(v, side, sv'), recs')
  {
    var v', inst := WithSide(v, side, sv'), v.instrumentId;
    forall sd ensures SideRep(SideOf(v', sd), recs', inst, sd, v.prices) {
      var sv := SideOf(v, sd);
      assert SideRep(sv, recs, inst, sd, v.prices);
      forall i | 0 <= i < |v.prices| ensures LevelOk(SideOf(v', sd), recs', inst, sd, v.prices, i) {
        assert LevelOk(sv, recs, inst, sd, v.prices, i);
        if sd != side || i != idx {
          assert i in SideOf(v', sd).occupied <==> i in sv.occupied by {
            if sd == side { assert i in sv'.occupied - {idx} <==> i in sv.occupied - {idx}; }
          }
          LevelFrame(sv, SideOf(v', sd), recs, recs', inst, sd, v.prices, i);
        }
      }
      if sd == side {
        forall i <- sv'.occupied ensures i < |v.prices| {
          if i != idx { assert i in sv'.occupied - {idx}; assert i in sv.occupied - {idx}; }
        }
      }
    }
  }

  /** A book none of whose records changed still stands. */
  lemma BookFrame(v: BookView, recs: Records, recs': Records)
    requires BookRep(v, recs) && |recs| <= |recs'| <= INVALID_SLOT
    requires forall s :: 0 <= s < |recs| && recs[s].isOpen && recs[s].instrumentId == v.instrumentId ==>
      recs'[s] == recs[s]
    requires forall s :: 0 <= s < |recs'| && recs'[s].isOpen && recs'[s].instrumentId == v.instrumentId ==>
      s < |recs| && recs[s].isOpen && recs[s].instrumentId == v.instrumentId
    ensures BookRep(v, recs')
  {
    forall sd ensures SideRep(SideOf(v, sd), recs', v.instrumentId, sd, v.prices) {
      var sv := SideOf(v, sd);
      assert SideRep(sv, recs, v.instrumentId, sd, v.prices);
      forall i | 0 <= i < |v.prices| ensures LevelOk(sv, recs', v.instrumentId, sd, v.prices, i) {
        assert LevelOk(sv, recs, v.instrumentId, sd, v.prices, i);
        LevelFrame(sv, sv, recs, recs', v.instrumentId, sd, v.prices, i);
      }
    }
    forall s | 0 <= s < |recs'| && recs'[s].isOpen && recs'[s].instrumentId == v.instrumentId
      ensures recs'[s].levelIndex < |SideOf(v, recs'[s].side).queues|
      ensures s in SideOf(v, recs'[s].side).queues[recs'[s].levelIndex]
    {
      assert recs'[s] == recs[s];
    }
  }

  // Resting an order

  /** The level after an append. */
  function AppendLevel(lvl: Level, slot: uint32, qty: uint32): Level
    requires lvl.orderCount < INVALID_SLOT
  {
    Level(if lvl.tail != INVALID_SLOT then lvl.head else slot, slot, (lvl.totalQty + qty) % TWO_32, lvl.orderCount + 1)
  }

  function RestRecs(recs: Records, tail: uint32, slot: uint32, side: Side, price: int, idx: uint32): (r: Records)
    requires slot < |recs| && (tail != INVALID_SLOT ==> tail < |recs|)
    ensures |r| == |recs|
  {
    AppendLinks(Marked(recs, slot, side, price, idx), tail, slot)
  }

  function EnterSide(sv: SideView, slot: uint32, side: Side, idx: uint32, qty: uint32): SideView
    requires idx < |sv.levels| == |sv.queues| && sv.levels[idx].orderCount < INVALID_SLOT
  {
    SideView(
      sv.levels[idx := AppendLevel(sv.levels[idx], slot, qty)],
      sv.occupied + {idx},
      if sv.best < 0 || !BetterIndex(side, sv.best, idx) then idx else sv.best,
      sv.queues[idx := sv.queues[idx] + [slot]])
  }

  function RestSide(sv: SideView, recs: Records, slot: uint32, side: Side, idx: uint32): SideView
    requires idx < |sv.levels| == |sv.queues| && slot < |recs| && sv.levels[idx].orderCount < INVALID_SLOT
  {
    EnterSide(sv, slot, side, idx, recs[slot].openQty)
  }

  ghost predicate CanRest(v: BookView, recs: Records, slot: uint32, idx: uint32) {
    && BookRep(v, recs) && slot < |recs| && !recs[slot].isOpen && recs[slot].instrumentId == v.instrumentId
    && idx < |v.prices|
  }

  /** Facts about one level of a standing book. */
  lemma LevelFacts(v: BookView, recs: Records, side: Side, idx: nat)
    requires BookRep(v, recs) && idx < |v.prices|
    ensures |SideOf(v, side).levels| == |SideOf(v, side).queues| == |v.prices|
    ensures LevelOk(SideOf(v, side), recs, v.instrumentId, side, v.prices, idx)
    ensures |SideOf(v, side).queues[idx]| <= |recs|
    ensures SideOf(v, side).levels[idx].tail == INVALID_SLOT || SideOf(v, side).levels[idx].tail < |recs|
    ensures SideOf(v, side).levels[idx].tail != INVALID_SLOT ==>
      RestsAt(recs[SideOf(v, side).levels[idx].tail], v.instrumentId, side, idx, v.prices[idx])
  {
    var sv := SideOf(v, side);
    assert SideRep(sv, recs, v.instrumentId, side, v.prices);
    assert LevelOk(sv, recs, v.instrumentId, side, v.prices, idx);
    Pigeonhole(sv.queues[idx], |recs|);
  }

  lemma RoomFor(v: BookView, recs: Records, slot: uint32, side: Side, idx: uint32)
    requires CanRest(v, recs, slot, idx)
    ensures |SideOf(v, side).levels| == |SideOf(v, side).queues| == |v.prices|
    ensures SideOf(v, side).levels[idx].tail == INVALID_SLOT || SideOf(v, side).levels[idx].tail < |recs|
    ensures slot !in SideOf(v, side).queues[idx]
    ensures SideOf(v, side).levels[idx].orderCount < INVALID_SLOT
  {
    LevelFacts(v, recs, side, idx);
    var q := SideOf(v, side).queues[idx];
    forall k | 0 <= k < |q| ensures q[k] != slot {
      assert RestsAt(recs[q[k]], v.instrumentId, side, idx, v.prices[idx]);
    }
    Pigeonhole(q + [slot], |recs|);
  }

  lemma SubMod(a: nat, b: nat)
    requires b <= a && b < TWO_32
    ensures (a % TWO_32 + TWO_32 - b) % TWO_32 == (a - b) % TWO_32
  {
  }

  /** Appending to one level's queue. */
  lemma AppendRep(lvl: Level, recs: Records, q: seq<nat>, slot: uint32)
    requires LevelRep(lvl, recs, q) && |recs| <= INVALID_SLOT && slot < |recs| && slot !in q
    requires lvl.orderCount < INVALID_SLOT && (lvl.tail == INVALID_SLOT || lvl.tail < |recs|)
    ensures LevelRep(AppendLevel(lvl, slot, recs[slot].openQty), AppendLinks(recs, lvl.tail, slot), q + [slot])
  {
    var recs' := AppendLinks(recs, lvl.tail, slot);
    AppendChain(recs, q, slot);
    assert InPool(recs', q);
    SumFrame(recs, recs', q);
    SumAppend(recs', q, slot);
    WrapAdd(SumOpen(recs, q), recs[slot].openQty);
  }

  lemma LevelRepFrame(lvl: Level, recs: Records, recs': Records, q: seq<nat>)
    requires LevelRep(lvl, recs, q) && |recs'| >= |recs|
    requires forall i :: 0 <= i < |q| ==> recs'[q[i]] == recs[q[i]]
    ensures LevelRep(lvl, recs', q)
  {
    ChainFrame(recs, recs', q);
    SumFrame(recs, recs', q);
  }

  /** A record as AddResting prepares it before linking it in. */
  function Marked(recs: Records, slot: uint32, side: Side, price: int, idx: uint32): Records
    requires slot < |recs|
  {
    recs[slot := recs[slot].(side := side, price := price, levelIndex := idx, isOpen := true)]
  }

  lemma RestPlaced(recs: Records, q: seq<nat>, tail: uint32, slot: uint32, inst: uint32, side: Side, price: int,
                   idx: uint32)
    requires InPool(recs, q) && Placed(recs, q, inst, side, idx, price)
    requires slot < |recs| && recs[slot].instrumentId == inst && (tail != INVALID_SLOT ==> tail < |recs|)
    ensures InPool(RestRecs(recs, tail, slot, side, price, idx), q + [slot])
    ensures Placed(RestRecs(recs, tail, slot, side, price, idx), q + [slot], inst, side, idx, price)
  {
    var recs', q' := RestRecs(recs, tail, slot, side, price, idx), q + [slot];
    forall i | 0 <= i < |q'| ensures RestsAt(recs'[q'[i]], inst, side, idx, price) {
      if i < |q| { assert RestsAt(recs[q[i]], inst, side, idx, price); }
    }
  }

  lemma RestLevel(v: BookView, recs: Records, slot: uint32, side: Side, idx: uint32)
    requires CanRest(v, recs, slot, idx)
    ensures RestSide.requires(SideOf(v, side), recs, slot, side, idx)
    ensures RestRecs.requires(recs, SideOf(v, side).levels[idx].tail, slot, side, v.prices[idx], idx)
    ensures LevelOk(RestSide(SideOf(v, side), recs, slot, side, idx),
                    RestRecs(recs, SideOf(v, side).levels[idx].tail, slot, side, v.prices[idx], idx),
                    v.instrumentId, side, v.prices, idx)
  {
    RoomFor(v, recs, slot, side, idx);
    LevelFacts(v, recs, side, idx);
    var sv := SideOf(v, side);
    var q, tail := sv.queues[idx], sv.levels[idx].tail;
    var marked := Marked(recs, slot, side, v.prices[idx], idx);
    LevelRepFrame(sv.levels[idx], recs, marked, q);
    AppendRep(sv.levels[idx], marked, q, slot);
    RestPlaced(recs, q, tail, slot, v.instrumentId, side, v.prices[idx], idx);
  }

  lemma RestComplete(v: BookView, recs: Records, slot: uint32, side: Side, idx: uint32)
    requires CanRest(v, recs, slot, idx)
    ensures RestSide.requires(SideOf(v, side), recs, slot, side, idx)
    ensures RestRecs.requires(recs, SideOf(v, side).levels[idx].tail, slot, side, v.prices[idx], idx)
    ensures Complete(WithSide(v, side, RestSide(SideOf(v, side), recs, slot, side, idx)),
                     RestRecs(recs, SideOf(v, side).levels[idx].tail, slot, side, v.prices[idx], idx))
  {
    RoomFor(v, recs, slot, side, idx);
    var sv := SideOf(v, side);
    var q := sv.queues[idx];
    var sv', recs' := RestSide(sv, recs, slot, side, idx), RestRecs(recs, sv.levels[idx].tail, slot, side,
                                                                    v.prices[idx], idx);
    hide SideRep;
    forall s | 0 <= s < |recs'| && recs'[s].isOpen && recs'[s].instrumentId == v.instrumentId
      ensures recs'[s].levelIndex < |SideOf(WithSide(v, side, sv'), recs'[s].side).queues|
      ensures s in SideOf(WithSide(v, side, sv'), recs'[s].side).queues[recs'[s].levelIndex]
    {
      if s == slot { assert (q + [slot])[|q|] == s; } else { assert recs[s].isOpen; }
    }
  }

  lemma BestAfterAdd(side: Side, occupied: set<nat>, best: int, idx: nat)
    requires BestOk(side, occupied, best)
    ensures BestOk(side, occupied + {idx}, if best < 0 || !BetterIndex(side, best, idx) then idx else best)
  {
  }

  /** Appending a closed record keeps the representation invariant. */
  lemma RestKeepsRep(v: BookView, recs: Records, slot: uint32, side: Side, idx: uint32)
    requires CanRest(v, recs, slot, idx)
    ensures RestSide.requires(SideOf(v, side), recs, slot, side, idx)
    ensures RestRecs.requires(recs, SideOf(v, side).levels[idx].tail, slot, side, v.prices[idx], idx)
    ensures BookRep(WithSide(v, side, RestSide(SideOf(v, side), recs, slot, side, idx)),
                    RestRecs(recs, SideOf(v, side).levels[idx].tail, slot, side, v.prices[idx], idx))
  {
    RestLevel(v, recs, slot, side, idx);
    RestComplete(v, recs, slot, side, idx);
    LevelFacts(v, recs, side, idx);
    var sv := SideOf(v, side);
    var sv', recs' := RestSide(sv, recs, slot, side, idx), RestRecs(recs, sv.levels[idx].tail, slot, side,
                                                                    v.prices[idx], idx);
    assert BestOk(side, sv.occupied, sv.best) by { assert SideRep(sv, recs, v.instrumentId, side, v.prices); }
    BestAfterAdd(side, sv.occupied, sv.best, idx);
    assert |recs'| <= INVALID_SLOT;
    hide LevelOk, Complete, BestOk, BookRep;
    SideAfterChange(v, sv', recs, recs', side, idx);
  }

  // Taking an order off its queue

  /** The level after its record `rec` is unlinked. */
  function UnlinkLevel(lvl: Level, rec: OrderRecord): Level
    requires lvl.orderCount > 0
  {
    Level(
      if rec.prev != INVALID_SLOT then lvl.head else rec.next,
      if rec.next != INVALID_SLOT then lvl.tail else rec.prev,
      (lvl.totalQty + TWO_32 - rec.openQty) % TWO_32,
      lvl.orderCount - 1)
  }

  ghost predicate CanLeave(v: BookView, recs: Records, slot: uint32, k: nat) {
    && BookRep(v, recs) && slot < |recs| && recs[slot].isOpen && recs[slot].instrumentId == v.instrumentId
    && var sv, idx := SideOf(v, recs[slot].side), recs[slot].levelIndex;
      && |sv.levels| == |sv.queues| == |v.prices| && idx < |v.prices|
      && k < |sv.queues[idx]| && sv.queues[idx][k] == slot
  }

  /** The links of an open record lead into the pool. */
  lemma LinksFacts(v: BookView, recs: Records, slot: uint32, k: nat)
    requires CanLeave(v, recs, slot, k)
    ensures var q := SideOf(v, recs[slot].side).queues[recs[slot].levelIndex];
      recs[slot].prev == At(q, k - 1) && recs[slot].next == At(q, k + 1)
    ensures UnlinkLinks.requires(recs, slot)
    ensures recs[slot].prev != INVALID_SLOT ==>
      RestsAt(recs[recs[slot].prev], v.instrumentId, recs[slot].side, recs[slot].levelIndex, recs[slot].price)
    ensures recs[slot].next != INVALID_SLOT ==>
      RestsAt(recs[recs[slot].next], v.instrumentId, recs[slot].side, recs[slot].levelIndex, recs[slot].price)
    ensures SideOf(v, recs[slot].side).levels[recs[slot].levelIndex].orderCount > 0
    ensures v.prices[recs[slot].levelIndex] == recs[slot].price
  {
    var side, idx := recs[slot].side, recs[slot].levelIndex;
    LevelFacts(v, recs, side, idx);
    var q := SideOf(v, side).queues[idx];
    NeighboursInPool(recs, q, k);
    assert RestsAt(recs[q[k]], v.instrumentId, side, idx, v.prices[idx]);
    if k > 0 { assert RestsAt(recs[q[k - 1]], v.instrumentId, side, idx, v.prices[idx]); }
    if k + 1 < |q| { assert RestsAt(recs[q[k + 1]], v.instrumentId, side, idx, v.prices[idx]); }
  }

  lemma UnlinkRep(lvl: Level, recs: Records, q: seq<nat>, k: nat)
    requires InPool(recs, q) && LevelRep(lvl, recs, q) && |recs| <= INVALID_SLOT && k < |q|
    requires recs[q[k]].prev == At(q, k - 1) && recs[q[k]].next == At(q, k + 1)
    requires At(q, k - 1) == INVALID_SLOT || At(q, k - 1) < |recs|
    requires At(q, k + 1) == INVALID_SLOT || At(q, k + 1) < |recs|
    requires lvl.orderCount > 0
    ensures LevelRep(UnlinkLevel(lvl, recs[q[k]]), UnlinkLinks(recs, q[k]), Without(q, k))
  {
    hide SumOpen, Chain, UnlinkLinks, At, Without;
    UnlinkSum(recs, q, k);
    UnlinkChain(recs, q, k);
    UnlinkEnds(recs, q, k);
    SubMod(SumOpen(recs, q), recs[q[k]].openQty);
  }

  lemma UnlinkEnds(recs: Records, q: seq<nat>, k: nat)
    requires InPool(recs, q) && |recs| <= INVALID_SLOT && k < |q|
    ensures |Without(q, k)| == |q| - 1
    ensures At(Without(q, k), 0) == if At(q, k - 1) != INVALID_SLOT then At(q, 0) else At(q, k + 1)
    ensures At(Without(q, k), |q| - 2) == if At(q, k + 1) != INVALID_SLOT then At(q, |q| - 1) else At(q, k - 1)
  {
    WithoutAt(q, k, 0);
    WithoutAt(q, k, |q| - 2);
  }

  lemma UnlinkSum(recs: Records, q: seq<nat>, k: nat)
    requires Chain(recs, q) && |recs| <= INVALID_SLOT && k < |q|
    requires UnlinkLinks.requires(recs, q[k])
    ensures InPool(UnlinkLinks(recs, q[k]), Without(q, k))
    ensures recs[q[k]].openQty <= SumOpen(recs, q)
    ensures SumOpen(UnlinkLinks(recs, q[k]), Without(q, k)) == SumOpen(recs, q) - recs[q[k]].openQty
  {
    SumWithout(recs, q, k);
    SumFrame(recs, UnlinkLinks(recs, q[k]), Without(q, k));
  }

  lemma UnlinkPlaced(recs: Records, q: seq<nat>, k: nat, slot: uint32, inst: uint32, side: Side, price: int,
                     idx: uint32)
    requires InPool(recs, q) && Distinct(q) && Placed(recs, q, inst, side, idx, price) && k < |q| && q[k] == slot
    requires recs[slot].prev != INVALID_SLOT ==> recs[slot].prev < |recs|
    requires recs[slot].next != INVALID_SLOT ==> recs[slot].next < |recs|
    ensures InPool(UnlinkLinks(recs, slot), Without(q, k))
    ensures Placed(UnlinkLinks(recs, slot), Without(q, k), inst, side, idx, price)
  {
    var recs', q' := UnlinkLinks(recs, slot), Without(q, k);
    forall i | 0 <= i < |q'| ensures q'[i] < |recs| && RestsAt(recs'[q'[i]], inst, side, idx, price) {
      var j := if i < k then i else i + 1;
      assert q'[i] == q[j];
      assert RestsAt(recs[q[j]], inst, side, idx, price);
    }
  }

  /** sv' is sv with the k-th order of level idx gone; only the new best index is left open. */
  ghost predicate Unlinked(sv: SideView, sv': SideView, recs: Records, slot: uint32, idx: nat, k: nat)
    requires |sv.levels| == |sv.queues| && idx < |sv.levels| && slot < |recs|
    requires sv.levels[idx].orderCount > 0 && k < |sv.queues[idx]|
  {
    && sv'.levels == sv.levels[idx := UnlinkLevel(sv.levels[idx], recs[slot])]
    && sv'.queues == sv.queues[idx := Without(sv.queues[idx], k)]
    && sv'.occupied == (if sv.levels[idx].orderCount == 1 then sv.occupied - {idx} else sv.occupied)
  }

  lemma UnlinkLevelOk(v: BookView, recs: Records, slot: uint32, k: nat, sv': SideView)
    requires CanLeave(v, recs, slot, k)
    requires SideOf(v, recs[slot].side).levels[recs[slot].levelIndex].orderCount > 0
    requires Unlinked(SideOf(v, recs[slot].side), sv', recs, slot, recs[slot].levelIndex, k)
    requires UnlinkLinks.requires(recs, slot)
    ensures LevelOk(sv', UnlinkLinks(recs, slot), v.instrumentId, recs[slot].side, v.prices, recs[slot].levelIndex)
  {
    var side, idx := recs[slot].side, recs[slot].levelIndex;
    LinksFacts(v, recs, slot, k);
    LevelFacts(v, recs, side, idx);
    var sv := SideOf(v, side);
    UnlinkRep(sv.levels[idx], recs, sv.queues[idx], k);
    UnlinkPlaced(recs, sv.queues[idx], k, slot, v.instrumentId, side, v.prices[idx], idx);
  }

  lemma UnlinkComplete(v: BookView, recs: Records, slot: uint32, k: nat, sv': SideView)
    requires CanLeave(v, recs, slot, k) && UnlinkLinks.requires(recs, slot)
    requires SideOf(v, recs[slot].side).levels[recs[slot].levelIndex].orderCount > 0
    requires Unlinked(SideOf(v, recs[slot].side), sv', recs, slot, recs[slot].levelIndex, k)
    ensures Complete(WithSide(v, recs[slot].side, sv'), UnlinkLinks(recs, slot))
  {
    var side, idx := recs[slot].side, recs[slot].levelIndex;
    var q, recs' := SideOf(v, side).queues[idx], UnlinkLinks(recs, slot);
    hide SideRep;
    forall s | 0 <= s < |recs'| && recs'[s].isOpen && recs'[s].instrumentId == v.instrumentId
      ensures recs'[s].levelIndex < |SideOf(WithSide(v, side, sv'), recs'[s].side).queues|
      ensures s in SideOf(WithSide(v, side, sv'), recs'[s].side).queues[recs'[s].levelIndex]
    {
      assert recs[s].isOpen && s != slot;
      if recs[s].side == side && recs[s].levelIndex == idx {
        var i :| 0 <= i < |q| && q[i] == s;
        assert Without(q, k)[if i < k then i else i - 1] == s;
      }
    }
  }

  /** Unlinking an open record keeps the representation invariant, whatever index becomes best. */
  lemma UnlinkKeepsRep(v: BookView, recs: Records, slot: uint32, k: nat, sv': SideView)
    requires CanLeave(v, recs, slot, k) && UnlinkLinks.requires(recs, slot)
    requires SideOf(v, recs[slot].side).levels[recs[slot].levelIndex].orderCount > 0
    requires Unlinked(SideOf(v, recs[slot].side), sv', recs, slot, recs[slot].levelIndex, k)
    requires BestOk(recs[slot].side, sv'.occupied, sv'.best)
    ensures BookRep(WithSide(v, recs[slot].side, sv'), UnlinkLinks(recs, slot))
  {
    UnlinkLevelOk(v, recs, slot, k, sv');
    UnlinkComplete(v, recs, slot, k, sv');
    LinksFacts(v, recs, slot, k);
    hide LevelOk, Complete, BestOk;
    SideAfterChange(v, sv', recs, UnlinkLinks(recs, slot), recs[slot].side, recs[slot].levelIndex);
  }

  /** When the best level empties, the nearest occupied index beyond it is the new best. */
  lemma BestAfterRemove(side: Side, occupied: set<nat>, rest: set<nat>, best: int, idx: nat, next: int)
    requires BestOk(side, occupied, best) && best == idx && rest == occupied - {idx}
    requires side == Buy ==>
      && (next == -1 <==> forall m <- rest :: m > idx - 1)
      && (next != -1 ==> next in rest && forall m <- rest :: m <= idx - 1 ==> m <= next)
    requires side == Sell ==>
      && (next == -1 <==> forall m <- rest :: m < idx + 1)
      && (next != -1 ==> next in rest && forall m <- rest :: m >= idx + 1 ==> m >= next)
    ensures BestOk(side, rest, next)
  {
    assert forall m <- rest :: m in occupied && m != idx;
  }

  lemma BestKept(side: Side, occupied: set<nat>, best: int, idx: nat)
    requires BestOk(side, occupied, best) && best != idx
    ensures BestOk(side, occupied - {idx}, best)
  {
  }

  // Handing an order's place to another record

  function SpliceLevel(lvl: Level, rec: OrderRecord, heir: uint32, qty: uint32): Level {
    Level(
      if rec.prev != INVALID_SLOT then lvl.head else heir,
      if rec.next != INVALID_SLOT then lvl.tail else heir,
      ((lvl.totalQty + TWO_32 - rec.openQty) % TWO_32 + qty) % TWO_32,
      lvl.orderCount)
  }

  function SpliceRecs(recs: Records, slot: uint32, heir: uint32): (r: Records)
    requires slot < |recs| && heir < |recs| && heir != slot
    requires recs[slot].prev != INVALID_SLOT ==> recs[slot].prev < |recs|
    requires recs[slot].next != INVALID_SLOT ==> recs[slot].next < |recs|
    requires recs[slot].prev != heir && recs[slot].next != heir && recs[slot].prev != slot && recs[slot].next != slot
    ensures |r| == |recs|
  {
    SpliceLinks(Marked(recs, heir, recs[slot].side, recs[slot].price, recs[slot].levelIndex), slot, heir)
  }

  ghost function SpliceSide(sv: SideView, recs: Records, slot: uint32, heir: uint32, k: nat): SideView
    requires slot < |recs| && heir < |recs| && |sv.levels| == |sv.queues|
    requires recs[slot].levelIndex < |sv.levels| && k < |sv.queues[recs[slot].levelIndex]|
  {
    var idx := recs[slot].levelIndex;
    sv.(levels := sv.levels[idx := SpliceLevel(sv.levels[idx], recs[slot], heir, recs[heir].openQty)],
        queues := sv.queues[idx := Substitute(sv.queues[idx], k, heir)])
  }

  ghost predicate CanInherit(v: BookView, recs: Records, slot: uint32, heir: uint32, k: nat) {
    && CanLeave(v, recs, slot, k) && heir < |recs| && !recs[heir].isOpen && recs[heir].instrumentId == v.instrumentId
  }

  lemma SpliceRep(lvl: Level, recs: Records, q: seq<nat>, k: nat, heir: uint32)
    requires InPool(recs, q) && LevelRep(lvl, recs, q) && |recs| <= INVALID_SLOT && k < |q| && heir < |recs|
    requires heir !in q
    requires recs[q[k]].prev == At(q, k - 1) && recs[q[k]].next == At(q, k + 1)
    requires At(q, k - 1) == INVALID_SLOT || At(q, k - 1) < |recs|
    requires At(q, k + 1) == INVALID_SLOT || At(q, k + 1) < |recs|
    ensures LevelRep(SpliceLevel(lvl, recs[q[k]], heir, recs[heir].openQty), SpliceLinks(recs, q[k], heir),
                     Substitute(q, k, heir))
  {
    hide SumOpen, Chain, SpliceLinks, At, Substitute;
    SpliceSum(recs, q, k, heir);
    SpliceChain(recs, q, k, heir);
    SpliceEnds(recs, q, k, heir);
    SubMod(SumOpen(recs, q), recs[q[k]].openQty);
    WrapAdd(SumOpen(recs, q) - recs[q[k]].openQty, recs[heir].openQty);
  }

  lemma SpliceEnds(recs: Records, q: seq<nat>, k: nat, heir: nat)
    requires InPool(recs, q) && |recs| <= INVALID_SLOT && k < |q|
    ensures |Substitute(q, k, heir)| == |q|
    ensures At(Substitute(q, k, heir), 0) == if At(q, k - 1) != INVALID_SLOT then At(q, 0) else heir
    ensures At(Substitute(q, k, heir), |q| - 1) == if At(q, k + 1) != INVALID_SLOT then At(q, |q| - 1) else heir
  {
  }

  lemma SpliceSum(recs: Records, q: seq<nat>, k: nat, heir: uint32)
    requires Chain(recs, q) && |recs| <= INVALID_SLOT && k < |q| && heir < |recs| && heir !in q
    requires SpliceLinks.requires(recs, q[k], heir)
    ensures InPool(SpliceLinks(recs, q[k], heir), Substitute(q, k, heir))
    ensures recs[q[k]].openQty <= SumOpen(recs, q)
    ensures SumOpen(SpliceLinks(recs, q[k], heir), Substitute(q, k, heir)) ==
      SumOpen(recs, q) - recs[q[k]].openQty + recs[heir].openQty
  {
    SumReplace(recs, SpliceLinks(recs, q[k], heir), q, k, heir);
  }

  lemma HeirOutside(v: BookView, recs: Records, slot: uint32, heir: uint32, k: nat)
    requires CanInherit(v, recs, slot, heir, k)
    ensures heir !in SideOf(v, recs[slot].side).queues[recs[slot].levelIndex]
    ensures SpliceRecs.requires(recs, slot, heir)
  {
    var side, idx := recs[slot].side, recs[slot].levelIndex;
    LevelFacts(v, recs, side, idx);
    LinksFacts(v, recs, slot, k);
    var q := SideOf(v, side).queues[idx];
    forall i | 0 <= i < |q| ensures q[i] != heir {
      assert RestsAt(recs[q[i]], v.instrumentId, side, idx, v.prices[idx]);
    }
    assert LinkedAt(recs, q, k);
  }

  lemma SplicePlaced(recs: Records, q: seq<nat>, k: nat, slot: uint32, heir: uint32, inst: uint32, side: Side,
                     price: int, idx: uint32)
    requires InPool(recs, q) && Distinct(q) && Placed(recs, q, inst, side, idx, price) && k < |q| && q[k] == slot
    requires SpliceRecs.requires(recs, slot, heir) && recs[heir].instrumentId == inst
    ensures InPool(SpliceRecs(recs, slot, heir), Substitute(q, k, heir))
    ensures Placed(SpliceRecs(recs, slot, heir), Substitute(q, k, heir), inst, side, idx, price)
  {
    var recs', q' := SpliceRecs(recs, slot, heir), Substitute(q, k, heir);
    assert RestsAt(recs[q[k]], inst, side, idx, price);
    forall i | 0 <= i < |q'| ensures q'[i] < |recs| && RestsAt(recs'[q'[i]], inst, side, idx, price) {
      assert RestsAt(recs[q[i]], inst, side, idx, price);
    }
  }

  lemma SpliceLevelOk(v: BookView, recs: Records, slot: uint32, heir: uint32, k: nat)
    requires CanInherit(v, recs, slot, heir, k) && SpliceRecs.requires(recs, slot, heir)
    ensures LevelOk(SpliceSide(SideOf(v, recs[slot].side), recs, slot, heir, k), SpliceRecs(recs, slot, heir),
                    v.instrumentId, recs[slot].side, v.prices, recs[slot].levelIndex)
  {
    HeirOutside(v, recs, slot, heir, k);
    var side, idx := recs[slot].side, recs[slot].levelIndex;
    LinksFacts(v, recs, slot, k);
    LevelFacts(v, recs, side, idx);
    var sv := SideOf(v, side);
    var q := sv.queues[idx];
    var marked := Marked(recs, heir, side, recs[slot].price, idx);
    LevelRepFrame(sv.levels[idx], recs, marked, q);
    SpliceRep(sv.levels[idx], marked, q, k, heir);
    SplicePlaced(recs, q, k, slot, heir, v.instrumentId, side, v.prices[idx], idx);
  }

  lemma SpliceComplete(v: BookView, recs: Records, slot: uint32, heir: uint32, k: nat)
    requires CanInherit(v, recs, slot, heir, k) && SpliceRecs.requires(recs, slot, heir)
    ensures Complete(WithSide(v, recs[slot].side, SpliceSide(SideOf(v, recs[slot].side), recs, slot, heir, k)),
                     SpliceRecs(recs, slot, heir))
  {
    var side, idx := recs[slot].side, recs[slot].levelIndex;
    var q, recs' := SideOf(v, side).queues[idx], SpliceRecs(recs, slot, heir);
    var sv' := SpliceSide(SideOf(v, side), recs, slot, heir, k);
    hide SideRep;
    forall s | 0 <= s < |recs'| && recs'[s].isOpen && recs'[s].instrumentId == v.instrumentId
      ensures recs'[s].levelIndex < |SideOf(WithSide(v, side, sv'), recs'[s].side).queues|
      ensures s in SideOf(WithSide(v, side, sv'), recs'[s].side).queues[recs'[s].levelIndex]
    {
      if s == heir {
        assert Substitute(q, k, heir)[k] == s;
      } else {
        assert recs[s].isOpen && s != slot;
        if recs[s].side == side && recs[s].levelIndex == idx {
          var i :| 0 <= i < |q| && q[i] == s;
          assert Substitute(q, k, heir)[i] == s;
        }
      }
    }
  }

  /** Handing a queue position to a closed record keeps the representation invariant. */
  lemma SpliceKeepsRep(v: BookView, recs: Records, slot: uint32, heir: uint32, k: nat)
    requires CanInherit(v, recs, slot, heir, k) && SpliceRecs.requires(recs, slot, heir)
    ensures BookRep(WithSide(v, recs[slot].side, SpliceSide(SideOf(v, recs[slot].side), recs, slot, heir, k)),
                    SpliceRecs(recs, slot, heir))
  {
    SpliceLevelOk(v, recs, slot, heir, k);
    SpliceComplete(v, recs, slot, heir, k);
    LinksFacts(v, recs, slot, k);
    var side, idx := recs[slot].side, recs[slot].levelIndex;
    var sv, recs' := SideOf(v, side), SpliceRecs(recs, slot, heir);
    assert BestOk(side, sv.occupied, sv.best) by { assert SideRep(sv, recs, v.instrumentId, side, v.prices); }
    hide LevelOk, Complete, BestOk;
    SideAfterChange(v, SpliceSide(sv, recs, slot, heir, k), recs, recs', side, idx);
  }

  // Filling an order

  function FillRecs(recs: Records, slot: uint32, fill: uint32): Records
    requires slot < |recs| && fill <= recs[slot].openQty && recs[slot].filledQty + fill < TWO_32
  {
    recs[slot := recs[slot].(openQty := recs[slot].openQty - fill, filledQty := recs[slot].filledQty + fill)]
  }

  function FillSide(sv: SideView, idx: nat, fill: uint32): SideView
    requires idx < |sv.levels|
  {
    sv.(levels := sv.levels[idx := sv.levels[idx].(totalQty := (sv.levels[idx].totalQty + TWO_32 - fill) % TWO_32)])
  }

  lemma FillLevelOk(v: BookView, recs: Records, slot: uint32, k: nat, fill: uint32)
    requires CanLeave(v, recs, slot, k) && FillRecs.requires(recs, slot, fill)
    ensures LevelOk(FillSide(SideOf(v, recs[slot].side), recs[slot].levelIndex, fill), FillRecs(recs, slot, fill),
                    v.instrumentId, recs[slot].side, v.prices, recs[slot].levelIndex)
  {
    var side, idx := recs[slot].side, recs[slot].levelIndex;
    LevelFacts(v, recs, side, idx);
    var sv, recs' := SideOf(v, side), FillRecs(recs, slot, fill);
    var q := sv.queues[idx];
    ChainFrame(recs, recs', q);
    SumReplace(recs, recs', q, k, slot);
    assert Substitute(q, k, slot) == q;
    SubMod(SumOpen(recs, q), fill);
    forall i | 0 <= i < |q| ensures RestsAt(recs'[q[i]], v.instrumentId, side, idx, v.prices[idx]) {
      assert RestsAt(recs[q[i]], v.instrumentId, side, idx, v.prices[idx]);
    }
  }

  /** A fill against a resting order keeps the representation invariant. */
  lemma FillKeepsRep(v: BookView, recs: Records, slot: uint32, k: nat, fill: uint32)
    requires CanLeave(v, recs, slot, k) && FillRecs.requires(recs, slot, fill)
    ensures BookRep(WithSide(v, recs[slot].side, FillSide(SideOf(v, recs[slot].side), recs[slot].levelIndex, fill)),
                    FillRecs(recs, slot, fill))
  {
    FillLevelOk(v, recs, slot, k, fill);
    var side, idx := recs[slot].side, recs[slot].levelIndex;
    var sv, recs' := SideOf(v, side), FillRecs(recs, slot, fill);
    assert BestOk(side, sv.occupied, sv.best) by { assert SideRep(sv, recs, v.instrumentId, side, v.prices); }
    assert Complete(WithSide(v, side, FillSide(sv, idx, fill)), recs') by {
      forall s | 0 <= s < |recs'| && recs'[s].isOpen && recs'[s].instrumentId == v.instrumentId
        ensures recs'[s].levelIndex < |SideOf(v, recs'[s].side).queues|
        ensures s in SideOf(v, recs'[s].side).queues[recs'[s].levelIndex]
      {
        assert recs[s].isOpen;
      }
    }
    hide LevelOk, Complete, BestOk;
    SideAfterChange(v, FillSide(sv, idx, fill), recs, recs', side, idx);
  }

  // The representation is canonical

  lemma BestUnique(side: Side, occupied: set<nat>, best: int, best': int)
    requires BestOk(side, occupied, best) && BestOk(side, occupied, best')
    ensures best == best'
  {
  }

  lemma LevelCanonical(lvl: Level, lvl': Level, recs: Records, recs': Records, q: seq<nat>)
    requires LevelRep(lvl, recs, q) && LevelRep(lvl', recs', q)
    requires forall k :: 0 <= k < |q| ==> recs'[q[k]].openQty == recs[q[k]].openQty
    ensures lvl' == lvl
    ensures forall k :: 0 <= k < |q| ==> recs'[q[k]].prev == recs[q[k]].prev && recs'[q[k]].next == recs[q[k]].next
  {
    SumFrame(recs, recs', q);
    forall k | 0 <= k < |q| ensures recs'[q[k]].prev == recs[q[k]].prev && recs'[q[k]].next == recs[q[k]].next {
      ChainDetermines(recs, recs', q, k);
    }
  }

  /** The queues and their quantities determine every other field of a side and every link between its
      orders: heads, tails, totals, counts, bitmap and best index carry no state of their own. */
  lemma SideCanonical(sv: SideView, recs: Records, sv': SideView, recs': Records, inst: uint32, side: Side,
                      prices: seq<int>)
    requires SideRep(sv, recs, inst, side, prices) && SideRep(sv', recs', inst, side, prices)
    requires sv'.queues == sv.queues
    requires forall i, k :: 0 <= i < |prices| && 0 <= k < |sv.queues[i]| ==>
      var s := sv.queues[i][k];
      s < |recs| && s < |recs'| ==> recs'[s].openQty == recs[s].openQty
    ensures sv' == sv
    ensures forall i, k :: 0 <= i < |prices| && 0 <= k < |sv.queues[i]| ==>
      && sv.queues[i][k] < |recs| && sv.queues[i][k] < |recs'|
      && recs'[sv.queues[i][k]].prev == recs[sv.queues[i][k]].prev
      && recs'[sv.queues[i][k]].next == recs[sv.queues[i][k]].next
  {
    forall i | 0 <= i < |prices|
      ensures sv'.levels[i] == sv.levels[i]
      ensures i in sv'.occupied <==> i in sv.occupied
      ensures forall k :: 0 <= k < |sv.queues[i]| ==>
        && sv.queues[i][k] < |recs| && sv.queues[i][k] < |recs'|
        && recs'[sv.queues[i][k]].prev == recs[sv.queues[i][k]].prev
        && recs'[sv.queues[i][k]].next == recs[sv.queues[i][k]].next
    {
      assert LevelOk(sv, recs, inst, side, prices, i) && LevelOk(sv', recs', inst, side, prices, i);
      LevelCanonical(sv.levels[i], sv'.levels[i], recs, recs', sv.queues[i]);
    }
    assert sv'.levels == sv.levels;
    assert sv'.occupied == sv.occupied;
    BestUnique(side, sv.occupied, sv.best, sv'.best);
  }

  // The empty book

  function EmptyLevels(n: nat): (r: seq<Level>)
    ensures |r| == n && forall i :: 0 <= i < n ==> r[i] == EMPTY_LEVEL
  {
    seq(n, _ => EMPTY_LEVEL)
  }

  ghost function EmptyQueues(n: nat): (r: seq<seq<nat>>)
    ensures |r| == n && forall i :: 0 <= i < n ==> r[i] == []
  {
    seq(n, _ => [])
  }

  ghost function EmptySide(n: nat): SideView {
    SideView(EmptyLevels(n), {}, -1, EmptyQueues(n))
  }

  lemma EmptyBookRep(v: BookView)
    requires v.bid == EmptySide(|v.prices|) && v.ask == EmptySide(|v.prices|)
    requires forall i, j :: 0 <= i < j < |v.prices| ==> v.prices[i] < v.prices[j]
    ensures BookRep(v, [])
  {
    forall side ensures SideRep(SideOf(v, side), [], v.instrumentId, side, v.prices) {
      forall i | 0 <= i < |v.prices| ensures LevelOk(SideOf(v, side), [], v.instrumentId, side, v.prices, i) {
        assert SideOf(v, side).queues[i] == [] && SideOf(v, side).levels[i] == EMPTY_LEVEL;
      }
    }
  }

  /** A level that already holds orders is already marked. */
  lemma OccupiedStays(v: BookView, recs: Records, side: Side, idx: nat)
    requires BookRep(v, recs) && idx < |v.prices|
    ensures |SideOf(v, side).levels| == |v.prices|
    ensures SideOf(v, side).levels[idx].orderCount > 0 ==> idx in SideOf(v, side).occupied
  {
    LevelFacts(v, recs, side, idx);
  }

  lemma AppendCount(lvl: Level, slot: uint32, qty: uint32)
    requires lvl.orderCount < INVALID_SLOT
    ensures AppendLevel(lvl, slot, qty).orderCount == lvl.orderCount + 1
  {
  }

  lemma LevelsMatch(v: BookView, recs: Records, side: Side)
    requires BookRep(v, recs)
    ensures |SideOf(v, side).levels| == |SideOf(v, side).queues| == |v.prices|
    ensures BestOk(side, SideOf(v, side).occupied, SideOf(v, side).best)
  {
    assert SideRep(SideOf(v, side), recs, v.instrumentId, side, v.prices);
  }

  /** v' is v after the k-th order of `slot`'s level left. */
  ghost predicate Leaves(v: BookView, recs: Records, slot: uint32, k: nat, v': BookView)
    requires CanLeave(v, recs, slot, k)
  {
    var side, idx := recs[slot].side, recs[slot].levelIndex;
    && v' == WithSide(v, side, SideOf(v', side))
    && SideOf(v, side).levels[idx].orderCount > 0
    && Unlinked(SideOf(v, side), SideOf(v', side), recs, slot, idx, k)
  }
}
