/** What the steps of one request add up to, seen from the market. */
module RequestModel {
  import opened Api
  import opened TickTable
  import opened OrderPool
  import opened Fifo
  import opened BookModel
  import opened Market
  import opened QueueView
  import opened MatchTheory
  import opened MarketInvariant
  import opened MarketRun
  import opened EngineModel
  import opened MatchingRun

  /** Resting orders are live and their quantities fit 32 bits, filled or open. */
  lemma QueueFits(s: State, b: nat, side: Side)
    requires Inv(s) && b < |s.books|
    ensures Small(Queue(s.books[b], side)) && Positive(Queue(s.books[b], side))
  {
    var q := Queue(s.books[b], side);
    OpenQuantities(s, b, side);
    assert BookOk(s, b);
    forall i | 0 <= i < |q| ensures q[i].open + q[i].filled < TWO_32 { assert OrderOk(s, b, side, q[i]); }
  }

  lemma BookStandsIn(sys: Sys, b: nat)
    requires SysOk(sys) && b < |sys.views|
    ensures BookRep(sys.views[b], sys.recs) && |sys.recs| <= INVALID_SLOT
  {
  }

  // Open orders and open records

  /** An order of a market queue is an open record of that book and side. */
  lemma OrderHasRecord(sys: Sys, b: nat, side: Side, p: nat) returns (slot: nat)
    requires SysOk(sys) && b < |sys.views| && p < |Queue(Abs(sys).books[b], side)|
    ensures slot < |sys.recs| && IsResting(sys, b, slot) && sys.recs[slot].side == side
    ensures Queue(Abs(sys).books[b], side)[p] == AbsOrder(sys.recs[slot])
  {
    var v := sys.views[b];
    SlotsInPool(v, sys.recs, side);
    slot := FlatSlots(side, SideOf(v, side).queues)[p];
    FlatMember(v, sys.recs, side, p);
  }

  /** An open record is an order of its book's queue, at the place its id is found. */
  lemma RecordHasOrder(sys: Sys, b: nat, slot: uint32) returns (k: nat)
    requires SysOk(sys) && b < |sys.views| && IsResting(sys, b, slot)
    ensures CanLeave(sys.views[b], sys.recs, slot, k)
    ensures var q := Queue(Abs(sys).books[b], sys.recs[slot].side);
      Rank(sys.views[b], sys.recs, slot, k) < |q| &&
        q[Rank(sys.views[b], sys.recs, slot, k)] == AbsOrder(sys.recs[slot])
  {
    var i;
    i, k := WhereIs(sys.views[b], sys.recs, slot);
    LevelFacts(sys.views[b], sys.recs, sys.recs[slot].side, i);
  }

  /** An id that names an open record names an open order of the market, with the record's quantities. */
  lemma OpenRecord(sys: Sys, id: uint64) returns (b: nat, slot: uint32)
    requires SysOk(sys) && Inv(Abs(sys)) && id in sys.ids && sys.recs[sys.ids[id]].isOpen
    ensures slot == sys.ids[id] && sys.recs[slot].id == id && sys.recs[slot].instrumentId in sys.index
    ensures b == sys.index[sys.recs[slot].instrumentId] < |sys.views| && IsResting(sys, b, slot)
    ensures IsOpen(Abs(sys), id) && Abs(sys).owner[id] == (b, sys.recs[slot].side)
    ensures OpenOrder(Abs(sys), id) == AbsOrder(sys.recs[slot])
    ensures forall k: nat :: CanLeave(sys.views[b], sys.recs, slot, k) ==>
      Find(Queue(Abs(sys).books[b], sys.recs[slot].side), id) == Rank(sys.views[b], sys.recs, slot, k)
  {
    slot := sys.ids[id];
    b := sys.index[sys.recs[slot].instrumentId];
    var side := sys.recs[slot].side;
    OwnerIs(sys, id);
    hide Inv, BookRep, Orders, Rank, Abs;
    var k := RecordHasOrder(sys, b, slot);
    QueueDistinct(Abs(sys), b, side);
    FindIs(Queue(Abs(sys).books[b], side), Rank(sys.views[b], sys.recs, slot, k));
    forall k': nat | CanLeave(sys.views[b], sys.recs, slot, k') ensures k' == k {
      SamePosition(sys.views[b], sys.recs, slot, k, k');
    }
  }

  lemma OwnerIs(sys: Sys, id: uint64)
    requires SysOk(sys) && id in sys.ids
    ensures id in Abs(sys).owner && sys.ids[id] < |sys.recs| && sys.recs[sys.ids[id]].instrumentId in sys.index
    ensures Abs(sys).owner[id] == (sys.index[sys.recs[sys.ids[id]].instrumentId] as nat, sys.recs[sys.ids[id]].side)
    ensures sys.index[sys.recs[sys.ids[id]].instrumentId] < |sys.views|
    ensures sys.views[sys.index[sys.recs[sys.ids[id]].instrumentId]].instrumentId == sys.recs[sys.ids[id]].instrumentId
  {
    hide BookRep, LadderOk;
  }

  /** Both directions: the engine's liveness test and the market's agree. */
  lemma OpenIff(sys: Sys, id: uint64)
    requires SysOk(sys) && Inv(Abs(sys))
    ensures IsOpen(Abs(sys), id) <==> id in sys.ids && sys.ids[id] < |sys.recs| && sys.recs[sys.ids[id]].isOpen
    ensures id in Abs(sys).owner <==> id in sys.ids
  {
    assert Abs(sys).owner == Owner(sys);
    if IsOpen(Abs(sys), id) {
      var (b, side) := Abs(sys).owner[id];
      var q := Queue(Abs(sys).books[b], side);
      var slot := OrderHasRecord(sys, b, side, Find(q, id));
    }
    if id in sys.ids && sys.recs[sys.ids[id]].isOpen {
      var b, slot := OpenRecord(sys, id);
    }
  }

  // The steps of a request

  /** `slot` is the open record order `id` rests in, on book b. */
  ghost predicate Rests(sys: Sys, id: uint64, b: nat, slot: uint32) {
    && id in sys.ids && slot == sys.ids[id] && slot < |sys.recs| && sys.recs[slot].isOpen
    && sys.recs[slot].instrumentId in sys.index && b == sys.index[sys.recs[slot].instrumentId] < |sys.views|
    && IsResting(sys, b, slot)
  }

  /** Taking a live order's record off its queue takes the order out of the market. */
  lemma TakenStep(sys: Sys, sys': Sys, id: uint64, b: nat, slot: uint32, k: nat)
    requires SysOk(sys) && Inv(Abs(sys)) && Rests(sys, id, b, slot) && TookOff(sys, sys', b, slot, k)
    ensures SysOk(sys') && IsOpen(Abs(sys), id) && Abs(sys').owner == Abs(sys).owner && Abs(sys').log == Abs(sys).log
    ensures OneView(sys, sys', b) && |sys'.recs| == |sys.recs| && sys'.ids == sys.ids
    ensures ClosedKept(sys.recs, sys'.recs, slot)
    ensures Abs(sys') == TakeOut(Abs(sys), id)
  {
    hide SysOk, Abs, Rank, BookRep, UnlinkLinks, Leaves;
    var b', slot' := OpenRecord(sys, id);
    UnlinkStep(sys, b, slot, k, sys'.views[b], sys'.recs);
    UnlinkOnlyBook(sys.views[b], sys.recs, slot, k);
  }

  /** Resting a registered record enters its order into the market. */
  lemma RestedStep(sys: Sys, sys': Sys, b: nat, slot: uint32, side: Side, idx: uint32, price: int)
    requires SysOk(sys) && Rested(sys, sys', b, slot, side, idx, price) && slot < |sys.recs|
    requires sys.recs[slot].side == side
    requires sys.recs[slot].id in sys.ids && sys.ids[sys.recs[slot].id] == slot
    ensures SysOk(sys') && b < |Abs(sys).books| && OneView(sys, sys', b)
    ensures |sys'.recs| == |sys.recs| && sys'.ids == sys.ids && ClosedKept(sys.recs, sys'.recs, slot)
    ensures Abs(sys') == RestOrder(Abs(sys), b, side, Order(sys.recs[slot].id, price, sys.recs[slot].openQty,
                                                            sys.recs[slot].filledQty))
  {
    hide SysOk, Abs, BookRep, RestSide, RestRecs, CanRest;
    RestStep(sys, b, slot, side, idx, sys'.views[b], sys'.recs);
    RestKeepsClosed(sys, sys', b, slot, side, idx, price);
  }

  lemma RestKeepsClosed(sys: Sys, sys': Sys, b: nat, slot: uint32, side: Side, idx: uint32, price: int)
    requires Rested(sys, sys', b, slot, side, idx, price) && slot < |sys.recs| && sys.recs[slot].side == side
    ensures ClosedKept(sys.recs, sys'.recs, slot)
  {
    hide RestRecs;
    var v := sys.views[b];
    LevelFacts(v, sys.recs, side, idx);
    hide BookRep;
    RestOnlyBook(v, sys.recs, slot, side, idx);
  }

  /** A record newly registered for an order about to enter book b. */
  ghost predicate IsEntrant(sys: Sys, b: nat, slot: uint32, id: uint64, side: Side) {
    && b < |sys.views| && slot < |sys.recs| && IsCandidate(sys, b, slot)
    && sys.recs[slot].id == id && sys.recs[slot].side == side && id in sys.ids && sys.ids[id] == slot
  }

  /** The entrant gets its quantity, `total` is what was asked for, and the listener is told. */
  ghost function Admitted(sys: Sys, slot: uint32, id: uint64, qty: uint32, total: nat, e: Event): Sys
    requires slot < |sys.recs|
  {
    sys.(recs := sys.recs[slot := sys.recs[slot].(openQty := qty, filledQty := 0)],
         asked := sys.asked[id := total], log := sys.log + [e])
  }

  lemma AdmitStep(sys: Sys, b: nat, slot: uint32, id: uint64, side: Side, qty: uint32)
    requires SysOk(sys) && Inv(Abs(sys)) && IsEntrant(sys, b, slot, id, side)
    ensures var sys' := Admitted(sys, slot, id, qty, qty, Accepted(id));
      && SysOk(sys') && IsEntrant(sys', b, slot, id, side) && CanMatch(sys', b, slot, side)
      && Abs(sys') == Emit(Abs(sys), Accepted(id)).(asked := Abs(sys).asked[id := qty])
  {
    hide SysOk, Abs;
    var rec := sys.recs[slot].(openQty := qty, filledQty := 0);
    ClosedStep(sys, slot, rec);
    var mid := sys.(recs := sys.recs[slot := rec]);
    EventStep(sys, sys.asked, sys.log, sys.nextTrade);
    EventStep(mid, sys.asked[id := qty], sys.log + [Accepted(id)], sys.nextTrade);
    QueueFits(Abs(sys), b, Opposite(side));
    BookCount(sys);
  }

  lemma BookCount(sys: Sys)
    requires SysOk(sys)
    ensures |Abs(sys).books| == |sys.views|
  {
  }

  /** What is left of an order is given up. */
  ghost function Dropped(sys: Sys, slot: uint32, reason: CancelReason): Sys
    requires slot < |sys.recs|
  {
    sys.(recs := sys.recs[slot := sys.recs[slot].(openQty := 0)],
         log := sys.log + [Canceled(sys.recs[slot].id, sys.recs[slot].openQty, reason)])
  }

  lemma DropStep(sys: Sys, slot: uint32, reason: CancelReason)
    requires SysOk(sys) && slot < |sys.recs| && !sys.recs[slot].isOpen
    ensures SysOk(Dropped(sys, slot, reason))
    ensures Abs(Dropped(sys, slot, reason)) == Emit(Abs(sys), Canceled(sys.recs[slot].id, sys.recs[slot].openQty,
        reason))
  {
    hide SysOk, Abs;
    var rec := sys.recs[slot].(openQty := 0);
    ClosedStep(sys, slot, rec);
    var mid := sys.(recs := sys.recs[slot := rec]);
    EventStep(sys, sys.asked, sys.log, sys.nextTrade);
    EventStep(mid, sys.asked, sys.log + [Canceled(sys.recs[slot].id, sys.recs[slot].openQty, reason)], sys.nextTrade);
  }

  /** What becomes of the `left` lots that matching left of an order. */
  function Settled(s: State, b: nat, o: NewOrder, isMarket: bool, price: int, left: nat, filled: nat): State
    requires b < |s.books|
  {
    if left == 0 then s
    else if o.tif == Day then RestOrder(s, b, o.side, Order(o.orderId, price, left, filled))
    else Emit(s, Canceled(o.orderId, left, if isMarket then NoLiquidity else if o.tif ==
      Ioc then IocRemainder else FokUnfillable))
  }

  /** Acceptance in the engine's order: admit, perhaps kill, execute, settle. */
  lemma AcceptIs(s: State, b: nat, o: NewOrder)
    requires b < |s.books| && (o.orderType == OrderType.Market ==> o.tif != Day)
    ensures var isMarket := o.orderType == OrderType.Market;
      var limit := if isMarket then 0 else o.price;
      var t := Emit(s, Accepted(o.orderId)).(asked := s.asked[o.orderId := o.quantity]);
      var (u, left) := Execute(t, b, o.side, isMarket, limit, o.orderId, o.quantity);
      Accept(s, b, o) ==
        if o.tif == Fok && !FokWalk(Queue(s.books[b], Opposite(o.side)), o.side, isMarket, limit, o.quantity, 0) then
          Emit(t, Canceled(o.orderId, o.quantity, FokUnfillable))
        else Settled(u, b, o, isMarket, limit, left, o.quantity - left)
  {
    hide Execute, FokWalk, RestOrder;
  }

  /** The record a submission registers. */
  function NewRecord(o: NewOrder): OrderRecord {
    NEW_RECORD.(id := o.orderId, instrumentId := o.instrumentId, side := o.side)
  }

  /** Registering a submission consumes its id and prepares its record. */
  lemma RegisterStep(sys: Sys, o: NewOrder)
    requires SysOk(sys) && Inv(Abs(sys)) && o.instrumentId in sys.index && o.orderId !in sys.ids
    requires |sys.recs| < INVALID_SLOT
    ensures var sys', b := Allocated(sys, NewRecord(o)), sys.index[o.instrumentId];
      && SysOk(sys') && Inv(Abs(sys')) && o.instrumentId in Abs(sys).index && Abs(sys') == Consumed(Abs(sys), o)
      && IsEntrant(sys', b, |sys.recs|, o.orderId, o.side) && o.instrumentId == sys'.views[b].instrumentId
      && sys'.views == sys.views && |sys'.recs| == |sys.recs| + 1
      && KeepsIds(sys, sys') && ClosedKept(sys.recs, sys'.recs, |sys.recs|)
  {
    hide Inv, Owner, AbsBooks, BookRep, LadderOk;
    OpenIff(sys, o.orderId);
    AllocStep(sys, NewRecord(o));
    ConsumedKeeps(Abs(sys), o);
  }

  /** What the market shows of the engine's own fields. */
  lemma MarketFields(sys: Sys)
    requires SysOk(sys)
    ensures Abs(sys).configured == sys.configured && Abs(sys).index == sys.index && Abs(sys).owner.Keys == sys.ids.Keys
    ensures |Abs(sys).books| == |sys.views|
    ensures forall i <- sys.index :: sys.index[i] < |sys.views|
  {
    hide BookRep, LadderOk;
  }

  lemma IndexedBook(sys: Sys, inst: uint32)
    requires SysOk(sys) && inst in sys.index
    ensures sys.index[inst] < |sys.views| && sys.views[sys.index[inst]].instrumentId == inst
  {
  }

  /** A valid price has a level exactly when it is inside the band. */
  lemma PriceHasLevel(sys: Sys, b: nat, price: int)
    requires SysOk(sys) && b < |sys.views| && IsWellFormed(TICK_SCHEDULE) && IsTickAligned(TICK_SCHEDULE, price)
    ensures b < |Abs(sys).books| && (price in sys.views[b].prices <==>
      Abs(sys).books[b].lo <= price <= Abs(sys).books[b].hi)
  {
    hide BookRep, IsWellFormed, IsTickAligned;
    BookNames(sys, b);
    assert LadderOk(sys.views[b]);
  }

  /** The book an order lives in, if its id is known. */
  ghost function HomeBook(sys: Sys, id: uint64): Option<nat> {
    if id in sys.ids && sys.ids[id] < |sys.recs| && sys.recs[sys.ids[id]].instrumentId in sys.index then
      Some(sys.index[sys.recs[sys.ids[id]].instrumentId])
    else None
  }

  ghost function InstrumentBook(sys: Sys, inst: uint32): Option<nat> {
    if inst in sys.index then Some(sys.index[inst]) else None
  }

  /** Every known id still maps to the same slot. */
  ghost predicate KeepsIds(sys: Sys, sys': Sys) {
    forall id <- sys.ids :: id in sys'.ids && sys'.ids[id] == sys.ids[id]
  }

  /** Isolation: every book but the named one kept every field - levels, bitmaps, best indices, queues. */
  ghost predicate OthersSame(sys: Sys, sys': Sys, book: Option<nat>) {
    |sys'.views| == |sys.views| && forall c: nat :: c < |sys.views| && book != Some(c) ==> sys'.views[c] == sys.views[c]
  }

  // Replacing

  /** Unlinking reaches no record appended after it. */
  lemma UnlinkExtended(recs: Records, rec: OrderRecord, slot: uint32)
    requires UnlinkLinks.requires(recs, slot)
    ensures UnlinkLinks.requires(recs + [rec], slot)
    ensures UnlinkLinks(recs + [rec], slot) == UnlinkLinks(recs, slot) + [rec]
  {
  }

  /** The record that is to replace another: closed, same instrument and side. */
  ghost predicate IsSuccessor(sys: Sys, rec: OrderRecord, slot: uint32) {
    && |sys.recs| < INVALID_SLOT && slot < |sys.recs| && !rec.isOpen
    && rec.instrumentId == sys.recs[slot].instrumentId && rec.side == sys.recs[slot].side
    && (rec.id == sys.recs[slot].id || rec.id !in sys.ids)
  }

  /** A record appended to the pool plays no part in an unlink. */
  lemma TakenEarly(v: BookView, recs: Records, rec: OrderRecord, slot: uint32, k: nat, v': BookView)
    requires BookRep(v, recs) && slot < |recs| && CanLeave(v, recs + [rec], slot, k)
    requires UnlinkLinks.requires(recs + [rec], slot) && Leaves(v, recs + [rec], slot, k, v')
    requires BookRep(v', UnlinkLinks(recs + [rec], slot))
    ensures CanLeave(v, recs, slot, k) && UnlinkLinks.requires(recs, slot) && Leaves(v, recs, slot, k, v')
    ensures UnlinkLinks(recs + [rec], slot) == UnlinkLinks(recs, slot) + [rec]
    ensures BookRep(v', UnlinkLinks(recs, slot)) && v'.instrumentId == v.instrumentId && v'.prices == v.prices
  {
    hide BookRep, UnlinkLinks, BestOk, UnlinkLevel;
    assert CanLeave(v, recs, slot, k);
    LinksFacts(v, recs, slot, k);
    UnlinkExtended(recs, rec, slot);
    LevelsMatch(v', UnlinkLinks(recs + [rec], slot), recs[slot].side);
    UnlinkKeepsRep(v, recs, slot, k, SideOf(v', recs[slot].side));
  }

  /** Taking the old record off after the new one is registered is the same as before. */
  lemma TakenLate(sys: Sys, rec: OrderRecord, sys': Sys, b: nat, slot: uint32, k: nat) returns (mid: Sys)
    requires SysOk(sys) && |sys.recs| < INVALID_SLOT && b < |sys.views| && IsResting(sys, b, slot)
    requires TookOff(Allocated(sys, rec), sys', b, slot, k)
    ensures TookOff(sys, mid, b, slot, k) && |mid.recs| == |sys.recs| && sys' == Allocated(mid, rec)
    ensures |mid.views| == |sys.views| && mid.views[b].instrumentId == sys.views[b].instrumentId
    ensures mid.views[b].prices == sys.views[b].prices
  {
    hide BookRep, UnlinkLinks, Leaves, CanLeave, SysOk;
    BookStandsIn(sys, b);
    TakenEarly(sys.views[b], sys.recs, rec, slot, k, sys'.views[b]);
    mid := Moved(sys, b, sys'.views[b], UnlinkLinks(sys.recs, slot));
  }

  /** Registering the successor and taking the old order off, in the engine's order. */
  lemma LosingStep(sys: Sys, rec: OrderRecord, sys': Sys, id: uint64, b: nat, slot: uint32, k: nat)
    requires SysOk(sys) && Inv(Abs(sys)) && Rests(sys, id, b, slot) && IsSuccessor(sys, rec, slot)
    requires sys.recs[slot].id == id
    requires TookOff(Allocated(sys, rec), sys', b, slot, k)
    ensures OneView(sys, sys', b) && sys'.views[b].prices == sys.views[b].prices && |sys'.recs| == |sys.recs| + 1
    ensures SysOk(sys') && IsOpen(Abs(sys), id) && IsEntrant(sys', b, |sys.recs|, rec.id, rec.side)
    ensures sys'.recs[|sys.recs|] == rec
    ensures Abs(sys') == TakeOut(Abs(sys), id).(owner := Abs(sys).owner[rec.id := (b, rec.side)])
  {
    hide SysOk, Abs, Rank, BookRep, UnlinkLinks, Leaves;
    var mid := TakenLate(sys, rec, sys', b, slot, k);
    TakenStep(sys, mid, id, b, slot, k);
    UnlinkOnlyBook(sys.views[b], sys.recs, slot, k);
    AllocStep(mid, rec);
  }

  /** Registering the successor and giving it the old order's place. */
  lemma InPlaceStep(sys: Sys, rec: OrderRecord, sys': Sys, id: uint64, b: nat, slot: uint32, k: nat)
    requires SysOk(sys) && Inv(Abs(sys)) && Rests(sys, id, b, slot) && IsSuccessor(sys, rec, slot)
    requires sys.recs[slot].id == id
    requires Spliced(Allocated(sys, rec), sys', b, slot, |sys.recs|, k)
    ensures SysOk(sys') && IsOpen(Abs(sys), id) && OneView(sys, sys', b) && |sys'.recs| == |sys.recs| + 1
    ensures var q, p := Queue(Abs(sys).books[b], rec.side), Find(Queue(Abs(sys).books[b], rec.side), id);
      && p < |q|
      && Abs(sys') == Abs(sys).(owner := Abs(sys).owner[rec.id := (b, rec.side)],
           books := Abs(sys).books[b := SetQueue(Abs(sys).books[b], rec.side,
             q[p := Order(rec.id, sys.recs[slot].price, rec.openQty, rec.filledQty)])])
  {
    hide Rank, BookRep, SpliceRecs, SpliceSide, Orders, AbsBook, LadderOk, Inv, IdsOk, OpenOk, OpenBut, Owner;
    var sysA := Allocated(sys, rec);
    var b', slot' := OpenRecord(sys, id);
    AllocViews(sys, rec);
    AllocSuccessor(sys, rec, slot);
    AllocOwner(sys, rec);
    SpliceStep(sysA, b, slot, |sys.recs|, k, sys'.views[b], sys'.recs);
    RankLate(sys, rec, b, slot, k);
  }

  /** With the successor registered, only the old record may be unmapped. */
  lemma AllocSuccessor(sys: Sys, rec: OrderRecord, slot: uint32)
    requires IdsOk(sys) && OpenOk(sys) && IsSuccessor(sys, rec, slot) && rec.instrumentId in sys.index
    requires sys.recs[slot].isOpen
    ensures IdsOk(Allocated(sys, rec)) && OpenBut(Allocated(sys, rec), slot)
  {
  }

  /** A further closed record does not move an order in its queue. */
  lemma RankLate(sys: Sys, rec: OrderRecord, b: nat, slot: uint32, k: nat)
    requires ViewsOk(sys) && b < |sys.views| && |sys.recs| < INVALID_SLOT && !rec.isOpen
    requires CanLeave(sys.views[b], sys.recs, slot, k) && CanLeave(sys.views[b], sys.recs + [rec], slot, k)
    ensures Rank(sys.views[b], sys.recs + [rec], slot, k) == Rank(sys.views[b], sys.recs, slot, k)
  {
    var v, side, i := sys.views[b], sys.recs[slot].side, sys.recs[slot].levelIndex;
    SplitFrame(v, sys.recs, v, sys.recs + [rec], side, i);
  }

  lemma ViewsStand(sys: Sys)
    requires SysOk(sys)
    ensures ViewsOk(sys)
  {
  }

  /** The record an id maps to. */
  lemma IdFacts(sys: Sys, id: uint64)
    requires SysOk(sys) && id in sys.ids
    ensures sys.ids[id] < |sys.recs| && sys.recs[sys.ids[id]].id == id
    ensures sys.recs[sys.ids[id]].instrumentId in sys.index
    ensures HomeBook(sys, id) == Some(sys.index[sys.recs[sys.ids[id]].instrumentId])
  {
  }

  /** A live id in the engine's terms. */
  lemma LiveId(sys: Sys, id: uint64) returns (b: nat, slot: uint32)
    requires SysOk(sys) && Inv(Abs(sys)) && id in sys.ids && sys.ids[id] < |sys.recs| && sys.recs[sys.ids[id]].isOpen
    ensures Rests(sys, id, b, slot) && sys.recs[slot].id == id && HomeBook(sys, id) == Some(b)
    ensures IsOpen(Abs(sys), id) && Abs(sys).owner[id] == (b, sys.recs[slot].side)
    ensures OpenOrder(Abs(sys), id) == AbsOrder(sys.recs[slot])
  {
    hide SysOk, Abs, Inv, Rank, OpenOrder, IsOpen;
    b, slot := OpenRecord(sys, id);
    IdFacts(sys, id);
  }

  /** The record a replace registers for the successor of `prior`. */
  function Successor(prior: OrderRecord, r: ReplaceOrder, open: uint32): OrderRecord {
    NEW_RECORD.(id := r.newOrderId, instrumentId := prior.instrumentId, side := prior.side,
                price := r.newPrice, openQty := open, filledQty := prior.filledQty)
  }

  /** A replace that passed validation, in the engine's terms. */
  ghost predicate CanReplace(sys: Sys, r: ReplaceOrder, b: nat, slot: uint32, open: uint32)
    requires SysOk(sys)
  {
    && Rests(sys, r.orderId, b, slot) && Replaceable(Abs(sys), r)
    && open == r.newQuantity - OpenOrder(Abs(sys), r.orderId).filled && open == r.newQuantity - sys.recs[slot].filledQty
    && r.newPrice in sys.views[b].prices
  }

  /** With the successor registered both records are where the book operations expect them. */
  lemma SuccessorReady(sys: Sys, r: ReplaceOrder, b: nat, slot: uint32, open: uint32)
    requires SysOk(sys) && Inv(Abs(sys)) && |sys.recs| < INVALID_SLOT && CanReplace(sys, r, b, slot, open)
    ensures var rec, sys' := Successor(sys.recs[slot], r, open), Allocated(sys, Successor(sys.recs[slot], r, open));
      && IsSuccessor(sys, rec, slot) && ViewsOk(sys') && b < |sys'.views|
      && IsResting(sys', b, slot) && IsCandidate(sys', b, |sys.recs|)
      && (r.newOrderId == r.orderId <==> r.newOrderId in sys.ids)
    ensures sys.recs[slot].id == r.orderId && IsOpen(Abs(sys), r.orderId)
    ensures Abs(sys).owner[r.orderId] == (b, sys.recs[slot].side)
    ensures OpenOrder(Abs(sys), r.orderId) == AbsOrder(sys.recs[slot]) && open > 0
    ensures open + sys.recs[slot].filledQty < TWO_32
  {
    hide Inv, Abs, BookRep, AbsBooks, LadderOk, OpenOrder;
    MarketFields(sys);
    var b', slot' := LiveId(sys, r.orderId);
    AllocViews(sys, Successor(sys.recs[slot], r, open));
  }

  /** After the old order is off, its successor announced and its total asked for, the market is ready for
      the new order, and needs no matching if the price did not change. */
  lemma ReadyStep(sys: Sys, t: State, r: ReplaceOrder, b: nat, slot: uint32, open: uint32)
    requires SysOk(sys) && Inv(Abs(sys)) && CanReplace(sys, r, b, slot, open) && IsOpen(Abs(sys), r.orderId)
    requires Abs(sys).owner[r.orderId] == (b, sys.recs[slot].side)
    requires OpenOrder(Abs(sys), r.orderId) == AbsOrder(sys.recs[slot])
    requires t == Emit(TakeOut(Abs(sys), r.orderId).(
        owner := Abs(sys).owner[r.newOrderId := (b, sys.recs[slot].side)],
        asked := TakeOut(Abs(sys), r.orderId).asked[r.newOrderId := r.newQuantity]),
      Replaced(r.orderId, r.newOrderId, r.newPrice, open))
    ensures t == ReadyToReenter(Abs(sys), r) && Inv(t) && b < |t.books|
    ensures r.newPrice == sys.recs[slot].price ==>
      Execute(t, b, sys.recs[slot].side, false, r.newPrice, r.newOrderId, open) == (t, open)
  {
    hide SysOk, Abs, Execute, TakeOut, OpenOrder, Replaceable, BookOk;
    ReadyIs(Abs(sys), t, r, b, sys.recs[slot].side);
    ReadyKeeps(Abs(sys), r);
    if r.newPrice == sys.recs[slot].price { NoMatchNeeded(Abs(sys), r); }
  }

  /** Entering at a price the order already rested at without crossing needs no matching. */
  lemma NoMatchNeeded(s: State, r: ReplaceOrder)
    requires Inv(s) && Replaceable(s, r) && r.newPrice == OpenOrder(s, r.orderId).price
    ensures var t, (b, side), open := ReadyToReenter(s, r), s.owner[r.orderId], r.newQuantity - OpenOrder(s,
        r.orderId).filled;
      b < |t.books| && Execute(t, b, side, false, r.newPrice, r.newOrderId, open) == (t, open)
  {
    hide PriceOk, QueueOk, OrderOk;
    var b, side, k := OpenAt(s, r.orderId);
    var t, open := ReadyToReenter(s, r), r.newQuantity - OpenOrder(s, r.orderId).filled;
    var q := Queue(s.books[b], Opposite(side));
    assert Queue(t.books[b], Opposite(side)) == q;
    assert BookOk(s, b) && Uncrossed(s.books[b]);
    assert |q| > 0 ==> !Marketable(side, false, r.newPrice, q[0].price);
    assert Match(q, side, false, r.newPrice, open) == Matched(q, open, []);
    assert t.books[b := SetQueue(t.books[b], Opposite(side), q)] == t.books;
    assert t.log + TradeEvents([], t.nextTrade, t.books[b].instrumentId, r.newOrderId, side) == t.log;
  }

  lemma ReadyIs(s: State, t: State, r: ReplaceOrder, b: nat, side: Side)
    requires Registered(s) && Replaceable(s, r) && s.owner[r.orderId] == (b, side)
    requires t == Emit(TakeOut(s, r.orderId).(owner := s.owner[r.newOrderId := (b, side)],
                                              asked := TakeOut(s, r.orderId).asked[r.newOrderId := r.newQuantity]),
                       Replaced(r.orderId, r.newOrderId, r.newPrice, r.newQuantity - OpenOrder(s, r.orderId).filled))
    ensures t == ReadyToReenter(s, r)
  {
  }
}
