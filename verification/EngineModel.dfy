/** The engine's state as one value, the market it stands for, and what each primitive step does to both. */
module EngineModel {
  import opened Api
  import opened OrderPool
  import opened Fifo
  import opened BookModel
  import opened Market
  import opened QueueView
  import opened MarketInvariant
  import opened MatchTheory

  /** `ids` maps order ids to pool slots, `index` instrument ids to books. */
  datatype Sys = Sys(
    configured: bool, index: map<uint64, uint32>, ids: map<uint64, uint32>, views: seq<BookView>, recs: Records,
    asked: map<uint64, nat>, nextTrade: nat, log: seq<Event>)

  /** The ladder holds exactly the valid prices of the band. */
  ghost predicate LadderOk(v: BookView) {
    forall p :: p in v.prices <==> v.lo <= p <= v.hi && PriceOk(p)
  }

  /** Each indexed id points to a record carrying it, on a known instrument. */
  ghost predicate IdsOk(sys: Sys) {
    forall id <- sys.ids :: sys.ids[id] < |sys.recs| && sys.recs[sys.ids[id]].id == id
      && sys.recs[sys.ids[id]].instrumentId in sys.index
  }

  /** Every open record is the one its id maps to. */
  ghost predicate OpenOk(sys: Sys) {
    forall s :: 0 <= s < |sys.recs| && sys.recs[s].isOpen ==>
      sys.recs[s].id in sys.ids && sys.ids[sys.recs[s].id] == s
  }

  ghost predicate ViewsOk(sys: Sys) {
    && |sys.recs| <= INVALID_SLOT
    && (forall b :: 0 <= b < |sys.views| ==> BookRep(sys.views[b], sys.recs) && LadderOk(sys.views[b]))
    && (forall b, c :: 0 <= b < c < |sys.views| ==> sys.views[b].instrumentId != sys.views[c].instrumentId)
    && (forall i <- sys.index :: sys.index[i] < |sys.views| && sys.views[sys.index[i]].instrumentId == i)
  }

  ghost predicate SysOk(sys: Sys) {
    ViewsOk(sys) && IdsOk(sys) && OpenOk(sys)
  }

  ghost function AbsBook(v: BookView, recs: Records): Book
    requires BookRep(v, recs)
  {
    Book(v.instrumentId, v.lo, v.hi, Orders(v, recs, Buy), Orders(v, recs, Sell))
  }

  ghost function AbsBooks(sys: Sys): (r: seq<Book>)
    requires ViewsOk(sys)
    ensures |r| == |sys.views|
  {
    seq(|sys.views|, b requires 0 <= b < |sys.views| => AbsBook(sys.views[b], sys.recs))
  }

  ghost function Home(sys: Sys, id: uint64): (nat, Side)
    requires ViewsOk(sys) && IdsOk(sys) && id in sys.ids
  {
    (sys.index[sys.recs[sys.ids[id]].instrumentId] as nat, sys.recs[sys.ids[id]].side)
  }

  ghost function Owner(sys: Sys): map<uint64, (nat, Side)>
    requires ViewsOk(sys) && IdsOk(sys)
  {
    map id <- sys.ids :: Home(sys, id)
  }

  /** The market the engine's state stands for. */
  ghost function Abs(sys: Sys): (s: State)
    requires SysOk(sys)
    ensures IndexOk(s) && |s.books| == |sys.views|
  {
    State(sys.configured, sys.index, AbsBooks(sys), Owner(sys), sys.asked, sys.nextTrade, sys.log)
  }

  // Changing the records of one book

  /** recs' differs from recs only in open records of one instrument and in one closed record `slot`;
      no record changes identity and none but `slot` opens. */
  ghost predicate OnlyBook(recs: Records, recs': Records, inst: uint32, slot: nat) {
    && |recs'| == |recs|
    && (forall s :: 0 <= s < |recs| && s != slot && recs'[s] != recs[s] ==>
      recs[s].isOpen && recs[s].instrumentId == inst)
    && (forall s :: 0 <= s < |recs| ==>
          recs'[s].id == recs[s].id && recs'[s].instrumentId == recs[s].instrumentId &&
            (recs'[s].isOpen && !recs[s].isOpen ==> s == slot))
    && (slot < |recs| ==> recs[slot].instrumentId == inst)
  }

  /** A change within one book leaves every other book standing, with the same market queues. */
  lemma OtherBook(v: BookView, recs: Records, recs': Records, inst: uint32, slot: nat)
    requires BookRep(v, recs) && OnlyBook(recs, recs', inst, slot) && v.instrumentId != inst && |recs'| <= INVALID_SLOT
    ensures BookRep(v, recs') && AbsBook(v, recs') == AbsBook(v, recs)
  {
    BookFrame(v, recs, recs');
    OrdersFrame(v, recs, v, recs', Buy);
    OrdersFrame(v, recs, v, recs', Sell);
  }

  /** One book and its records change: the rest of the system stands and only that market book changes. */
  lemma BookStep(sys: Sys, b: nat, v': BookView, recs': Records, slot: nat)
    requires ViewsOk(sys) && b < |sys.views| && OnlyBook(sys.recs, recs', sys.views[b].instrumentId, slot)
    requires |recs'| == |sys.recs| && BookRep(v', recs') && v'.instrumentId == sys.views[b].instrumentId
    requires v'.lo == sys.views[b].lo && v'.hi == sys.views[b].hi && v'.prices == sys.views[b].prices
    ensures var sys' := sys.(views := sys.views[b := v'], recs := recs');
      && ViewsOk(sys') && AbsBooks(sys') == AbsBooks(sys)[b := AbsBook(v', recs')]
  {
    hide BookRep, AbsBook, OnlyBook, LadderOk;
    var sys' := sys.(views := sys.views[b := v'], recs := recs');
    forall c | 0 <= c < |sys.views|
      ensures BookRep(sys'.views[c], recs') && LadderOk(sys'.views[c])
      ensures AbsBook(sys'.views[c], recs') == if c == b then AbsBook(v', recs') else AbsBook(sys.views[c], sys.recs)
    {
      if c != b {
        OtherBook(sys.views[c], sys.recs, recs', sys.views[b].instrumentId, slot);
      } else {
        LadderSame(sys.views[b], v');
      }
    }
    assert AbsBooks(sys') == AbsBooks(sys)[b := AbsBook(v', recs')];
  }

  lemma LadderSame(v: BookView, v': BookView)
    requires LadderOk(v) && v'.lo == v.lo && v'.hi == v.hi && v'.prices == v.prices
    ensures LadderOk(v')
  {
  }

  /** Ids keep their homes when no record changes identity or side. */
  lemma OwnerStep(sys: Sys, sys': Sys)
    requires ViewsOk(sys) && ViewsOk(sys') && IdsOk(sys) && sys'.ids == sys.ids && sys'.index == sys.index
    requires |sys'.recs| == |sys.recs|
    requires forall s :: 0 <= s < |sys.recs| ==>
      sys'.recs[s].id == sys.recs[s].id && sys'.recs[s].instrumentId == sys.recs[s].instrumentId &&
        sys'.recs[s].side == sys.recs[s].side
    ensures IdsOk(sys') && Owner(sys') == Owner(sys)
  {
    hide BookRep, LadderOk;
    forall id | id in sys.ids
      ensures sys'.ids[id] < |sys'.recs| && sys'.recs[sys'.ids[id]].id == id
      ensures sys'.recs[sys'.ids[id]].instrumentId in sys'.index
      ensures IdsOk(sys') ==> Home(sys', id) == Home(sys, id)
    {
    }
  }

  /** The system after one book and its records changed. */
  ghost function Moved(sys: Sys, b: nat, v': BookView, recs': Records): Sys
    requires b < |sys.views|
  {
    sys.(views := sys.views[b := v'], recs := recs')
  }

  /** Combines the two halves of a book change into the invariant and the new market. */
  lemma Assemble(sys: Sys, b: nat, v': BookView, recs': Records, slot: nat)
    requires SysOk(sys) && b < |sys.views| && OnlyBook(sys.recs, recs', sys.views[b].instrumentId, slot)
    requires |recs'| == |sys.recs| && BookRep(v', recs') && v'.instrumentId == sys.views[b].instrumentId
    requires v'.lo == sys.views[b].lo && v'.hi == sys.views[b].hi && v'.prices == sys.views[b].prices
    requires forall s :: 0 <= s < |sys.recs| ==> recs'[s].side == sys.recs[s].side
    requires slot < |sys.recs| && recs'[slot].isOpen && !sys.recs[slot].isOpen ==>
      sys.recs[slot].id in sys.ids && sys.ids[sys.recs[slot].id] == slot
    ensures SysOk(Moved(sys, b, v', recs'))
    ensures Abs(Moved(sys, b, v', recs')) == Abs(sys).(books := Abs(sys).books[b := AbsBook(v', recs')])
  {
    hide BookRep, AbsBook, AbsBooks, LadderOk, Owner, Home, OpenOk;
    BookStep(sys, b, v', recs', slot);
    OpenStep(sys, b, v', recs', slot);
    OnlyBookIds(sys.recs, recs', sys.views[b].instrumentId, slot);
    hide OnlyBook, ViewsOk;
    OwnerStep(sys, Moved(sys, b, v', recs'));
  }

  lemma OnlyBookIds(recs: Records, recs': Records, inst: uint32, slot: nat)
    requires OnlyBook(recs, recs', inst, slot)
    ensures |recs'| == |recs|
    ensures forall s :: 0 <= s < |recs| ==> recs'[s].id == recs[s].id && recs'[s].instrumentId == recs[s].instrumentId
  {
  }

  lemma OpenStep(sys: Sys, b: nat, v': BookView, recs': Records, slot: nat)
    requires OpenOk(sys) && b < |sys.views| && OnlyBook(sys.recs, recs', sys.views[b].instrumentId, slot)
    requires slot < |sys.recs| && recs'[slot].isOpen && !sys.recs[slot].isOpen ==>
      sys.recs[slot].id in sys.ids && sys.ids[sys.recs[slot].id] == slot
    ensures OpenOk(Moved(sys, b, v', recs'))
  {
    forall s | 0 <= s < |recs'| && recs'[s].isOpen ensures recs'[s].id in sys.ids && sys.ids[recs'[s].id] == s {
      assert recs'[s].id == sys.recs[s].id;
    }
  }

  /** The market queues of one book. */
  lemma BookQueues(sys: Sys, b: nat)
    requires SysOk(sys) && b < |sys.views|
    ensures BookRep(sys.views[b], sys.recs) && b < |Abs(sys).books|
    ensures Abs(sys).books[b] == AbsBook(sys.views[b], sys.recs)
  {
  }

  // Resting

  lemma RestOnlyBook(v: BookView, recs: Records, slot: uint32, side: Side, idx: uint32)
    requires CanRest(v, recs, slot, idx) && recs[slot].side == side
    requires |SideOf(v, side).levels| == |v.prices|
    requires RestRecs.requires(recs, SideOf(v, side).levels[idx].tail, slot, side, v.prices[idx], idx)
    ensures var recs' := RestRecs(recs, SideOf(v, side).levels[idx].tail, slot, side, v.prices[idx], idx);
      && OnlyBook(recs, recs', v.instrumentId, slot)
      && forall s :: 0 <= s < |recs| ==> recs'[s].side == recs[s].side
  {
    LevelFacts(v, recs, side, idx);
    hide BookRep;
  }

  /** Resting a registered record inserts its order into the market queue. */
  lemma RestStep(sys: Sys, b: nat, slot: uint32, side: Side, idx: uint32, v': BookView, recs': Records)
    requires SysOk(sys) && b < |sys.views| && CanRest(sys.views[b], sys.recs, slot, idx) && sys.recs[slot].side == side
    requires sys.recs[slot].id in sys.ids && sys.ids[sys.recs[slot].id] == slot
    requires RestSide.requires(SideOf(sys.views[b], side), sys.recs, slot, side, idx)
    requires RestRecs.requires(sys.recs, SideOf(sys.views[b], side).levels[idx].tail, slot, side,
                               sys.views[b].prices[idx], idx)
    requires v' == WithSide(sys.views[b], side, RestSide(SideOf(sys.views[b], side), sys.recs, slot, side, idx))
    requires recs' == RestRecs(sys.recs, SideOf(sys.views[b], side).levels[idx].tail, slot, side,
                               sys.views[b].prices[idx], idx)
    requires BookRep(v', recs')
    ensures SysOk(Moved(sys, b, v', recs'))
    ensures Abs(Moved(sys, b, v', recs')) == RestOrder(Abs(sys), b, side,
      Order(sys.recs[slot].id, sys.views[b].prices[idx], sys.recs[slot].openQty, sys.recs[slot].filledQty))
  {
    hide BookRep, Orders, RestRecs, RestSide, OnlyBook, SysOk, Abs, LevelOk;
    var v := sys.views[b];
    LevelFacts(v, sys.recs, side, idx);
    RestOnlyBook(v, sys.recs, slot, side, idx);
    RestOrders(v, sys.recs, slot, side, idx, v', recs');
    BookQueues(sys, b);
    Assemble(sys, b, v', recs', slot);
  }

  // Taking out

  lemma UnlinkOnlyBook(v: BookView, recs: Records, slot: uint32, k: nat)
    requires CanLeave(v, recs, slot, k) && UnlinkLinks.requires(recs, slot)
    ensures var recs' := UnlinkLinks(recs, slot);
      && OnlyBook(recs, recs', v.instrumentId, slot) && !recs'[slot].isOpen
      && recs'[slot].openQty == recs[slot].openQty && recs'[slot].filledQty == recs[slot].filledQty
      && forall s :: 0 <= s < |recs| ==> recs'[s].side == recs[s].side
  {
    LinksFacts(v, recs, slot, k);
    hide BookRep;
  }

  /** Unlinking a record takes its order out of the market queue. */
  lemma UnlinkStep(sys: Sys, b: nat, slot: uint32, k: nat, v': BookView, recs': Records)
    requires SysOk(sys) && b < |sys.views| && CanLeave(sys.views[b], sys.recs, slot, k)
    requires UnlinkLinks.requires(sys.recs, slot) && recs' == UnlinkLinks(sys.recs, slot)
    requires Leaves(sys.views[b], sys.recs, slot, k, v') && BookRep(v', recs')
    ensures SysOk(Moved(sys, b, v', recs'))
    ensures var side, q := sys.recs[slot].side, Queue(Abs(sys).books[b], sys.recs[slot].side);
      && Rank(sys.views[b], sys.recs, slot, k) < |q|
      && q[Rank(sys.views[b], sys.recs, slot, k)] == AbsOrder(sys.recs[slot])
      && Abs(Moved(sys, b, v', recs')) == Abs(sys).(books := Abs(sys).books[b :=
           SetQueue(Abs(sys).books[b], side, RemoveAt(q, Rank(sys.views[b], sys.recs, slot, k)))])
  {
    var v := sys.views[b];
    hide BookRep, Orders, UnlinkLinks, OnlyBook, Rank, LadderOk, IdsOk, OpenOk;
    UnlinkOnlyBook(v, sys.recs, slot, k);
    UnlinkOrders(v, sys.recs, slot, k, v', recs');
    Assemble(sys, b, v', recs', slot);
  }

  // Filling

  lemma FillOnlyBook(v: BookView, recs: Records, slot: uint32, k: nat, fill: uint32)
    requires CanLeave(v, recs, slot, k) && FillRecs.requires(recs, slot, fill)
    ensures var recs' := FillRecs(recs, slot, fill);
      OnlyBook(recs, recs', v.instrumentId, slot) && forall s :: 0 <= s < |recs| ==> recs'[s].side == recs[s].side
  {
  }

  /** A fill updates one order of the market queue. */
  lemma FillStep(sys: Sys, b: nat, slot: uint32, k: nat, fill: uint32, v': BookView, recs': Records)
    requires SysOk(sys) && b < |sys.views| && CanLeave(sys.views[b], sys.recs, slot, k)
    requires FillRecs.requires(sys.recs, slot, fill) && recs' == FillRecs(sys.recs, slot, fill)
    requires v' == WithSide(sys.views[b], sys.recs[slot].side,
      FillSide(SideOf(sys.views[b], sys.recs[slot].side), sys.recs[slot].levelIndex, fill))
    requires BookRep(v', recs')
    ensures SysOk(Moved(sys, b, v', recs'))
    ensures var side, q := sys.recs[slot].side, Queue(Abs(sys).books[b], sys.recs[slot].side);
      && Rank(sys.views[b], sys.recs, slot, k) < |q|
      && q[Rank(sys.views[b], sys.recs, slot, k)] == AbsOrder(sys.recs[slot])
      && Abs(Moved(sys, b, v', recs')) == Abs(sys).(books := Abs(sys).books[b :=
           SetQueue(Abs(sys).books[b], side, q[Rank(sys.views[b], sys.recs, slot, k) := AbsOrder(recs'[slot])])])
  {
    var v := sys.views[b];
    hide BookRep, Orders, FillRecs, OnlyBook, Rank, LadderOk, IdsOk, OpenOk;
    FillOnlyBook(v, sys.recs, slot, k, fill);
    FillOrders(v, sys.recs, slot, k, fill, v', recs');
    Assemble(sys, b, v', recs', slot);
  }

  // Splicing

  lemma SpliceOnlyBook(v: BookView, recs: Records, slot: uint32, heir: uint32, k: nat)
    requires CanInherit(v, recs, slot, heir, k) && SpliceRecs.requires(recs, slot, heir)
    requires recs[heir].side == recs[slot].side
    ensures var recs' := SpliceRecs(recs, slot, heir);
      OnlyBook(recs, recs', v.instrumentId, heir) && !recs'[slot].isOpen && forall s :: 0 <= s < |recs| ==>
        recs'[s].side == recs[s].side
  {
    LinksFacts(v, recs, slot, k);
    hide BookRep;
  }

  /** Every open record but `slot` is the one its id maps to. */
  ghost predicate OpenBut(sys: Sys, slot: nat) {
    forall s :: 0 <= s < |sys.recs| && sys.recs[s].isOpen && s != slot ==>
      sys.recs[s].id in sys.ids && sys.ids[sys.recs[s].id] == s
  }

  /** Once `slot` is closed and `heir` open, every open record is mapped again. */
  lemma OpenHeir(sys: Sys, b: nat, v': BookView, recs': Records, slot: uint32, heir: uint32)
    requires OpenBut(sys, slot) && b < |sys.views| && OnlyBook(sys.recs, recs', sys.views[b].instrumentId, heir)
    requires slot < |recs'| && !recs'[slot].isOpen
    requires heir < |sys.recs| && sys.recs[heir].id in sys.ids && sys.ids[sys.recs[heir].id] == heir
    ensures OpenOk(Moved(sys, b, v', recs'))
  {
    forall s | 0 <= s < |recs'| && recs'[s].isOpen ensures recs'[s].id in sys.ids && sys.ids[recs'[s].id] == s {
      assert recs'[s].id == sys.recs[s].id;
    }
  }

  /** Splicing substitutes one order of the market queue by another at the same position. The old record
      need not be the one its id maps to any more. */
  lemma SpliceStep(sys: Sys, b: nat, slot: uint32, heir: uint32, k: nat, v': BookView, recs': Records)
    requires ViewsOk(sys) && IdsOk(sys) && OpenBut(sys, slot)
    requires b < |sys.views| && CanInherit(sys.views[b], sys.recs, slot, heir, k)
    requires SpliceRecs.requires(sys.recs, slot, heir) && recs' == SpliceRecs(sys.recs, slot, heir)
    requires sys.recs[heir].side == sys.recs[slot].side
    requires sys.recs[heir].id in sys.ids && sys.ids[sys.recs[heir].id] == heir
    requires v' == WithSide(sys.views[b], sys.recs[slot].side,
                            SpliceSide(SideOf(sys.views[b], sys.recs[slot].side), sys.recs, slot, heir, k))
    requires BookRep(v', recs')
    ensures SysOk(Moved(sys, b, v', recs'))
    ensures var side, q := sys.recs[slot].side, Queue(AbsBooks(sys)[b], sys.recs[slot].side);
      && Rank(sys.views[b], sys.recs, slot, k) < |q|
      && q[Rank(sys.views[b], sys.recs, slot, k)] == AbsOrder(sys.recs[slot])
      && AbsBooks(Moved(sys, b, v', recs')) == AbsBooks(sys)[b :=
           SetQueue(AbsBooks(sys)[b], side, q[Rank(sys.views[b], sys.recs, slot, k) :=
             Order(sys.recs[heir].id, sys.recs[slot].price, sys.recs[heir].openQty, sys.recs[heir].filledQty)])]
      && Owner(Moved(sys, b, v', recs')) == Owner(sys)
  {
    hide BookRep, Orders, SpliceRecs, OnlyBook, Rank, SpliceSide, SideRep, Complete;
    hide LadderOk, IdsOk, OpenOk, OpenBut, Owner;
    var v := sys.views[b];
    SpliceOnlyBook(v, sys.recs, slot, heir, k);
    SpliceOrders(v, sys.recs, slot, heir, k, v', recs');
    OnlyBookIds(sys.recs, recs', v.instrumentId, heir);
    BookStep(sys, b, v', recs', heir);
    OpenHeir(sys, b, v', recs', slot, heir);
    OwnerStep(sys, Moved(sys, b, v', recs'));
  }

  // Closed records

  /** A new or changed closed record leaves every book as it was. */
  lemma ClosedBooks(sys: Sys, recs': Records, slot: nat)
    requires ViewsOk(sys) && |sys.recs| <= |recs'| <= INVALID_SLOT && slot < |recs'| && !recs'[slot].isOpen
    requires slot < |sys.recs| ==> !sys.recs[slot].isOpen
    requires forall s :: 0 <= s < |sys.recs| && s != slot ==> recs'[s] == sys.recs[s]
    requires |recs'| == |sys.recs| || (|recs'| == |sys.recs| + 1 && slot == |sys.recs|)
    ensures ViewsOk(sys.(recs := recs')) && AbsBooks(sys.(recs := recs')) == AbsBooks(sys)
  {
    hide LadderOk;
    forall b | 0 <= b < |sys.views|
      ensures BookRep(sys.views[b], recs') && AbsBook(sys.views[b], recs') == AbsBook(sys.views[b], sys.recs)
    {
      ClosedBook(sys.views[b], sys.recs, recs', slot);
    }
  }

  lemma ClosedBook(v: BookView, recs: Records, recs': Records, slot: nat)
    requires BookRep(v, recs) && |recs| <= |recs'| <= INVALID_SLOT && slot < |recs'| && !recs'[slot].isOpen
    requires slot < |recs| ==> !recs[slot].isOpen
    requires forall s :: 0 <= s < |recs| && s != slot ==> recs'[s] == recs[s]
    requires |recs'| == |recs| || (|recs'| == |recs| + 1 && slot == |recs|)
    ensures BookRep(v, recs') && AbsBook(v, recs') == AbsBook(v, recs)
  {
    BookFrame(v, recs, recs');
    OrdersFrame(v, recs, v, recs', Buy);
    OrdersFrame(v, recs, v, recs', Sell);
  }

  /** Changing the quantities of a closed record changes nothing in the market. */
  lemma ClosedStep(sys: Sys, slot: nat, rec: OrderRecord)
    requires SysOk(sys) && slot < |sys.recs| && !sys.recs[slot].isOpen && !rec.isOpen
    requires rec.id == sys.recs[slot].id && rec.instrumentId == sys.recs[slot].instrumentId
    requires rec.side == sys.recs[slot].side
    ensures SysOk(sys.(recs := sys.recs[slot := rec])) && Abs(sys.(recs := sys.recs[slot := rec])) == Abs(sys)
  {
    hide BookRep, AbsBooks, LadderOk, Owner, Home;
    ClosedBooks(sys, sys.recs[slot := rec], slot);
    OwnerStep(sys, sys.(recs := sys.recs[slot := rec]));
  }

  ghost function Allocated(sys: Sys, rec: OrderRecord): Sys
    requires |sys.recs| < INVALID_SLOT
  {
    sys.(recs := sys.recs + [rec], ids := sys.ids[rec.id := |sys.recs|])
  }

  /** Allocating a closed record for an id no open order carries registers the id and changes no book. */
  lemma AllocStep(sys: Sys, rec: OrderRecord)
    requires SysOk(sys) && |sys.recs| < INVALID_SLOT && !rec.isOpen && rec.instrumentId in sys.index
    requires rec.id in sys.ids ==> !sys.recs[sys.ids[rec.id]].isOpen
    ensures var sys' := Allocated(sys, rec);
      && SysOk(sys')
      && Abs(sys') == Abs(sys).(owner := Abs(sys).owner[rec.id := (sys.index[rec.instrumentId] as nat, rec.side)])
  {
    var sys' := Allocated(sys, rec);
    AllocViews(sys, rec);
    AllocIds(sys, rec);
    hide ViewsOk, IdsOk, OpenOk, AbsBooks;
    AllocOwner(sys, rec);
  }

  lemma AllocViews(sys: Sys, rec: OrderRecord)
    requires ViewsOk(sys) && |sys.recs| < INVALID_SLOT && !rec.isOpen
    ensures var sys' := Allocated(sys, rec);
      ViewsOk(sys') && AbsBooks(sys') == AbsBooks(sys)
  {
    var recs' := sys.recs + [rec];
    ClosedBooks(sys, recs', |sys.recs|);
    hide BookRep, LadderOk, AbsBook;
    assert AbsBooks(sys.(recs := recs', ids := sys.ids[rec.id := |sys.recs|])) == AbsBooks(sys.(recs := recs'));
  }

  lemma AllocIds(sys: Sys, rec: OrderRecord)
    requires IdsOk(sys) && OpenOk(sys) && |sys.recs| < INVALID_SLOT && !rec.isOpen && rec.instrumentId in sys.index
    requires rec.id in sys.ids ==> !sys.recs[sys.ids[rec.id]].isOpen
    ensures var sys' := Allocated(sys, rec); IdsOk(sys') && OpenOk(sys')
  {
  }

  lemma AllocOwner(sys: Sys, rec: OrderRecord)
    requires ViewsOk(sys) && IdsOk(sys) && |sys.recs| < INVALID_SLOT && rec.instrumentId in sys.index
    requires ViewsOk(Allocated(sys, rec))
    requires IdsOk(Allocated(sys, rec))
    ensures Owner(Allocated(sys, rec)) ==
      Owner(sys)[rec.id := (sys.index[rec.instrumentId] as nat, rec.side)]
  {
    hide BookRep, LadderOk, Home;
    var sys' := Allocated(sys, rec);
    forall id | id in sys'.ids
      ensures Home(sys', id) == if id == rec.id then (sys.index[rec.instrumentId] as nat, rec.side) else Home(sys, id)
    {
      AllocHome(sys, rec, id);
    }
  }

  lemma AllocHome(sys: Sys, rec: OrderRecord, id: uint64)
    requires ViewsOk(sys) && IdsOk(sys) && |sys.recs| < INVALID_SLOT && rec.instrumentId in sys.index
    requires ViewsOk(Allocated(sys, rec))
    requires IdsOk(Allocated(sys, rec))
    requires id == rec.id || id in sys.ids
    ensures Home(Allocated(sys, rec), id) ==
      if id == rec.id then (sys.index[rec.instrumentId] as nat, rec.side) else Home(sys, id)
  {
    hide BookRep, LadderOk;
  }

  // The best order of a side

  lemma SamePosition(v: BookView, recs: Records, slot: uint32, k: nat, k': nat)
    requires CanLeave(v, recs, slot, k) && CanLeave(v, recs, slot, k')
    ensures k == k'
  {
    LevelFacts(v, recs, recs[slot].side, recs[slot].levelIndex);
  }

  /** The record at the head of the best level is the first order of the market queue. */
  lemma HeadFacts(sys: Sys, b: nat, side: Side) returns (slot: uint32)
    requires SysOk(sys) && b < |sys.views| && SideOf(sys.views[b], side).best >= 0
    ensures var v, idx := sys.views[b], SideOf(sys.views[b], side).best;
      && idx < |v.prices| == |SideOf(v, side).levels| && SideOf(v, side).levels[idx].head == slot < |sys.recs|
      && CanLeave(v, sys.recs, slot, 0) && Rank(v, sys.recs, slot, 0) == 0
      && sys.recs[slot].side == side && sys.recs[slot].levelIndex == idx
    ensures var q := Queue(Abs(sys).books[b], side);
      |q| > 0 && q[0] == AbsOrder(sys.recs[slot]) && q[0].price == sys.views[b].prices[SideOf(sys.views[b], side).best]
  {
    var v, idx := sys.views[b], SideOf(sys.views[b], side).best;
    assert SideRep(SideOf(v, side), sys.recs, v.instrumentId, side, v.prices);
    hide BookRep;
    LevelHead(v, sys.recs, side, idx);
    NothingBefore(v, sys.recs, side, idx);
    slot := SideOf(v, side).levels[idx].head;
    var parts := Split(v, sys.recs, side, idx);
    assert |parts.better + parts.level + parts.worse| == |parts.level + parts.worse|;
  }

  /** A side has a best level exactly when its market queue is not empty. */
  lemma BestIffOrders(sys: Sys, b: nat, side: Side)
    requires SysOk(sys) && b < |sys.views|
    ensures SideOf(sys.views[b], side).best >= 0 <==> |Queue(Abs(sys).books[b], side)| > 0
    ensures |SideOf(sys.views[b], side).levels| == |sys.views[b].prices|
    ensures -1 <= SideOf(sys.views[b], side).best < |sys.views[b].prices|
  {
    BestLevel(sys.views[b], sys.recs, side);
  }

  /** A best level that still has orders after one left it is still the best. */
  lemma BestStays(v: BookView, recs: Records, slot: uint32, k: nat, v': BookView, recs': Records)
    requires CanLeave(v, recs, slot, k) && Leaves(v, recs, slot, k, v') && BookRep(v', recs') && |recs'| == |recs|
    requires SideOf(v, recs[slot].side).best == recs[slot].levelIndex
    ensures |SideOf(v', recs[slot].side).levels| == |v.prices|
    ensures SideOf(v', recs[slot].side).levels[recs[slot].levelIndex].head != INVALID_SLOT ==>
      SideOf(v', recs[slot].side).best == SideOf(v, recs[slot].side).best
  {
    var side, idx := recs[slot].side, recs[slot].levelIndex;
    var sv, sv' := SideOf(v, side), SideOf(v', side);
    LevelFacts(v, recs, side, idx);
    LevelFacts(v', recs', side, idx);
    assert SideRep(sv, recs, v.instrumentId, side, v.prices);
    assert SideRep(sv', recs', v'.instrumentId, side, v'.prices);
    if sv'.levels[idx].head != INVALID_SLOT {
      assert idx in sv'.occupied;
      BestUnique(side, sv.occupied, sv.best, sv'.best);
    }
  }

  /** The queue after its first order traded `fill`. */
  function AfterFill(q: seq<Order>, fill: nat): seq<Order>
    requires |q| > 0 && fill <= q[0].open
  {
    if fill == q[0].open then q[1..] else [Filled(q[0], fill)] + q[1..]
  }

  /** The market after one trade with the first order of `side`'s opposite queue. */
  function TradeOne(s: State, b: nat, side: Side, id: uint64, fill: nat): State
    requires b < |s.books| && |Queue(s.books[b], Opposite(side))| > 0
    requires fill <= Queue(s.books[b], Opposite(side))[0].open
  {
    var book := s.books[b];
    var q := Queue(book, Opposite(side));
    s.(books := s.books[b := SetQueue(book, Opposite(side), AfterFill(q, fill))],
       log := s.log + [Trade(s.nextTrade, book.instrumentId, q[0].price, fill, q[0].id, id, side)],
       nextTrade := s.nextTrade + 1)
  }

  /** The market after trade id, event and fill, before a completely filled order is removed. */
  function FillOnly(s: State, b: nat, side: Side, id: uint64, fill: nat): State
    requires b < |s.books| && |Queue(s.books[b], Opposite(side))| > 0
    requires fill <= Queue(s.books[b], Opposite(side))[0].open
  {
    var q := Queue(s.books[b], Opposite(side));
    s.(books := s.books[b := SetQueue(s.books[b], Opposite(side), q[0 := Filled(q[0], fill)])],
       log := s.log + [Trade(s.nextTrade, s.books[b].instrumentId, q[0].price, fill, q[0].id, id, side)],
       nextTrade := s.nextTrade + 1)
  }

  /** The fill and, if the resting order is done, its removal add up to one trade. */
  lemma TradeComposes(s: State, b: nat, side: Side, id: uint64, fill: nat)
    requires b < |s.books| && |Queue(s.books[b], Opposite(side))| > 0
    requires fill <= Queue(s.books[b], Opposite(side))[0].open
    ensures var opp, q, u := Opposite(side), Queue(s.books[b], Opposite(side)), FillOnly(s, b, side, id, fill);
      && (fill < q[0].open ==> u == TradeOne(s, b, side, id, fill))
      && |Queue(u.books[b], opp)| > 0
      && (fill == q[0].open ==>
           u.(books := u.books[b := SetQueue(u.books[b], opp, RemoveAt(Queue(u.books[b], opp), 0))]) ==
             TradeOne(s, b, side, id, fill))
  {
    var q := Queue(s.books[b], Opposite(side));
    assert q[0 := Filled(q[0], fill)] == [Filled(q[0], fill)] + q[1..];
    assert RemoveAt(q[0 := Filled(q[0], fill)], 0) == q[1..];
  }

  /** Events, trade ids and requested totals live apart from the books. */
  lemma EventStep(sys: Sys, asked: map<uint64, nat>, log: seq<Event>, nextTrade: nat)
    requires SysOk(sys)
    ensures SysOk(sys.(asked := asked, log := log, nextTrade := nextTrade))
    ensures Abs(sys.(asked := asked, log := log, nextTrade := nextTrade)) ==
      Abs(sys).(asked := asked, log := log, nextTrade := nextTrade)
    ensures Abs(sys).asked == sys.asked && Abs(sys).log == sys.log && Abs(sys).nextTrade == sys.nextTrade
  {
    hide BookRep, LadderOk;
    var sys' := sys.(asked := asked, log := log, nextTrade := nextTrade);
    assert AbsBooks(sys') == AbsBooks(sys);
    assert Owner(sys') == Owner(sys);
  }

  // Relations between the system before and after an engine step

  /** No book but b changed in any field: levels, bitmaps, best indices and queues are as they were. */
  ghost predicate OneView(sys: Sys, sys': Sys, b: nat) {
    b < |sys.views| == |sys'.views| && sys'.views == sys.views[b := sys'.views[b]]
  }

  /** A closed record of the book's instrument. */
  ghost predicate IsCandidate(sys: Sys, b: nat, slot: nat)
    requires b < |sys.views|
  {
    slot < |sys.recs| && !sys.recs[slot].isOpen && sys.recs[slot].instrumentId == sys.views[b].instrumentId
  }

  /** An open record of the book's instrument. */
  ghost predicate IsResting(sys: Sys, b: nat, slot: nat)
    requires b < |sys.views|
  {
    slot < |sys.recs| && sys.recs[slot].isOpen && sys.recs[slot].instrumentId == sys.views[b].instrumentId
  }

  /** `slot` was appended to the level of `price`. */
  ghost predicate Rested(sys: Sys, sys': Sys, b: nat, slot: uint32, side: Side, idx: uint32, price: int) {
    && b < |sys.views| && b < |sys'.views| && CanRest(sys.views[b], sys.recs, slot, idx)
    && sys.views[b].prices[idx] == price
    && RestSide.requires(SideOf(sys.views[b], side), sys.recs, slot, side, idx)
    && RestRecs.requires(sys.recs, SideOf(sys.views[b], side).levels[idx].tail, slot, side, price, idx)
    && sys'.views[b] == WithSide(sys.views[b], side, RestSide(SideOf(sys.views[b], side), sys.recs, slot, side, idx))
    && sys'.recs == RestRecs(sys.recs, SideOf(sys.views[b], side).levels[idx].tail, slot, side, price, idx)
    && sys' == Moved(sys, b, sys'.views[b], sys'.recs) && BookRep(sys'.views[b], sys'.recs)
  }

  /** `slot`, k-th of its level, was taken off its queue. */
  ghost predicate TookOff(sys: Sys, sys': Sys, b: nat, slot: uint32, k: nat) {
    && b < |sys.views| && b < |sys'.views| && CanLeave(sys.views[b], sys.recs, slot, k)
    && UnlinkLinks.requires(sys.recs, slot) && sys'.recs == UnlinkLinks(sys.recs, slot)
    && Leaves(sys.views[b], sys.recs, slot, k, sys'.views[b])
    && sys' == Moved(sys, b, sys'.views[b], sys'.recs) && BookRep(sys'.views[b], sys'.recs)
  }

  /** `heir` took the place of `slot`, k-th of its level. */
  ghost predicate Spliced(sys: Sys, sys': Sys, b: nat, slot: uint32, heir: uint32, k: nat) {
    && b < |sys.views| && b < |sys'.views| && CanInherit(sys.views[b], sys.recs, slot, heir, k)
    && SpliceRecs.requires(sys.recs, slot, heir) && sys'.recs == SpliceRecs(sys.recs, slot, heir)
    && sys'.views[b] == WithSide(sys.views[b], sys.recs[slot].side,
         SpliceSide(SideOf(sys.views[b], sys.recs[slot].side), sys.recs, slot, heir, k))
    && sys' == Moved(sys, b, sys'.views[b], sys'.recs) && BookRep(sys'.views[b], sys'.recs)
  }

  /** A closed record of the book's instrument with room for its fills. */
  ghost predicate IsAggressor(sys: Sys, b: nat, agg: uint32) {
    && b < |sys.views| && agg < |sys.recs| && !sys.recs[agg].isOpen
    && sys.recs[agg].instrumentId == sys.views[b].instrumentId
    && sys.recs[agg].openQty + sys.recs[agg].filledQty < TWO_32
  }

  /** Quantities fit 32 bits, filled or open. */
  ghost predicate Small(q: seq<Order>) {
    forall i :: 0 <= i < |q| ==> q[i].open + q[i].filled < TWO_32
  }

  ghost predicate CanTrade(sys: Sys, b: nat, agg: uint32, side: Side, idx: uint32) {
    && SysOk(sys) && IsAggressor(sys, b, agg) && sys.recs[agg].openQty > 0
    && idx == SideOf(sys.views[b], Opposite(side)).best
    && Small(Queue(Abs(sys).books[b], Opposite(side)))
  }

  ghost predicate CanFill(sys: Sys, b: nat, agg: uint32, slot: uint32, side: Side, idx: uint32, fill: uint32) {
    && SysOk(sys) && IsAggressor(sys, b, agg) && CanLeave(sys.views[b], sys.recs, slot, 0)
    && slot != agg && sys.recs[slot].side == Opposite(side) && sys.recs[slot].levelIndex == idx
    && idx < |SideOf(sys.views[b], Opposite(side)).levels|
    && fill <= sys.recs[agg].openQty && fill <= sys.recs[slot].openQty && sys.recs[slot].filledQty + fill < TWO_32
  }

  /** Trade id, event and both records of a fill. */
  ghost function RecordsFilled(sys: Sys, instrumentId: uint32, agg: uint32, slot: uint32, side: Side, fill: uint32): Sys
    requires agg < |sys.recs| && slot < |sys.recs| && agg != slot
    requires FillRecs.requires(sys.recs, agg, fill) && FillRecs.requires(sys.recs, slot, fill)
  {
    sys.(recs := FillRecs(FillRecs(sys.recs, agg, fill), slot, fill),
         nextTrade := sys.nextTrade + 1,
         log := sys.log + [Trade(sys.nextTrade, instrumentId, sys.recs[slot].price, fill,
                                 sys.recs[slot].id, sys.recs[agg].id, side)])
  }

  /** The level total of a fill. */
  ghost function LevelReduced(sys: Sys, b: nat, side: Side, idx: uint32, fill: uint32): Sys
    requires b < |sys.views| && idx < |SideOf(sys.views[b], side).levels|
  {
    sys.(views := sys.views[b := WithSide(sys.views[b], side, FillSide(SideOf(sys.views[b], side), idx, fill))])
  }

  ghost function FilledSys(sys: Sys, b: nat, agg: uint32, slot: uint32, side: Side, idx: uint32, fill: uint32): Sys
    requires CanFill(sys, b, agg, slot, side, idx, fill)
  {
    LevelReduced(RecordsFilled(sys, sys.views[b].instrumentId, agg, slot, side, fill), b, Opposite(side), idx, fill)
  }

  /** No closed record but `slot` changes. */
  ghost predicate ClosedKept(recs: Records, recs': Records, slot: nat) {
    |recs| <= |recs'| && forall s :: 0 <= s < |recs| && !recs[s].isOpen && s != slot ==> recs'[s] == recs[s]
  }

  /** The parts of the system a fill leaves alone. */
  ghost predicate FillFrame(sys: Sys, sys': Sys, b: nat, agg: uint32, side: Side, idx: uint32, fill: uint32) {
    && FillRecs.requires(sys.recs, agg, fill) && b < |sys.views| == |sys'.views| && |sys'.recs| == |sys.recs|
    && ClosedKept(sys.recs, sys'.recs, agg)
    && IsAggressor(sys', b, agg) && sys'.recs[agg] == FillRecs(sys.recs, agg, fill)[agg]
    && sys' == sys.(views := sys'.views, recs := sys'.recs, log := sys'.log, nextTrade := sys'.nextTrade)
    && sys'.views == sys.views[b := sys'.views[b]]
    && sys'.views[b].instrumentId == sys.views[b].instrumentId && sys'.views[b].prices == sys.views[b].prices
    && idx < |SideOf(sys'.views[b], Opposite(side)).levels|
  }

  /** One trade happened: the market traded with its first opposite order, and the level, if it still has
      orders, is still the best. */
  ghost predicate OneTrade(sys: Sys, sys': Sys, b: nat, agg: uint32, side: Side, idx: uint32)
    requires CanTrade(sys, b, agg, side, idx)
  {
    var q := Queue(Abs(sys).books[b], Opposite(side));
    && SysOk(sys') && |q| > 0
    && var fill := Min(sys.recs[agg].openQty, q[0].open);
      && Abs(sys') == TradeOne(Abs(sys), b, side, sys.recs[agg].id, fill)
      && FillFrame(sys, sys', b, agg, side, idx, fill)
      && (SideOf(sys'.views[b], Opposite(side)).levels[idx].head != INVALID_SLOT ==>
            SideOf(sys'.views[b], Opposite(side)).best == idx)
  }

  lemma TradeReady(sys: Sys, b: nat, agg: uint32, side: Side, idx: uint32) returns (slot: uint32)
    requires CanTrade(sys, b, agg, side, idx)
    ensures idx < |SideOf(sys.views[b], Opposite(side)).levels|
    ensures slot == SideOf(sys.views[b], Opposite(side)).levels[idx].head < |sys.recs| && slot != agg
    ensures sys.recs[slot].isOpen && sys.recs[slot].instrumentId == sys.views[b].instrumentId
    ensures var fill := Min(sys.recs[agg].openQty, sys.recs[slot].openQty);
      CanFill(sys, b, agg, slot, side, idx, fill)
  {
    slot := HeadFacts(sys, b, Opposite(side));
    hide SysOk, Abs, BookRep, Rank;
    assert Queue(Abs(sys).books[b], Opposite(side))[0] == AbsOrder(sys.recs[slot]);
  }

  /** The bounds a fill relies on. */
  lemma FillReady(sys: Sys, b: nat, agg: uint32, slot: uint32, side: Side, idx: uint32, fill: uint32)
    requires CanFill(sys, b, agg, slot, side, idx, fill)
    ensures b < |sys.views| && agg < |sys.recs| && slot < |sys.recs| && agg != slot
    ensures FillRecs.requires(sys.recs, agg, fill) && FillRecs.requires(sys.recs, slot, fill)
    ensures idx < |sys.views[b].prices| == |SideOf(sys.views[b], Opposite(side)).levels|
  {
  }

  /** A level has one head. */
  lemma SameHead(v: BookView, recs: Records, slot: uint32, head: uint32)
    requires CanLeave(v, recs, slot, 0) && CanLeave(v, recs, head, 0)
    requires recs[slot].side == recs[head].side && recs[slot].levelIndex == recs[head].levelIndex
    ensures slot == head
  {
  }

  /** A filled order keeps its place. */
  lemma FillStays(v: BookView, recs: Records, slot: uint32, k: nat, fill: uint32)
    requires CanLeave(v, recs, slot, k) && FillRecs.requires(recs, slot, fill)
    ensures var sv, idx := SideOf(v, recs[slot].side), recs[slot].levelIndex;
      && idx < |sv.levels|
      && CanLeave(WithSide(v, recs[slot].side, FillSide(sv, idx, fill)), FillRecs(recs, slot, fill), slot, k)
  {
    FillKeepsRep(v, recs, slot, k, fill);
    hide BookRep;
  }

  /** The aggressor's half of a fill leaves the market alone. */
  lemma AggressorStep(sys: Sys, b: nat, agg: uint32, slot: uint32, side: Side, idx: uint32, fill: uint32)
    requires CanTrade(sys, b, agg, side, idx) && CanFill(sys, b, agg, slot, side, idx, fill)
    ensures var sys' := sys.(recs := FillRecs(sys.recs, agg, fill));
      && SysOk(sys') && Abs(sys') == Abs(sys) && CanLeave(sys'.views[b], sys'.recs, slot, 0)
      && Rank(sys'.views[b], sys'.recs, slot, 0) == 0 && slot < |sys.recs| && sys'.recs[slot] == sys.recs[slot]
      && |Queue(Abs(sys).books[b], Opposite(side))| > 0
      && Queue(Abs(sys).books[b], Opposite(side))[0] == AbsOrder(sys.recs[slot])
  {
    hide SysOk, Abs, Rank, BookRep;
    var head := HeadFacts(sys, b, Opposite(side));
    SameHead(sys.views[b], sys.recs, slot, head);
    var sys' := sys.(recs := FillRecs(sys.recs, agg, fill));
    ClosedStep(sys, agg, sys'.recs[agg]);
    assert sys' == sys.(recs := sys.recs[agg := sys'.recs[agg]]);
    var head' := HeadFacts(sys', b, Opposite(side));
  }

  /** The fill, seen from the market. */
  lemma FilledAbs(sys: Sys, b: nat, agg: uint32, slot: uint32, side: Side, idx: uint32, fill: uint32)
    requires CanTrade(sys, b, agg, side, idx) && CanFill(sys, b, agg, slot, side, idx, fill)
    ensures var sys', q := FilledSys(sys, b, agg, slot, side, idx, fill), Queue(Abs(sys).books[b], Opposite(side));
      && SysOk(sys') && CanLeave(sys'.views[b], sys'.recs, slot, 0)
      && |q| > 0 && q[0] == AbsOrder(sys.recs[slot])
      && Abs(sys') == FillOnly(Abs(sys), b, side, sys.recs[agg].id, fill)
  {
    hide SysOk, Abs, Rank, BookRep, FillSide, CanLeave;
    AggressorStep(sys, b, agg, slot, side, idx, fill);
    var opp, recsA := Opposite(side), FillRecs(sys.recs, agg, fill);
    var sysA := sys.(recs := recsA);
    FillStays(sys.views[b], recsA, slot, 0, fill);
    FillRep(sys.views[b], recsA, slot, 0, fill);
    var v', recs' := WithSide(sys.views[b], opp, FillSide(SideOf(sys.views[b], opp), idx, fill)), FillRecs(recsA, slot,
        fill);
    FillStep(sysA, b, slot, 0, fill, v', recs');
    var sysB := Moved(sysA, b, v', recs');
    var e := Trade(sys.nextTrade, sys.views[b].instrumentId, sys.recs[slot].price, fill, sys.recs[slot].id,
                   sys.recs[agg].id, side);
    EventStep(sysB, sys.asked, sys.log + [e], sys.nextTrade + 1);
    EventStep(sys, sys.asked, sys.log, sys.nextTrade);
    BookNames(sys, b);
  }

  lemma FillRep(v: BookView, recs: Records, slot: uint32, k: nat, fill: uint32)
    requires CanLeave(v, recs, slot, k) && FillRecs.requires(recs, slot, fill)
    ensures recs[slot].levelIndex < |SideOf(v, recs[slot].side).levels|
    ensures BookRep(WithSide(v, recs[slot].side, FillSide(SideOf(v, recs[slot].side), recs[slot].levelIndex, fill)),
                    FillRecs(recs, slot, fill))
  {
    FillKeepsRep(v, recs, slot, k, fill);
  }

  /** The market knows each book by its instrument. */
  lemma BookNames(sys: Sys, b: nat)
    requires SysOk(sys) && b < |sys.views|
    ensures Abs(sys).books[b].instrumentId == sys.views[b].instrumentId
    ensures Abs(sys).books[b].lo == sys.views[b].lo && Abs(sys).books[b].hi == sys.views[b].hi
  {
    hide BookRep, LadderOk;
  }

  lemma FillFrames(sys: Sys, b: nat, agg: uint32, slot: uint32, side: Side, idx: uint32, fill: uint32)
    requires CanFill(sys, b, agg, slot, side, idx, fill)
    ensures var sys' := FilledSys(sys, b, agg, slot, side, idx, fill);
      && FillFrame(sys, sys', b, agg, side, idx, fill) && slot < |sys.recs|
      && SideOf(sys'.views[b], Opposite(side)).best == SideOf(sys.views[b], Opposite(side)).best
      && sys'.recs[slot].isOpen && sys'.recs[slot].instrumentId == sys'.views[b].instrumentId
      && sys'.recs[slot].openQty == sys.recs[slot].openQty - fill
  {
    hide SysOk, BookRep;
  }

  /** After the fill, and if need be the removal, one trade is complete. */
  lemma TradeFilled(sys: Sys, b: nat, agg: uint32, slot: uint32, side: Side, idx: uint32, fill: uint32)
    requires CanTrade(sys, b, agg, side, idx) && CanFill(sys, b, agg, slot, side, idx, fill)
    requires slot < |sys.recs| && fill == Min(sys.recs[agg].openQty, sys.recs[slot].openQty)
    ensures var sys' := FilledSys(sys, b, agg, slot, side, idx, fill);
      && SysOk(sys') && CanLeave(sys'.views[b], sys'.recs, slot, 0)
      && b < |sys'.views| && IsResting(sys', b, slot)
      && sys'.recs[slot].openQty == sys.recs[slot].openQty - fill
      && (sys'.recs[slot].openQty > 0 ==> OneTrade(sys, sys', b, agg, side, idx))
  {
    hide SysOk, Abs, FillOnly, TradeOne, FilledSys, CanLeave, BookRep, FillRecs;
    FilledAbs(sys, b, agg, slot, side, idx, fill);
    FillFrames(sys, b, agg, slot, side, idx, fill);
    TradeComposes(Abs(sys), b, side, sys.recs[agg].id, fill);
  }

  lemma RemoveFrames(sys: Sys, mid: Sys, sys': Sys, b: nat, agg: uint32, slot: uint32, side: Side, idx: uint32,
                     fill: uint32, k: nat)
    requires FillFrame(sys, mid, b, agg, side, idx, fill) && TookOff(mid, sys', b, slot, k) && slot != agg
    requires SideOf(mid.views[b], mid.recs[slot].side).best == idx == mid.recs[slot].levelIndex
    requires mid.recs[slot].side == Opposite(side)
    ensures FillFrame(sys, sys', b, agg, side, idx, fill)
    ensures SideOf(sys'.views[b], Opposite(side)).levels[idx].head != INVALID_SLOT ==>
      SideOf(sys'.views[b], Opposite(side)).best == idx
  {
    hide BookRep, UnlinkLinks, FillRecs;
    UnlinkOnlyBook(mid.views[b], mid.recs, slot, k);
    BestStays(mid.views[b], mid.recs, slot, k, sys'.views[b], sys'.recs);
  }

  /** After the removal of a completely filled order one trade is complete. */
  lemma TradeRemoved(sys: Sys, sys': Sys, b: nat, agg: uint32, slot: uint32, side: Side, idx: uint32, fill: uint32,
                     k: nat)
    requires CanTrade(sys, b, agg, side, idx) && CanFill(sys, b, agg, slot, side, idx, fill)
    requires slot < |sys.recs| && fill == Min(sys.recs[agg].openQty, sys.recs[slot].openQty) == sys.recs[slot].openQty
    requires TookOff(FilledSys(sys, b, agg, slot, side, idx, fill), sys', b, slot, k)
    ensures OneTrade(sys, sys', b, agg, side, idx)
  {
    hide SysOk, Abs, FillOnly, TradeOne, Rank, UnlinkLinks, Leaves, BookRep, FilledSys, FillRecs, FillFrame;
    var mid := FilledSys(sys, b, agg, slot, side, idx, fill);
    FilledAbs(sys, b, agg, slot, side, idx, fill);
    FillFrames(sys, b, agg, slot, side, idx, fill);
    FillSame(sys, b, agg, slot, side, idx, fill);
    TradeComposes(Abs(sys), b, side, sys.recs[agg].id, fill);
    SamePosition(mid.views[b], mid.recs, slot, k, 0);
    var head := HeadFacts(mid, b, Opposite(side));
    SameHead(mid.views[b], mid.recs, slot, head);
    UnlinkStep(mid, b, slot, k, sys'.views[b], sys'.recs);
    RemoveFrames(sys, mid, sys', b, agg, slot, side, idx, fill, k);
  }

  lemma FillSame(sys: Sys, b: nat, agg: uint32, slot: uint32, side: Side, idx: uint32, fill: uint32)
    requires CanFill(sys, b, agg, slot, side, idx, fill)
    ensures var sys' := FilledSys(sys, b, agg, slot, side, idx, fill);
      slot < |sys'.recs| && sys'.recs[slot].side == Opposite(side) && sys'.recs[slot].levelIndex == idx
  {
    hide SysOk, BookRep;
  }

  const EMPTY_SYS := Sys(false, map[], map[], [], [], map[], 1, [])

  /** Before configuration the system stands for a market without books. */
  lemma EmptySys(sys: Sys)
    requires sys == EMPTY_SYS
    ensures SysOk(sys) && Abs(sys) == State(false, map[], [], map[], map[], 1, []) && Inv(Abs(sys))
  {
    assert AbsBooks(sys) == [];
    assert Owner(sys) == map[];
  }
}
