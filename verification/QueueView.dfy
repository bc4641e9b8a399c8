/** The market queue a book side stands for: its levels from best to worst, each oldest first. */
module QueueView {
  import opened Api
  import opened OrderPool
  import opened Fifo
  import opened BookModel
  import opened Market
  import opened MatchTheory

  /** An open record of this instrument and side. */
  predicate IsOn(rec: OrderRecord, inst: uint32, side: Side) {
    rec.isOpen && rec.instrumentId == inst && rec.side == side
  }

  function AbsOrder(rec: OrderRecord): Order {
    Order(rec.id, rec.price, rec.openQty, rec.filledQty)
  }

  /** The orders at these slots. */
  ghost function MapOrders(recs: Records, slots: seq<nat>): (r: seq<Order>)
    requires InPool(recs, slots)
    ensures |r| == |slots|
  {
    seq(|slots|, i requires 0 <= i < |slots| => AbsOrder(recs[slots[i]]))
  }

  /** All slots of a side in priority order: asks from the lowest index up, bids from the highest down. */
  ghost function FlatSlots(side: Side, queues: seq<seq<nat>>): seq<nat> {
    if |queues| == 0 then []
    else if side == Sell then queues[0] + FlatSlots(side, queues[1..])
    else queues[|queues| - 1] + FlatSlots(side, queues[..|queues| - 1])
  }

  /** Levels before and after level i in priority order. */
  ghost function Before(side: Side, queues: seq<seq<nat>>, i: nat): seq<seq<nat>>
    requires i < |queues|
  {
    if side == Sell then queues[..i] else queues[i + 1..]
  }

  ghost function After(side: Side, queues: seq<seq<nat>>, i: nat): seq<seq<nat>>
    requires i < |queues|
  {
    if side == Sell then queues[i + 1..] else queues[..i]
  }

  lemma {:induction false} FlatSplit(side: Side, queues: seq<seq<nat>>, i: nat)
    requires i < |queues|
    ensures FlatSlots(side, queues) ==
      FlatSlots(side, Before(side, queues, i)) + queues[i] + FlatSlots(side, After(side, queues, i))
    decreases |queues|
  {
    var n := |queues| - 1;
    if side == Sell && i > 0 {
      var rest := queues[1..];
      FlatSplit(side, rest, i - 1);
      SellParts(queues, i);
      Regroup(queues[0], FlatSlots(side, rest[..i - 1]), queues[i], FlatSlots(side, queues[i + 1..]));
    } else if side == Buy && i < n {
      var rest := queues[..n];
      FlatSplit(side, rest, i);
      BuyParts(queues, i);
      Regroup(queues[n], FlatSlots(side, rest[i + 1..]), queues[i], FlatSlots(side, queues[..i]));
    }
  }

  lemma Regroup<T>(a: seq<T>, b: seq<T>, c: seq<T>, d: seq<T>)
    ensures a + (b + c + d) == (a + b) + c + d
  {
  }

  lemma SellParts(queues: seq<seq<nat>>, i: nat)
    requires 0 < i < |queues|
    ensures queues[1..][i - 1] == queues[i] && queues[1..][i..] == queues[i + 1..]
    ensures FlatSlots(Sell, queues[..i]) == queues[0] + FlatSlots(Sell, queues[1..][..i - 1])
  {
    assert queues[..i][1..] == queues[1..][..i - 1];
  }

  lemma BuyParts(queues: seq<seq<nat>>, i: nat)
    requires i < |queues| - 1
    ensures queues[..|queues| - 1][..i] == queues[..i]
    ensures FlatSlots(Buy, queues[i + 1..]) == queues[|queues| - 1] + FlatSlots(Buy, queues[..|queues| - 1][i + 1..])
  {
    assert queues[i + 1..][..|queues| - i - 2] == queues[..|queues| - 1][i + 1..];
  }

  /** The level and position a flat slot comes from. */
  lemma {:induction false} FlatFrom(side: Side, queues: seq<seq<nat>>, p: nat) returns (i: nat, k: nat)
    requires p < |FlatSlots(side, queues)|
    ensures i < |queues| && k < |queues[i]| && queues[i][k] == FlatSlots(side, queues)[p]
    ensures |FlatSlots(side, Before(side, queues, i))| + k == p
    decreases |queues|
  {
    var n := |queues| - 1;
    if side == Sell {
      if p < |queues[0]| {
        i, k := 0, p;
        assert queues[..0] == [];
      } else {
        i, k := FlatFrom(side, queues[1..], p - |queues[0]|);
        assert queues[1..][..i] == queues[..i + 1][1..];
        i := i + 1;
      }
    } else {
      if p < |queues[n]| {
        i, k := n, p;
        assert queues[n + 1..] == [];
      } else {
        i, k := FlatFrom(side, queues[..n], p - |queues[n]|);
        assert queues[..n][i + 1..] == queues[i + 1..][..n - i - 1];
      }
    }
  }

  lemma {:induction false} FlatEmpty(side: Side, queues: seq<seq<nat>>)
    requires forall i :: 0 <= i < |queues| ==> queues[i] == []
    ensures FlatSlots(side, queues) == []
  {
    if |queues| > 0 {
      if side == Sell { FlatEmpty(side, queues[1..]); } else { FlatEmpty(side, queues[..|queues| - 1]); }
    }
  }

  // The queue of a standing book

  /** The market queue of one side. */
  ghost function Orders(v: BookView, recs: Records, side: Side): seq<Order>
    requires BookRep(v, recs)
  {
    SlotsInPool(v, recs, side);
    MapOrders(recs, FlatSlots(side, SideOf(v, side).queues))
  }

  lemma SlotsInPool(v: BookView, recs: Records, side: Side)
    requires BookRep(v, recs)
    ensures InPool(recs, FlatSlots(side, SideOf(v, side).queues))
  {
    var queues := SideOf(v, side).queues;
    assert SideRep(SideOf(v, side), recs, v.instrumentId, side, v.prices);
    forall p | 0 <= p < |FlatSlots(side, queues)| ensures FlatSlots(side, queues)[p] < |recs| {
      var i, k := FlatFrom(side, queues, p);
      assert LevelOk(SideOf(v, side), recs, v.instrumentId, side, v.prices, i);
    }
  }

  /** A record of the book on a level other than i. */
  ghost predicate Elsewhere(v: BookView, recs: Records, side: Side, i: nat, s: nat) {
    && s < |recs| && recs[s].isOpen && recs[s].instrumentId == v.instrumentId
    && recs[s].side == side && recs[s].levelIndex != i
  }

  /** Levels before i hold strictly better prices. */
  lemma BeforeMember(v: BookView, recs: Records, side: Side, i: nat, p: nat)
    requires BookRep(v, recs) && i < |v.prices| == |SideOf(v, side).queues|
    requires p < |FlatSlots(side, Before(side, SideOf(v, side).queues, i))|
    ensures var s := FlatSlots(side, Before(side, SideOf(v, side).queues, i))[p];
      Elsewhere(v, recs, side, i, s) && !AtLeastAsGood(side, v.prices[i], recs[s].price)
  {
    var sv := SideOf(v, side);
    assert SideRep(sv, recs, v.instrumentId, side, v.prices);
    var j, k := FlatFrom(side, Before(side, sv.queues, i), p);
    var j' := if side == Sell then j else i + 1 + j;
    assert sv.queues[j'] == Before(side, sv.queues, i)[j];
    assert LevelOk(sv, recs, v.instrumentId, side, v.prices, j');
    assert RestsAt(recs[sv.queues[j'][k]], v.instrumentId, side, j', v.prices[j']);
  }

  /** Levels after i hold strictly worse prices. */
  lemma AfterMember(v: BookView, recs: Records, side: Side, i: nat, p: nat)
    requires BookRep(v, recs) && i < |v.prices| == |SideOf(v, side).queues|
    requires p < |FlatSlots(side, After(side, SideOf(v, side).queues, i))|
    ensures var s := FlatSlots(side, After(side, SideOf(v, side).queues, i))[p];
      Elsewhere(v, recs, side, i, s) && !AtLeastAsGood(side, recs[s].price, v.prices[i])
  {
    var sv := SideOf(v, side);
    assert SideRep(sv, recs, v.instrumentId, side, v.prices);
    var j, k := FlatFrom(side, After(side, sv.queues, i), p);
    var j' := if side == Sell then i + 1 + j else j;
    assert sv.queues[j'] == After(side, sv.queues, i)[j];
    assert LevelOk(sv, recs, v.instrumentId, side, v.prices, j');
    assert RestsAt(recs[sv.queues[j'][k]], v.instrumentId, side, j', v.prices[j']);
  }

  /** The queue split around one level: strictly better prices, that level, strictly worse prices. */
  datatype Parts = Parts(better: seq<Order>, level: seq<Order>, worse: seq<Order>)

  ghost function Split(v: BookView, recs: Records, side: Side, i: nat): (r: Parts)
    requires BookRep(v, recs) && i < |v.prices|
    ensures Orders(v, recs, side) == r.better + r.level + r.worse
    ensures |SideOf(v, side).queues| == |v.prices| && InPool(recs, SideOf(v, side).queues[i])
    ensures r.level == MapOrders(recs, SideOf(v, side).queues[i])
    ensures forall o <- r.better :: !AtLeastAsGood(side, v.prices[i], o.price)
    ensures forall o <- r.level :: o.price == v.prices[i]
    ensures forall o <- r.worse :: !AtLeastAsGood(side, o.price, v.prices[i])
  {
    SplitFacts(v, recs, side, i);
    BetterFacts(v, recs, side, i);
    WorseFacts(v, recs, side, i);
    var queues := SideOf(v, side).queues;
    var a, b, c := FlatSlots(side, Before(side, queues, i)), queues[i], FlatSlots(side, After(side, queues, i));
    FlatSplit(side, queues, i);
    SlotsInPool(v, recs, side);
    MapConcat(recs, a, b, c);
    Parts(MapOrders(recs, a), MapOrders(recs, b), MapOrders(recs, c))
  }

  lemma BetterFacts(v: BookView, recs: Records, side: Side, i: nat)
    requires BookRep(v, recs) && i < |v.prices| == |SideOf(v, side).queues|
    ensures var slots := FlatSlots(side, Before(side, SideOf(v, side).queues, i));
      InPool(recs, slots) && forall o <- MapOrders(recs, slots) :: !AtLeastAsGood(side, v.prices[i], o.price)
  {
    var slots := FlatSlots(side, Before(side, SideOf(v, side).queues, i));
    forall p | 0 <= p < |slots| ensures slots[p] < |recs| && !AtLeastAsGood(side, v.prices[i], recs[slots[p]].price) {
      BeforeMember(v, recs, side, i, p);
    }
  }

  lemma WorseFacts(v: BookView, recs: Records, side: Side, i: nat)
    requires BookRep(v, recs) && i < |v.prices| == |SideOf(v, side).queues|
    ensures var slots := FlatSlots(side, After(side, SideOf(v, side).queues, i));
      InPool(recs, slots) && forall o <- MapOrders(recs, slots) :: !AtLeastAsGood(side, o.price, v.prices[i])
  {
    var slots := FlatSlots(side, After(side, SideOf(v, side).queues, i));
    forall p | 0 <= p < |slots| ensures slots[p] < |recs| && !AtLeastAsGood(side, recs[slots[p]].price, v.prices[i]) {
      AfterMember(v, recs, side, i, p);
    }
  }

  lemma SplitFacts(v: BookView, recs: Records, side: Side, i: nat)
    requires BookRep(v, recs) && i < |v.prices|
    ensures |SideOf(v, side).queues| == |v.prices| && InPool(recs, SideOf(v, side).queues[i])
    ensures forall o <- MapOrders(recs, SideOf(v, side).queues[i]) :: o.price == v.prices[i]
  {
    LevelFacts(v, recs, side, i);
    var q := SideOf(v, side).queues[i];
    forall p | 0 <= p < |q| ensures recs[q[p]].price == v.prices[i] {
      assert RestsAt(recs[q[p]], v.instrumentId, side, i, v.prices[i]);
    }
  }

  lemma MapConcat(recs: Records, a: seq<nat>, b: seq<nat>, c: seq<nat>)
    requires InPool(recs, a) && InPool(recs, b) && InPool(recs, c) && InPool(recs, a + b + c)
    ensures MapOrders(recs, a + b + c) == MapOrders(recs, a) + MapOrders(recs, b) + MapOrders(recs, c)
  {
  }

  /** Same orders at the same slots. */
  lemma MapFrame(recs: Records, recs': Records, slots: seq<nat>)
    requires InPool(recs, slots) && InPool(recs', slots)
    requires forall i :: 0 <= i < |slots| ==> AbsOrder(recs'[slots[i]]) == AbsOrder(recs[slots[i]])
    ensures MapOrders(recs', slots) == MapOrders(recs, slots)
  {
  }

  /** Every flat slot is an open record of its side. */
  lemma FlatMember(v: BookView, recs: Records, side: Side, p: nat)
    requires BookRep(v, recs) && p < |FlatSlots(side, SideOf(v, side).queues)|
    ensures var s := FlatSlots(side, SideOf(v, side).queues)[p];
      s < |recs| && recs[s].isOpen && recs[s].instrumentId == v.instrumentId && recs[s].side == side
  {
    var sv := SideOf(v, side);
    assert SideRep(sv, recs, v.instrumentId, side, v.prices);
    var i, k := FlatFrom(side, sv.queues, p);
    assert LevelOk(sv, recs, v.instrumentId, side, v.prices, i);
    assert RestsAt(recs[sv.queues[i][k]], v.instrumentId, side, i, v.prices[i]);
  }

  /** A side whose queues and orders are untouched stands for the same market queue. */
  lemma OrdersFrame(v: BookView, recs: Records, v': BookView, recs': Records, side: Side)
    requires BookRep(v, recs) && BookRep(v', recs')
    requires SideOf(v', side).queues == SideOf(v, side).queues && |recs'| >= |recs|
    requires forall s :: 0 <= s < |recs| && IsOn(recs[s], v.instrumentId, side) ==>
      AbsOrder(recs'[s]) == AbsOrder(recs[s])
    ensures Orders(v', recs', side) == Orders(v, recs, side)
  {
    var slots := FlatSlots(side, SideOf(v, side).queues);
    SlotsInPool(v, recs, side);
    SlotsInPool(v', recs', side);
    forall p | 0 <= p < |slots| ensures AbsOrder(recs'[slots[p]]) == AbsOrder(recs[slots[p]]) {
      FlatMember(v, recs, side, p);
    }
    MapFrame(recs, recs', slots);
  }

  /** A change confined to level i leaves the better and the worse orders alone. */
  lemma SplitFrame(v: BookView, recs: Records, v': BookView, recs': Records, side: Side, i: nat)
    requires BookRep(v, recs) && BookRep(v', recs') && i < |v.prices| && v'.prices == v.prices && |recs'| >= |recs|
    requires |SideOf(v', side).queues| == |SideOf(v, side).queues|
    requires forall j :: 0 <= j < |SideOf(v, side).queues| && j != i ==>
      SideOf(v', side).queues[j] == SideOf(v, side).queues[j]
    requires forall s :: 0 <= s < |recs| && Elsewhere(v, recs, side, i, s) ==> AbsOrder(recs'[s]) == AbsOrder(recs[s])
    ensures Split(v', recs', side, i).better == Split(v, recs, side, i).better
    ensures Split(v', recs', side, i).worse == Split(v, recs, side, i).worse
  {
    SplitFacts(v, recs, side, i);
    var queues, queues' := SideOf(v, side).queues, SideOf(v', side).queues;
    assert Before(side, queues', i) == Before(side, queues, i) && After(side, queues', i) == After(side, queues, i);
    BetterFacts(v, recs, side, i); BetterFacts(v', recs', side, i);
    WorseFacts(v, recs, side, i); WorseFacts(v', recs', side, i);
    var a, c := FlatSlots(side, Before(side, queues, i)), FlatSlots(side, After(side, queues, i));
    forall p | 0 <= p < |a| ensures AbsOrder(recs'[a[p]]) == AbsOrder(recs[a[p]]) { BeforeMember(v, recs, side, i, p); }
    forall p | 0 <= p < |c| ensures AbsOrder(recs'[c[p]]) == AbsOrder(recs[c[p]]) { AfterMember(v, recs, side, i, p); }
    MapFrame(recs, recs', a);
    MapFrame(recs, recs', c);
  }

  /** Inserting between the orders at least as good and the strictly worse ones. */
  lemma {:induction false} InsertBetween(side: Side, a: seq<Order>, b: seq<Order>, o: Order)
    requires forall x <- a :: AtLeastAsGood(side, x.price, o.price)
    requires forall x <- b :: !AtLeastAsGood(side, x.price, o.price)
    ensures Insert(side, a + b, o) == a + [o] + b
  {
    if |a| > 0 {
      assert (a + b)[0] == a[0] && a[0] in a && (a + b)[1..] == a[1..] + b;
      InsertBetween(side, a[1..], b, o);
      assert a == [a[0]] + a[1..];
      assert [a[0]] + (a[1..] + [o] + b) == a + [o] + b;
    } else {
      assert a + b == b && a + [o] + b == [o] + b;
      assert |b| > 0 ==> b[0] in b;
    }
  }

  // What each book operation does to the market queue

  /** Relinking changes no order. */
  lemma LinksKeepOrders(recs: Records, slot: uint32)
    requires UnlinkLinks.requires(recs, slot)
    ensures |UnlinkLinks(recs, slot)| == |recs|
    ensures forall s :: 0 <= s < |recs| ==> AbsOrder(UnlinkLinks(recs, slot)[s]) == AbsOrder(recs[s])
  {
  }

  lemma SpliceKeepsOrders(recs: Records, slot: uint32, heir: uint32)
    requires SpliceRecs.requires(recs, slot, heir)
    ensures |SpliceRecs(recs, slot, heir)| == |recs|
    ensures forall s :: 0 <= s < |recs| && s != heir ==> AbsOrder(SpliceRecs(recs, slot, heir)[s]) == AbsOrder(recs[s])
    ensures AbsOrder(SpliceRecs(recs, slot, heir)[heir]) ==
      Order(recs[heir].id, recs[slot].price, recs[heir].openQty, recs[heir].filledQty)
  {
  }

  lemma RestKeepsOrders(recs: Records, tail: uint32, slot: uint32, side: Side, price: int, idx: uint32)
    requires RestRecs.requires(recs, tail, slot, side, price, idx)
    ensures |RestRecs(recs, tail, slot, side, price, idx)| == |recs|
    ensures forall s :: 0 <= s < |recs| && s != slot ==>
      AbsOrder(RestRecs(recs, tail, slot, side, price, idx)[s]) == AbsOrder(recs[s])
    ensures AbsOrder(RestRecs(recs, tail, slot, side, price, idx)[slot]) ==
      Order(recs[slot].id, price, recs[slot].openQty, recs[slot].filledQty)
  {
  }

  /** Appending at the tail of a level inserts behind every order of the same or a better price. */
  lemma RestOrders(v: BookView, recs: Records, slot: uint32, side: Side, idx: uint32, v': BookView, recs': Records)
    requires CanRest(v, recs, slot, idx)
    requires RestSide.requires(SideOf(v, side), recs, slot, side, idx)
    requires RestRecs.requires(recs, SideOf(v, side).levels[idx].tail, slot, side, v.prices[idx], idx)
    requires v' == WithSide(v, side, RestSide(SideOf(v, side), recs, slot, side, idx))
    requires recs' == RestRecs(recs, SideOf(v, side).levels[idx].tail, slot, side, v.prices[idx], idx)
    requires BookRep(v', recs')
    ensures Orders(v', recs', side) ==
      Insert(side, Orders(v, recs, side), Order(recs[slot].id, v.prices[idx], recs[slot].openQty, recs[slot].filledQty))
    ensures Orders(v', recs', Opposite(side)) == Orders(v, recs, Opposite(side))
  {
    hide SideRep, Complete, LevelRep, MapOrders, FlatSlots, Split, Orders, AbsOrder, RestRecs;
    SplitFacts(v, recs, side, idx);
    RoomFor(v, recs, slot, side, idx);
    var q := SideOf(v, side).queues[idx];
    RestKeepsOrders(recs, SideOf(v, side).levels[idx].tail, slot, side, v.prices[idx], idx);
    SplitFrame(v, recs, v', recs', side, idx);
    var parts := Split(v, recs, side, idx);
    MapFrame(recs, recs', q);
    MapAppend(recs', q, slot);
    InsertBetween(side, parts.better + parts.level, parts.worse, AbsOrder(recs'[slot]));
    Regroup([], parts.better, parts.level + [AbsOrder(recs'[slot])], parts.worse);
    assert parts.better + parts.level + [AbsOrder(recs'[slot])] ==
      parts.better + (parts.level + [AbsOrder(recs'[slot])]);
    OrdersFrame(v, recs, v', recs', Opposite(side));
  }

  lemma MapAppend(recs: Records, q: seq<nat>, s: nat)
    requires InPool(recs, q) && s < |recs|
    ensures InPool(recs, q + [s]) && MapOrders(recs, q + [s]) == MapOrders(recs, q) + [AbsOrder(recs[s])]
  {
  }

  /** Position of a level's k-th order in the market queue. */
  ghost function Rank(v: BookView, recs: Records, slot: uint32, k: nat): (p: nat)
    requires CanLeave(v, recs, slot, k)
    ensures p < |Orders(v, recs, recs[slot].side)| && Orders(v, recs, recs[slot].side)[p] == AbsOrder(recs[slot])
  {
    |Split(v, recs, recs[slot].side, recs[slot].levelIndex).better| + k
  }

  lemma MapWithout(recs: Records, q: seq<nat>, k: nat)
    requires InPool(recs, q) && k < |q|
    ensures InPool(recs, Without(q, k)) && MapOrders(recs, Without(q, k)) == RemoveAt(MapOrders(recs, q), k)
  {
    var a, b := MapOrders(recs, Without(q, k)), RemoveAt(MapOrders(recs, q), k);
    forall i | 0 <= i < |a| ensures a[i] == b[i] {
      if i >= k { assert Without(q, k)[i] == q[i + 1]; }
    }
  }

  lemma RemoveInMiddle(a: seq<Order>, b: seq<Order>, c: seq<Order>, k: nat)
    requires k < |b|
    ensures RemoveAt(a + b + c, |a| + k) == a + RemoveAt(b, k) + c
  {
  }

  lemma UpdateInMiddle(a: seq<Order>, b: seq<Order>, c: seq<Order>, k: nat, o: Order)
    requires k < |b|
    ensures (a + b + c)[|a| + k := o] == a + b[k := o] + c
  {
  }

  /** Unlinking takes exactly that order out of the market queue. */
  lemma UnlinkOrders(v: BookView, recs: Records, slot: uint32, k: nat, v': BookView, recs': Records)
    requires CanLeave(v, recs, slot, k) && UnlinkLinks.requires(recs, slot)
    requires SideOf(v, recs[slot].side).levels[recs[slot].levelIndex].orderCount > 0
    requires v' == WithSide(v, recs[slot].side, SideOf(v', recs[slot].side))
    requires Unlinked(SideOf(v, recs[slot].side), SideOf(v', recs[slot].side), recs, slot, recs[slot].levelIndex, k)
    requires recs' == UnlinkLinks(recs, slot) && BookRep(v', recs')
    ensures Orders(v', recs', recs[slot].side) == RemoveAt(Orders(v, recs, recs[slot].side), Rank(v, recs, slot, k))
    ensures Orders(v', recs', Opposite(recs[slot].side)) == Orders(v, recs, Opposite(recs[slot].side))
  {
    hide SideRep, Complete, LevelRep, MapOrders, FlatSlots, Split, Orders, AbsOrder, UnlinkLinks;
    var side, idx := recs[slot].side, recs[slot].levelIndex;
    SplitFacts(v, recs, side, idx);
    var q := SideOf(v, side).queues[idx];
    LinksKeepOrders(recs, slot);
    SplitFrame(v, recs, v', recs', side, idx);
    var parts := Split(v, recs, side, idx);
    MapWithout(recs, q, k);
    MapFrame(recs, recs', Without(q, k));
    RemoveInMiddle(parts.better, parts.level, parts.worse, k);
    OrdersFrame(v, recs, v', recs', Opposite(side));
  }

  /** Splicing puts the heir exactly where the old order stood. */
  lemma SpliceOrders(v: BookView, recs: Records, slot: uint32, heir: uint32, k: nat, v': BookView, recs': Records)
    requires CanInherit(v, recs, slot, heir, k) && SpliceRecs.requires(recs, slot, heir)
    requires v' == WithSide(v, recs[slot].side, SpliceSide(SideOf(v, recs[slot].side), recs, slot, heir, k))
    requires recs' == SpliceRecs(recs, slot, heir) && BookRep(v', recs')
    ensures Orders(v', recs', recs[slot].side) == Orders(v, recs, recs[slot].side)[Rank(v, recs, slot, k) :=
      Order(recs[heir].id, recs[slot].price, recs[heir].openQty, recs[heir].filledQty)]
    ensures Orders(v', recs', Opposite(recs[slot].side)) == Orders(v, recs, Opposite(recs[slot].side))
  {
    hide SideRep, Complete, LevelRep, MapOrders, FlatSlots, Split, Orders, AbsOrder, SpliceRecs;
    var side, idx := recs[slot].side, recs[slot].levelIndex;
    SplitFacts(v, recs, side, idx);
    HeirOutside(v, recs, slot, heir, k);
    var q := SideOf(v, side).queues[idx];
    SpliceKeepsOrders(recs, slot, heir);
    SplitFrame(v, recs, v', recs', side, idx);
    var parts := Split(v, recs, side, idx);
    MapSubstitute(recs, recs', q, k, heir);
    UpdateInMiddle(parts.better, parts.level, parts.worse, k, AbsOrder(recs'[heir]));
    OrdersFrame(v, recs, v', recs', Opposite(side));
  }

  lemma MapSubstitute(recs: Records, recs': Records, q: seq<nat>, k: nat, s: nat)
    requires InPool(recs, q) && k < |q| && s < |recs'| && |recs'| >= |recs|
    requires forall i :: 0 <= i < |q| && i != k ==> AbsOrder(recs'[q[i]]) == AbsOrder(recs[q[i]])
    ensures InPool(recs', Substitute(q, k, s))
    ensures MapOrders(recs', Substitute(q, k, s)) == MapOrders(recs, q)[k := AbsOrder(recs'[s])]
  {
  }

  /** A fill changes that order's quantities and nothing else. */
  lemma FillOrders(v: BookView, recs: Records, slot: uint32, k: nat, fill: uint32, v': BookView, recs': Records)
    requires CanLeave(v, recs, slot, k) && FillRecs.requires(recs, slot, fill)
    requires v' == WithSide(v, recs[slot].side, FillSide(SideOf(v, recs[slot].side), recs[slot].levelIndex, fill))
    requires recs' == FillRecs(recs, slot, fill) && BookRep(v', recs')
    ensures Orders(v', recs', recs[slot].side) ==
      Orders(v, recs, recs[slot].side)[Rank(v, recs, slot, k) := AbsOrder(recs'[slot])]
    ensures Orders(v', recs', Opposite(recs[slot].side)) == Orders(v, recs, Opposite(recs[slot].side))
  {
    var side, idx := recs[slot].side, recs[slot].levelIndex;
    SplitFacts(v, recs, side, idx);
    LevelFacts(v, recs, side, idx);
    var q := SideOf(v, side).queues[idx];
    SplitFrame(v, recs, v', recs', side, idx);
    var parts := Split(v, recs, side, idx);
    assert Substitute(q, k, slot) == q;
    MapSubstitute(recs, recs', q, k, slot);
    UpdateInMiddle(parts.better, parts.level, parts.worse, k, AbsOrder(recs'[slot]));
    OrdersFrame(v, recs, v', recs', Opposite(side));
  }

  // The best level and the walk over levels

  lemma {:induction false} LevelSizeIs(a: seq<Order>, b: seq<Order>, price: int)
    requires forall o <- a :: o.price == price
    requires |b| > 0 ==> b[0].price != price
    ensures LevelSize(a + b, price) == |a|
  {
    if |a| > 0 {
      LevelSizeIs(a[1..], b, price);
      assert (a + b)[1..] == a[1..] + b;
    } else {
      assert a + b == b;
    }
  }

  lemma {:induction false} SumOfSlots(recs: Records, q: seq<nat>)
    requires InPool(recs, q)
    ensures SumOpen(recs, q) == Sum(MapOrders(recs, q))
  {
    if |q| > 0 {
      var init, last := q[..|q| - 1], q[|q| - 1];
      SumOfSlots(recs, init);
      MapAppend(recs, init, last);
      assert init + [last] == q;
      SumSplit(MapOrders(recs, init), [AbsOrder(recs[last])]);
      assert Sum([AbsOrder(recs[last])]) == recs[last].openQty + Sum([]);
    }
  }

  /** What follows in the market queue from level i on. */
  ghost function From(v: BookView, recs: Records, side: Side, i: nat): seq<Order>
    requires BookRep(v, recs) && i < |v.prices|
  {
    Split(v, recs, side, i).level + Split(v, recs, side, i).worse
  }

  /** An occupied level heads what follows from it; its cached total is that level's sum modulo 2^32. */
  lemma LevelHead(v: BookView, recs: Records, side: Side, i: nat)
    requires BookRep(v, recs) && i in SideOf(v, side).occupied
    ensures i < |v.prices| == |SideOf(v, side).levels| == |SideOf(v, side).queues| && |SideOf(v, side).queues[i]| > 0
    ensures var rest := From(v, recs, side, i);
      && |rest| > 0 && rest[0].price == v.prices[i]
      && LevelSize(rest, v.prices[i]) == |SideOf(v, side).queues[i]|
      && SideOf(v, side).levels[i].totalQty == Sum(rest[..LevelSize(rest, v.prices[i])]) % TWO_32
      && rest[LevelSize(rest, v.prices[i])..] == Split(v, recs, side, i).worse
    ensures var s := SideOf(v, side).queues[i][0];
      && SideOf(v, side).levels[i].head == s < |recs| && From(v, recs, side, i)[0] == AbsOrder(recs[s])
      && recs[s].isOpen && recs[s].instrumentId == v.instrumentId && recs[s].side == side && recs[s].levelIndex == i
  {
    var sv := SideOf(v, side);
    assert SideRep(sv, recs, v.instrumentId, side, v.prices);
    LevelFacts(v, recs, side, i);
    var q := sv.queues[i];
    var parts := Split(v, recs, side, i);
    LevelSizeIs(parts.level, parts.worse, v.prices[i]);
    SumOfSlots(recs, q);
    assert (parts.level + parts.worse)[..|parts.level|] == parts.level;
    assert RestsAt(recs[q[0]], v.instrumentId, side, i, v.prices[i]);
  }

  /** With only empty levels before it, a level starts the market queue. */
  lemma NothingBefore(v: BookView, recs: Records, side: Side, i: nat)
    requires BookRep(v, recs) && i < |v.prices|
    requires forall j <- SideOf(v, side).occupied :: BetterIndex(side, i, j)
    ensures Orders(v, recs, side) == From(v, recs, side, i)
  {
    SplitFacts(v, recs, side, i);
    var sv := SideOf(v, side);
    assert SideRep(sv, recs, v.instrumentId, side, v.prices);
    var before := Before(side, sv.queues, i);
    forall j | 0 <= j < |before| ensures before[j] == [] {
      var j' := if side == Sell then j else i + 1 + j;
      assert LevelOk(sv, recs, v.instrumentId, side, v.prices, j');
      assert j' !in sv.occupied;
    }
    FlatEmpty(side, before);
    BetterFacts(v, recs, side, i);
    var parts := Split(v, recs, side, i);
    assert parts.better == [];
    assert [] + parts.level + parts.worse == parts.level + parts.worse;
  }

  /** An unoccupied side has an empty market queue. */
  lemma NoOrders(v: BookView, recs: Records, side: Side)
    requires BookRep(v, recs) && SideOf(v, side).occupied == {}
    ensures Orders(v, recs, side) == []
  {
    var sv := SideOf(v, side);
    assert SideRep(sv, recs, v.instrumentId, side, v.prices);
    forall j | 0 <= j < |sv.queues| ensures sv.queues[j] == [] {
      assert LevelOk(sv, recs, v.instrumentId, side, v.prices, j);
    }
    FlatEmpty(side, sv.queues);
  }

  /** `next` is the nearest occupied index beyond i in priority order, -1 when there is none. */
  ghost predicate IsNext(side: Side, occupied: set<nat>, i: nat, next: int) {
    if next == -1 then forall j <- occupied :: BetterIndex(side, j, i)
    else
      && next in occupied && !BetterIndex(side, next, i)
      && forall j <- occupied :: BetterIndex(side, j, i) || BetterIndex(side, next, j)
  }

  /** What follows a level is what follows from the next occupied one. */
  lemma NextLevel(v: BookView, recs: Records, side: Side, i: nat, next: int)
    requires BookRep(v, recs) && i < |v.prices| && IsNext(side, SideOf(v, side).occupied, i, next)
    ensures next < |v.prices|
    ensures Split(v, recs, side, i).worse == if next == -1 then [] else From(v, recs, side, next)
  {
    var sv := SideOf(v, side);
    var queues := sv.queues;
    assert SideRep(sv, recs, v.instrumentId, side, v.prices);
    hide BookRep, FlatSlots, After, Before;
    SplitFacts(v, recs, side, i);
    WorseFacts(v, recs, side, i);
    if next == -1 {
      UnoccupiedAfter(sv, recs, v.instrumentId, side, v.prices, i);
    } else {
      SkipEmpty(sv, recs, v.instrumentId, side, v.prices, i, next);
      SplitFacts(v, recs, side, next);
      WorseFacts(v, recs, side, next);
      MapPair(recs, queues[next], FlatSlots(side, After(side, queues, next)));
    }
  }

  lemma MapPair(recs: Records, a: seq<nat>, b: seq<nat>)
    requires InPool(recs, a) && InPool(recs, b)
    ensures InPool(recs, a + b) && MapOrders(recs, a + b) == MapOrders(recs, a) + MapOrders(recs, b)
  {
  }

  lemma UnoccupiedAfter(sv: SideView, recs: Records, inst: uint32, side: Side, prices: seq<int>, i: nat)
    requires SideRep(sv, recs, inst, side, prices) && i < |prices| && IsNext(side, sv.occupied, i, -1)
    ensures FlatSlots(side, After(side, sv.queues, i)) == []
  {
    var after := After(side, sv.queues, i);
    forall j | 0 <= j < |after| ensures after[j] == [] {
      assert LevelOk(sv, recs, inst, side, prices, if side == Sell then i + 1 + j else j);
    }
    FlatEmpty(side, after);
  }

  lemma SkipEmpty(sv: SideView, recs: Records, inst: uint32, side: Side, prices: seq<int>, i: nat, next: nat)
    requires SideRep(sv, recs, inst, side, prices) && i < |prices| && IsNext(side, sv.occupied, i, next)
    ensures next < |prices|
    ensures FlatSlots(side, After(side, sv.queues, i)) ==
      sv.queues[next] + FlatSlots(side, After(side, sv.queues, next))
  {
    hide FlatSlots, Before, After;
    var queues, after := sv.queues, After(side, sv.queues, i);
    var d := if side == Sell then next - i - 1 else next;
    AfterParts(side, queues, i, next);
    FlatSplit(side, after, d);
    var between := Before(side, after, d);
    forall j | 0 <= j < |between| ensures between[j] == [] {
      assert LevelOk(sv, recs, inst, side, prices, if side == Sell then i + 1 + j else next + 1 + j);
    }
    FlatEmpty(side, between);
    assert [] + queues[next] + FlatSlots(side, After(side, queues, next)) ==
      queues[next] + FlatSlots(side, After(side, queues, next));
  }

  /** The levels after i, seen from a later level. */
  lemma AfterParts(side: Side, queues: seq<seq<nat>>, i: nat, next: nat)
    requires i < |queues| && next < |queues| && !BetterIndex(side, next, i)
    ensures var after, d := After(side, queues, i), if side == Sell then next - i - 1 else next;
      && 0 <= d < |after| && after[d] == queues[next] && After(side, after, d) == After(side, queues, next)
      && |Before(side, after, d)| == (if side == Sell then next - i - 1 else i - next - 1)
      && forall j :: 0 <= j < |Before(side, after, d)| ==>
           Before(side, after, d)[j] == queues[if side == Sell then i + 1 + j else next + 1 + j]
  {
  }

  /** The cached best index and total are those of the market queue's first price. */
  lemma BestLevel(v: BookView, recs: Records, side: Side)
    requires BookRep(v, recs)
    ensures var sv, q := SideOf(v, side), Orders(v, recs, side);
      && |sv.levels| == |v.prices| && -1 <= sv.best < |v.prices|
      && (sv.best < 0 <==> |q| == 0)
      && (sv.best >= 0 ==> q[0].price == v.prices[sv.best])
      && (sv.best >= 0 ==> sv.levels[sv.best].totalQty == Sum(q[..LevelSize(q, q[0].price)]) % TWO_32)
  {
    var sv := SideOf(v, side);
    assert SideRep(sv, recs, v.instrumentId, side, v.prices);
    if sv.best < 0 {
      NoOrders(v, recs, side);
    } else {
      NothingBefore(v, recs, side, sv.best);
      LevelHead(v, recs, side, sv.best);
    }
  }
}
