/** What every call answers and does, in the terms of the call and of the books it finds: the exact condition of
    each refusal, and for a call that takes effect every event it logs and every queue it leaves. */
module Answers {
  import opened Api
  import opened TickTable
  import opened Market
  import opened MatchTheory
  import opened MarketInvariant
  import opened MarketRun
  import opened MarketLaws
  import opened Ledger
  import opened Outcome

  /** The first event a call added to the log. */
  ghost predicate Answered(s: State, t: State, e: Event) {
    |t.log| > |s.log| && t.log[..|s.log|] == s.log && t.log[|s.log|] == e
  }

  lemma Refuses(s: State, u: State, id: uint64)
    requires u.log == s.log
    ensures forall reason, e ::
      Answered(s, Emit(u, Rejected(id, reason)), e) <==> e == Rejected(id, reason)
  {
  }

  lemma AnsweredFirst(s: State, t: State, e: Event)
    requires s.log + [e] <= t.log
    ensures Answered(s, t, e) && forall e' :: Answered(s, t, e') <==> e' == e
  {
    assert t.log[|s.log|] == (s.log + [e])[|s.log|];
  }

  // Submissions: which are accepted

  /** The instrument is known and the id has not been used. */
  predicate Fresh(s: State, o: NewOrder) {
    s.configured && o.instrumentId in s.index && o.orderId !in s.owner
  }

  predicate PriceInBand(book: Book, price: int) {
    book.lo <= price && price <= book.hi
  }

  ghost predicate Accepts(s: State, o: NewOrder)
    requires IndexOk(s)
  {
    && Fresh(s, o) && o.quantity > 0
    && !(o.orderType == OrderType.Market && o.tif == Day)
    && (o.orderType == Limit ==> OnTick(o.price) && PriceInBand(s.books[s.index[o.instrumentId]], o.price))
  }

  /** What a submission comes to once its validation is done. */
  lemma SubmitIs(s: State, o: NewOrder)
    requires IndexOk(s)
    ensures Accepts(s, o) ==>
      Submit(s, o) == Accept(Consumed(s, o), s.index[o.instrumentId], o) && Acceptable(s, s.index[o.instrumentId], o)
    ensures !s.configured ==> Submit(s, o) == Emit(s, Rejected(o.orderId, NotConfigured))
    ensures s.configured && o.instrumentId !in s.index ==>
      Submit(s, o) == Emit(s, Rejected(o.orderId, UnknownInstrument))
    ensures s.configured && o.instrumentId in s.index && o.orderId in s.owner ==>
      Submit(s, o) == Emit(s, Rejected(o.orderId, DuplicateOrderId))
    ensures Fresh(s, o) && o.quantity == 0 ==>
      Submit(s, o) == Emit(Consumed(s, o), Rejected(o.orderId, InvalidQuantity))
    ensures Fresh(s, o) && o.quantity > 0 && o.orderType == OrderType.Market && o.tif == Day ==>
      Submit(s, o) == Emit(Consumed(s, o), Rejected(o.orderId, InvalidTimeInForce))
    ensures Fresh(s, o) && o.quantity > 0 && o.orderType == Limit && !OnTick(o.price) ==>
      Submit(s, o) == Emit(Consumed(s, o), Rejected(o.orderId, InvalidPriceTick))
    ensures Fresh(s, o) && o.quantity > 0 && o.orderType == Limit && OnTick(o.price)
            && !PriceInBand(s.books[s.index[o.instrumentId]], o.price)
      ==> Submit(s, o) == Emit(Consumed(s, o), Rejected(o.orderId, PriceOutOfBand))
  {
    hide Accept, IsTickAligned, OnTick;
    TicksAsDocumented(o.price);
  }

  /** A submission is accepted exactly when every check passes, and refused for the first check that fails. */
  lemma SubmitAnswers(s: State, o: NewOrder)
    requires Inv(s)
    ensures var t, id := Submit(s, o), o.orderId;
      && (Answered(s, t, Accepted(id)) <==> Accepts(s, o))
      && (Answered(s, t, Rejected(id, NotConfigured)) <==> !s.configured)
      && (Answered(s, t, Rejected(id, UnknownInstrument)) <==> s.configured && o.instrumentId !in s.index)
      && (Answered(s, t, Rejected(id, DuplicateOrderId)) <==>
          s.configured && o.instrumentId in s.index && id in s.owner)
      && (Answered(s, t, Rejected(id, InvalidQuantity)) <==> Fresh(s, o) && o.quantity == 0)
      && (Answered(s, t, Rejected(id, InvalidTimeInForce)) <==>
          Fresh(s, o) && o.quantity > 0 && o.orderType == OrderType.Market && o.tif == Day)
      && (Answered(s, t, Rejected(id, InvalidPriceTick)) <==>
          Fresh(s, o) && o.quantity > 0 && o.orderType == Limit && !OnTick(o.price))
      && (Answered(s, t, Rejected(id, PriceOutOfBand)) <==>
          Fresh(s, o) && o.quantity > 0 && o.orderType == Limit && OnTick(o.price)
            && !PriceInBand(s.books[s.index[o.instrumentId]], o.price))
  {
    SubmitIs(s, o);
    hide BookOk, Submit, Accept, OnTick, PriceInBand, Answered, Emit;
    if Accepts(s, o) {
      AcceptFirst(Consumed(s, o), s.index[o.instrumentId], o);
      AnsweredFirst(s, Submit(s, o), Accepted(o.orderId));
    } else {
      Refuses(s, s, o.orderId);
      if Fresh(s, o) { Refuses(s, Consumed(s, o), o.orderId); }
    }
  }

  /** A submission to a known instrument uses its id up, accepted or not; no other call to submit does. */
  lemma SubmitConsumes(s: State, o: NewOrder)
    requires Inv(s)
    ensures Submit(s, o).owner ==
      if Fresh(s, o) then s.owner[o.orderId := (s.index[o.instrumentId] as nat, o.side)] else s.owner
  {
    hide BookOk, OnTick, PriceInBand, Match, FokWalk, Insert;
    SubmitIs(s, o);
  }

  // What taking effect does

  /** No book but b changes, and that one keeps its instrument and its band. */
  ghost predicate OnlyBook(s: State, t: State, b: nat) {
    && b < |s.books| == |t.books| && (forall c :: 0 <= c < |s.books| && c != b ==> t.books[c] == s.books[c])
    && t.books[b].instrumentId == s.books[b].instrumentId && t.books[b].lo == s.books[b].lo
    && t.books[b].hi == s.books[b].hi
    && t.index == s.index && t.configured == s.configured
  }

  ghost predicate QueuesInOrder(s: State, b: nat)
    requires b < |s.books|
  {
    forall side :: Sorted(side, Queue(s.books[b], side)) && Positive(Queue(s.books[b], side))
  }

  lemma InvInOrder(s: State, b: nat)
    requires Inv(s) && b < |s.books|
    ensures QueuesInOrder(s, b)
  {
    assert BookOk(s, b);
    OpenQuantities(s, b, Buy);
    OpenQuantities(s, b, Sell);
  }

  /** An execution, told by its trades. */
  lemma ExecuteTook(s: State, b: nat, side: Side, isMarket: bool, limit: int, id: uint64, qty: nat)
    returns (trades: seq<Event>)
    requires b < |s.books| && QueuesInOrder(s, b)
    ensures var (t, left), opp := Execute(s, b, side, isMarket, limit, id, qty), Queue(s.books[b], Opposite(side));
      && qty - left == Min(qty, Offered(opp, side, LimitOf(isMarket, limit)))
      && t.log == s.log + trades && t.nextTrade == s.nextTrade + |trades|
      && Took(opp, Queue(t.books[b], Opposite(side)), qty - left, trades, s.nextTrade, s.books[b].instrumentId, id,
              side)
      && Queue(t.books[b], side) == Queue(s.books[b], side)
      && OnlyBook(s, t, b) && t.owner == s.owner && t.asked == s.asked
  {
    hide Took, Match, Offered, Sorted, Positive;
    var opp := Queue(s.books[b], Opposite(side));
    MatchTook(opp, side, isMarket, limit, qty, s.nextTrade, s.books[b].instrumentId, id);
    trades := TradeEvents(Match(opp, side, isMarket, limit, qty).fills, s.nextTrade, s.books[b].instrumentId, id,
                          side);
  }

  /** An order that takes from the other side, told by its trades, and that joins its own side with what is left if
      anything is and it stays. */
  ghost predicate Enters(s: State, t: State, b: nat, side: Side, o: Order, e: nat, trades: seq<Event>, stays: bool) {
    && OnlyBook(s, t, b) && t.nextTrade == s.nextTrade + |trades| && e <= o.open
    && Took(Queue(s.books[b], Opposite(side)), Queue(t.books[b], Opposite(side)), e, trades, s.nextTrade,
            s.books[b].instrumentId, o.id, side)
    && (if stays && e < o.open then
          Joins(side, Queue(s.books[b], side), Queue(t.books[b], side), Order(o.id, o.price, o.open - e, o.filled + e))
        else Queue(t.books[b], side) == Queue(s.books[b], side))
  }

  lemma EnterDayTook(s: State, b: nat, side: Side, o: Order) returns (trades: seq<Event>)
    requires b < |s.books| && QueuesInOrder(s, b)
    ensures var t := EnterDay(s, b, side, o.id, o.price, o.open, o.filled);
      var e := Min(o.open, Offered(Queue(s.books[b], Opposite(side)), side, Some(o.price)));
      && Enters(s, t, b, side, o, e, trades, true) && t.log == s.log + trades
      && t.owner == s.owner && t.asked == s.asked
  {
    hide Took, Execute, Offered, Sorted, Positive, Insert, Joins;
    trades := ExecuteTook(s, b, side, false, o.price, o.id, o.open);
    var (u, left) := Execute(s, b, side, false, o.price, o.id, o.open);
    if left > 0 {
      InsertJoins(side, Queue(u.books[b], side), Order(o.id, o.price, left, o.filled + (o.open - left)));
    }
  }

  /** Up to used ids, requested totals and events. */
  ghost predicate SameMarket(s: State, u: State) {
    u.books == s.books && u.nextTrade == s.nextTrade && u.index == s.index && u.configured == s.configured
  }

  /** Entering is about the market alone. */
  lemma EntersAlike(s: State, u: State, v: State, t: State, b: nat, side: Side, o: Order, e: nat, trades: seq<Event>,
                    stays: bool)
    requires Enters(u, v, b, side, o, e, trades, stays) && SameMarket(s, u) && SameMarket(v, t)
    ensures Enters(s, t, b, side, o, e, trades, stays)
  {
    hide Took, Joins;
  }

  lemma EntersNothing(s: State, t: State, b: nat, side: Side, o: Order)
    requires b < |s.books| && SameMarket(s, t)
    ensures Enters(s, t, b, side, o, 0, [], false)
  {
    NothingSummed(Queue(s.books[b], Opposite(side)));
  }

  /** An order that does not stay only takes. */
  lemma TakesOnly(s: State, b: nat, side: Side, isMarket: bool, limit: int, o: Order) returns (trades: seq<Event>)
    requires b < |s.books| && QueuesInOrder(s, b)
    ensures var (t, left) := Execute(s, b, side, isMarket, limit, o.id, o.open);
      && left <= o.open && t.log == s.log + trades && t.owner == s.owner && t.asked == s.asked
      && o.open - left == Min(o.open, Offered(Queue(s.books[b], Opposite(side)), side, LimitOf(isMarket, limit)))
      && Enters(s, t, b, side, o, o.open - left, trades, false)
  {
    hide Took, Execute, Offered, Sorted, Positive, OnlyBook;
    trades := ExecuteTook(s, b, side, isMarket, limit, o.id, o.open);
  }

  // Submissions: what an accepted one does

  /** The prices a submission trades at: up to its limit, or any. */
  function Wants(o: NewOrder): Option<int> {
    if o.orderType == OrderType.Market then None else Some(o.price)
  }

  /** How much of a submission trades against this queue. */
  ghost function Executed(opp: seq<Order>, o: NewOrder): nat {
    if o.tif == Fok && !SomePriceSuffices(opp, o.side, Wants(o), o.quantity) then 0
    else Min(o.quantity, Offered(opp, o.side, Wants(o)))
  }

  /** The cancellation of what did not trade, unless the order stays. */
  function Closing(o: NewOrder, e: nat): seq<Event>
    requires e <= o.quantity
  {
    if o.tif == Day || e == o.quantity then []
    else
      var reason := if o.tif == Fok then FokUnfillable else if o.orderType == OrderType.Market then NoLiquidity
        else IocRemainder;
      [Canceled(o.orderId, o.quantity - e, reason)]
  }

  /** Acceptance by the order's time in force. */
  lemma AcceptIs(s: State, b: nat, o: NewOrder)
    requires b < |s.books| && QueuesInOrder(s, b) && 0 < o.quantity &&
      (o.orderType == OrderType.Market ==> o.tif != Day)
    ensures var isMarket := o.orderType == OrderType.Market;
      var limit, opp := if isMarket then 0 else o.price, Queue(s.books[b], Opposite(o.side));
      var u := Emit(s, Accepted(o.orderId)).(asked := s.asked[o.orderId := o.quantity]);
      var (w, left) := Execute(u, b, o.side, isMarket, limit, o.orderId, o.quantity);
      var dead := o.tif == Fok && !SomePriceSuffices(opp, o.side, Wants(o), o.quantity);
      && (dead ==> Accept(s, b, o) == Emit(u, Canceled(o.orderId, o.quantity, FokUnfillable)))
      && (o.tif == Day ==> Accept(s, b, o) == EnterDay(u, b, o.side, o.orderId, o.price, o.quantity, 0))
      && (o.tif != Day && !dead ==>
            Accept(s, b, o) == w.(log := w.log + Closing(o, o.quantity - left)) && (o.tif == Fok ==> left == 0))
  {
    hide FokWalk, EnterDay, SomePriceSuffices, Sorted, Positive, Match;
    var isMarket := o.orderType == OrderType.Market;
    var limit, opp := if isMarket then 0 else o.price, Queue(s.books[b], Opposite(o.side));
    FokPassesIff(opp, o.side, isMarket, limit, o.quantity);
    if o.tif == Fok && FokWalk(opp, o.side, isMarket, limit, o.quantity, 0) {
      FokFills(opp, o.side, isMarket, limit, o.quantity);
    }
  }

  lemma SameOrder(s: State, u: State, b: nat)
    requires b < |s.books| && u.books == s.books && QueuesInOrder(s, b)
    ensures QueuesInOrder(u, b)
  {
  }

  lemma AcceptDoes(s: State, b: nat, o: NewOrder) returns (trades: seq<Event>)
    requires b < |s.books| && QueuesInOrder(s, b) && 0 < o.quantity &&
      (o.orderType == OrderType.Market ==> o.tif != Day)
    ensures var t := Accept(s, b, o);
      var e := Executed(Queue(s.books[b], Opposite(o.side)), o);
      && e <= o.quantity
      && Enters(s, t, b, o.side, Order(o.orderId, o.price, o.quantity, 0), e, trades, o.tif == Day)
      && t.log == s.log + [Accepted(o.orderId)] + trades + Closing(o, e)
      && t.asked == s.asked[o.orderId := o.quantity]
  {
    hide Execute, Offered, EnterDay, SomePriceSuffices, Enters, QueuesInOrder;
    var isMarket := o.orderType == OrderType.Market;
    var limit, opp := if isMarket then 0 else o.price, Queue(s.books[b], Opposite(o.side));
    var entrant, t := Order(o.orderId, o.price, o.quantity, 0), Accept(s, b, o);
    AcceptIs(s, b, o);
    hide Accept;
    var u := Emit(s, Accepted(o.orderId)).(asked := s.asked[o.orderId := o.quantity]);
    assert QueuesInOrder(u, b) by { SameOrder(s, u, b); }
    if o.tif == Fok && !SomePriceSuffices(opp, o.side, Wants(o), o.quantity) {
      trades := [];
      EntersNothing(s, t, b, o.side, entrant);
    } else if o.tif == Day {
      trades := EnterDayTook(u, b, o.side, entrant);
      EntersAlike(s, u, t, t, b, o.side, entrant, Executed(opp, o), trades, true);
    } else {
      trades := TakesOnly(u, b, o.side, isMarket, limit, entrant);
      var v := Execute(u, b, o.side, isMarket, limit, o.orderId, o.quantity).0;
      EntersAlike(s, u, v, t, b, o.side, entrant, Executed(opp, o), trades, false);
    }
  }

  /** An accepted submission logs its acceptance, its trades and the cancellation of an undone remainder; what a
      Day order has left joins its own side, any other order leaves that side as it was. */
  lemma AcceptedDoes(s: State, o: NewOrder) returns (trades: seq<Event>)
    requires Inv(s) && Accepts(s, o)
    ensures var t, b: nat := Submit(s, o), s.index[o.instrumentId];
      var e := Executed(Queue(s.books[b], Opposite(o.side)), o);
      && e <= o.quantity
      && Enters(s, t, b, o.side, Order(o.orderId, o.price, o.quantity, 0), e, trades, o.tif == Day)
      && t.log == s.log + [Accepted(o.orderId)] + trades + Closing(o, e)
      && t.asked == s.asked[o.orderId := o.quantity]
  {
    hide Execute, Offered, EnterDay, SomePriceSuffices, OnTick, PriceInBand, Enters;
    var b: nat := s.index[o.instrumentId];
    SubmitIs(s, o);
    InvInOrder(s, b);
    hide Submit, Inv, BookOk;
    trades := AcceptDoes(Consumed(s, o), b, o);
    EntersAlike(s, Consumed(s, o), Submit(s, o), Submit(s, o), b, o.side, Order(o.orderId, o.price, o.quantity, 0),
                Executed(Queue(s.books[b], Opposite(o.side)), o), trades, o.tif == Day);
  }

  /** A registered id rests, if anywhere, in the queue it is registered for. */
  lemma RestsAtHome(t: State, b: nat, side: Side, id: uint64)
    requires Inv(t) && b < |t.books| && id in t.owner && t.owner[id] == (b, side)
    ensures Somewhere(t, id) <==> id in Ids(Queue(t.books[b], side))
  {
    hide BookOk, Registered;
    forall c: nat, sd: Side | c < |t.books| && (c, sd) != (b, side) ensures id !in Ids(Queue(t.books[c], sd)) {
      AbsentElsewhere(t, c, id);
    }
  }

  /** Of all accepted submissions only Day orders with something left rest. */
  lemma OnlyDayRests(s: State, o: NewOrder)
    requires Inv(s) && Accepts(s, o)
    ensures Somewhere(Submit(s, o), o.orderId) <==>
      o.tif == Day && Executed(Queue(s.books[s.index[o.instrumentId]], Opposite(o.side)), o) < o.quantity
  {
    hide Submit, Executed, BookOk, Took, Ids, OnTick, PriceInBand;
    var t, b: nat := Submit(s, o), s.index[o.instrumentId];
    var trades := AcceptedDoes(s, o);
    SubmitKeeps(s, o);
    SubmitConsumes(s, o);
    UnusedIsAbsent(s, o.orderId);
    AbsentIn(s, b, o.side, o.orderId);
    RestsAtHome(t, b, o.side, o.orderId);
    var e := Executed(Queue(s.books[b], Opposite(o.side)), o);
    if o.tif == Day && e < o.quantity {
      JoinsMeansIn(o.side, Queue(s.books[b], o.side), Queue(t.books[b], o.side),
                   Order(o.orderId, o.price, o.quantity - e, e));
    }
  }

  // Cancels

  /** Order `id` stands at position k of this queue. */
  predicate RestsAt(s: State, b: nat, side: Side, k: nat, id: uint64) {
    b < |s.books| && k < |Queue(s.books[b], side)| && Queue(s.books[b], side)[k].id == id
  }

  /** The market finds an order wherever it rests. */
  lemma HomeIs(s: State, b: nat, side: Side, k: nat, id: uint64)
    requires Inv(s) && RestsAt(s, b, side, k, id)
    ensures IsOpen(s, id) && s.owner[id] == (b, side) && Find(Queue(s.books[b], side), id) == k
    ensures OpenOrder(s, id) == Queue(s.books[b], side)[k] && Somewhere(s, id)
  {
    var q := Queue(s.books[b], side);
    assert BookOk(s, b);
    assert OrderOk(s, b, side, q[k]);
    FindIs(q, k);
    assert q[k] in q && id in Ids(q);
  }

  lemma OpenIsSomewhere(s: State, id: uint64)
    requires Inv(s)
    ensures IsOpen(s, id) <==> Somewhere(s, id)
  {
    if IsOpen(s, id) { LiveSomewhere(s, id); }
    if Somewhere(s, id) { SomewhereLives(s, id); }
  }

  lemma AbsentIsNowhere(s: State, id: uint64)
    requires Absent(s, id)
    ensures !Somewhere(s, id)
  {
  }

  /** A cancel is refused exactly before configuration and for an id that rests nowhere. */
  lemma CancelAnswers(s: State, id: uint64)
    requires Inv(s)
    ensures var t := Cancel(s, id);
      && (Answered(s, t, Rejected(id, NotConfigured)) <==> !s.configured)
      && (Answered(s, t, Rejected(id, UnknownOrder)) <==> s.configured && !Somewhere(s, id))
      && ((exists q :: Answered(s, t, Canceled(id, q, UserRequested))) <==> s.configured && Somewhere(s, id))
  {
    hide BookOk, Somewhere, Cancel, Answered;
    OpenIsSomewhere(s, id);
    CancelIs(s, id);
    Refuses(s, s, id);
    if s.configured && IsOpen(s, id) {
      AnsweredFirst(s, Cancel(s, id), Canceled(id, OpenOrder(s, id).open, UserRequested));
    }
  }

  lemma CancelIs(s: State, id: uint64)
    requires IndexOk(s)
    ensures !s.configured ==> Cancel(s, id) == Emit(s, Rejected(id, NotConfigured))
    ensures s.configured && !IsOpen(s, id) ==> Cancel(s, id) == Emit(s, Rejected(id, UnknownOrder))
    ensures s.configured && IsOpen(s, id) ==>
      Cancel(s, id).log == s.log + [Canceled(id, OpenOrder(s, id).open, UserRequested)]
  {
    hide Find, RemoveAt;
  }

  /** t is s with the order at position k of this queue gone. */
  ghost predicate TakenOff(s: State, t: State, b: nat, side: Side, k: nat)
    requires b < |s.books| && k < |Queue(s.books[b], side)|
  {
    && OnlyBook(s, t, b) && t.nextTrade == s.nextTrade
    && Queue(t.books[b], side) == Queue(s.books[b], side)[..k] + Queue(s.books[b], side)[k + 1..]
    && Queue(t.books[b], Opposite(side)) == Queue(s.books[b], Opposite(side))
  }

  /** A cancel takes exactly its order off, reports all it had open, and frees no id. */
  lemma CancelDoes(s: State, b: nat, side: Side, k: nat, id: uint64)
    requires Inv(s) && s.configured && RestsAt(s, b, side, k, id)
    ensures var t := Cancel(s, id);
      && t.log == s.log + [Canceled(id, Queue(s.books[b], side)[k].open, UserRequested)]
      && TakenOff(s, t, b, side, k) && !Somewhere(t, id) && t.owner == s.owner && t.asked == s.asked
  {
    hide BookOk, OpenOrder, Find;
    HomeIs(s, b, side, k, id);
    TakeOutKeeps(s, id);
    AbsentIsNowhere(Cancel(s, id), id);
  }

  // Replaces: which take effect

  /** The successor keeps the order's id or takes an unused one. */
  predicate IdFits(s: State, r: ReplaceOrder) {
    r.newOrderId == r.orderId || r.newOrderId !in s.owner
  }

  /** What a replace of order x of this book must satisfy to take effect. */
  predicate Revises(s: State, r: ReplaceOrder, x: Order, book: Book) {
    r.newQuantity > x.filled && IdFits(s, r) && OnTick(r.newPrice) && PriceInBand(book, r.newPrice)
  }

  /** What a replace comes to once its validation is done. */
  lemma ReplaceIs(s: State, r: ReplaceOrder)
    requires Inv(s)
    ensures !s.configured ==> Replace(s, r) == Emit(s, Rejected(r.newOrderId, NotConfigured))
    ensures s.configured && !IsOpen(s, r.orderId) ==> Replace(s, r) == Emit(s, Rejected(r.newOrderId, UnknownOrder))
    ensures s.configured && IsOpen(s, r.orderId) ==>
      var x, book, t := OpenOrder(s, r.orderId), s.books[s.owner[r.orderId].0], Replace(s, r);
      var live := r.newQuantity > x.filled;
      && (!live ==> t == Cancel(s, r.orderId))
      && (live && !IdFits(s, r) ==> t == Emit(s, Rejected(r.newOrderId, DuplicateOrderId)))
      && (live && IdFits(s, r) && !OnTick(r.newPrice) ==> t == Emit(s, Rejected(r.newOrderId, InvalidPriceTick)))
      && (live && IdFits(s, r) && OnTick(r.newPrice) && !PriceInBand(book, r.newPrice) ==>
            t == Emit(s, Rejected(r.newOrderId, PriceOutOfBand)))
      && (Revises(s, r, x, book) ==> Replaceable(s, r))
  {
    hide BookOk, EnterDay, TakeOut, IsOpen, OpenOrder, IsTickAligned, OnTick, Cancel;
    TicksAsDocumented(r.newPrice);
  }

  // Replaces: what they do

  /** Replacing an order down to what it has filled takes it off, as a cancel would; the new id stays free. */
  lemma ReplaceDownDoes(s: State, r: ReplaceOrder, b: nat, side: Side, k: nat)
    requires Inv(s) && s.configured && RestsAt(s, b, side, k, r.orderId)
    requires r.newQuantity <= Queue(s.books[b], side)[k].filled
    ensures var t := Replace(s, r);
      && t.log == s.log + [Canceled(r.orderId, Queue(s.books[b], side)[k].open, UserRequested)]
      && TakenOff(s, t, b, side, k) && !Somewhere(t, r.orderId) && t.owner == s.owner && t.asked == s.asked
  {
    HomeIs(s, b, side, k, r.orderId);
    ReplaceIs(s, r);
    hide Replace, Cancel, TakenOff, Somewhere, BookOk;
    CancelDoes(s, b, side, k, r.orderId);
  }

  /** An order with new terms: what is still open of the new total, and the fills so far. */
  function Successor(r: ReplaceOrder, x: Order): Order
    requires r.newQuantity > x.filled
  {
    Order(r.newOrderId, r.newPrice, r.newQuantity - x.filled, x.filled)
  }

  /** At its own price and with no more open than before, the successor stands exactly where the order stood. */
  lemma ReplaceInPlaceDoes(s: State, r: ReplaceOrder, b: nat, side: Side, k: nat)
    requires Inv(s) && s.configured && RestsAt(s, b, side, k, r.orderId)
    requires Revises(s, r, Queue(s.books[b], side)[k], s.books[b])
    requires r.newPrice == Queue(s.books[b], side)[k].price
    requires r.newQuantity - Queue(s.books[b], side)[k].filled <= Queue(s.books[b], side)[k].open
    ensures var t, x := Replace(s, r), Queue(s.books[b], side)[k];
      && t.log == s.log + [Replaced(r.orderId, r.newOrderId, r.newPrice, r.newQuantity - x.filled)]
      && OnlyBook(s, t, b) && t.nextTrade == s.nextTrade
      && Queue(t.books[b], side) == Queue(s.books[b], side)[k := Successor(r, x)]
      && Queue(t.books[b], Opposite(side)) == Queue(s.books[b], Opposite(side))
      && t.owner == s.owner[r.newOrderId := (b, side)] && t.asked == s.asked[r.newOrderId := r.newQuantity]
  {
    HomeIs(s, b, side, k, r.orderId);
    ReplaceIs(s, r);
    hide Replace, BookOk, OnTick, PriceInBand, Replaceable;
    InPlaceIs(s, r);
  }

  /** The market in which the order has been taken off and its successor announced. */
  lemma ReadyIs(s: State, r: ReplaceOrder, b: nat, side: Side, k: nat)
    requires Inv(s) && RestsAt(s, b, side, k, r.orderId) && IsOpen(s, r.orderId) && Replaceable(s, r)
    requires r.newQuantity > Queue(s.books[b], side)[k].filled
    ensures var u := ReadyToReenter(s, r);
      && TakenOff(s, u, b, side, k) && u.owner == s.owner[r.newOrderId := (b, side)]
      && u.asked == s.asked[r.newOrderId := r.newQuantity]
      && u.log == s.log + [Replaced(r.orderId, r.newOrderId, r.newPrice,
                                    r.newQuantity - Queue(s.books[b], side)[k].filled)]
  {
    hide BookOk, Find, Replaceable, PriceOk;
    HomeIs(s, b, side, k, r.orderId);
  }

  lemma MovesIs(s: State, r: ReplaceOrder, b: nat, side: Side, k: nat)
    requires Inv(s) && s.configured && RestsAt(s, b, side, k, r.orderId)
    requires Revises(s, r, Queue(s.books[b], side)[k], s.books[b])
    requires r.newPrice != Queue(s.books[b], side)[k].price
      || r.newQuantity - Queue(s.books[b], side)[k].filled > Queue(s.books[b], side)[k].open
    ensures IsOpen(s, r.orderId) && Replaceable(s, r) && Inv(ReadyToReenter(s, r))
    ensures var o := Successor(r, Queue(s.books[b], side)[k]);
      |ReadyToReenter(s, r).books| == |s.books|
      && Replace(s, r) == EnterDay(ReadyToReenter(s, r), b, side, o.id, o.price, o.open, o.filled)
  {
    HomeIs(s, b, side, k, r.orderId);
    ReplaceIs(s, r);
    hide Replace, BookOk, OnTick, PriceInBand, EnterDay, Find, ReadyToReenter, Replaceable, Registered;
    ReadyKeeps(s, r);
    LosingKeeps(s, r);
  }

  /** With another price or more open, the order is taken off and its successor enters: it trades what the other
      side offers up to the new price and joins its own side with the rest. */
  lemma ReplaceMovesDoes(s: State, r: ReplaceOrder, b: nat, side: Side, k: nat)
    returns (off: State, trades: seq<Event>)
    requires Inv(s) && s.configured && RestsAt(s, b, side, k, r.orderId)
    requires Revises(s, r, Queue(s.books[b], side)[k], s.books[b])
    requires r.newPrice != Queue(s.books[b], side)[k].price
      || r.newQuantity - Queue(s.books[b], side)[k].filled > Queue(s.books[b], side)[k].open
    ensures TakenOff(s, off, b, side, k)
    ensures var t, x := Replace(s, r), Queue(s.books[b], side)[k];
      var o := Successor(r, x);
      var e := Min(o.open, Offered(Queue(s.books[b], Opposite(side)), side, Some(r.newPrice)));
      && t.log == s.log + [Replaced(r.orderId, r.newOrderId, r.newPrice, o.open)] + trades
      && Enters(off, t, b, side, o, e, trades, true)
      && t.owner == s.owner[r.newOrderId := (b, side)] && t.asked == s.asked[r.newOrderId := r.newQuantity]
  {
    hide BookOk, IdFits, OnTick, PriceInBand, Replace, EnterDay, Enters, Offered, IsOpen, Replaceable;
    hide ReadyToReenter, QueuesInOrder;
    MovesIs(s, r, b, side, k);
    ReadyIs(s, r, b, side, k);
    off := ReadyToReenter(s, r);
    InvInOrder(off, b);
    trades := EnterDayTook(off, b, side, Successor(r, Queue(s.books[b], side)[k]));
  }

  /** At the order's own price nothing is offered, so asking for more there trades nothing. */
  lemma SamePriceTradesNothing(s: State, b: nat, side: Side, k: nat)
    requires Inv(s) && b < |s.books| && k < |Queue(s.books[b], side)|
    ensures Offered(Queue(s.books[b], Opposite(side)), side, Some(Queue(s.books[b], side)[k].price)) == 0
  {
    hide Offered, QueueOk, Uncrossed;
    assert BookOk(s, b);
    NothingAcross(s.books[b], side, k);
  }

  lemma NothingAcross(book: Book, side: Side, k: nat)
    requires Uncrossed(book) && k < |Queue(book, side)|
    ensures Offered(Queue(book, Opposite(side)), side, Some(Queue(book, side)[k].price)) == 0
  {
    hide Offered, Sum;
    var opp := Queue(book, Opposite(side));
    OfferedPrefix(opp, side, Some(Queue(book, side)[k].price), 0);
    NothingSummed(opp);
  }

  // Replaces: what is answered

  /** Before configuration, and for an order that does not rest. */
  lemma ReplaceAnswersUnknown(s: State, r: ReplaceOrder)
    requires Inv(s) && (!s.configured || !Somewhere(s, r.orderId))
    ensures Answered(s, Replace(s, r), Rejected(r.newOrderId, if s.configured then UnknownOrder else NotConfigured))
    ensures Replace(s, r).books == s.books && Replace(s, r).owner == s.owner
  {
    hide Somewhere, Answered, BookOk, Replace;
    OpenIsSomewhere(s, r.orderId);
    ReplaceIs(s, r);
    Refuses(s, s, r.newOrderId);
  }

  lemma ReplaceCommits(s: State, r: ReplaceOrder, b: nat, side: Side, k: nat) returns (e: Event)
    requires Inv(s) && s.configured && RestsAt(s, b, side, k, r.orderId)
    requires Revises(s, r, Queue(s.books[b], side)[k], s.books[b])
    ensures forall e' :: Answered(s, Replace(s, r), e') <==> e' == e
    ensures e == Replaced(r.orderId, r.newOrderId, r.newPrice, r.newQuantity - Queue(s.books[b], side)[k].filled)
  {
    hide Answered, BookOk, Replace, OnTick, PriceInBand, IdFits, TakenOff, Enters, OnlyBook, Offered;
    var x := Queue(s.books[b], side)[k];
    e := Replaced(r.orderId, r.newOrderId, r.newPrice, r.newQuantity - x.filled);
    if r.newPrice == x.price && r.newQuantity - x.filled <= x.open {
      ReplaceInPlaceDoes(s, r, b, side, k);
    } else {
      var off, trades := ReplaceMovesDoes(s, r, b, side, k);
    }
    AnsweredFirst(s, Replace(s, r), e);
  }

  lemma ReplaceCancels(s: State, r: ReplaceOrder, b: nat, side: Side, k: nat) returns (e: Event)
    requires Inv(s) && s.configured && RestsAt(s, b, side, k, r.orderId)
    requires r.newQuantity <= Queue(s.books[b], side)[k].filled
    ensures forall e' :: Answered(s, Replace(s, r), e') <==> e' == e
    ensures e == Canceled(r.orderId, Queue(s.books[b], side)[k].open, UserRequested)
  {
    hide Answered, BookOk, Replace, TakenOff, Somewhere;
    ReplaceDownDoes(s, r, b, side, k);
    e := Canceled(r.orderId, Queue(s.books[b], side)[k].open, UserRequested);
    AnsweredFirst(s, Replace(s, r), e);
  }

  lemma ReplaceRefused(s: State, r: ReplaceOrder, b: nat, side: Side, k: nat) returns (e: Event)
    requires Inv(s) && s.configured && RestsAt(s, b, side, k, r.orderId)
    requires r.newQuantity > Queue(s.books[b], side)[k].filled
    requires !Revises(s, r, Queue(s.books[b], side)[k], s.books[b])
    ensures forall e' :: Answered(s, Replace(s, r), e') <==> e' == e
    ensures e == Rejected(r.newOrderId, if !IdFits(s, r) then DuplicateOrderId
                                        else if !OnTick(r.newPrice) then InvalidPriceTick else PriceOutOfBand)
  {
    HomeIs(s, b, side, k, r.orderId);
    ReplaceIs(s, r);
    hide Answered, BookOk, Replace, OnTick, PriceInBand, IdFits, Find;
    Refuses(s, s, r.newOrderId);
    e := Rejected(r.newOrderId, if !IdFits(s, r) then DuplicateOrderId
                  else if !OnTick(r.newPrice) then InvalidPriceTick else PriceOutOfBand);
  }

  /** The first event of a replace of a resting order, by its checks in order. */
  lemma ReplaceTold(s: State, r: ReplaceOrder, b: nat, side: Side, k: nat) returns (e: Event)
    requires Inv(s) && s.configured && RestsAt(s, b, side, k, r.orderId)
    ensures forall e' :: Answered(s, Replace(s, r), e') <==> e' == e
    ensures var x := Queue(s.books[b], side)[k];
      e == if r.newQuantity <= x.filled then Canceled(r.orderId, x.open, UserRequested)
           else if !IdFits(s, r) then Rejected(r.newOrderId, DuplicateOrderId)
           else if !OnTick(r.newPrice) then Rejected(r.newOrderId, InvalidPriceTick)
           else if !PriceInBand(s.books[b], r.newPrice) then Rejected(r.newOrderId, PriceOutOfBand)
           else Replaced(r.orderId, r.newOrderId, r.newPrice, r.newQuantity - x.filled)
  {
    hide Answered, BookOk, Replace, OnTick, PriceInBand, IdFits;
    var x := Queue(s.books[b], side)[k];
    if r.newQuantity <= x.filled {
      e := ReplaceCancels(s, r, b, side, k);
    } else if Revises(s, r, x, s.books[b]) {
      e := ReplaceCommits(s, r, b, side, k);
    } else {
      e := ReplaceRefused(s, r, b, side, k);
    }
  }

  /** A replace of a resting order cancels it exactly when nothing would stay open, is refused for the first check
      that fails, and otherwise takes effect. */
  lemma ReplaceAnswers(s: State, r: ReplaceOrder, b: nat, side: Side, k: nat)
    requires Inv(s) && s.configured && RestsAt(s, b, side, k, r.orderId)
    ensures var t, id, x, book := Replace(s, r), r.newOrderId, Queue(s.books[b], side)[k], s.books[b];
      var live := r.newQuantity > x.filled;
      && (Answered(s, t, Canceled(r.orderId, x.open, UserRequested)) <==> !live)
      && (Answered(s, t, Rejected(id, DuplicateOrderId)) <==> live && !IdFits(s, r))
      && (Answered(s, t, Rejected(id, InvalidPriceTick)) <==> live && IdFits(s, r) && !OnTick(r.newPrice))
      && (Answered(s, t, Rejected(id, PriceOutOfBand)) <==>
          live && IdFits(s, r) && OnTick(r.newPrice) && !PriceInBand(book, r.newPrice))
      && (Revises(s, r, x, book) <==>
          live && Answered(s, t, Replaced(r.orderId, id, r.newPrice, r.newQuantity - x.filled)))
  {
    hide Answered, Inv, Replace, OnTick, PriceInBand, IdFits;
    var e := ReplaceTold(s, r, b, side, k);
  }
}
