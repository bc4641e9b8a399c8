/** Laws of single requests: what a replace amounts to, what a refused call leaves alone, all-or-nothing
    orders, undoing an order, and isolation between books. */
module MarketLaws {
  import opened Api
  import opened TickTable
  import opened Market
  import opened MatchTheory
  import opened MarketInvariant
  import opened MarketRun

  // Replacing

  /** A queue with `extra` added to what order `id` has filled. */
  function Credit(q: seq<Order>, id: uint64, extra: nat): (r: seq<Order>)
    ensures |r| == |q|
  {
    seq(|q|, i requires 0 <= i < |q| => if q[i].id == id then q[i].(filled := q[i].filled + extra) else q[i])
  }

  /** Two markets that differ only in what order `id` has filled before, and in their events' kinds:
      same queues, same trades under the same trade ids. */
  ghost predicate SameButCredit(t: State, u: State, first: nat, first': nat, id: uint64, extra: nat) {
    && |t.books| == |u.books| && t.nextTrade == u.nextTrade
    && (forall c :: 0 <= c < |t.books| ==>
          && t.books[c].instrumentId == u.books[c].instrumentId
          && t.books[c].bids == Credit(u.books[c].bids, id, extra)
          && t.books[c].asks == Credit(u.books[c].asks, id, extra))
    && first <= |t.log| && first' <= |u.log| && t.log[first..] == u.log[first'..]
  }

  lemma CreditAbsent(q: seq<Order>, id: uint64, extra: nat)
    requires id !in Ids(q)
    ensures Credit(q, id, extra) == q
  {
    assert forall i :: 0 <= i < |q| ==> q[i] in q;
  }

  /** The position an order is inserted at depends on its price alone. */
  lemma {:induction false} InsertCredit(side: Side, q: seq<Order>, o: Order, extra: nat)
    requires o.id !in Ids(q)
    ensures Insert(side, q, o.(filled := o.filled + extra)) == Credit(Insert(side, q, o), o.id, extra)
  {
    var o' := o.(filled := o.filled + extra);
    if |q| == 0 || !AtLeastAsGood(side, q[0].price, o.price) {
      CreditAbsent(q, o.id, extra);
      assert Credit([o] + q, o.id, extra) == [o'] + Credit(q, o.id, extra);
    } else {
      assert q[0] in q && q[0].id != o.id;
      InsertCredit(side, q[1..], o, extra);
      assert Credit([q[0]] + Insert(side, q[1..], o), o.id, extra) ==
        [q[0]] + Credit(Insert(side, q[1..], o), o.id, extra);
    }
  }

  /** Entering the same limit order into two markets with the same books, once with earlier fills. */
  lemma EnterTwice(t: State, u: State, b: nat, side: Side, id: uint64, price: int, qty: nat, extra: nat)
    requires Inv(t) && Absent(t, id) && b < |t.books| && u.books == t.books && u.nextTrade == t.nextTrade
    ensures SameButCredit(EnterDay(t, b, side, id, price, qty, extra), EnterDay(u, b, side, id, price, qty, 0),
                          |t.log|, |u.log|, id, extra)
  {
    hide Inv, Absent, Match, Insert, Credit;
    var (v, left) := Execute(t, b, side, false, price, id, qty);
    ExecuteAbsent(t, b, side, false, price, id, qty);
    AbsentCredit(v, id, extra);
    if left > 0 {
      AbsentIn(v, b, side, id);
      InsertCredit(side, Queue(v.books[b], side), Order(id, price, left, qty - left), extra);
    }
  }

  lemma AbsentCredit(s: State, id: uint64, extra: nat)
    requires Absent(s, id)
    ensures forall c :: 0 <= c < |s.books| ==> Credit(s.books[c].bids, id, extra) == s.books[c].bids
    ensures forall c :: 0 <= c < |s.books| ==> Credit(s.books[c].asks, id, extra) == s.books[c].asks
  {
    forall c | 0 <= c < |s.books| ensures Credit(s.books[c].bids, id, extra) == s.books[c].bids {
      CreditAbsent(s.books[c].bids, id, extra);
    }
    forall c | 0 <= c < |s.books| ensures Credit(s.books[c].asks, id, extra) == s.books[c].asks {
      CreditAbsent(s.books[c].asks, id, extra);
    }
  }

  lemma AbsentIn(s: State, b: nat, side: Side, id: uint64)
    requires Absent(s, id) && b < |s.books|
    ensures id !in Ids(Queue(s.books[b], side))
  {
  }

  /** A replace that loses priority is a cancel followed by entering a Day limit order for what is still
      open: the same queues and the same trades, but for the fills carried over. */
  lemma ReplaceIsCancelThenEnter(s: State, r: ReplaceOrder)
    requires Inv(s) && Replaceable(s, r) && LosesPriority(s, r)
    ensures var (b, side), o := s.owner[r.orderId], OpenOrder(s, r.orderId);
      && b < |Cancel(s, r.orderId).books|
      && SameButCredit(Replace(s, r),
           EnterDay(Cancel(s, r.orderId), b, side, r.newOrderId, r.newPrice, r.newQuantity - o.filled, 0),
           |s.log| + 1, |s.log| + 1, r.newOrderId, o.filled)
  {
    hide BookOk, EnterDay, Absent, SameButCredit, PriceOk;
    var (b, side) := s.owner[r.orderId];
    var o := OpenOrder(s, r.orderId);
    ReadyKeeps(s, r);
    LosingKeeps(s, r);
    hide Replace, LosesPriority;
    EnterTwice(ReadyToReenter(s, r), Cancel(s, r.orderId), b, side, r.newOrderId, r.newPrice, r.newQuantity - o.filled,
               o.filled);
  }

  /** The order a client would submit instead of a replace. */
  function AsSubmission(s: State, r: ReplaceOrder): NewOrder
    requires IndexOk(s) && IsOpen(s, r.orderId) && 0 <= r.newQuantity - OpenOrder(s, r.orderId).filled
  {
    var (b, side) := s.owner[r.orderId];
    NewOrder(r.newOrderId, s.books[b].instrumentId, side, Limit, Day, r.newPrice,
             r.newQuantity - OpenOrder(s, r.orderId).filled)
  }

  /** Under a new id that is literally a cancel request followed by a submission. */
  lemma ReplaceIsCancelThenSubmit(s: State, r: ReplaceOrder)
    requires Inv(s) && Replaceable(s, r) && LosesPriority(s, r) && r.newOrderId != r.orderId
    ensures Inv(Cancel(s, r.orderId))
    ensures SameButCredit(Replace(s, r), Submit(Cancel(s, r.orderId), AsSubmission(s, r)),
      |s.log| + 1, |s.log| + 2, r.newOrderId, OpenOrder(s, r.orderId).filled)
  {
    hide EnterDay, Absent, SameButCredit, BookOk, FokWalk, IsTickAligned;
    var (b, side) := s.owner[r.orderId];
    var o := OpenOrder(s, r.orderId);
    var c, n := Cancel(s, r.orderId), AsSubmission(s, r);
    ReadyKeeps(s, r);
    LosingKeeps(s, r);
    CancelKeeps(s, r.orderId);
    SubmissionAccepted(s, r);
    hide Replace, LosesPriority, Submit;
    var u := Emit(c, Accepted(n.orderId)).(owner := c.owner[n.orderId := (b, side)],
                                           asked := c.asked[n.orderId := n.quantity]);
    EnterTwice(ReadyToReenter(s, r), u, b, side, r.newOrderId, r.newPrice, n.quantity, o.filled);
  }

  lemma SubmissionAccepted(s: State, r: ReplaceOrder)
    requires Inv(s) && Replaceable(s, r) && r.newOrderId != r.orderId
    ensures var c, n, (b, side) := Cancel(s, r.orderId), AsSubmission(s, r), s.owner[r.orderId];
      && IndexOk(c) && b < |c.books|
      && Submit(c, n) == EnterDay(
           Emit(c, Accepted(n.orderId)).(owner := c.owner[n.orderId := (b, side)],
                                         asked := c.asked[n.orderId := n.quantity]),
           b, side, n.orderId, n.price, n.quantity, 0)
  {
    hide EnterDay, BookOk, IsTickAligned, FokWalk;
    var b, side, k := OpenAt(s, r.orderId);
  }

  /** A replace that keeps its place substitutes one order and moves no other. */
  lemma InPlaceMovesNobody(s: State, r: ReplaceOrder)
    requires Inv(s) && Replaceable(s, r) && !LosesPriority(s, r)
    ensures var (b, side), o, t := s.owner[r.orderId], OpenOrder(s, r.orderId), Replace(s, r);
      var q, q' := Queue(s.books[b], side), Queue(t.books[b], side);
      && |t.books| == |s.books| && |q'| == |q| && t.nextTrade == s.nextTrade
      && (forall i :: 0 <= i < |q| ==>
            q'[i] == if q[i].id == r.orderId then Order(r.newOrderId, o.price, r.newQuantity - o.filled,
                                                        o.filled) else q[i])
      && Queue(t.books[b], Opposite(side)) == Queue(s.books[b], Opposite(side))
      && (forall c :: 0 <= c < |s.books| && c != b ==> t.books[c] == s.books[c])
      && t.log == s.log + [Replaced(r.orderId, r.newOrderId, r.newPrice, r.newQuantity - o.filled)]
  {
    hide EnterDay, TakeOut, Cancel, OrderOk, Registered;
    var b, side, k := OpenAt(s, r.orderId);
    assert BookOk(s, b);
  }

  // Refused calls

  /** The request's first event. */
  ghost predicate Refused(s: State, t: State) {
    |t.log| > |s.log| && t.log[|s.log|].Rejected?
  }

  /** A refused call logs its refusal and changes no book, no trade id and no requested total; all it may
      do is consume the id of a submission. */
  lemma RefusedChangesNothing(s: State, req: Request)
    requires Inv(s) && Refused(s, Step(s, req))
    ensures var t := Step(s, req);
      && |t.log| == |s.log| + 1 && t.books == s.books && t.nextTrade == s.nextTrade && t.asked == s.asked
      && t.index == s.index
      && (t.owner == s.owner
          || (req.SubmitRequest? && req.order.orderId !in s.owner &&
            t.owner.Keys == s.owner.Keys + {req.order.orderId}))
  {
    hide BookOk, Submit, Replace, Cancel, OnlyRejects, Execute, EnterDay, FokWalk, IsTickAligned;
    match req
    case SubmitRequest(o) =>
      SubmitFirst(s, o);
      if OnlyRejects(s, Submit(s, o), o.orderId) {
        RejectIs(s, Submit(s, o), o.orderId);
      } else {
        RejectIs(Consumed(s, o), Submit(s, o), o.orderId);
      }
    case CancelRequest(id) =>
      CancelFirst(s, id);
      RejectIs(s, Cancel(s, id), id);
    case ReplaceRequest(r) =>
      ReplaceFirst(s, r);
      RejectIs(s, Replace(s, r), r.newOrderId);
  }

  lemma EnterDayLog(s: State, b: nat, side: Side, id: uint64, price: int, qty: nat, filled: nat)
    requires b < |s.books|
    ensures s.log <= EnterDay(s, b, side, id, price, qty, filled).log
  {
  }

  /** An accepted submission says so first. */
  lemma SubmitFirst(s: State, o: NewOrder)
    requires IndexOk(s)
    ensures OnlyRejects(s, Submit(s, o), o.orderId)
      || (o.orderId !in s.owner && o.instrumentId in s.index
          && (OnlyRejects(Consumed(s, o), Submit(s, o), o.orderId)
              || (|Submit(s, o).log| > |s.log| && Submit(s, o).log[|s.log|] == Accepted(o.orderId))))
  {
    hide EnterDay, FokWalk, IsTickAligned, Match;
    SubmitCases(s, o);
    if o.orderId !in s.owner && o.instrumentId in s.index {
      var b: nat := s.index[o.instrumentId];
      AcceptFirst(Consumed(s, o), b, o);
    }
  }

  lemma AcceptFirst(s: State, b: nat, o: NewOrder)
    requires b < |s.books|
    ensures s.log + [Accepted(o.orderId)] <= Accept(s, b, o).log
  {
    hide EnterDay, FokWalk, Match;
    var limit := if o.orderType == OrderType.Market then 0 else o.price;
    EnterDayLog(Emit(s, Accepted(o.orderId)).(asked := s.asked[o.orderId := o.quantity]), b, o.side, o.orderId, limit,
                o.quantity, 0);
  }

  lemma CancelFirst(s: State, id: uint64)
    requires IndexOk(s)
    ensures (s.configured && IsOpen(s, id)) || OnlyRejects(s, Cancel(s, id), id)
    ensures s.configured && IsOpen(s, id) ==>
      Cancel(s, id).log == s.log + [Canceled(id, OpenOrder(s, id).open, UserRequested)]
  {
  }

  lemma RejectIs(s: State, t: State, id: uint64)
    requires OnlyRejects(s, t, id)
    ensures |t.log| == |s.log| + 1 && t.log[|s.log|].Rejected? && t == s.(log := t.log)
  {
  }

  /** A replace that takes effect says so first. */
  lemma ReplaceFirst(s: State, r: ReplaceOrder)
    requires Inv(s)
    ensures OnlyRejects(s, Replace(s, r), r.newOrderId)
      || (|Replace(s, r).log| > |s.log| && !Replace(s, r).log[|s.log|].Rejected?)
  {
    hide BookOk, EnterDay, TakeOut, Match, PriceOk, Cancel;
    CancelFirst(s, r.orderId);
    ReplaceCases(s, r);
    if Replaceable(s, r) {
      if LosesPriority(s, r) {
        LosingKeeps(s, r);
        ReadyKeeps(s, r);
        var (b, side) := s.owner[r.orderId];
        var filled := OpenOrder(s, r.orderId).filled;
        EnterDayLog(ReadyToReenter(s, r), b, side, r.newOrderId, r.newPrice, r.newQuantity - filled, filled);
        ReadyLog(s, r);
      }
    }
  }

  lemma ReadyLog(s: State, r: ReplaceOrder)
    requires IndexOk(s) && Replaceable(s, r)
    ensures ReadyToReenter(s, r).log ==
      s.log + [Replaced(r.orderId, r.newOrderId, r.newPrice, r.newQuantity - OpenOrder(s, r.orderId).filled)]
  {
  }

  /** An accepted submission is not refused. */
  lemma AcceptNotRefused(s: State, b: nat, o: NewOrder)
    requires b < |s.books|
    ensures !Refused(s, Accept(s, b, o))
  {
    hide Accept;
    AcceptFirst(s, b, o);
    assert Accept(s, b, o).log[|s.log|] == (s.log + [Accepted(o.orderId)])[|s.log|];
  }

  /** A replace that passed validation is not refused. */
  lemma CommitNotRefused(s: State, r: ReplaceOrder)
    requires Inv(s) && Replaceable(s, r)
    ensures !Refused(s, Replace(s, r))
  {
    hide BookOk, Replace, EnterDay, TakeOut, OpenOrder, PriceOk;
    var (b, side) := s.owner[r.orderId];
    var filled := OpenOrder(s, r.orderId).filled;
    if LosesPriority(s, r) {
      LosingKeeps(s, r);
      ReadyKeeps(s, r);
      EnterDayLog(ReadyToReenter(s, r), b, side, r.newOrderId, r.newPrice, r.newQuantity - filled, filled);
      ReadyLog(s, r);
    } else {
      InPlaceIs(s, r);
    }
  }

  // Fill-or-kill

  /** A fill-or-kill order trades completely or not at all, even when 32-bit totals wrap; the arm that
      cancels an executed fill-or-kill remainder is never reached. With less than 2^32 marketable it is
      killed exactly when liquidity lacks. */
  lemma FokAllOrNothing(s: State, b: nat, o: NewOrder)
    requires Inv(s) && b < |s.books| && o.tif == Fok && o.quantity > 0
    ensures var isMarket := o.orderType == OrderType.Market;
      var limit := if isMarket then 0 else o.price;
      var opp, t := Queue(s.books[b], Opposite(o.side)), Accept(s, b, o);
      var m, c := Match(opp, o.side, isMarket, limit, o.quantity), Crossing(opp, o.side, isMarket, limit);
      var killed := t.books == s.books && t.log ==
        s.log + [Accepted(o.orderId), Canceled(o.orderId, o.quantity, FokUnfillable)];
      var filled := m.left == 0 && t.log == s.log + [Accepted(o.orderId)]
        + TradeEvents(m.fills, s.nextTrade, s.books[b].instrumentId, o.orderId, o.side);
      && (killed || filled)
      && (killed ==> t.nextTrade == s.nextTrade)
      && (Sum(c) < TWO_32 ==> (killed <==> Sum(c) < o.quantity))
  {
    hide FokWalk, Match, Crossing, Sum;
    var isMarket := o.orderType == OrderType.Market;
    var limit := if isMarket then 0 else o.price;
    var opp := Queue(s.books[b], Opposite(o.side));
    OpenQuantities(s, b, Opposite(o.side));
    FokDecision(opp, o.side, isMarket, limit, o.quantity);
    if FokWalk(opp, o.side, isMarket, limit, o.quantity, 0) {
      FokFills(opp, o.side, isMarket, limit, o.quantity);
      var m := Match(opp, o.side, isMarket, limit, o.quantity);
      var trades := TradeEvents(m.fills, s.nextTrade, s.books[b].instrumentId, o.orderId, o.side);
      assert |m.fills| > 0 ==> trades[0].Trade?;
      assert |m.fills| > 0 ==> (s.log + [Accepted(o.orderId)] + trades)[|s.log| + 1] == trades[0];
      assert (s.log + [Accepted(o.orderId), Canceled(o.orderId, o.quantity, FokUnfillable)])[|s.log| + 1].Canceled?;
    }
  }

  // Undo

  /** Without a fill, matching leaves everything as it was. */
  lemma NoFills(opp: seq<Order>, side: Side, isMarket: bool, limit: int, qty: nat)
    requires Match(opp, side, isMarket, limit, qty).fills == []
    ensures Match(opp, side, isMarket, limit, qty) == Matched(opp, qty, [])
  {
    var j, part := MatchConsumes(opp, side, isMarket, limit, qty);
  }

  /** Removing an inserted order restores the queue. */
  lemma {:induction false} InsertRemove(side: Side, q: seq<Order>, o: Order)
    requires o.id !in Ids(q)
    ensures Find(Insert(side, q, o), o.id) < |Insert(side, q, o)|
    ensures Insert(side, q, o)[Find(Insert(side, q, o), o.id)] == o
    ensures RemoveAt(Insert(side, q, o), Find(Insert(side, q, o), o.id)) == q
  {
    if |q| == 0 || !AtLeastAsGood(side, q[0].price, o.price) {
      assert ([o] + q)[1..] == q;
    } else {
      assert q[0] in q && q[0].id != o.id;
      InsertRemove(side, q[1..], o);
      var rest := Insert(side, q[1..], o);
      assert ([q[0]] + rest)[1..] == rest;
      RemoveBehind(q[0], rest, Find(rest, o.id));
    }
  }

  lemma RemoveBehind(x: Order, rest: seq<Order>, k: nat)
    requires k < |rest|
    ensures RemoveAt([x] + rest, 1 + k) == [x] + RemoveAt(rest, k)
  {
  }

  /** A Day limit order that rests without trading, then its cancel: every queue is as it was. */
  lemma RestThenCancel(s: State, b: nat, o: NewOrder)
    requires Inv(s) && s.configured && b < |s.books| && o.orderId !in s.owner && Acceptable(s, b, o) && o.tif == Day
    requires Accept(s.(owner := s.owner[o.orderId := (b, o.side)]), b, o).nextTrade == s.nextTrade
    ensures var t := Accept(s.(owner := s.owner[o.orderId := (b, o.side)]), b, o);
      && IndexOk(t) && Cancel(t, o.orderId).books == s.books && Cancel(t, o.orderId).nextTrade == s.nextTrade
      && Cancel(t, o.orderId).log == s.log + [Accepted(o.orderId), Canceled(o.orderId, o.quantity, UserRequested)]
  {
    hide BookOk, Match, Insert, Find, PriceOk, RemoveAt, FokWalk;
    var q, opp := Queue(s.books[b], o.side), Queue(s.books[b], Opposite(o.side));
    UnusedIsAbsent(s, o.orderId);
    AbsentIn(s, b, o.side, o.orderId);
    NoFills(opp, o.side, false, o.price, o.quantity);
    InsertRemove(o.side, q, Order(o.orderId, o.price, o.quantity, 0));
    var t := Accept(s.(owner := s.owner[o.orderId := (b, o.side)]), b, o);
    assert s.books[b := SetQueue(s.books[b], Opposite(o.side), opp)] == s.books;
    var rested := SetQueue(s.books[b], o.side, Insert(o.side, q, Order(o.orderId, o.price, o.quantity, 0)));
    assert t.books == s.books[b := rested];
    assert s.books[b := rested][b := SetQueue(rested, o.side, q)] == s.books;
  }

  /** A Day limit order that will be accepted and rest without a trade. */
  ghost predicate RestsQuietly(s: State, o: NewOrder)
    requires IndexOk(s)
  {
    && s.configured && o.instrumentId in s.index && o.orderId !in s.owner && o.tif == Day
    && Acceptable(s, s.index[o.instrumentId], o) && Submit(s, o).nextTrade == s.nextTrade
  }

  /** The same for the two requests. */
  lemma SubmitThenCancel(s: State, o: NewOrder)
    requires Inv(s) && RestsQuietly(s, o)
    ensures Inv(Submit(s, o)) && Cancel(Submit(s, o), o.orderId).books == s.books
  {
    hide BookOk, Accept, IsTickAligned, Cancel;
    SubmitKeeps(s, o);
    RestThenCancel(s, s.index[o.instrumentId], o);
  }

  // Isolation

  /** The one book a request may touch. */
  ghost function Target(s: State, req: Request): Option<nat>
    requires IndexOk(s)
  {
    match req
    case SubmitRequest(o) => if o.instrumentId in s.index then Some(s.index[o.instrumentId]) else None
    case CancelRequest(id) => if id in s.owner then Some(s.owner[id].0) else None
    case ReplaceRequest(r) => if r.orderId in s.owner then Some(s.owner[r.orderId].0) else None
  }

  lemma OnlyTargetChanges(s: State, req: Request, c: nat)
    requires Inv(s) && c < |s.books| && Target(s, req) != Some(c)
    ensures |Step(s, req).books| == |s.books| && Step(s, req).books[c] == s.books[c]
  {
    hide BookOk, Match, FokWalk, Insert, IsTickAligned, RemoveAt;
    match req
    case SubmitRequest(o) =>
      if o.instrumentId in s.index {
        AcceptElsewhere(Consumed(s, o), s.index[o.instrumentId], o, c);
      }
    case CancelRequest(id) =>
    case ReplaceRequest(r) => ReplaceElsewhere(s, r, c);
  }

  lemma AcceptElsewhere(s: State, b: nat, o: NewOrder, c: nat)
    requires b < |s.books| && c < |s.books| && c != b
    ensures |Accept(s, b, o).books| == |s.books| && Accept(s, b, o).books[c] == s.books[c]
  {
    hide Match, FokWalk, Insert;
  }

  lemma ReplaceElsewhere(s: State, r: ReplaceOrder, c: nat)
    requires IndexOk(s) && c < |s.books| && (r.orderId in s.owner ==> s.owner[r.orderId].0 != c)
    ensures |Replace(s, r).books| == |s.books| && Replace(s, r).books[c] == s.books[c]
  {
    hide Match, Insert, IsTickAligned, RemoveAt;
  }
}
