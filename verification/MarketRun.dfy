/** Whole runs: what every request, and so every sequence of requests, keeps and changes. */
module MarketRun {
  import opened Api
  import opened Market
  import opened MarketInvariant

  /** t is s with one rejection logged and nothing else changed. */
  ghost predicate OnlyRejects(s: State, t: State, id: uint64) {
    exists reason :: t == Emit(s, Rejected(id, reason))
  }

  lemma RejectKeeps(s: State, t: State, id: uint64)
    requires Inv(s) && OnlyRejects(s, t, id)
    ensures Inv(t)
  {
    hide Inv;
    var reason :| t == Emit(s, Rejected(id, reason));
    EmitKeeps(s, Rejected(id, reason));
  }

  /** The state in which an order's id has just been consumed. */
  function Consumed(s: State, o: NewOrder): State
    requires IndexOk(s) && o.instrumentId in s.index
  {
    s.(owner := s.owner[o.orderId := (s.index[o.instrumentId] as nat, o.side)])
  }

  /** A submission is refused outright, refused after its id was consumed, or accepted. */
  lemma SubmitCases(s: State, o: NewOrder)
    requires IndexOk(s)
    ensures OnlyRejects(s, Submit(s, o), o.orderId)
      || (s.configured && o.instrumentId in s.index && o.orderId !in s.owner
          && (OnlyRejects(Consumed(s, o), Submit(s, o), o.orderId)
              || (Acceptable(s, s.index[o.instrumentId], o)
                  && Submit(s, o) == Accept(Consumed(s, o), s.index[o.instrumentId], o))))
  {
    hide Accept;
  }

  lemma SubmitKeeps(s: State, o: NewOrder)
    requires Inv(s)
    ensures Inv(Submit(s, o))
  {
    SubmitCases(s, o);
    hide Inv, Submit, Accept, OnlyRejects, Acceptable;
    if OnlyRejects(s, Submit(s, o), o.orderId) {
      RejectKeeps(s, Submit(s, o), o.orderId);
    } else {
      ConsumedKeeps(s, o);
      if OnlyRejects(Consumed(s, o), Submit(s, o), o.orderId) {
        RejectKeeps(Consumed(s, o), Submit(s, o), o.orderId);
      } else {
        AcceptKeeps(s, s.index[o.instrumentId], o);
      }
    }
  }

  lemma ConsumedKeeps(s: State, o: NewOrder)
    requires Inv(s) && o.instrumentId in s.index && o.orderId !in s.owner
    ensures Inv(Consumed(s, o))
  {
    UnusedIsAbsent(s, o.orderId);
    RegisterKeeps(s, Consumed(s, o), o.orderId, (s.index[o.instrumentId] as nat, o.side), None);
  }

  /** What validation has established when an order is accepted. */
  ghost predicate Acceptable(s: State, b: nat, o: NewOrder)
    requires b < |s.books|
  {
    && o.quantity > 0
    && (o.orderType == OrderType.Market ==> o.tif != Day)
    && (o.orderType == Limit ==> PriceOk(o.price) && s.books[b].lo <= o.price <= s.books[b].hi)
  }

  lemma AcceptKeeps(s: State, b: nat, o: NewOrder)
    requires Inv(s) && b < |s.books| && o.orderId !in s.owner && Acceptable(s, b, o)
    ensures Inv(Accept(s.(owner := s.owner[o.orderId := (b, o.side)]), b, o))
  {
    hide Inv, Execute, EnterDay, FokWalk, PriceOk;
    var isMarket := o.orderType == OrderType.Market;
    var limit := if isMarket then 0 else o.price;
    var u := s.(owner := s.owner[o.orderId := (b, o.side)], asked := s.asked[o.orderId := o.quantity]);
    UnusedIsAbsent(s, o.orderId);
    RegisterKeeps(s, u, o.orderId, (b, o.side), Some(o.quantity));
    var t := Emit(u, Accepted(o.orderId));
    EmitKeeps(u, Accepted(o.orderId));
    if o.tif == Day {
      EnterDayKeeps(t, b, o.side, o.orderId, limit, o.quantity, 0);
    } else {
      var (w, left) := Execute(t, b, o.side, isMarket, limit, o.orderId, o.quantity);
      ExecuteKeeps(t, b, o.side, isMarket, limit, o.orderId, o.quantity);
      CancelEventKeeps(t, o.orderId, o.quantity);
      CancelEventKeeps(w, o.orderId, left);
    }
  }

  lemma CancelEventKeeps(s: State, id: uint64, qty: nat)
    requires Inv(s)
    ensures forall reason :: Inv(Emit(s, Canceled(id, qty, reason)))
  {
    hide Inv;
    forall reason ensures Inv(Emit(s, Canceled(id, qty, reason))) { EmitKeeps(s, Canceled(id, qty, reason)); }
  }

  lemma CancelKeeps(s: State, id: uint64)
    requires Inv(s)
    ensures Inv(Cancel(s, id))
  {
    forall reason ensures Inv(Emit(s, Rejected(id, reason))) { EmitKeeps(s, Rejected(id, reason)); }
    if s.configured && IsOpen(s, id) {
      TakeOutKeeps(s, id);
      EmitKeeps(TakeOut(s, id), Canceled(id, OpenOrder(s, id).open, UserRequested));
    }
  }

  /** The validation of a replace that takes effect. */
  ghost predicate Replaceable(s: State, r: ReplaceOrder)
    requires IndexOk(s)
  {
    && s.configured && IsOpen(s, r.orderId) && r.newQuantity > OpenOrder(s, r.orderId).filled
    && (r.newOrderId == r.orderId || r.newOrderId !in s.owner)
    && PriceOk(r.newPrice)
    && s.books[s.owner[r.orderId].0].lo <= r.newPrice <= s.books[s.owner[r.orderId].0].hi
  }

  /** Whether a replace sends the order to the back of the queue. */
  predicate LosesPriority(s: State, r: ReplaceOrder)
    requires IndexOk(s) && IsOpen(s, r.orderId)
  {
    var o := OpenOrder(s, r.orderId);
    r.newPrice != o.price || r.newQuantity - o.filled > o.open
  }

  /** The state a priority-losing replace enters its order into. */
  ghost function ReadyToReenter(s: State, r: ReplaceOrder): State
    requires IndexOk(s) && Replaceable(s, r)
  {
    Emit(TakeOut(s, r.orderId).(owner := s.owner[r.newOrderId := s.owner[r.orderId]],
                                asked := s.asked[r.newOrderId := r.newQuantity]),
         Replaced(r.orderId, r.newOrderId, r.newPrice, r.newQuantity - OpenOrder(s, r.orderId).filled))
  }

  lemma ReadyKeeps(s: State, r: ReplaceOrder)
    requires Inv(s) && Replaceable(s, r)
    ensures Inv(ReadyToReenter(s, r)) && Absent(ReadyToReenter(s, r), r.newOrderId)
    ensures |ReadyToReenter(s, r).books| == |s.books|
    ensures forall b :: 0 <= b < |s.books| ==>
      ReadyToReenter(s, r).books[b].lo == s.books[b].lo && ReadyToReenter(s, r).books[b].hi == s.books[b].hi
  {
    hide TakeOut, BookOk;
    var t := TakeOut(s, r.orderId);
    TakeOutKeeps(s, r.orderId);
    TakeOutTouches(s, r.orderId);
    if r.newOrderId != r.orderId { UnusedIsAbsent(t, r.newOrderId); }
    var u := t.(owner := s.owner[r.newOrderId := s.owner[r.orderId]], asked := s.asked[r.newOrderId := r.newQuantity]);
    RegisterKeeps(t, u, r.newOrderId, s.owner[r.orderId], Some(r.newQuantity));
    EmitKeeps(u, Replaced(r.orderId, r.newOrderId, r.newPrice, r.newQuantity - OpenOrder(s, r.orderId).filled));
  }

  /** A replace is refused, cancels the order, loses its priority or keeps its place. */
  lemma ReplaceCases(s: State, r: ReplaceOrder)
    requires IndexOk(s)
    ensures OnlyRejects(s, Replace(s, r), r.newOrderId)
      || (s.configured && IsOpen(s, r.orderId) && Replace(s, r) == Cancel(s, r.orderId))
      || Replaceable(s, r)
  {
    hide EnterDay, Cancel, TakeOut;
  }

  lemma ReplaceKeeps(s: State, r: ReplaceOrder)
    requires Inv(s)
    ensures Inv(Replace(s, r))
  {
    ReplaceCases(s, r);
    hide Replace, OnlyRejects, Cancel, Replaceable, LosesPriority;
    if OnlyRejects(s, Replace(s, r), r.newOrderId) {
      RejectKeeps(s, Replace(s, r), r.newOrderId);
    } else if Replace(s, r) == Cancel(s, r.orderId) {
      CancelKeeps(s, r.orderId);
    } else if LosesPriority(s, r) {
      LosingKeeps(s, r);
    } else {
      InPlaceKeeps(s, r);
    }
  }

  lemma LosingKeeps(s: State, r: ReplaceOrder)
    requires Inv(s) && Replaceable(s, r) && LosesPriority(s, r)
    ensures Replace(s, r) == EnterDay(ReadyToReenter(s, r), s.owner[r.orderId].0, s.owner[r.orderId].1, r.newOrderId,
                                      r.newPrice,
      r.newQuantity - OpenOrder(s, r.orderId).filled, OpenOrder(s, r.orderId).filled)
    ensures Inv(Replace(s, r))
  {
    var (b, side) := s.owner[r.orderId];
    var filled := OpenOrder(s, r.orderId).filled;
    ReadyKeeps(s, r);
    hide Inv, EnterDay, TakeOut;
    EnterDayKeeps(ReadyToReenter(s, r), b, side, r.newOrderId, r.newPrice, r.newQuantity - filled, filled);
  }

  lemma InPlaceKeeps(s: State, r: ReplaceOrder)
    requires Inv(s) && Replaceable(s, r) && !LosesPriority(s, r)
    ensures Inv(Replace(s, r))
  {
    var b, side, k := OpenAt(s, r.orderId);
    var o := OpenOrder(s, r.orderId);
    var open := r.newQuantity - o.filled;
    if r.newOrderId != r.orderId { UnusedIsAbsent(s, r.newOrderId); }
    var q' := Queue(s.books[b], side)[k := Order(r.newOrderId, o.price, open, o.filled)];
    var t := s.(owner := s.owner[r.newOrderId := (b, side)], asked := s.asked[r.newOrderId := r.newQuantity],
                books := s.books[b := SetQueue(s.books[b], side, q')]);
    hide Inv;
    SubstituteKeeps(s, t, b, side, k, Order(r.newOrderId, o.price, open, o.filled));
    EmitKeeps(t, Replaced(r.orderId, r.newOrderId, r.newPrice, open));
  }

  /** A replace that keeps its place, in one step. */
  lemma InPlaceIs(s: State, r: ReplaceOrder)
    requires IndexOk(s) && Replaceable(s, r) && !LosesPriority(s, r)
    ensures var (b, side), o := s.owner[r.orderId], OpenOrder(s, r.orderId);
      var q, open := Queue(s.books[b], side), r.newQuantity - OpenOrder(s, r.orderId).filled;
      Replace(s, r) == Emit(s.(owner := s.owner[r.newOrderId := (b, side)],
                               asked := s.asked[r.newOrderId := r.newQuantity],
          books := s.books[b := SetQueue(s.books[b], side, q[Find(q, r.orderId) := Order(r.newOrderId, o.price, open,
              o.filled)])]),
        Replaced(r.orderId, r.newOrderId, r.newPrice, open))
  {
    hide EnterDay, TakeOut, Cancel;
  }

  // Runs

  function Step(s: State, req: Request): (t: State)
    requires Inv(s)
    ensures Inv(t)
  {
    match req
    case SubmitRequest(o) => SubmitKeeps(s, o); Submit(s, o)
    case CancelRequest(id) => CancelKeeps(s, id); Cancel(s, id)
    case ReplaceRequest(r) => ReplaceKeeps(s, r); Replace(s, r)
  }

  /** The market after a sequence of requests; every state on the way keeps the invariant. */
  function Run(s: State, reqs: seq<Request>): (t: State)
    requires Inv(s)
    ensures Inv(t)
    decreases |reqs|
  {
    if |reqs| == 0 then s else Step(Run(s, reqs[..|reqs| - 1]), reqs[|reqs| - 1])
  }

  /** Never crossed or locked: in every reachable state the best bid is below the best ask. */
  lemma NeverCrossed(s: State, reqs: seq<Request>, b: nat)
    requires Inv(s) && b < |Run(s, reqs).books|
    ensures var book := Run(s, reqs).books[b];
      |book.bids| > 0 && |book.asks| > 0 ==> Top(book).bidPrice < Top(book).askPrice
  {
    assert BookOk(Run(s, reqs), b);
  }
}
