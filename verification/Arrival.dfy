/** Time priority over whole runs: among equal prices orders wait in the order of the events that gave each of
    them its place. */
module Arrival {
  import opened Api
  import opened Market
  import opened MatchTheory
  import opened MarketInvariant
  import opened MarketRun
  import opened MarketLaws
  import opened Configuration

  /** For each order, the position in the log of the event that gave it its place in its queue. */
  type Arrivals = map<uint64, nat>

  /** The events that give an order a place. */
  predicate GivesPlace(e: Event) {
    e.Accepted? || e.Replaced?
  }

  /** Arrivals after one more request: an accepted order arrives now, a replace that loses its priority arrives
      anew, and one that keeps its place inherits the arrival of the order it replaces. */
  ghost function Arriving(s: State, req: Request, at: Arrivals): Arrivals
    requires Inv(s)
  {
    match req
    case SubmitRequest(o) => if o.orderId in s.owner then at else at[o.orderId := |s.log|]
    case CancelRequest(_) => at
    case ReplaceRequest(r) =>
      if !Replaceable(s, r) then at
      else if LosesPriority(s, r) then at[r.newOrderId := |s.log|]
      else if r.orderId in at then at[r.newOrderId := at[r.orderId]]
      else at
  }

  ghost function ArrivalsOf(s: State, reqs: seq<Request>): Arrivals
    requires Inv(s)
    decreases |reqs|
  {
    if |reqs| == 0 then map[]
    else
      var rest := reqs[..|reqs| - 1];
      Arriving(Run(s, rest), reqs[|reqs| - 1], ArrivalsOf(s, rest))
  }

  /** Every order of the queue arrived with an event of the log, and equal prices wait in order of arrival. */
  ghost predicate QueueInOrder(q: seq<Order>, at: Arrivals, log: seq<Event>) {
    && (forall i :: 0 <= i < |q| ==> q[i].id in at && at[q[i].id] < |log| && GivesPlace(log[at[q[i].id]]))
    && (forall i, j :: 0 <= i < j < |q| && q[i].price == q[j].price ==> at[q[i].id] < at[q[j].id])
  }

  ghost predicate InOrder(s: State, at: Arrivals, log: seq<Event>) {
    forall b: nat, side :: b < |s.books| ==> QueueInOrder(Queue(s.books[b], side), at, log)
  }

  // Queues

  lemma LongerLog(s: State, at: Arrivals, log: seq<Event>, log': seq<Event>)
    requires InOrder(s, at, log) && log <= log'
    ensures InOrder(s, at, log')
  {
    forall b: nat, side | b < |s.books| ensures QueueInOrder(Queue(s.books[b], side), at, log') {
      assert QueueInOrder(Queue(s.books[b], side), at, log);
    }
  }

  /** An arrival of an order that rests nowhere disturbs no queue. */
  lemma Newcomer(s: State, at: Arrivals, log: seq<Event>, id: uint64, k: nat)
    requires InOrder(s, at, log) && Absent(s, id)
    ensures InOrder(s, at[id := k], log)
  {
    forall b: nat, side | b < |s.books| ensures QueueInOrder(Queue(s.books[b], side), at[id := k], log) {
      var q := Queue(s.books[b], side);
      assert QueueInOrder(q, at, log);
      AbsentIn(s, b, side, id);
      assert forall i :: 0 <= i < |q| ==> q[i] in q;
    }
  }

  /** What matching leaves of a queue waits in the same order. */
  lemma RestInOrder(opp: seq<Order>, side: Side, isMarket: bool, limit: int, qty: nat, at: Arrivals, log: seq<Event>)
    requires Positive(opp) && QueueInOrder(opp, at, log)
    ensures QueueInOrder(Match(opp, side, isMarket, limit, qty).rest, at, log)
  {
    hide Match;
    var j := RestOf(opp, side, isMarket, limit, qty);
  }

  /** Behind its place an inserted order finds only worse prices. */
  lemma WorseBehind(side: Side, q: seq<Order>, o: Order, k: nat, j: nat)
    requires Sorted(side, q) && k <= j < |q| && !AtLeastAsGood(side, q[k].price, o.price)
    ensures q[j].price != o.price
  {
    assert k < j ==> AtLeastAsGood(side, q[k].price, q[j].price);
  }

  /** An order that arrives last waits behind its equals. */
  lemma InsertInOrder(side: Side, q: seq<Order>, o: Order, at: Arrivals, log: seq<Event>, e: Event)
    requires Sorted(side, q) && QueueInOrder(q, at, log) && o.id in at && at[o.id] == |log| && GivesPlace(e)
    ensures QueueInOrder(Insert(side, q, o), at, log + [e])
  {
    hide Insert, Sorted;
    var k := InsertFacts(side, q, o);
    var r := Insert(side, q, o);
    forall i | 0 <= i < |r| ensures r[i].id in at && at[r[i].id] < |log + [e]| && GivesPlace((log + [e])[at[r[i].id]]) {
      InsertedAt(q, o, k, i);
    }
    forall i, j | 0 <= i < j < |r| && r[i].price == r[j].price ensures at[r[i].id] < at[r[j].id] {
      InsertedAt(q, o, k, i);
      InsertedAt(q, o, k, j);
      if i == k { WorseBehind(side, q, o, k, j - 1); }
    }
  }

  // Market steps

  lemma ExecuteInOrder(s: State, b: nat, side: Side, isMarket: bool, limit: int, id: uint64, qty: nat, at: Arrivals,
                       log: seq<Event>)
    requires Inv(s) && b < |s.books| && InOrder(s, at, log)
    ensures InOrder(Execute(s, b, side, isMarket, limit, id, qty).0, at, log)
  {
    hide Match, QueueInOrder, BookOk;
    var t := Execute(s, b, side, isMarket, limit, id, qty).0;
    OpenQuantities(s, b, Opposite(side));
    RestInOrder(Queue(s.books[b], Opposite(side)), side, isMarket, limit, qty, at, log);
    forall c: nat, sd | c < |t.books| ensures QueueInOrder(Queue(t.books[c], sd), at, log) {
      assert QueueInOrder(Queue(s.books[c], sd), at, log);
    }
  }

  /** Entering an order whose place the event `e` gave. */
  lemma EnterDayInOrder(s: State, b: nat, side: Side, id: uint64, price: int, qty: nat, filled: nat, at: Arrivals,
                        log: seq<Event>, e: Event)
    requires Inv(s) && b < |s.books| && Absent(s, id) && InOrder(s, at, log)
    requires id in at && at[id] == |log| && GivesPlace(e)
    ensures InOrder(EnterDay(s, b, side, id, price, qty, filled), at, log + [e])
  {
    hide Execute, Insert, QueueInOrder, BookOk, Absent, GivesPlace, InOrder;
    var (t, left) := Execute(s, b, side, false, price, id, qty);
    ExecuteInOrder(s, b, side, false, price, id, qty, at, log);
    ExecuteKeeps(s, b, side, false, price, id, qty);
    LongerLog(t, at, log, log + [e]);
    if left > 0 { RestedInOrder(t, b, side, Order(id, price, left, filled + (qty - left)), at, log, e); }
  }

  lemma RestedInOrder(s: State, b: nat, side: Side, o: Order, at: Arrivals, log: seq<Event>, e: Event)
    requires Inv(s) && b < |s.books| && InOrder(s, at, log) && o.id in at && at[o.id] == |log| && GivesPlace(e)
    ensures InOrder(RestOrder(s, b, side, o), at, log + [e])
  {
    hide Insert, QueueInOrder, GivesPlace;
    LongerLog(s, at, log, log + [e]);
    assert BookOk(s, b);
    var t, q := RestOrder(s, b, side, o), Queue(s.books[b], side);
    InsertInOrder(side, q, o, at, log, e);
    forall c: nat, sd | c < |t.books| ensures QueueInOrder(Queue(t.books[c], sd), at, log + [e]) {
      assert QueueInOrder(Queue(s.books[c], sd), at, log + [e]);
    }
  }

  lemma TakeOutInOrder(s: State, id: uint64, at: Arrivals, log: seq<Event>)
    requires IndexOk(s) && IsOpen(s, id) && InOrder(s, at, log)
    ensures InOrder(TakeOut(s, id), at, log)
  {
    hide QueueInOrder, RemoveAt, Find;
    var (b, side) := s.owner[id];
    var t, q := TakeOut(s, id), Queue(s.books[b], side);
    RemovedInOrder(q, Find(q, id), at, log);
    forall c: nat, sd | c < |t.books| ensures QueueInOrder(Queue(t.books[c], sd), at, log) {
      assert QueueInOrder(Queue(s.books[c], sd), at, log);
    }
  }

  lemma RemovedInOrder(q: seq<Order>, k: nat, at: Arrivals, log: seq<Event>)
    requires k < |q| && (QueueInOrder(q, at, log))
    ensures QueueInOrder(RemoveAt(q, k), at, log)
  {
    var r := RemoveAt(q, k);
    assert forall i :: 0 <= i < |r| ==> r[i] == q[if i < k then i else i + 1];
  }

  /** Substituting an order at its own price and place under an inherited arrival. */
  lemma SubstituteInOrder(s: State, t: State, b: nat, side: Side, k: nat, o: Order, at: Arrivals, log: seq<Event>)
    requires Inv(s) && b < |s.books| && k < |Queue(s.books[b], side)| && InOrder(s, at, log)
    requires Absent(s, o.id) || o.id == Queue(s.books[b], side)[k].id
    requires o.price == Queue(s.books[b], side)[k].price
    requires t.books == s.books[b := SetQueue(s.books[b], side, Queue(s.books[b], side)[k := o])]
    ensures Queue(s.books[b], side)[k].id in at
    ensures InOrder(t, at[o.id := at[Queue(s.books[b], side)[k].id]], log)
  {
    hide QueueInOrder, BookOk, Absent;
    var q := Queue(s.books[b], side);
    assert QueueInOrder(q, at, log);
    ElsewhereDiffers(s, b, side, k, o.id);
    SubstitutedInOrder(q, k, o, at, log);
    var at' := at[o.id := at[q[k].id]];
    forall c: nat, sd | c < |t.books| ensures QueueInOrder(Queue(t.books[c], sd), at', log) {
      assert QueueInOrder(Queue(s.books[c], sd), at, log);
      if (c, sd) != (b, side) {
        if c != b { ElsewhereAbsent(s, b, side, k, o.id, c); }
        OtherInOrder(Queue(s.books[c], sd), at, log, o.id, at[q[k].id]);
      }
    }
  }

  lemma OtherInOrder(q: seq<Order>, at: Arrivals, log: seq<Event>, id: uint64, k: nat)
    requires QueueInOrder(q, at, log) && id !in Ids(q)
    ensures QueueInOrder(q, at[id := k], log)
  {
    assert forall i :: 0 <= i < |q| ==> q[i] in q;
  }

  lemma SubstitutedInOrder(q: seq<Order>, k: nat, o: Order, at: Arrivals, log: seq<Event>)
    requires k < |q| && QueueInOrder(q, at, log) && o.price == q[k].price
    requires forall i :: 0 <= i < |q| && i != k ==> q[i].id != o.id
    ensures q[k].id in at && QueueInOrder(q[k := o], at[o.id := at[q[k].id]], log)
  {
  }

  // Requests

  lemma SameBooksInOrder(s: State, t: State, at: Arrivals, log: seq<Event>)
    requires InOrder(s, at, log) && t.books == s.books
    ensures InOrder(t, at, log)
  {
  }

  lemma AcceptInOrder(s: State, b: nat, o: NewOrder, at: Arrivals)
    requires Inv(s) && b < |s.books| && o.orderId !in s.owner && Acceptable(s, b, o) && InOrder(s, at, s.log)
    ensures var t := Accept(s.(owner := s.owner[o.orderId := (b, o.side)]), b, o);
      InOrder(t, at[o.orderId := |s.log|], s.log + [Accepted(o.orderId)])
  {
    hide Inv, InOrder, QueueInOrder, Execute, EnterDay, FokWalk, Absent, PriceOk;
    var isMarket := o.orderType == OrderType.Market;
    var limit := if isMarket then 0 else o.price;
    var at', log := at[o.orderId := |s.log|], s.log + [Accepted(o.orderId)];
    var u := AcceptedState(s, b, o);
    Newcomer(s, at, s.log, o.orderId, |s.log|);
    SameBooksInOrder(s, u, at', s.log);
    LongerLog(u, at', s.log, log);
    var t := Accept(s.(owner := s.owner[o.orderId := (b, o.side)]), b, o);
    if o.tif == Fok && !FokWalk(Queue(s.books[b], Opposite(o.side)), o.side, isMarket, limit, o.quantity, 0) {
      SameBooksInOrder(u, t, at', log);
    } else if o.tif == Day {
      EnterDayInOrder(u, b, o.side, o.orderId, limit, o.quantity, 0, at', s.log, Accepted(o.orderId));
    } else {
      ExecuteInOrder(u, b, o.side, isMarket, limit, o.orderId, o.quantity, at', log);
      SameBooksInOrder(Execute(u, b, o.side, isMarket, limit, o.orderId, o.quantity).0, t, at', log);
    }
  }

  /** The state in which an accepted order has been announced. */
  lemma AcceptedState(s: State, b: nat, o: NewOrder) returns (u: State)
    requires Inv(s) && b < |s.books| && o.orderId !in s.owner
    ensures u.books == s.books && Inv(u) && Absent(u, o.orderId) && Absent(s, o.orderId)
    ensures u == Emit(s.(owner := s.owner[o.orderId := (b, o.side)]),
                      Accepted(o.orderId)).(asked := s.asked[o.orderId := o.quantity])
  {
    hide BookOk;
    var w := s.(owner := s.owner[o.orderId := (b, o.side)], asked := s.asked[o.orderId := o.quantity]);
    UnusedIsAbsent(s, o.orderId);
    RegisterKeeps(s, w, o.orderId, (b, o.side), Some(o.quantity));
    u := Emit(w, Accepted(o.orderId));
    EmitKeeps(w, Accepted(o.orderId));
  }

  lemma SubmitInOrder(s: State, o: NewOrder, at: Arrivals)
    requires Inv(s) && InOrder(s, at, s.log)
    ensures InOrder(Submit(s, o), Arriving(s, SubmitRequest(o), at), Submit(s, o).log)
  {
    hide BookOk, InOrder, Submit, Accept, OnlyRejects, Acceptable, Absent;
    var at' := Arriving(s, SubmitRequest(o), at);
    if o.orderId !in s.owner {
      UnusedIsAbsent(s, o.orderId);
      Newcomer(s, at, s.log, o.orderId, |s.log|);
    }
    SubmitCases(s, o);
    if OnlyRejects(s, Submit(s, o), o.orderId) {
      RejectInOrder(s, s, Submit(s, o), o.orderId, at');
    } else if OnlyRejects(Consumed(s, o), Submit(s, o), o.orderId) {
      RejectInOrder(s, Consumed(s, o), Submit(s, o), o.orderId, at');
    } else {
      AcceptInOrder(s, s.index[o.instrumentId], o, at);
      AcceptFirst(Consumed(s, o), s.index[o.instrumentId], o);
      LongerLog(Submit(s, o), at', s.log + [Accepted(o.orderId)], Submit(s, o).log);
    }
  }

  lemma RejectInOrder(s: State, u: State, t: State, id: uint64, at: Arrivals)
    requires InOrder(s, at, s.log) && u.books == s.books && u.log == s.log && OnlyRejects(u, t, id)
    ensures InOrder(t, at, t.log)
  {
    hide InOrder;
    RejectIs(u, t, id);
    var reason :| t == Emit(u, Rejected(id, reason));
    SameBooksInOrder(s, t, at, s.log);
    LongerLog(t, at, s.log, t.log);
  }

  lemma CancelInOrder(s: State, id: uint64, at: Arrivals)
    requires Inv(s) && InOrder(s, at, s.log)
    ensures InOrder(Cancel(s, id), at, Cancel(s, id).log)
  {
    hide BookOk, InOrder, TakeOut, OnlyRejects;
    CancelFirst(s, id);
    if s.configured && IsOpen(s, id) {
      TakeOutInOrder(s, id, at, s.log);
      SameBooksInOrder(TakeOut(s, id), Cancel(s, id), at, s.log);
      LongerLog(Cancel(s, id), at, s.log, Cancel(s, id).log);
    } else {
      RejectInOrder(s, s, Cancel(s, id), id, at);
    }
  }

  lemma LosingInOrder(s: State, r: ReplaceOrder, at: Arrivals)
    requires Inv(s) && InOrder(s, at, s.log) && Replaceable(s, r) && LosesPriority(s, r)
    ensures InOrder(Replace(s, r), at[r.newOrderId := |s.log|], Replace(s, r).log)
  {
    hide BookOk, InOrder, EnterDay, Replace, TakeOut, LosesPriority, PriceOk, Absent;
    var (b, side) := s.owner[r.orderId];
    var filled := OpenOrder(s, r.orderId).filled;
    var open: nat := r.newQuantity - filled;
    var t, at' := ReadyToReenter(s, r), at[r.newOrderId := |s.log|];
    var e := Replaced(r.orderId, r.newOrderId, r.newPrice, open);
    LosingKeeps(s, r);
    ReadyKeeps(s, r);
    ReadyLog(s, r);
    TakeOutInOrder(s, r.orderId, at, s.log);
    SameBooksInOrder(TakeOut(s, r.orderId), t, at, s.log);
    Newcomer(t, at, s.log, r.newOrderId, |s.log|);
    EnterDayInOrder(t, b, side, r.newOrderId, r.newPrice, open, filled, at', s.log, e);
    EnterDayLog(t, b, side, r.newOrderId, r.newPrice, open, filled);
    LongerLog(Replace(s, r), at', s.log + [e], Replace(s, r).log);
  }

  lemma InPlaceInOrder(s: State, r: ReplaceOrder, at: Arrivals)
    requires Inv(s) && InOrder(s, at, s.log) && Replaceable(s, r) && !LosesPriority(s, r)
    ensures r.orderId in at && InOrder(Replace(s, r), at[r.newOrderId := at[r.orderId]], Replace(s, r).log)
  {
    hide BookOk, InOrder, Replace, PriceOk, Absent;
    InPlaceIs(s, r);
    var b, side, k := OpenAt(s, r.orderId);
    var o := OpenOrder(s, r.orderId);
    if r.newOrderId != r.orderId { UnusedIsAbsent(s, r.newOrderId); }
    SubstituteInOrder(s, Replace(s, r), b, side, k, Order(r.newOrderId, o.price, r.newQuantity - o.filled, o.filled),
                      at, s.log);
    LongerLog(Replace(s, r), at[r.newOrderId := at[r.orderId]], s.log, Replace(s, r).log);
  }

  lemma ReplaceInOrder(s: State, r: ReplaceOrder, at: Arrivals)
    requires Inv(s) && InOrder(s, at, s.log)
    ensures InOrder(Replace(s, r), Arriving(s, ReplaceRequest(r), at), Replace(s, r).log)
  {
    hide BookOk, InOrder, Replace, OnlyRejects, PriceOk, LosesPriority;
    ReplaceKinds(s, r);
    if Replaceable(s, r) {
      if LosesPriority(s, r) { LosingInOrder(s, r, at); } else { InPlaceInOrder(s, r, at); }
    } else if OnlyRejects(s, Replace(s, r), r.newOrderId) {
      RejectInOrder(s, s, Replace(s, r), r.newOrderId, at);
    } else {
      CancelInOrder(s, r.orderId, at);
    }
  }

  /** A replace that does not take effect is refused or cancels the order. */
  lemma ReplaceKinds(s: State, r: ReplaceOrder)
    requires IndexOk(s)
    ensures Replaceable(s, r) || OnlyRejects(s, Replace(s, r), r.newOrderId) || Replace(s, r) == Cancel(s, r.orderId)
  {
    hide Cancel, EnterDay, TakeOut;
    ReplaceCases(s, r);
  }

  lemma {:induction false} RunInOrder(s: State, reqs: seq<Request>)
    requires Inv(s) && InOrder(s, map[], s.log)
    ensures InOrder(Run(s, reqs), ArrivalsOf(s, reqs), Run(s, reqs).log)
    decreases |reqs|
  {
    hide BookOk, InOrder, Arriving, Submit, Cancel, Replace;
    if |reqs| > 0 {
      var rest := reqs[..|reqs| - 1];
      var t, at := Run(s, rest), ArrivalsOf(s, rest);
      RunInOrder(s, rest);
      match reqs[|reqs| - 1]
      case SubmitRequest(o) => SubmitInOrder(t, o, at);
      case CancelRequest(id) =>
        CancelInOrder(t, id, at);
        CancelArrives(t, id, at);
      case ReplaceRequest(r) => ReplaceInOrder(t, r, at);
    }
  }

  lemma CancelArrives(s: State, id: uint64, at: Arrivals)
    requires Inv(s)
    ensures Arriving(s, CancelRequest(id), at) == at
  {
  }

  /** Time priority: after any run, of two resting orders at the same price the one further ahead arrived
      earlier - its place goes back to an earlier acceptance or priority-losing replace in the log. */
  lemma EarlierArrivalGoesFirst(cfgs: seq<InstrumentConfig>, reqs: seq<Request>, b: nat, side: Side, i: nat, j: nat)
    requires IsValidSetup(cfgs)
    requires Inv(Opening(cfgs, 1, [])) && b < |Run(Opening(cfgs, 1, []), reqs).books|
    requires i < j < |Queue(Run(Opening(cfgs, 1, []), reqs).books[b], side)|
    ensures var s := Opening(cfgs, 1, []);
      var t, at := Run(s, reqs), ArrivalsOf(s, reqs);
      var q := Queue(t.books[b], side);
      && q[i].id in at && q[j].id in at && at[q[i].id] < |t.log| && at[q[j].id] < |t.log|
      && GivesPlace(t.log[at[q[i].id]]) && GivesPlace(t.log[at[q[j].id]])
      && (q[i].price == q[j].price ==> at[q[i].id] < at[q[j].id])
  {
    hide AllValid, Run, ArrivalsOf, BookOk;
    var s := Opening(cfgs, 1, []);
    RunInOrder(s, reqs);
    assert QueueInOrder(Queue(Run(s, reqs).books[b], side), ArrivalsOf(s, reqs), Run(s, reqs).log);
  }
}
