/** Laws of whole runs: trade ids count trades, every id is accepted at most once, and there are never more
    trades than requests. */
module RunLaws {
  import opened Api
  import opened Market
  import opened MatchTheory
  import opened MarketInvariant
  import opened MarketRun
  import opened Configuration

  // What one request adds to the log

  /** The events of one request: at most one that opens it, its trades, at most one that closes it. */
  datatype Told = Told(opening: seq<Event>, fills: seq<Fill>, inst: uint32, aggressor: uint64, side: Side,
                       closing: seq<Event>)

  function Events(told: Told, first: nat): seq<Event> {
    told.opening + TradeEvents(told.fills, first, told.inst, told.aggressor, told.side) + told.closing
  }

  /** An event that brings an id into use. */
  predicate Introduces(e: Event, id: uint64) {
    (e.Accepted? && e.orderId == id) || (e.Replaced? && e.newId == id && e.oldId != id)
  }

  ghost predicate TellsOf(s: State, t: State, told: Told) {
    && t.log == s.log + Events(told, s.nextTrade) && t.nextTrade == s.nextTrade + |told.fills|
    && |told.opening| <= 1 && |told.closing| <= 1
    && (forall e <- told.opening :: !e.Trade?)
    && (forall e <- told.closing :: e.Canceled?)
    && (forall e <- told.opening, id: uint64 :: Introduces(e, id) ==> id !in s.owner && id in t.owner)
    && s.owner.Keys <= t.owner.Keys
  }

  lemma NoFillsTold(s: State, t: State, e: Event)
    requires t.log == s.log + [e] && t.nextTrade == s.nextTrade && s.owner.Keys <= t.owner.Keys && !e.Trade?
    requires forall id: uint64 :: Introduces(e, id) ==> id !in s.owner && id in t.owner
    ensures TellsOf(s, t, Told([e], [], 0, 0, Buy, []))
  {
    var told := Told([e], [], 0, 0, Buy, []);
    assert Events(told, s.nextTrade) == [e];
  }

  lemma EnterDayTold(s: State, u: State, b: nat, side: Side, id: uint64, price: int, qty: nat, filled: nat, e: Event)
    returns (told: Told)
    requires b < |u.books| && u.log == s.log + [e] && u.nextTrade == s.nextTrade && s.owner.Keys <= u.owner.Keys
    requires !e.Trade?
    requires forall id: uint64 :: Introduces(e, id) ==> id !in s.owner && id in u.owner
    ensures TellsOf(s, EnterDay(u, b, side, id, price, qty, filled), told)
  {
    hide Match;
    var m := Match(Queue(u.books[b], Opposite(side)), side, false, price, qty);
    told := Told([e], m.fills, u.books[b].instrumentId, id, side, []);
    var trades := TradeEvents(m.fills, s.nextTrade, u.books[b].instrumentId, id, side);
    assert Events(told, s.nextTrade) == [e] + trades;
    assert s.log + [e] + trades == s.log + ([e] + trades);
  }

  lemma AcceptTold(s: State, b: nat, o: NewOrder) returns (told: Told)
    requires b < |s.books| && o.orderId !in s.owner
    ensures TellsOf(s, Accept(s.(owner := s.owner[o.orderId := (b, o.side)]), b, o), told)
  {
    hide Match, FokWalk, EnterDay;
    var isMarket := o.orderType == OrderType.Market;
    var limit := if isMarket then 0 else o.price;
    var u := Emit(s.(owner := s.owner[o.orderId := (b, o.side)]),
                  Accepted(o.orderId)).(asked := s.asked[o.orderId := o.quantity]);
    var t := Accept(s.(owner := s.owner[o.orderId := (b, o.side)]), b, o);
    var opp := Queue(s.books[b], Opposite(o.side));
    if o.tif == Fok && !FokWalk(opp, o.side, isMarket, limit, o.quantity, 0) {
      told := Told([Accepted(o.orderId)], [], 0, 0, Buy, [Canceled(o.orderId, o.quantity, FokUnfillable)]);
      assert Events(told, s.nextTrade) == [Accepted(o.orderId), Canceled(o.orderId, o.quantity, FokUnfillable)];
      assert t.log == s.log + Events(told, s.nextTrade);
    } else if o.tif == Day {
      told := EnterDayTold(s, u, b, o.side, o.orderId, limit, o.quantity, 0, Accepted(o.orderId));
    } else {
      told := ExecuteTold(s, u, t, b, o.side, isMarket, limit, o.orderId, o.quantity, Accepted(o.orderId));
    }
  }

  /** An execution whose remainder, if any, is cancelled. */
  lemma ExecuteTold(s: State, u: State, t: State, b: nat, side: Side, isMarket: bool, limit: int, id: uint64, qty: nat,
                    e: Event)
    returns (told: Told)
    requires b < |u.books| && u.log == s.log + [e] && u.nextTrade == s.nextTrade && s.owner.Keys <= u.owner.Keys
    requires !e.Trade?
    requires forall id: uint64 :: Introduces(e, id) ==> id !in s.owner && id in u.owner
    requires var (w, left) := Execute(u, b, side, isMarket, limit, id, qty);
      t == w || (left > 0 && exists reason :: t == Emit(w, Canceled(id, left, reason)))
    ensures TellsOf(s, t, told)
  {
    hide Match;
    var (w, left) := Execute(u, b, side, isMarket, limit, id, qty);
    var m := Match(Queue(u.books[b], Opposite(side)), side, isMarket, limit, qty);
    var trades := TradeEvents(m.fills, s.nextTrade, u.books[b].instrumentId, id, side);
    if t == w {
      told := Told([e], m.fills, u.books[b].instrumentId, id, side, []);
      assert Events(told, s.nextTrade) == [e] + trades;
      assert s.log + [e] + trades == s.log + ([e] + trades);
    } else {
      var reason :| t == Emit(w, Canceled(id, left, reason));
      told := Told([e], m.fills, u.books[b].instrumentId, id, side, [Canceled(id, left, reason)]);
      assert s.log + [e] + trades + [Canceled(id, left, reason)] ==
        s.log + ([e] + trades + [Canceled(id, left, reason)]);
    }
  }

  /** Every request tells at most one opening event, its trades in order, and at most one closing event. */
  lemma StepTells(s: State, req: Request) returns (told: Told)
    requires Inv(s)
    ensures TellsOf(s, Step(s, req), told)
  {
    match req
    case SubmitRequest(o) => told := SubmitTells(s, o);
    case CancelRequest(id) => told := CancelTells(s, id);
    case ReplaceRequest(r) => told := ReplaceTells(s, r);
  }

  lemma RejectTells(s: State, u: State, t: State, id: uint64) returns (told: Told)
    requires OnlyRejects(u, t, id) && u.log == s.log && u.nextTrade == s.nextTrade && s.owner.Keys <= u.owner.Keys
    ensures TellsOf(s, t, told)
  {
    var reason :| t == Emit(u, Rejected(id, reason));
    told := Told([Rejected(id, reason)], [], 0, 0, Buy, []);
    NoFillsTold(s, t, Rejected(id, reason));
  }

  lemma SubmitTells(s: State, o: NewOrder) returns (told: Told)
    requires Inv(s)
    ensures TellsOf(s, Submit(s, o), told)
  {
    hide BookOk, Submit, Accept, TellsOf, OnlyRejects, Acceptable;
    SubmitCases(s, o);
    if OnlyRejects(s, Submit(s, o), o.orderId) {
      told := RejectTells(s, s, Submit(s, o), o.orderId);
    } else if OnlyRejects(Consumed(s, o), Submit(s, o), o.orderId) {
      told := RejectTells(s, Consumed(s, o), Submit(s, o), o.orderId);
    } else {
      told := AcceptTold(s, s.index[o.instrumentId], o);
    }
  }

  lemma CancelTells(s: State, id: uint64) returns (told: Told)
    requires IndexOk(s)
    ensures TellsOf(s, Cancel(s, id), told)
  {
    hide TellsOf, Find, RemoveAt;
    var e := Cancel(s, id).log[|s.log|];
    told := Told([e], [], 0, 0, Buy, []);
    NoFillsTold(s, Cancel(s, id), e);
  }

  lemma ReplaceTells(s: State, r: ReplaceOrder) returns (told: Told)
    requires Inv(s)
    ensures TellsOf(s, Replace(s, r), told)
  {
    hide BookOk, Replace, Cancel, EnterDay, TellsOf, OnlyRejects, PriceOk, LosesPriority;
    ReplaceCases(s, r);
    if OnlyRejects(s, Replace(s, r), r.newOrderId) {
      told := RejectTells(s, s, Replace(s, r), r.newOrderId);
    } else if Replace(s, r) == Cancel(s, r.orderId) {
      told := CancelTells(s, r.orderId);
    } else {
      told := CommitTells(s, r);
    }
  }

  lemma CommitTells(s: State, r: ReplaceOrder) returns (told: Told)
    requires Inv(s) && Replaceable(s, r)
    ensures TellsOf(s, Replace(s, r), told)
  {
    hide BookOk, EnterDay, TellsOf, PriceOk, Cancel;
    var (b, side) := s.owner[r.orderId];
    var filled := OpenOrder(s, r.orderId).filled;
    var e := Replaced(r.orderId, r.newOrderId, r.newPrice, r.newQuantity - filled);
    if LosesPriority(s, r) {
      LosingKeeps(s, r);
      ReadyKeeps(s, r);
      told := EnterDayTold(s, ReadyToReenter(s, r), b, side, r.newOrderId, r.newPrice, r.newQuantity - filled, filled,
                           e);
    } else {
      InPlaceIs(s, r);
      told := Told([e], [], 0, 0, Buy, []);
      NoFillsTold(s, Replace(s, r), e);
    }
  }

  // Trade ids

  /** The trades of a log, in order. */
  function TradesOf(log: seq<Event>): (r: seq<Event>) {
    if |log| == 0 then []
    else TradesOf(log[..|log| - 1]) + (if log[|log| - 1].Trade? then [log[|log| - 1]] else [])
  }

  lemma {:induction false} TradesOfConcat(a: seq<Event>, b: seq<Event>)
    ensures TradesOf(a + b) == TradesOf(a) + TradesOf(b)
  {
    if |b| == 0 {
      assert a + b == a;
    } else {
      TradesOfConcat(a, b[..|b| - 1]);
      assert (a + b)[..|a + b| - 1] == a + b[..|b| - 1];
    }
  }

  lemma {:induction false} NoTradesIn(log: seq<Event>)
    requires forall e <- log :: !e.Trade?
    ensures TradesOf(log) == []
  {
    if |log| > 0 {
      assert log[|log| - 1] in log;
      NoTradesIn(log[..|log| - 1]);
    }
  }

  lemma {:induction false} AllTradesIn(log: seq<Event>)
    requires forall e <- log :: e.Trade?
    ensures TradesOf(log) == log
  {
    if |log| > 0 {
      assert log[|log| - 1] in log;
      AllTradesIn(log[..|log| - 1]);
      assert log == log[..|log| - 1] + [log[|log| - 1]];
    }
  }

  /** Trade ids are 1, 2, 3, ... without a gap and the next one is known. */
  ghost predicate Numbered(s: State) {
    var trades := TradesOf(s.log);
    |trades| + 1 == s.nextTrade && forall k :: 0 <= k < |trades| ==> trades[k].Trade? && trades[k].tradeId == k + 1
  }

  lemma ToldTrades(told: Told, first: nat)
    requires (forall e <- told.opening :: !e.Trade?) && (forall e <- told.closing :: e.Canceled?)
    ensures TradesOf(Events(told, first)) == TradeEvents(told.fills, first, told.inst, told.aggressor, told.side)
  {
    hide TradesOf;
    var trades := TradeEvents(told.fills, first, told.inst, told.aggressor, told.side);
    assert forall e <- trades :: e.Trade?;
    NoTradesIn(told.opening);
    AllTradesIn(trades);
    NoTradesIn(told.closing);
    TradesOfConcat(told.opening, trades);
    TradesOfConcat(told.opening + trades, told.closing);
  }

  lemma StepNumbers(s: State, req: Request)
    requires Inv(s) && Numbered(s)
    ensures Numbered(Step(s, req))
  {
    hide Inv, Step, TradesOf;
    var told := StepTells(s, req);
    ToldTrades(told, s.nextTrade);
    TradesOfConcat(s.log, Events(told, s.nextTrade));
  }

  /** Over any run the engine's trade ids stay 1, 2, 3, ... without a gap. */
  lemma {:induction false} TradeIdsCount(s: State, reqs: seq<Request>)
    requires Inv(s) && Numbered(s)
    ensures Numbered(Run(s, reqs))
    decreases |reqs|
  {
    hide Inv, Step, Numbered;
    if |reqs| > 0 {
      TradeIdsCount(s, reqs[..|reqs| - 1]);
      StepNumbers(Run(s, reqs[..|reqs| - 1]), reqs[|reqs| - 1]);
    }
  }

  // Ids

  /** Every id the log introduces is taken for good, and introduced once. */
  ghost predicate IdsOnce(s: State) {
    && (forall i, id: uint64 :: 0 <= i < |s.log| && Introduces(s.log[i], id) ==> id in s.owner)
    && (forall i, j, id: uint64 :: 0 <= i < j < |s.log| && Introduces(s.log[i], id) ==> !Introduces(s.log[j], id))
  }

  lemma EventAt(told: Told, first: nat, i: nat)
    requires i < |Events(told, first)|
    ensures var e := Events(told, first)[i];
      if i < |told.opening| then e in told.opening else e.Trade? || e in told.closing
  {
    var trades := TradeEvents(told.fills, first, told.inst, told.aggressor, told.side);
    var j := i - |told.opening|;
    assert Events(told, first) == told.opening + (trades + told.closing);
    assert 0 <= j < |trades| ==> (trades + told.closing)[j] == trades[j];
    assert |trades| <= j ==> (trades + told.closing)[j] == told.closing[j - |trades|];
  }

  /** Only the opening event of a request introduces an id, and only a fresh one. */
  lemma ToldIntroduces(s: State, t: State, told: Told, i: nat, id: uint64)
    requires TellsOf(s, t, told) && |s.log| <= i < |t.log| && Introduces(t.log[i], id)
    ensures i == |s.log| && id !in s.owner && id in t.owner
  {
    hide Events;
    assert t.log[i] == Events(told, s.nextTrade)[i - |s.log|];
    EventAt(told, s.nextTrade, i - |s.log|);
  }

  /** Where an introduction can stand once a request was served. */
  lemma IntroducedAt(s: State, t: State, told: Told, i: nat, id: uint64)
    requires TellsOf(s, t, told) && IdsOnce(s) && i < |t.log| && Introduces(t.log[i], id)
    ensures id in t.owner
    ensures if i < |s.log| then t.log[i] == s.log[i] && id in s.owner else i == |s.log| && id !in s.owner
  {
    hide Introduces, Events;
    if i < |s.log| { assert t.log[i] == s.log[i]; } else { ToldIntroduces(s, t, told, i, id); }
  }

  lemma StepIdsOnce(s: State, req: Request)
    requires Inv(s) && IdsOnce(s)
    ensures IdsOnce(Step(s, req))
  {
    hide Inv, Step, Introduces, TellsOf;
    var told := StepTells(s, req);
    var t := Step(s, req);
    forall i, id: uint64 | 0 <= i < |t.log| && Introduces(t.log[i], id) ensures id in t.owner {
      IntroducedAt(s, t, told, i, id);
    }
    forall i, j, id: uint64 | 0 <= i < j < |t.log| && Introduces(t.log[i], id) ensures !Introduces(t.log[j], id) {
      IntroducedAt(s, t, told, i, id);
      if Introduces(t.log[j], id) { IntroducedAt(s, t, told, j, id); }
    }
  }

  /** Over any run an id is accepted, or given to a replacement, at most once. */
  lemma {:induction false} IdsAcceptedOnce(s: State, reqs: seq<Request>)
    requires Inv(s) && IdsOnce(s)
    ensures IdsOnce(Run(s, reqs))
    decreases |reqs|
  {
    hide Inv, Step, IdsOnce;
    if |reqs| > 0 {
      IdsAcceptedOnce(s, reqs[..|reqs| - 1]);
      StepIdsOnce(Run(s, reqs[..|reqs| - 1]), reqs[|reqs| - 1]);
    }
  }

  // How many trades there can be

  function Resting(b: Book): nat {
    |b.bids| + |b.asks|
  }

  function RestingIn(books: seq<Book>): nat {
    if |books| == 0 then 0 else RestingIn(books[..|books| - 1]) + Resting(books[|books| - 1])
  }

  lemma {:induction false} RestingUpdate(books: seq<Book>, b: nat, book: Book)
    requires b < |books|
    ensures RestingIn(books[b := book]) + Resting(books[b]) == RestingIn(books) + Resting(book)
  {
    var n := |books| - 1;
    if b < n {
      RestingUpdate(books[..n], b, book);
      assert books[b := book][..n] == books[..n][b := book];
    } else {
      assert books[b := book][..n] == books[..n];
    }
  }

  /** One request makes at most one trade more than the resting orders it uses up. */
  ghost predicate Affordable(s: State, t: State) {
    t.nextTrade + RestingIn(t.books) <= s.nextTrade + RestingIn(s.books) + 1
  }

  lemma ExecuteAffords(s: State, b: nat, side: Side, isMarket: bool, limit: int, id: uint64, qty: nat)
    requires b < |s.books|
    ensures var (t, left) := Execute(s, b, side, isMarket, limit, id, qty);
      t.nextTrade + RestingIn(t.books) <= s.nextTrade + RestingIn(s.books) + (if left > 0 then 0 else 1)
  {
    hide Match, RestingIn;
    var opp := Queue(s.books[b], Opposite(side));
    var j, part := MatchConsumes(opp, side, isMarket, limit, qty);
    RestingUpdate(s.books, b, SetQueue(s.books[b], Opposite(side), Match(opp, side, isMarket, limit, qty).rest));
  }

  lemma {:induction false} InsertLength(side: Side, q: seq<Order>, o: Order)
    ensures |Insert(side, q, o)| == |q| + 1
  {
    var k := InsertFacts(side, q, o);
  }

  lemma EnterDayAffords(s: State, b: nat, side: Side, id: uint64, price: int, qty: nat, filled: nat)
    requires b < |s.books|
    ensures Affordable(s, EnterDay(s, b, side, id, price, qty, filled))
  {
    hide Execute, RestingIn, Insert;
    var (t, left) := Execute(s, b, side, false, price, id, qty);
    ExecuteAffords(s, b, side, false, price, id, qty);
    var q, o := Queue(t.books[b], side), Order(id, price, left, filled + (qty - left));
    InsertLength(side, q, o);
    RestingUpdate(t.books, b, SetQueue(t.books[b], side, Insert(side, q, o)));
  }

  lemma AcceptAffords(s: State, b: nat, o: NewOrder)
    requires b < |s.books|
    ensures Affordable(s, Accept(s, b, o))
  {
    hide Execute, EnterDay, RestingIn, FokWalk;
    var isMarket := o.orderType == OrderType.Market;
    var limit := if isMarket then 0 else o.price;
    var t := Emit(s, Accepted(o.orderId)).(asked := s.asked[o.orderId := o.quantity]);
    EnterDayAffords(t, b, o.side, o.orderId, limit, o.quantity, 0);
    ExecuteAffords(t, b, o.side, isMarket, limit, o.orderId, o.quantity);
  }

  lemma TakeOutAffords(s: State, id: uint64)
    requires IndexOk(s) && IsOpen(s, id)
    ensures RestingIn(TakeOut(s, id).books) + 1 == RestingIn(s.books)
  {
    hide RestingIn, Find;
    var (b, side) := s.owner[id];
    var q := Queue(s.books[b], side);
    RestingUpdate(s.books, b, SetQueue(s.books[b], side, RemoveAt(q, Find(q, id))));
  }

  lemma StepAffords(s: State, req: Request)
    requires Inv(s)
    ensures Affordable(s, Step(s, req))
  {
    hide BookOk, Submit, Replace, Accept, RestingIn, OnlyRejects, EnterDay;
    match req
    case SubmitRequest(o) => SubmitAffords(s, o);
    case CancelRequest(id) => if IsOpen(s, id) { TakeOutAffords(s, id); }
    case ReplaceRequest(r) => ReplaceAffords(s, r);
  }

  lemma RejectAffords(s: State, u: State, t: State, id: uint64)
    requires OnlyRejects(u, t, id) && u.books == s.books && u.nextTrade == s.nextTrade
    ensures Affordable(s, t)
  {
  }

  lemma SubmitAffords(s: State, o: NewOrder)
    requires IndexOk(s)
    ensures Affordable(s, Submit(s, o))
  {
    hide Submit, Accept, OnlyRejects, RestingIn, Acceptable;
    SubmitCases(s, o);
    if OnlyRejects(s, Submit(s, o), o.orderId) {
      RejectAffords(s, s, Submit(s, o), o.orderId);
    } else if OnlyRejects(Consumed(s, o), Submit(s, o), o.orderId) {
      RejectAffords(s, Consumed(s, o), Submit(s, o), o.orderId);
    } else {
      AcceptAffords(Consumed(s, o), s.index[o.instrumentId], o);
    }
  }

  lemma ReplaceAffords(s: State, r: ReplaceOrder)
    requires Inv(s)
    ensures Affordable(s, Replace(s, r))
  {
    hide BookOk, EnterDay, OnlyRejects, RestingIn, PriceOk, Find;
    ReplaceCases(s, r);
    if OnlyRejects(s, Replace(s, r), r.newOrderId) {
      RejectAffords(s, s, Replace(s, r), r.newOrderId);
    } else {
      TakeOutAffords(s, r.orderId);
      if Replaceable(s, r) { CommitAffords(s, r); }
    }
  }

  lemma CommitAffords(s: State, r: ReplaceOrder)
    requires Inv(s) && Replaceable(s, r)
    ensures Affordable(s, Replace(s, r))
  {
    hide BookOk, EnterDay, RestingIn, PriceOk, Find, Cancel;
    var (b, side) := s.owner[r.orderId];
    if LosesPriority(s, r) {
      LosingKeeps(s, r);
      ReadyKeeps(s, r);
      TakeOutAffords(s, r.orderId);
      var filled := OpenOrder(s, r.orderId).filled;
      EnterDayAffords(ReadyToReenter(s, r), b, side, r.newOrderId, r.newPrice, r.newQuantity - filled, filled);
    } else {
      var q := Queue(s.books[b], side);
      var o := OpenOrder(s, r.orderId);
      RestingUpdate(s.books, b, SetQueue(s.books[b], side,
        q[Find(q, r.orderId) := Order(r.newOrderId, o.price, r.newQuantity - o.filled, o.filled)]));
    }
  }

  /** Over any run, trades and resting orders together grow by at most one per request. */
  lemma {:induction false} RunAffords(s: State, reqs: seq<Request>)
    requires Inv(s)
    ensures Run(s, reqs).nextTrade + RestingIn(Run(s, reqs).books) <= s.nextTrade + RestingIn(s.books) + |reqs|
    decreases |reqs|
  {
    hide Inv, Step, RestingIn;
    if |reqs| > 0 {
      RunAffords(s, reqs[..|reqs| - 1]);
      StepAffords(Run(s, reqs[..|reqs| - 1]), reqs[|reqs| - 1]);
    }
  }

  lemma {:induction false} NothingResting(books: seq<Book>)
    requires forall b :: 0 <= b < |books| ==> Resting(books[b]) == 0
    ensures RestingIn(books) == 0
  {
    if |books| > 0 { NothingResting(books[..|books| - 1]); }
  }

  /** From a fresh configuration there are at most as many trades as requests, so a run of fewer than 2^64
      requests never exhausts the 64-bit trade ids; and the ids are 1, 2, 3, ... in order. */
  lemma TradesBounded(cfgs: seq<InstrumentConfig>, reqs: seq<Request>)
    requires IsValidSetup(cfgs)
    ensures Inv(Opening(cfgs, 1, []))
    ensures var t := Run(Opening(cfgs, 1, []), reqs);
      && Numbered(t) && |TradesOf(t.log)| <= |reqs| && IdsOnce(t)
  {
    hide AllValid, Run;
    OpeningKeeps(cfgs, 1, []);
    var s := Opening(cfgs, 1, []);
    NothingResting(s.books);
    RunAffords(s, reqs);
    TradeIdsCount(s, reqs);
    IdsAcceptedOnce(s, reqs);
  }
}
