/** The answers of a whole session, in the terms of its configuration and of its requests: over any run every book
    keeps its instrument and band, the band is the configured width, and used ids are those the requests used. */
module RunAnswers {
  import opened Api
  import opened TickTable
  import opened Band
  import opened Market
  import opened MarketInvariant
  import opened MarketRun
  import opened Configuration
  import opened RunLaws
  import opened Answers

  /** The market knows exactly the configured instruments, each under its position and with its band. */
  ghost predicate Serves(s: State, cfgs: seq<InstrumentConfig>) {
    && s.configured && |s.books| == |cfgs|
    && (forall i :: 0 <= i < |cfgs| ==> cfgs[i].instrumentId in s.index && s.index[cfgs[i].instrumentId] == i)
    && (forall inst <- s.index :: s.index[inst] < |cfgs| && cfgs[s.index[inst]].instrumentId == inst)
    && (forall i :: 0 <= i < |cfgs| ==> ServesAt(s.books[i], cfgs[i]))
  }

  ghost predicate ServesAt(book: Book, cfg: InstrumentConfig) {
    book.instrumentId == cfg.instrumentId
    && forall price :: OnTick(price) ==>
      (PriceInBand(book, price) <==> WithinBand(cfg.referencePrice, cfg.bandBps, price))
  }

  lemma EmptyBookServes(cfg: InstrumentConfig)
    requires IsValidConfig(cfg.referencePrice, cfg.bandBps)
    ensures ServesAt(EmptyBook(cfg), cfg)
  {
    hide BandLo, BandHi, IsValidConfig, OnTick;
    forall price | OnTick(price)
      ensures PriceInBand(EmptyBook(cfg), price) <==> WithinBand(cfg.referencePrice, cfg.bandBps, price)
    {
      BandWidth(cfg.referencePrice, cfg.bandBps, price);
    }
  }

  /** A freshly configured market serves its configuration, without orders and without used ids. */
  lemma OpeningServes(cfgs: seq<InstrumentConfig>, nextTrade: nat, log: seq<Event>)
    requires IsValidSetup(cfgs)
    ensures var s := Opening(cfgs, nextTrade, log);
      Serves(s, cfgs) && s.owner == map[] && forall i :: 0 <= i < |cfgs| ==> s.books[i].bids == s.books[i].asks == []
  {
    hide IsValidConfig, IndexMap, ServesAt;
    IndexMapIs(cfgs);
    forall i | 0 <= i < |cfgs| ensures ServesAt(EmptyBook(cfgs[i]), cfgs[i]) { EmptyBookServes(cfgs[i]); }
  }

  /** Requests move orders, not instruments or bands. */
  ghost predicate SameTerms(s: State, t: State) {
    && t.configured == s.configured && t.index == s.index && |t.books| == |s.books|
    && forall c :: 0 <= c < |s.books| ==>
      t.books[c].instrumentId == s.books[c].instrumentId && t.books[c].lo == s.books[c].lo
        && t.books[c].hi == s.books[c].hi
  }

  lemma EnterDayTerms(s: State, b: nat, side: Side, id: uint64, price: int, qty: nat, filled: nat)
    requires b < |s.books|
    ensures SameTerms(s, EnterDay(s, b, side, id, price, qty, filled))
  {
    hide Match, Insert;
  }

  lemma ExecuteTerms(s: State, b: nat, side: Side, isMarket: bool, limit: int, id: uint64, qty: nat)
    requires b < |s.books|
    ensures SameTerms(s, Execute(s, b, side, isMarket, limit, id, qty).0)
  {
    hide Match;
  }

  lemma AcceptTerms(s: State, b: nat, o: NewOrder)
    requires b < |s.books|
    ensures SameTerms(s, Accept(s, b, o))
  {
    hide Execute, EnterDay, FokWalk;
    var t := Emit(s, Accepted(o.orderId)).(asked := s.asked[o.orderId := o.quantity]);
    var isMarket := o.orderType == OrderType.Market;
    var limit := if isMarket then 0 else o.price;
    if o.tif == Day {
      EnterDayTerms(t, b, o.side, o.orderId, limit, o.quantity, 0);
    } else {
      ExecuteTerms(t, b, o.side, isMarket, limit, o.orderId, o.quantity);
    }
  }

  lemma SubmitTerms(s: State, o: NewOrder)
    requires IndexOk(s)
    ensures SameTerms(s, Submit(s, o))
  {
    hide Accept, IsTickAligned;
    if o.instrumentId in s.index { AcceptTerms(Consumed(s, o), s.index[o.instrumentId], o); }
  }

  lemma CancelTerms(s: State, id: uint64)
    requires IndexOk(s)
    ensures SameTerms(s, Cancel(s, id))
  {
    hide Find, RemoveAt;
  }

  lemma ReplaceTerms(s: State, r: ReplaceOrder)
    requires Inv(s)
    ensures SameTerms(s, Replace(s, r))
  {
    ReplaceCases(s, r);
    if Replaceable(s, r) {
      CommitTerms(s, r);
    } else {
      CancelTerms(s, r.orderId);
      RejectTerms(s, Replace(s, r), r.newOrderId);
    }
  }

  lemma CommitTerms(s: State, r: ReplaceOrder)
    requires Inv(s) && Replaceable(s, r)
    ensures SameTerms(s, Replace(s, r))
  {
    hide Replace, EnterDay, BookOk, PriceOk, Find;
    var (b, side) := s.owner[r.orderId];
    var filled := OpenOrder(s, r.orderId).filled;
    if LosesPriority(s, r) {
      ReadyKeeps(s, r);
      LosingKeeps(s, r);
      EnterDayTerms(ReadyToReenter(s, r), b, side, r.newOrderId, r.newPrice, r.newQuantity - filled, filled);
    } else {
      InPlaceIs(s, r);
    }
  }

  lemma RejectTerms(s: State, t: State, id: uint64)
    ensures OnlyRejects(s, t, id) ==> SameTerms(s, t)
  {
  }

  lemma StepKeepsTerms(s: State, req: Request)
    requires Inv(s)
    ensures SameTerms(s, Step(s, req))
  {
    hide BookOk, Submit, Cancel, Replace, SameTerms;
    match req
    case SubmitRequest(o) => SubmitTerms(s, o);
    case CancelRequest(id) => CancelTerms(s, id);
    case ReplaceRequest(r) => ReplaceTerms(s, r);
  }

  lemma {:induction false} RunServes(s: State, reqs: seq<Request>, cfgs: seq<InstrumentConfig>)
    requires Inv(s) && Serves(s, cfgs)
    ensures Serves(Run(s, reqs), cfgs)
    decreases |reqs|
  {
    hide Inv, Step, WithinBand, OnTick;
    if |reqs| > 0 {
      RunServes(s, reqs[..|reqs| - 1], cfgs);
      StepKeepsTerms(Run(s, reqs[..|reqs| - 1]), reqs[|reqs| - 1]);
    }
  }

  // Used ids

  /** This request submits under this id to a configured instrument. */
  predicate SubmitsTo(cfgs: seq<InstrumentConfig>, req: Request, id: uint64) {
    && req.SubmitRequest? && req.order.orderId == id
    && exists c :: 0 <= c < |cfgs| && cfgs[c].instrumentId == req.order.instrumentId
  }

  predicate Submitted(cfgs: seq<InstrumentConfig>, reqs: seq<Request>, id: uint64) {
    exists i :: 0 <= i < |reqs| && SubmitsTo(cfgs, reqs[i], id)
  }

  ghost predicate Introduced(log: seq<Event>, id: uint64) {
    exists j :: 0 <= j < |log| && Introduces(log[j], id)
  }

  /** A replace uses an id up only by saying so. */
  lemma ReplaceUses(s: State, r: ReplaceOrder, id: uint64)
    requires Inv(s)
    ensures s.owner.Keys <= Replace(s, r).owner.Keys
    ensures id in Replace(s, r).owner && id !in s.owner ==> Introduced(Replace(s, r).log, id)
  {
    hide BookOk, Replace, OnTick, PriceInBand, TakenOff, Enters, Answered;
    OpenIsSomewhere(s, r.orderId);
    if s.configured && IsOpen(s, r.orderId) {
      var b, side, k := OpenAt(s, r.orderId);
      ReplaceIs(s, r);
      var x := OpenOrder(s, r.orderId);
      if r.newQuantity <= x.filled {
        ReplaceDownDoes(s, r, b, side, k);
      } else if Revises(s, r, x, s.books[b]) {
        if r.newPrice == x.price && r.newQuantity - x.filled <= x.open {
          ReplaceInPlaceDoes(s, r, b, side, k);
        } else {
          var off, trades := ReplaceMovesDoes(s, r, b, side, k);
        }
        assert id !in s.owner && id == r.newOrderId ==> Introduces(Replace(s, r).log[|s.log|], id);
      }
    } else {
      ReplaceAnswersUnknown(s, r);
    }
  }

  /** One request: what it adds to the used ids. */
  lemma StepUses(s: State, req: Request, cfgs: seq<InstrumentConfig>, id: uint64)
    requires Inv(s) && Serves(s, cfgs)
    ensures s.owner.Keys <= Step(s, req).owner.Keys && s.log <= Step(s, req).log
    ensures id in Step(s, req).owner ==> id in s.owner || SubmitsTo(cfgs, req, id) || Introduced(Step(s, req).log, id)
    ensures SubmitsTo(cfgs, req, id) ==> id in Step(s, req).owner
  {
    var told := StepTells(s, req);
    hide BookOk, Replace, Submit, Cancel, ServesAt, Introduced, Events;
    match req
    case SubmitRequest(o) => SubmitConsumes(s, o);
    case CancelRequest(id) => CancelKeepsIds(s, id);
    case ReplaceRequest(r) => ReplaceUses(s, r, id);
  }

  lemma CancelKeepsIds(s: State, id: uint64)
    requires IndexOk(s)
    ensures Cancel(s, id).owner == s.owner
  {
    hide Find, RemoveAt;
  }

  lemma IntroducedStays(log: seq<Event>, log': seq<Event>, id: uint64)
    requires log <= log' && Introduced(log, id)
    ensures Introduced(log', id)
  {
    var j :| 0 <= j < |log| && Introduces(log[j], id);
    assert log'[j] == log[j];
  }

  /** One request more. */
  lemma SubmittedMore(cfgs: seq<InstrumentConfig>, reqs: seq<Request>, id: uint64)
    requires |reqs| > 0
    ensures Submitted(cfgs, reqs, id) <==>
      Submitted(cfgs, reqs[..|reqs| - 1], id) || SubmitsTo(cfgs, reqs[|reqs| - 1], id)
  {
    hide SubmitsTo;
    var n := |reqs| - 1;
    assert forall i :: 0 <= i < n ==> reqs[..n][i] == reqs[i];
  }

  /** After any run the used ids are those submitted to a configured instrument, accepted or not, and those given to
      replacements. */
  lemma {:induction false} UsedIds(s: State, reqs: seq<Request>, cfgs: seq<InstrumentConfig>, id: uint64)
    requires Inv(s) && Serves(s, cfgs) && IdsOnce(s) && s.owner == map[]
    ensures id in Run(s, reqs).owner <==> Submitted(cfgs, reqs, id) || Introduced(Run(s, reqs).log, id)
    decreases |reqs|
  {
    hide Inv, Step, Serves, Submitted, SubmitsTo, Introduces;
    IdsAcceptedOnce(s, reqs);
    if |reqs| == 0 {
      NothingSubmitted(cfgs, id);
    } else {
      var rest, last := reqs[..|reqs| - 1], reqs[|reqs| - 1];
      UsedIds(s, rest, cfgs, id);
      RunServes(s, rest, cfgs);
      StepUses(Run(s, rest), last, cfgs, id);
      SubmittedMore(cfgs, reqs, id);
      if Introduced(Run(s, rest).log, id) { IntroducedStays(Run(s, rest).log, Run(s, reqs).log, id); }
    }
  }

  lemma NothingSubmitted(cfgs: seq<InstrumentConfig>, id: uint64)
    ensures !Submitted(cfgs, [], id)
  {
  }

  // Submissions in a session

  /** The checks a submission faces at an instrument. */
  predicate Passes(cfg: InstrumentConfig, o: NewOrder) {
    && cfg.instrumentId == o.instrumentId && o.quantity > 0
    && !(o.orderType == OrderType.Market && o.tif == Day)
    && (o.orderType == Limit ==> OnTick(o.price) && WithinBand(cfg.referencePrice, cfg.bandBps, o.price))
  }

  lemma PassesIff(s: State, cfgs: seq<InstrumentConfig>, o: NewOrder)
    requires Inv(s) && Serves(s, cfgs)
    ensures Accepts(s, o) <==> (exists i :: 0 <= i < |cfgs| && Passes(cfgs[i], o)) && o.orderId !in s.owner
  {
    hide WithinBand, OnTick, PriceInBand, BookOk;
    if o.instrumentId in s.index {
      var i := s.index[o.instrumentId];
      assert ServesAt(s.books[i], cfgs[i]);
      assert Accepts(s, o) ==> Passes(cfgs[i], o);
    }
  }

  lemma OpeningIsSilent(cfgs: seq<InstrumentConfig>, nextTrade: nat)
    requires |cfgs| < TWO_32
    ensures IdsOnce(Opening(cfgs, nextTrade, []))
  {
  }

  /** After any requests a submission is accepted exactly when it passes the checks of a configured instrument and
      its id was never submitted to a configured instrument nor given to a replacement. */
  lemma SessionAccepts(cfgs: seq<InstrumentConfig>, reqs: seq<Request>, o: NewOrder)
    requires IsValidSetup(cfgs)
    ensures Inv(Opening(cfgs, 1, []))
    ensures var s := Run(Opening(cfgs, 1, []), reqs);
      Answered(s, Submit(s, o), Accepted(o.orderId)) <==>
        (exists i :: 0 <= i < |cfgs| && Passes(cfgs[i], o)) && !Submitted(cfgs, reqs, o.orderId)
          && !Introduced(s.log, o.orderId)
  {
    hide Inv, AllValid, Opening, Run, Submit, Answered, WithinBand, OnTick, PriceInBand, Introduced, Submitted;
    OpeningKeeps(cfgs, 1, []);
    OpeningServes(cfgs, 1, []);
    var start := Opening(cfgs, 1, []);
    OpeningIsSilent(cfgs, 1);
    RunServes(start, reqs, cfgs);
    UsedIds(start, reqs, cfgs, o.orderId);
    SubmitAnswers(Run(start, reqs), o);
    PassesIff(Run(start, reqs), cfgs, o);
  }
}
