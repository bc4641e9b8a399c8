/** Conservation: what was asked for an order equals what its trades took, what was given up, and what is
    still open - followed through every replacement, and read off the event log alone. */
module Ledger {
  import opened Api
  import opened Market
  import opened MatchTheory
  import opened MarketInvariant
  import opened MarketRun
  import opened Configuration

  // Reading the log

  /** Total quantity of the trades that name the order now called `id`, under this or any earlier id of its
      lineage, since it was accepted. */
  function Traded(log: seq<Event>, id: uint64): nat {
    if |log| == 0 then 0
    else
      var rest := log[..|log| - 1];
      match log[|log| - 1]
      case Accepted(x) => if x == id then 0 else Traded(rest, id)
      case Replaced(prior, next, _, _) => Traded(rest, if next == id then prior else id)
      case Trade(_, _, _, q, resting, aggressor, _) => Traded(rest, id) +
        (if id == resting || id == aggressor then q else 0)
      case _ => Traded(rest, id)
  }

  /** Quantity the order `id` gave up when it was cancelled. */
  function GivenUp(log: seq<Event>, id: uint64): nat {
    if |log| == 0 then 0
    else
      var rest := log[..|log| - 1];
      match log[|log| - 1]
      case Accepted(x) => if x == id then 0 else GivenUp(rest, id)
      case Replaced(_, next, _, _) => if next == id then 0 else GivenUp(rest, id)
      case Canceled(x, q, _) => if x == id then q else GivenUp(rest, id)
      case _ => GivenUp(rest, id)
  }

  /** Whether order `id` has passed on to another id. */
  predicate Superseded(log: seq<Event>, id: uint64) {
    if |log| == 0 then false
    else
      var rest := log[..|log| - 1];
      match log[|log| - 1]
      case Accepted(x) => x != id && Superseded(rest, id)
      case Replaced(prior, next, _, _) => next != id && (prior == id || Superseded(rest, id))
      case _ => Superseded(rest, id)
  }

  // Accounts

  datatype Account = Account(open: nat, filled: nat)

  type Accounts = map<uint64, Account>

  /** Live orders agree with the log; every other order that was not replaced is used up. */
  ghost predicate Balanced(live: Accounts, asked: map<uint64, nat>, log: seq<Event>) {
    && (forall id <- live ::
          && id in asked && !Superseded(log, id) && GivenUp(log, id) == 0
          && live[id].filled == Traded(log, id) && live[id].open + live[id].filled == asked[id])
    && (forall id <- asked :: id !in live && !Superseded(log, id) ==> Traded(log, id) + GivenUp(log, id) == asked[id])
  }

  /** What one more event adds for one id. */
  lemma LogMore(log: seq<Event>, e: Event, id: uint64)
    ensures Traded(log + [e], id) == match e
      case Accepted(x) => if x == id then 0 else Traded(log, id)
      case Replaced(prior, next, _, _) => Traded(log, if next == id then prior else id)
      case Trade(_, _, _, q, resting, aggressor, _) => Traded(log, id) +
        (if id == resting || id == aggressor then q else 0)
      case _ => Traded(log, id)
    ensures GivenUp(log + [e], id) == match e
      case Accepted(x) => if x == id then 0 else GivenUp(log, id)
      case Replaced(_, next, _, _) => if next == id then 0 else GivenUp(log, id)
      case Canceled(x, q, _) => if x == id then q else GivenUp(log, id)
      case _ => GivenUp(log, id)
    ensures Superseded(log + [e], id) == match e
      case Accepted(x) => x != id && Superseded(log, id)
      case Replaced(prior, next, _, _) => next != id && (prior == id || Superseded(log, id))
      case _ => Superseded(log, id)
  {
    assert (log + [e])[..|log|] == log;
  }

  lemma RejectBalances(live: Accounts, asked: map<uint64, nat>, log: seq<Event>, e: Event)
    requires Balanced(live, asked, log) && e.Rejected?
    ensures Balanced(live, asked, log + [e])
  {
    forall id: uint64 { LogMore(log, e, id); }
  }

  lemma AcceptBalances(live: Accounts, asked: map<uint64, nat>, log: seq<Event>, id: uint64, qty: nat)
    requires Balanced(live, asked, log) && id !in asked
    ensures Balanced(live[id := Account(qty, 0)], asked[id := qty], log + [Accepted(id)])
  {
    forall x: uint64 { LogMore(log, Accepted(id), x); }
  }

  function AfterTrade(live: Accounts, resting: uint64, aggressor: uint64, q: nat): Accounts
    requires resting in live && aggressor in live && q <= live[resting].open && q <= live[aggressor].open
  {
    var paid := live[aggressor := Account(live[aggressor].open - q, live[aggressor].filled + q)];
    if q == live[resting].open then paid - {resting}
    else paid[resting := Account(live[resting].open - q, live[resting].filled + q)]
  }

  lemma TradeBalances(live: Accounts, asked: map<uint64, nat>, log: seq<Event>, e: Event)
    requires Balanced(live, asked, log) && e.Trade? && e.restingId != e.aggressorId
    requires AfterTrade.requires(live, e.restingId, e.aggressorId, e.quantity)
    ensures Balanced(AfterTrade(live, e.restingId, e.aggressorId, e.quantity), asked, log + [e])
  {
    forall x: uint64 { LogMore(log, e, x); }
  }

  lemma CancelBalances(live: Accounts, asked: map<uint64, nat>, log: seq<Event>, id: uint64, reason: CancelReason)
    requires Balanced(live, asked, log) && id in live
    ensures Balanced(live - {id}, asked, log + [Canceled(id, live[id].open, reason)])
  {
    forall x: uint64 { LogMore(log, Canceled(id, live[id].open, reason), x); }
  }

  lemma DoneBalances(live: Accounts, asked: map<uint64, nat>, log: seq<Event>, id: uint64)
    requires Balanced(live, asked, log) && id in live && live[id].open == 0
    ensures Balanced(live - {id}, asked, log)
  {
  }

  lemma ReplaceBalances(live: Accounts, asked: map<uint64, nat>, log: seq<Event>, id: uint64, newId: uint64, price: int,
                        open: nat)
    requires Balanced(live, asked, log) && id in live && (newId == id || newId !in asked)
    ensures Balanced((live - {id})[newId := Account(open, live[id].filled)], asked[newId := live[id].filled + open],
                     log + [Replaced(id, newId, price, open)])
  {
    forall x: uint64 { LogMore(log, Replaced(id, newId, price, open), x); }
  }

  // Executions

  /** The accounts show these orders. */
  ghost predicate Shows(live: Accounts, q: seq<Order>) {
    forall i :: 0 <= i < |q| ==> q[i].id in live && live[q[i].id] == Account(q[i].open, q[i].filled)
  }

  /** live' is live after an aggressor's matching, with `left` to go, turned opp into rest. */
  ghost predicate Matches(live: Accounts, live': Accounts, opp: seq<Order>, rest: seq<Order>, left: nat,
                          aggressor: uint64, qty: nat) {
    && aggressor in live && aggressor in live' && left <= qty
    && live'[aggressor] == Account(left, live[aggressor].filled + (qty - left))
    && Shows(live', rest)
    && (forall id <- live' :: id in live && (id in Ids(opp) ==> id in Ids(rest)))
    && (forall id <- live :: id !in Ids(opp) && id != aggressor ==> id in live' && live'[id] == live[id])
  }

  lemma FirstTrade(f: Fill, fills: seq<Fill>, first: nat, inst: uint32, aggressor: uint64, side: Side)
    ensures TradeEvents([f] + fills, first, inst, aggressor, side) ==
      [Trade(first, inst, f.price, f.quantity, f.restingId, aggressor, side)] +
        TradeEvents(fills, first + 1, inst, aggressor, side)
  {
  }

  lemma {:induction false} ExecuteBalances(live: Accounts, asked: map<uint64, nat>, log: seq<Event>, opp: seq<Order>,
                                           side: Side,
      isMarket: bool, limit: int, aggressor: uint64, qty: nat, first: nat, inst: uint32) returns (live': Accounts)
    requires Balanced(live, asked, log) && aggressor in live && live[aggressor].open == qty
    requires Shows(live, opp) && DistinctIds(opp) && Positive(opp) && aggressor !in Ids(opp)
    ensures var m := Match(opp, side, isMarket, limit, qty);
      && Balanced(live', asked, log + TradeEvents(m.fills, first, inst, aggressor, side))
      && Matches(live, live', opp, m.rest, m.left, aggressor, qty)
    decreases |opp|
  {
    hide Balanced, Shows, Matches, AfterTrade, DistinctIds, TradeEvents, Ids;
    var m := Match(opp, side, isMarket, limit, qty);
    if qty == 0 || |opp| == 0 || !Marketable(side, isMarket, limit, opp[0].price) {
      live' := live;
      NothingMatched(live, log, opp, first, inst, aggressor, side, qty);
    } else {
      var o := opp[0];
      var q := Min(o.open, qty);
      var e := Trade(first, inst, o.price, q, o.id, aggressor, side);
      FirstReady(live, opp, aggressor, q);
      var live1 := AfterTrade(live, o.id, aggressor, q);
      TradeBalances(live, asked, log, e);
      if o.open <= qty {
        ShowsRest(live, opp, aggressor, q);
        live' := ExecuteBalances(live1, asked, log +
          [e], opp[1..], side, isMarket, limit, aggressor, qty - o.open, first + 1, inst);
        var m1 := Match(opp[1..], side, isMarket, limit, qty - o.open);
        FirstTrade(Fill(o.id, o.price, o.open), m1.fills, first, inst, aggressor, side);
        assert log + [e] + TradeEvents(m1.fills, first + 1, inst, aggressor, side)
            == log + ([e] + TradeEvents(m1.fills, first + 1, inst, aggressor, side));
        MatchesOn(live, live1, live', opp, m1.rest, m1.left, aggressor, qty);
      } else {
        live' := live1;
        FirstTrade(Fill(o.id, o.price, q), [], first, inst, aggressor, side);
        assert TradeEvents([], first + 1, inst, aggressor, side) == [];
        assert [Fill(o.id, o.price, q)] + [] == [Fill(o.id, o.price, q)] && [e] + [] == [e];
        PartMatches(live, opp, aggressor, qty);
      }
    }
  }

  lemma NothingMatched(live: Accounts, log: seq<Event>, opp: seq<Order>, first: nat, inst: uint32, aggressor: uint64,
                       side: Side, qty: nat)
    requires aggressor in live && live[aggressor].open == qty && Shows(live, opp) && aggressor !in Ids(opp)
    ensures log + TradeEvents([], first, inst, aggressor, side) == log
    ensures Matches(live, live, opp, opp, qty, aggressor, qty)
  {
  }

  lemma FirstReady(live: Accounts, opp: seq<Order>, aggressor: uint64, q: nat)
    requires |opp| > 0 && Shows(live, opp) && aggressor in live && aggressor !in Ids(opp) && q <= opp[0].open
    requires q <= live[aggressor].open
    requires Positive(opp)
    ensures opp[0].id != aggressor && AfterTrade.requires(live, opp[0].id, aggressor, q)
    ensures q == opp[0].open <==> q == live[opp[0].id].open
    ensures (q == live[aggressor].open) ==> aggressor in AfterTrade(live, opp[0].id, aggressor, q)
    ensures aggressor in AfterTrade(live, opp[0].id, aggressor, q)
      && AfterTrade(live, opp[0].id, aggressor, q)[aggressor].open == live[aggressor].open - q
    ensures Positive(opp[1..])
  {
    assert opp[0] in opp;
  }

  lemma ShowsRest(live: Accounts, opp: seq<Order>, aggressor: uint64, q: nat)
    requires |opp| > 0 && Shows(live, opp) && DistinctIds(opp) && aggressor in live && aggressor !in Ids(opp)
    requires q == opp[0].open <= live[aggressor].open
    ensures AfterTrade.requires(live, opp[0].id, aggressor, q)
    ensures var live1 := AfterTrade(live, opp[0].id, aggressor, q);
      Shows(live1, opp[1..]) && DistinctIds(opp[1..]) && aggressor !in Ids(opp[1..]) && aggressor in live1
  {
    assert forall i :: 0 <= i < |opp| ==> opp[i] in opp;
  }

  lemma MatchesOn(live: Accounts, live1: Accounts, live': Accounts, opp: seq<Order>, rest: seq<Order>, left: nat,
                  aggressor: uint64, qty: nat)
    requires |opp| > 0 && Shows(live, opp) && DistinctIds(opp) && aggressor in live && aggressor !in Ids(opp)
    requires opp[0].open <= qty == live[aggressor].open && AfterTrade.requires(live, opp[0].id, aggressor, opp[0].open)
    requires live1 == AfterTrade(live, opp[0].id, aggressor, opp[0].open)
    requires Matches(live1, live', opp[1..], rest, left, aggressor, qty - opp[0].open)
    ensures Matches(live, live', opp, rest, left, aggressor, qty)
  {
    assert opp[0] in opp && Ids(opp) == Ids(opp[1..]) + {opp[0].id} by {
      assert forall o :: o in opp <==> o == opp[0] || o in opp[1..];
    }
  }

  lemma PartMatches(live: Accounts, opp: seq<Order>, aggressor: uint64, qty: nat)
    requires |opp| > 0 && Shows(live, opp) && DistinctIds(opp) && aggressor in live && aggressor !in Ids(opp)
    requires 0 < qty == live[aggressor].open < opp[0].open
    ensures AfterTrade.requires(live, opp[0].id, aggressor, qty)
    ensures Matches(live, AfterTrade(live, opp[0].id, aggressor, qty), opp, [Filled(opp[0], qty)] +
      opp[1..], 0, aggressor, qty)
  {
    hide Ids;
    IdsFilled(opp, qty);
  }

  /** A partial fill changes no id. */
  lemma IdsFilled(opp: seq<Order>, part: nat)
    requires |opp| > 0 && part <= opp[0].open
    ensures Ids([Filled(opp[0], part)] + opp[1..]) == Ids(opp)
    ensures forall i :: 0 <= i < |opp| ==> opp[i].id in Ids(opp)
  {
    var rest := [Filled(opp[0], part)] + opp[1..];
    forall i | 0 <= i < |opp| ensures opp[i].id in Ids(opp) && rest[i].id == opp[i].id && rest[i] in rest {
      assert opp[i] in opp;
    }
    forall o <- opp ensures o.id in Ids(rest) { var i :| 0 <= i < |opp| && opp[i] == o; }
    forall o <- rest ensures o.id in Ids(opp) { var i :| 0 <= i < |rest| && rest[i] == o; }
  }

  // The market's accounts

  /** The accounts of the orders resting in the market. */
  ghost function LiveOrders(s: State): Accounts
    requires IndexOk(s)
  {
    map id | id in s.owner.Keys && IsOpen(s, id) :: Account(OpenOrder(s, id).open, OpenOrder(s, id).filled)
  }

  /** An order with this id rests in some queue. */
  ghost predicate Somewhere(s: State, id: uint64) {
    exists b: nat, side: Side :: b < |s.books| && id in Ids(Queue(s.books[b], side))
  }

  /** The market's accounts show every queue, and nothing else. */
  lemma LiveShows(s: State, b: nat, side: Side)
    requires Inv(s) && b < |s.books|
    ensures Shows(LiveOrders(s), Queue(s.books[b], side))
  {
    var q := Queue(s.books[b], side);
    QueueDistinct(s, b, side);
    forall i | 0 <= i < |q| ensures q[i].id in LiveOrders(s) &&
      LiveOrders(s)[q[i].id] == Account(q[i].open, q[i].filled) {
      assert BookOk(s, b);
      assert OrderOk(s, b, side, q[i]);
      FindIs(q, i);
    }
  }

  lemma LiveSomewhere(s: State, id: uint64)
    requires Inv(s) && id in LiveOrders(s)
    ensures Somewhere(s, id)
  {
    var b, side, k := OpenAt(s, id);
    assert Queue(s.books[b], side)[k] in Queue(s.books[b], side);
  }

  lemma LiveShown(s: State, accounts: Accounts, id: uint64)
    requires Inv(s) && id in LiveOrders(s)
    requires forall b: nat, side :: b < |s.books| ==> Shows(accounts, Queue(s.books[b], side))
    ensures id in accounts && accounts[id] == LiveOrders(s)[id]
  {
    hide BookOk;
    var b, side, k := OpenAt(s, id);
    assert Shows(accounts, Queue(s.books[b], side));
  }

  lemma SomewhereLives(s: State, id: uint64)
    requires Inv(s) && Somewhere(s, id)
    ensures id in LiveOrders(s)
  {
    hide BookOk, IsOpen;
    var b: nat, side: Side :| b < |s.books| && id in Ids(Queue(s.books[b], side));
    LiveShows(s, b, side);
    var q := Queue(s.books[b], side);
    var i :| 0 <= i < |q| && q[i].id == id;
  }

  /** Accounts that show every queue, and no id that rests nowhere, are the market's. */
  lemma LiveIs(s: State, accounts: Accounts)
    requires Inv(s)
    requires forall b: nat, side :: b < |s.books| ==> Shows(accounts, Queue(s.books[b], side))
    requires forall id <- accounts :: Somewhere(s, id)
    ensures LiveOrders(s) == accounts
  {
    hide BookOk, OpenOrder, IsOpen, Somewhere, Shows;
    forall id | id in LiveOrders(s) ensures id in accounts && accounts[id] == LiveOrders(s)[id] {
      LiveShown(s, accounts, id);
    }
    forall id | id in accounts ensures id in LiveOrders(s) { SomewhereLives(s, id); }
  }

  /** Two queues share no id. */
  lemma HomesApart(s: State, b: nat, side: Side, c: nat, sd: Side)
    requires Inv(s) && b < |s.books| && c < |s.books| && (b, side) != (c, sd)
    ensures Ids(Queue(s.books[b], side)) !! Ids(Queue(s.books[c], sd))
  {
    var p, q := Queue(s.books[b], side), Queue(s.books[c], sd);
    assert BookOk(s, b) && BookOk(s, c);
    forall o <- p, x <- q ensures o.id != x.id {
      var i :| 0 <= i < |p| && p[i] == o;
      var j :| 0 <= j < |q| && q[j] == x;
      assert OrderOk(s, b, side, p[i]) && OrderOk(s, c, sd, q[j]);
    }
  }

  lemma ShowsSubset(live: Accounts, live': Accounts, q: seq<Order>)
    requires Shows(live, q)
    requires forall id <- live :: id in Ids(q) ==> id in live' && live'[id] == live[id]
    ensures Shows(live', q)
  {
    assert forall i :: 0 <= i < |q| ==> q[i] in q;
  }

  // What each market step does to the accounts

  lemma PlaceIs(s: State, b: nat, side: Side, id: uint64)
    requires b < |s.books| && id in Ids(Queue(s.books[b], side))
    ensures Somewhere(s, id)
  {
  }

  /** The same books have the same accounts. */
  lemma LiveSame(s: State, t: State)
    requires Inv(s) && Inv(t) && t.books == s.books
    ensures LiveOrders(t) == LiveOrders(s)
  {
    hide BookOk, Shows, LiveOrders;
    forall b: nat, side | b < |t.books| ensures Shows(LiveOrders(s), Queue(t.books[b], side)) { LiveShows(s, b, side); }
    forall id | id in LiveOrders(s) ensures Somewhere(t, id) { LiveSomewhere(s, id); }
    LiveIs(t, LiveOrders(s));
  }

  /** A queue the change did not reach keeps its place and its accounts. */
  ghost predicate OtherQueues(s: State, t: State, b: nat, side: Side) {
    && b < |s.books| == |t.books|
    && forall c: nat, sd :: c < |s.books| && (c, sd) != (b, side) ==> Queue(t.books[c], sd) == Queue(s.books[c], sd)
  }

  /** Accounts after one queue changed: as before for ids of other queues, and showing the new queue. */
  lemma LiveAfter(s: State, t: State, b: nat, side: Side, accounts: Accounts)
    requires Inv(s) && Inv(t) && OtherQueues(s, t, b, side) && Shows(accounts, Queue(t.books[b], side))
    requires forall id <- LiveOrders(s) ::
      id in Ids(Queue(s.books[b], side)) || id in Ids(Queue(t.books[b], side))
      || (id in accounts && accounts[id] == LiveOrders(s)[id])
    requires forall id <- accounts ::
      id in Ids(Queue(t.books[b], side)) || (id in LiveOrders(s) && id !in Ids(Queue(s.books[b], side)))
    ensures LiveOrders(t) == accounts
  {
    hide BookOk, Shows, LiveOrders, Ids;
    forall c: nat, sd | c < |t.books| ensures Shows(accounts, Queue(t.books[c], sd)) {
      if (c, sd) != (b, side) {
        LiveShows(s, c, sd);
        HomesApart(s, c, sd, b, side);
        HomesApart(t, c, sd, b, side);
        ShowsSubset(LiveOrders(s), accounts, Queue(s.books[c], sd));
      }
    }
    forall id | id in accounts ensures Somewhere(t, id) {
      if id in Ids(Queue(t.books[b], side)) { PlaceIs(t, b, side, id); } else { PlaceKept(s, t, b, side, id); }
    }
    LiveIs(t, accounts);
  }

  lemma PlaceKept(s: State, t: State, b: nat, side: Side, id: uint64)
    requires Inv(s) && OtherQueues(s, t, b, side) && id in LiveOrders(s) && id !in Ids(Queue(s.books[b], side))
    ensures Somewhere(t, id)
  {
    hide Inv, LiveOrders, Ids;
    LiveSomewhere(s, id);
    var c: nat, sd: Side :| c < |s.books| && id in Ids(Queue(s.books[c], sd));
    PlaceIs(t, c, sd, id);
  }

  lemma AbsentIds(s: State, b: nat, side: Side, id: uint64)
    requires Absent(s, id) && b < |s.books|
    ensures id !in Ids(Queue(s.books[b], side))
  {
  }

  /** An id that rests nowhere has no account. */
  lemma AbsentNotLive(s: State, id: uint64)
    requires Inv(s) && Absent(s, id)
    ensures id !in LiveOrders(s)
  {
    hide BookOk, Ids, Absent, LiveOrders;
    if id in LiveOrders(s) {
      LiveSomewhere(s, id);
      var b: nat, side: Side :| b < |s.books| && id in Ids(Queue(s.books[b], side));
      AbsentIds(s, b, side, id);
    }
  }

  /** After an execution the market's accounts are the ledger's but for the aggressor. */
  lemma LiveAfterExecute(s: State, b: nat, side: Side, isMarket: bool, limit: int, id: uint64, qty: nat, live: Accounts,
                         live': Accounts)
    requires Inv(s) && b < |s.books| && Absent(s, id) && live.Keys == LiveOrders(s).Keys + {id}
    requires forall x <- LiveOrders(s) :: live[x] == LiveOrders(s)[x]
    requires var m := Match(Queue(s.books[b], Opposite(side)), side, isMarket, limit, qty);
      Matches(live, live', Queue(s.books[b], Opposite(side)), m.rest, m.left, id, qty)
    ensures var t := Execute(s, b, side, isMarket, limit, id, qty).0;
      Inv(t) && LiveOrders(t) == live' - {id}
  {
    hide BookOk, LiveOrders, Match, Absent, Ids;
    var t := Execute(s, b, side, isMarket, limit, id, qty).0;
    ExecuteKeeps(s, b, side, isMarket, limit, id, qty);
    ExecuteAbsent(s, b, side, isMarket, limit, id, qty);
    AbsentIds(s, b, Opposite(side), id);
    AbsentIds(t, b, Opposite(side), id);
    AbsentNotLive(s, id);
    var rest := Queue(t.books[b], Opposite(side));
    ShowsSubset(live', live' - {id}, rest);
    LiveAfter(s, t, b, Opposite(side), live' - {id});
  }

  /** Resting an order opens its account. */
  lemma LiveAfterRest(s: State, b: nat, side: Side, o: Order)
    requires Inv(s) && b < |s.books| && Absent(s, o.id) && Inv(RestOrder(s, b, side, o))
    ensures LiveOrders(RestOrder(s, b, side, o)) == LiveOrders(s)[o.id := Account(o.open, o.filled)]
  {
    hide BookOk, LiveOrders, Insert, Absent;
    var t, q := RestOrder(s, b, side, o), Queue(s.books[b], side);
    AbsentIds(s, b, side, o.id);
    AbsentNotLive(s, o.id);
    LiveShows(s, b, side);
    InsertIds(side, q, o);
    var accounts := LiveOrders(s)[o.id := Account(o.open, o.filled)];
    InsertShows(side, q, o, LiveOrders(s));
    LiveAfter(s, t, b, side, accounts);
  }

  lemma InsertIds(side: Side, q: seq<Order>, o: Order)
    ensures Ids(Insert(side, q, o)) == Ids(q) + {o.id}
  {
    var k := InsertFacts(side, q, o);
    var r := Insert(side, q, o);
    assert forall x :: x in r <==> x == o || x in q by {
      assert q == q[..k] + q[k..];
      assert r == q[..k] + [o] + q[k..];
    }
  }

  lemma InsertShows(side: Side, q: seq<Order>, o: Order, live: Accounts)
    requires Shows(live, q) && o.id !in Ids(q)
    ensures Shows(live[o.id := Account(o.open, o.filled)], Insert(side, q, o))
  {
    var r := Insert(side, q, o);
    forall i | 0 <= i < |r| ensures r[i].id in live[o.id := Account(o.open, o.filled)]
      && live[o.id := Account(o.open, o.filled)][r[i].id] == Account(r[i].open, r[i].filled) {
      InsertMembers(side, q, o, i);
    }
  }

  /** Taking an order out closes its account. */
  lemma LiveAfterTakeOut(s: State, id: uint64)
    requires Inv(s) && IsOpen(s, id)
    ensures Inv(TakeOut(s, id)) && LiveOrders(TakeOut(s, id)) == LiveOrders(s) - {id}
  {
    hide BookOk, LiveOrders, Absent, Ids, RemoveAt, OrderOk;
    var b, side, k := OpenAt(s, id);
    var t, q := TakeOut(s, id), Queue(s.books[b], side);
    TakeOutKeeps(s, id);
    QueueDistinct(s, b, side);
    LiveShows(s, b, side);
    RemoveIds(q, k);
    AbsentIds(t, b, side, id);
    RemoveShows(q, k, LiveOrders(s));
    LiveAfter(s, t, b, side, LiveOrders(s) - {id});
  }

  lemma RemoveIds(q: seq<Order>, k: nat)
    requires DistinctIds(q) && k < |q|
    ensures Ids(RemoveAt(q, k)) == Ids(q) - {q[k].id} && q[k].id in Ids(q)
  {
    var r := RemoveAt(q, k);
    assert q == q[..k] + [q[k]] + q[k + 1..];
    assert forall x :: x in q <==> x == q[k] || x in r;
    assert q[k] in q;
    assert forall i :: 0 <= i < |r| ==> r[i] == q[if i < k then i else i + 1] && r[i].id != q[k].id;
  }

  lemma RemoveShows(q: seq<Order>, k: nat, live: Accounts)
    requires Shows(live, q) && DistinctIds(q) && k < |q|
    ensures Shows(live - {q[k].id}, RemoveAt(q, k))
  {
    var r := RemoveAt(q, k);
    assert forall i :: 0 <= i < |r| ==> r[i] == q[if i < k then i else i + 1];
  }

  /** Substituting an order moves its account to the new id. */
  lemma LiveAfterSubstitute(s: State, t: State, b: nat, side: Side, k: nat, o: Order)
    requires Inv(s) && Inv(t) && b < |s.books| && k < |Queue(s.books[b], side)|
    requires Absent(s, o.id) || o.id == Queue(s.books[b], side)[k].id
    requires t.books == s.books[b := SetQueue(s.books[b], side, Queue(s.books[b], side)[k := o])]
    ensures LiveOrders(t) == (LiveOrders(s) - {Queue(s.books[b], side)[k].id})[o.id := Account(o.open, o.filled)]
  {
    hide BookOk, LiveOrders, Absent, Ids;
    var q := Queue(s.books[b], side);
    QueueDistinct(s, b, side);
    LiveShows(s, b, side);
    if o.id != q[k].id {
      AbsentIds(s, b, side, o.id);
      AbsentNotLive(s, o.id);
    }
    UpdateIds(q, k, o);
    UpdateShows(q, k, o, LiveOrders(s));
    LiveAfter(s, t, b, side, (LiveOrders(s) - {q[k].id})[o.id := Account(o.open, o.filled)]);
  }

  lemma UpdateIds(q: seq<Order>, k: nat, o: Order)
    requires DistinctIds(q) && k < |q|
    ensures Ids(q[k := o]) == Ids(q) - {q[k].id} + {o.id} && q[k].id in Ids(q)
  {
    var r := q[k := o];
    assert q[k] in q && r[k] in r;
    forall x <- q ensures x.id in Ids(r) || x == q[k] { var i :| 0 <= i < |q| && q[i] == x; assert r[i] in r; }
    forall x <- r ensures x == o || (x.id in Ids(q) && x.id != q[k].id) {
      var i :| 0 <= i < |r| && r[i] == x;
      assert i != k ==> q[i] in q;
    }
  }

  lemma UpdateShows(q: seq<Order>, k: nat, o: Order, live: Accounts)
    requires Shows(live, q) && DistinctIds(q) && k < |q| && (o.id !in Ids(q) || o.id == q[k].id)
    ensures Shows((live - {q[k].id})[o.id := Account(o.open, o.filled)], q[k := o])
  {
    assert forall i :: 0 <= i < |q| ==> q[i] in q;
  }

  // Every request keeps the ledger

  /** The market's accounts balance against the log. */
  ghost predicate Ledgered(s: State)
    requires IndexOk(s)
  {
    Balanced(LiveOrders(s), s.asked, s.log)
  }

  /** Executing an order with an account: the ledger stays balanced, the market shows all but its account. */
  lemma ExecuteLedger(s: State, b: nat, side: Side, isMarket: bool, limit: int, id: uint64, qty: nat, filled: nat)
    returns (live': Accounts)
    requires Inv(s) && b < |s.books| && Absent(s, id)
    requires Balanced(LiveOrders(s)[id := Account(qty, filled)], s.asked, s.log)
    ensures var (t, left) := Execute(s, b, side, isMarket, limit, id, qty);
      && Inv(t) && Absent(t, id) && left <= qty && t.asked == s.asked && t.owner == s.owner
      && Balanced(live', t.asked, t.log) && LiveOrders(t) == live' - {id}
      && id in live' && live'[id] == Account(left, filled + (qty - left))
  {
    hide BookOk, LiveOrders, Match, Absent, Balanced, Shows;
    var opp := Queue(s.books[b], Opposite(side));
    var live := LiveOrders(s)[id := Account(qty, filled)];
    AbsentIds(s, b, Opposite(side), id);
    AbsentNotLive(s, id);
    LiveShows(s, b, Opposite(side));
    ShowsSubset(LiveOrders(s), live, opp);
    QueueDistinct(s, b, Opposite(side));
    OpenQuantities(s, b, Opposite(side));
    live' := ExecuteBalances(live, s.asked, s.log, opp, side, isMarket, limit, id, qty, s.nextTrade,
                             s.books[b].instrumentId);
    LiveAfterExecute(s, b, side, isMarket, limit, id, qty, live, live');
    ExecuteAbsent(s, b, side, isMarket, limit, id, qty);
  }

  lemma EnterDayLedger(s: State, b: nat, side: Side, id: uint64, price: int, qty: nat, filled: nat)
    requires Registered(s) && Inv(s) && b < |s.books| && Absent(s, id)
    requires id in s.owner && s.owner[id] == (b, side) && id in s.asked && s.asked[id] == filled + qty
    requires s.books[b].lo <= price <= s.books[b].hi && PriceOk(price)
    requires Balanced(LiveOrders(s)[id := Account(qty, filled)], s.asked, s.log)
    ensures Inv(EnterDay(s, b, side, id, price, qty, filled)) && Ledgered(EnterDay(s, b, side, id, price, qty, filled))
  {
    hide BookOk, LiveOrders, Execute, Absent, Balanced, PriceOk;
    var (t, left) := Execute(s, b, side, false, price, id, qty);
    var live': Accounts := ExecuteLedger(s, b, side, false, price, id, qty, filled);
    EnterDayKeeps(s, b, side, id, price, qty, filled);
    if left > 0 {
      LiveAfterRest(t, b, side, Order(id, price, left, filled + (qty - left)));
      assert (live' - {id})[id := live'[id]] == live';
    } else {
      DoneBalances(live', t.asked, t.log, id);
    }
  }

  lemma CancelRestLedger(s: State, b: nat, side: Side, isMarket: bool, limit: int, id: uint64, qty: nat,
                         reason: CancelReason)
    requires Inv(s) && b < |s.books| && Absent(s, id) && Balanced(LiveOrders(s)[id := Account(qty, 0)], s.asked, s.log)
    ensures var (t, left) := Execute(s, b, side, isMarket, limit, id, qty);
      && (left == 0 ==> Inv(t) && Ledgered(t))
      && (left > 0 ==> Inv(Emit(t, Canceled(id, left, reason))) && Ledgered(Emit(t, Canceled(id, left, reason))))
  {
    hide BookOk, LiveOrders, Execute, Absent, Balanced;
    var (t, left) := Execute(s, b, side, isMarket, limit, id, qty);
    var live': Accounts := ExecuteLedger(s, b, side, isMarket, limit, id, qty, 0);
    if left == 0 {
      DoneBalances(live', t.asked, t.log, id);
    } else {
      CancelBalances(live', t.asked, t.log, id, reason);
      EmitKeeps(t, Canceled(id, left, reason));
      LiveSame(t, Emit(t, Canceled(id, left, reason)));
    }
  }

  /** The state in which an accepted order has its account. */
  lemma AcceptedLedger(s: State, b: nat, o: NewOrder) returns (u: State)
    requires Inv(s) && Ledgered(s) && b < |s.books| && o.orderId !in s.owner
    ensures u == Emit(s.(owner := s.owner[o.orderId := (b, o.side)]),
                      Accepted(o.orderId)).(asked := s.asked[o.orderId := o.quantity])
    ensures Inv(u) && Absent(u, o.orderId) && LiveOrders(u) == LiveOrders(s)
    ensures Balanced(LiveOrders(u)[o.orderId := Account(o.quantity, 0)], u.asked, u.log)
  {
    hide BookOk, LiveOrders, Absent, Balanced;
    var w := s.(owner := s.owner[o.orderId := (b, o.side)], asked := s.asked[o.orderId := o.quantity]);
    UnusedIsAbsent(s, o.orderId);
    RegisterKeeps(s, w, o.orderId, (b, o.side), Some(o.quantity));
    u := Emit(w, Accepted(o.orderId));
    EmitKeeps(w, Accepted(o.orderId));
    EmitAbsent(w, Accepted(o.orderId), o.orderId);
    LiveSame(s, u);
    AcceptBalances(LiveOrders(s), s.asked, s.log, o.orderId, o.quantity);
  }

  lemma EmitAbsent(s: State, e: Event, id: uint64)
    requires Absent(s, id)
    ensures Absent(Emit(s, e), id)
  {
  }

  lemma AcceptLedger(s: State, b: nat, o: NewOrder)
    requires Inv(s) && Ledgered(s) && b < |s.books| && o.orderId !in s.owner && Acceptable(s, b, o)
    ensures var t := Accept(s.(owner := s.owner[o.orderId := (b, o.side)]), b, o); Inv(t) && Ledgered(t)
  {
    hide BookOk, LiveOrders, Absent, Balanced, Execute, EnterDay, FokWalk, PriceOk;
    var isMarket := o.orderType == OrderType.Market;
    var limit := if isMarket then 0 else o.price;
    var t := Accept(s.(owner := s.owner[o.orderId := (b, o.side)]), b, o);
    var u := AcceptedLedger(s, b, o);
    var live := LiveOrders(u)[o.orderId := Account(o.quantity, 0)];
    if o.tif == Fok && !FokWalk(Queue(s.books[b], Opposite(o.side)), o.side, isMarket, limit, o.quantity, 0) {
      CancelBalances(live, u.asked, u.log, o.orderId, FokUnfillable);
      EmitKeeps(u, Canceled(o.orderId, o.quantity, FokUnfillable));
      LiveSame(u, t);
      AbsentNotLive(u, o.orderId);
      assert live - {o.orderId} == LiveOrders(u);
    } else if o.tif == Day {
      EnterDayLedger(u, b, o.side, o.orderId, limit, o.quantity, 0);
    } else {
      CancelRestLedger(u, b, o.side, isMarket, limit, o.orderId, o.quantity,
        if isMarket then NoLiquidity else if o.tif == Ioc then IocRemainder else FokUnfillable);
    }
  }

  lemma RejectLedger(s: State, u: State, t: State, id: uint64)
    requires Inv(s) && Ledgered(s) && Inv(u) && u.books == s.books && u.asked == s.asked && u.log == s.log
    requires OnlyRejects(u, t, id)
    ensures Inv(t) && Ledgered(t)
  {
    hide BookOk, LiveOrders, Balanced;
    var reason :| t == Emit(u, Rejected(id, reason));
    EmitKeeps(u, Rejected(id, reason));
    LiveSame(s, t);
    RejectBalances(LiveOrders(s), s.asked, s.log, Rejected(id, reason));
  }

  lemma SubmitLedger(s: State, o: NewOrder)
    requires Inv(s) && Ledgered(s)
    ensures Inv(Submit(s, o)) && Ledgered(Submit(s, o))
  {
    hide BookOk, Submit, Accept, Ledgered, OnlyRejects, Acceptable;
    SubmitCases(s, o);
    if OnlyRejects(s, Submit(s, o), o.orderId) {
      RejectLedger(s, s, Submit(s, o), o.orderId);
    } else if OnlyRejects(Consumed(s, o), Submit(s, o), o.orderId) {
      ConsumedKeeps(s, o);
      RejectLedger(s, Consumed(s, o), Submit(s, o), o.orderId);
    } else {
      AcceptLedger(s, s.index[o.instrumentId], o);
    }
  }

  lemma CancelLedger(s: State, id: uint64)
    requires Inv(s) && Ledgered(s)
    ensures Inv(Cancel(s, id)) && Ledgered(Cancel(s, id))
  {
    hide BookOk, LiveOrders, Balanced, TakeOut, OpenOrder, OnlyRejects;
    CancelKeeps(s, id);
    if s.configured && IsOpen(s, id) {
      var live, open := LiveOrders(s), OpenOrder(s, id).open;
      AccountIs(s, id);
      TakeOutParts(s, id);
      LiveAfterTakeOut(s, id);
      CancelBalances(live, s.asked, s.log, id, UserRequested);
      LiveSame(TakeOut(s, id), Cancel(s, id));
    } else {
      CancelRejects(s, id);
      RejectLedger(s, s, Cancel(s, id), id);
    }
  }

  lemma CancelRejects(s: State, id: uint64)
    requires IndexOk(s) && !(s.configured && IsOpen(s, id))
    ensures OnlyRejects(s, Cancel(s, id), id)
  {
  }

  lemma TakeOutParts(s: State, id: uint64)
    requires IndexOk(s) && IsOpen(s, id)
    ensures TakeOut(s, id).asked == s.asked && TakeOut(s, id).log == s.log
  {
  }

  lemma AccountIs(s: State, id: uint64)
    requires IndexOk(s) && IsOpen(s, id)
    ensures id in LiveOrders(s) && LiveOrders(s)[id] == Account(OpenOrder(s, id).open, OpenOrder(s, id).filled)
  {
  }

  lemma LosingLedger(s: State, r: ReplaceOrder)
    requires Inv(s) && Ledgered(s) && Replaceable(s, r) && LosesPriority(s, r)
    ensures Inv(Replace(s, r)) && Ledgered(Replace(s, r))
  {
    hide BookOk, LiveOrders, Balanced, EnterDay, TakeOut, OpenOrder, Replace, LosesPriority, PriceOk;
    LosingKeeps(s, r);
    var (b, side) := s.owner[r.orderId];
    var filled := OpenOrder(s, r.orderId).filled;
    var open: nat := r.newQuantity - filled;
    var t := ReadyToReenter(s, r);
    ReadyKeeps(s, r);
    AccountIs(s, r.orderId);
    TakeOutParts(s, r.orderId);
    LiveAfterTakeOut(s, r.orderId);
    LiveSame(TakeOut(s, r.orderId), t);
    ReplaceBalances(LiveOrders(s), s.asked, s.log, r.orderId, r.newOrderId, r.newPrice, open);
    EnterDayLedger(t, b, side, r.newOrderId, r.newPrice, open, filled);
  }

  lemma InPlaceLedger(s: State, r: ReplaceOrder)
    requires Inv(s) && Ledgered(s) && Replaceable(s, r) && !LosesPriority(s, r)
    ensures Inv(Replace(s, r)) && Ledgered(Replace(s, r))
  {
    hide BookOk, LiveOrders, Balanced, Replace, LosesPriority, PriceOk;
    InPlaceKeeps(s, r);
    InPlaceIs(s, r);
    var b, side, k := OpenAt(s, r.orderId);
    var o := OpenOrder(s, r.orderId);
    if r.newOrderId != r.orderId { UnusedIsAbsent(s, r.newOrderId); }
    AccountIs(s, r.orderId);
    LiveAfterSubstitute(s, Replace(s, r), b, side, k, Order(r.newOrderId, o.price, r.newQuantity - o.filled, o.filled));
    ReplaceBalances(LiveOrders(s), s.asked, s.log, r.orderId, r.newOrderId, r.newPrice, r.newQuantity - o.filled);
  }

  lemma ReplaceLedger(s: State, r: ReplaceOrder)
    requires Inv(s) && Ledgered(s)
    ensures Inv(Replace(s, r)) && Ledgered(Replace(s, r))
  {
    hide BookOk, Replace, Cancel, Ledgered, OnlyRejects, LosesPriority, PriceOk;
    ReplaceCases(s, r);
    if OnlyRejects(s, Replace(s, r), r.newOrderId) {
      RejectLedger(s, s, Replace(s, r), r.newOrderId);
    } else if Replace(s, r) == Cancel(s, r.orderId) {
      CancelLedger(s, r.orderId);
    } else if LosesPriority(s, r) {
      LosingLedger(s, r);
    } else {
      InPlaceLedger(s, r);
    }
  }

  lemma {:induction false} RunLedger(s: State, reqs: seq<Request>)
    requires Inv(s) && Ledgered(s)
    ensures Ledgered(Run(s, reqs))
    decreases |reqs|
  {
    hide BookOk, Submit, Cancel, Replace, Ledgered;
    if |reqs| > 0 {
      var t := Run(s, reqs[..|reqs| - 1]);
      RunLedger(s, reqs[..|reqs| - 1]);
      match reqs[|reqs| - 1]
      case SubmitRequest(o) => SubmitLedger(t, o);
      case CancelRequest(id) => CancelLedger(t, id);
      case ReplaceRequest(r) => ReplaceLedger(t, r);
    }
  }

  /** Conservation over any run after configuration: for an order that was accepted and not passed on to
      another id, what was last asked for is what its lineage traded plus what is open while it rests, and
      plus what was given up once it does not. A resting order's filled quantity is what its lineage traded. */
  lemma OrdersAreConserved(cfgs: seq<InstrumentConfig>, reqs: seq<Request>, id: uint64)
    requires IsValidSetup(cfgs)
    ensures Inv(Opening(cfgs, 1, []))
    ensures var t := Run(Opening(cfgs, 1, []), reqs);
      id in t.asked && !Superseded(t.log, id) ==>
        var open := if IsOpen(t, id) then OpenOrder(t, id).open else 0;
        && Traded(t.log, id) + GivenUp(t.log, id) + open == t.asked[id] < TWO_32
        && (IsOpen(t, id) ==> OpenOrder(t, id).filled == Traded(t.log, id) && open > 0 && GivenUp(t.log, id) == 0)
  {
    OpeningKeeps(cfgs, 1, []);
    hide AllValid, BookOk, Run;
    var s := Opening(cfgs, 1, []);
    assert LiveOrders(s) == map[];
    RunLedger(s, reqs);
    var t := Run(s, reqs);
    if id in t.asked && !Superseded(t.log, id) && IsOpen(t, id) {
      AccountIs(t, id);
      var b, side, k := OpenAt(t, id);
    }
  }
}
