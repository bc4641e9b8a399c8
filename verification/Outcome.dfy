/** What matching takes, in the terms of the order and of the queue it meets: which resting prices an order
    accepts, how much that offers over the whole queue, and exactly which trades and which queue result. */
module Outcome {
  import opened Api
  import opened Market
  import opened MatchTheory
  import opened MarketInvariant

  /** The resting prices an order trades at: a limit order's up to its limit, a market order's all. */
  predicate Takes(side: Side, limit: Option<int>, price: int) {
    match limit
    case None => true
    case Some(p) => if side == Buy then price <= p else price >= p
  }

  /** The open quantity, anywhere in the queue, at prices the order takes. */
  function Offered(q: seq<Order>, side: Side, limit: Option<int>): nat {
    if |q| == 0 then 0
    else (if Takes(side, limit, q[0].price) then q[0].open else 0) + Offered(q[1..], side, limit)
  }

  function LimitOf(isMarket: bool, limit: int): Option<int> {
    if isMarket then None else Some(limit)
  }

  lemma {:induction false} AllOffered(q: seq<Order>, side: Side, limit: Option<int>)
    requires forall i :: 0 <= i < |q| ==> Takes(side, limit, q[i].price)
    ensures Offered(q, side, limit) == Sum(q)
  {
    if |q| > 0 { AllOffered(q[1..], side, limit); }
  }

  /** When an order takes exactly the first n orders of a queue, those are what is offered. */
  lemma {:induction false} OfferedPrefix(q: seq<Order>, side: Side, limit: Option<int>, n: nat)
    requires n <= |q|
    requires forall i :: 0 <= i < |q| ==> (Takes(side, limit, q[i].price) <==> i < n)
    ensures Offered(q, side, limit) == Sum(q[..n])
  {
    if |q| > 0 {
      OfferedPrefix(q[1..], side, limit, if n == 0 then 0 else n - 1);
      if n > 0 {
        assert q[..n] == [q[0]] + q[1..][..n - 1];
        SumSplit([q[0]], q[1..][..n - 1]);
        assert Sum([q[0]]) == q[0].open + Sum([]);
      } else {
        assert q[1..][..0] == q[..0];
      }
    }
  }

  // Market orders

  /** Every price is good enough for a market order. */
  lemma {:induction false} MarketCrossesAll(q: seq<Order>, side: Side, limit: int)
    ensures Crossing(q, side, true, limit) == q
  {
    if |q| > 0 { MarketCrossesAll(q[1..], side, limit); }
  }

  /** A market order trades until it is filled or the other side is empty, whatever the prices. */
  lemma MarketTakesAll(q: seq<Order>, side: Side, limit: int, qty: nat)
    ensures var m := Match(q, side, true, limit, qty);
      qty - m.left == Min(qty, Sum(q)) && (m.left > 0 ==> m.rest == [])
  {
    MarketCrossesAll(q, side, limit);
    MaximalExecution(q, side, true, limit, qty);
    var j, part := MatchConsumes(q, side, true, limit, qty);
    CrossingIsPrefix(q, side, true, limit);
  }

  /** Below 2^32 a market fill-or-kill order passes exactly when the other side holds enough. */
  lemma MarketFok(q: seq<Order>, side: Side, limit: int, needed: nat)
    requires Positive(q) && 0 < needed && Sum(q) < TWO_32
    ensures FokWalk(q, side, true, limit, needed, 0) <==> Sum(q) >= needed
  {
    MarketCrossesAll(q, side, limit);
    FokDecision(q, side, true, limit, needed);
  }

  // Limit orders

  /** A limit order trades at no price worse than its limit, and if it is not filled every order it leaves on the
      other side is priced beyond the limit. */
  lemma LimitRespected(q: seq<Order>, side: Side, limit: int, qty: nat)
    requires Sorted(Opposite(side), q)
    ensures var m := Match(q, side, false, limit, qty);
      && (forall f <- m.fills :: if side == Buy then f.price <= limit else f.price >= limit)
      && (m.left > 0 ==> forall o <- m.rest :: if side == Buy then o.price > limit else o.price < limit)
  {
    hide Match;
    Priority(q, side, false, limit, qty);
    NothingMarketableLeft(q, side, false, limit, qty);
  }

  // Both kinds of order

  lemma CrossingIsOffered(q: seq<Order>, side: Side, isMarket: bool, limit: int)
    requires Sorted(Opposite(side), q)
    ensures var c := Crossing(q, side, isMarket, limit);
      && |c| <= |q| && c == q[..|c|]
      && (forall i :: 0 <= i < |q| ==> (Takes(side, LimitOf(isMarket, limit), q[i].price) <==> i < |c|))
      && Sum(c) == Offered(q, side, LimitOf(isMarket, limit))
  {
    var n := |Crossing(q, side, isMarket, limit)|;
    CrossingIsPrefix(q, side, isMarket, limit);
    forall i | 0 <= i < |q| ensures Takes(side, LimitOf(isMarket, limit), q[i].price) <==> i < n {
      assert n < i ==> AtLeastAsGood(Opposite(side), q[n].price, q[i].price);
    }
    OfferedPrefix(q, side, LimitOf(isMarket, limit), n);
  }

  /** Taking `e` lots from the front of opp leaves rest and makes these trades: one per order touched, at its
      price and in queue order, for all it has open except perhaps at the last. */
  ghost predicate Took(opp: seq<Order>, rest: seq<Order>, e: nat, trades: seq<Event>, first: nat, inst: uint32,
                       id: uint64, side: Side) {
    var n := |trades|;
    && n <= |opp| && Sum(opp[..n]) >= e && (n > 0 ==> Sum(opp[..n - 1]) < e)
    && (forall i :: 0 <= i < n ==>
          trades[i] == Trade(first + i, inst, opp[i].price, TakenFrom(opp, e, n, i), opp[i].id, id, side))
    && rest == (if n == 0 || Sum(opp[..n]) == e then opp[n..] else [Reduced(opp, e, n)] + opp[n..])
  }

  /** What the i-th of the n orders touched gives. */
  function TakenFrom(opp: seq<Order>, e: nat, n: nat, i: nat): int
    requires i < n <= |opp|
  {
    if i < n - 1 then opp[i].open else e - Sum(opp[..n - 1])
  }

  /** The last order touched when it is not used up. */
  function Reduced(opp: seq<Order>, e: nat, n: nat): Order
    requires 0 < n <= |opp| && Sum(opp[..n - 1]) < e <= Sum(opp[..n])
  {
    opp[n - 1].(open := Sum(opp[..n]) - e, filled := opp[n - 1].filled + e - Sum(opp[..n - 1]))
  }

  lemma SumNext(q: seq<Order>, i: nat)
    requires i < |q|
    ensures Sum(q[..i + 1]) == Sum(q[..i]) + q[i].open
  {
    assert q[..i + 1] == q[..i] + [q[i]];
    SumSplit(q[..i], [q[i]]);
    assert Sum([q[i]]) == q[i].open + Sum([]);
  }

  /** Matching takes the smaller of the order's quantity and what is offered, from the front. */
  lemma MatchTook(opp: seq<Order>, side: Side, isMarket: bool, limit: int, qty: nat, first: nat, inst: uint32,
                  id: uint64)
    requires Sorted(Opposite(side), opp) && Positive(opp)
    ensures var m := Match(opp, side, isMarket, limit, qty);
      && qty - m.left == Min(qty, Offered(opp, side, LimitOf(isMarket, limit)))
      && Took(opp, m.rest, qty - m.left, TradeEvents(m.fills, first, inst, id, side), first, inst, id, side)
  {
    hide Match, Sum, Offered, Crossing, Sorted, Marketable;
    CrossingIsOffered(opp, side, isMarket, limit);
    MaximalExecution(opp, side, isMarket, limit, qty);
    var j, part := MatchConsumes(opp, side, isMarket, limit, qty);
    if part > 0 {
      SumNext(opp, j);
    } else if j > 0 {
      SumNext(opp, j - 1);
    } else {
      NothingSummed(opp);
    }
  }

  lemma NothingSummed(q: seq<Order>)
    ensures Sum(q[..0]) == 0
  {
  }

  // Fill-or-kill

  /** Some price the order takes, with what is offered up to it, modulo 2^32, reaching the needed quantity. */
  ghost predicate SomePriceSuffices(opp: seq<Order>, side: Side, limit: Option<int>, needed: nat) {
    exists i :: 0 <= i < |opp| && SufficesAt(opp, side, limit, needed, i)
  }

  ghost predicate SufficesAt(opp: seq<Order>, side: Side, limit: Option<int>, needed: nat, i: nat)
    requires i < |opp|
  {
    Takes(side, limit, opp[i].price) && Offered(opp, side, Some(opp[i].price)) % TWO_32 >= needed
  }

  /** Up to the price of a level's last order, the queue offers what stands up to there. */
  lemma OfferedUpTo(opp: seq<Order>, side: Side, k: nat)
    requires Sorted(Opposite(side), opp) && 0 < k <= |opp|
    requires k < |opp| ==> opp[k].price != opp[k - 1].price
    ensures Offered(opp, side, Some(opp[k - 1].price)) == Sum(opp[..k])
  {
    var p := opp[k - 1].price;
    forall i | 0 <= i < |opp| ensures Takes(side, Some(p), opp[i].price) <==> i < k {
      assert i < k - 1 ==> AtLeastAsGood(Opposite(side), opp[i].price, p);
      assert i > k ==> AtLeastAsGood(Opposite(side), opp[k].price, opp[i].price);
      assert i >= k ==> AtLeastAsGood(Opposite(side), p, opp[k].price);
    }
    OfferedPrefix(opp, side, Some(p), k);
  }

  /** The feasibility decision: it passes exactly when some price level the order takes suffices, the total up
      to that level counted modulo 2^32. */
  lemma FokPassesIff(opp: seq<Order>, side: Side, isMarket: bool, limit: int, needed: nat)
    requires Sorted(Opposite(side), opp) && 0 < needed
    ensures FokWalk(opp, side, isMarket, limit, needed, 0)
        <==> SomePriceSuffices(opp, side, LimitOf(isMarket, limit), needed)
  {
    hide FokWalk, Crossing, Sum, Offered, Marketable;
    var c := Crossing(opp, side, isMarket, limit);
    var lim := LimitOf(isMarket, limit);
    FokWalkIs(opp, side, isMarket, limit, needed, 0);
    CrossingIsOffered(opp, side, isMarket, limit);
    if WrappedFeasible(c, needed, 0) {
      var k: nat :| IsBoundary(c, k) && (0 + Sum(c[..k])) % TWO_32 >= needed;
      assert c[..k] == opp[..k];
      OfferedUpTo(opp, side, k);
      assert SufficesAt(opp, side, lim, needed, k - 1);
    }
    if SomePriceSuffices(opp, side, lim, needed) {
      var i: nat :| i < |opp| && SufficesAt(opp, side, lim, needed, i);
      var k := LevelEnd(opp, side, i);
      assert Takes(side, lim, opp[k - 1].price);
      assert c[..k] == opp[..k];
      OfferedUpTo(opp, side, k);
      assert IsBoundary(c, k) && (0 + Sum(c[..k])) % TWO_32 >= needed;
    }
  }

  /** Where the price level of order i ends. */
  lemma LevelEnd(q: seq<Order>, side: Side, i: nat) returns (k: nat)
    requires i < |q|
    ensures i < k <= |q| && q[k - 1].price == q[i].price && (k < |q| ==> q[k].price != q[k - 1].price)
  {
    LevelIsPrefix(q[i..], q[i].price);
    k := i + LevelSize(q[i..], q[i].price);
  }

  /** Where the total offered stays below 2^32, that is whether enough is offered. */
  lemma SufficesBelowWrap(opp: seq<Order>, side: Side, limit: Option<int>, needed: nat)
    requires Sorted(Opposite(side), opp) && Positive(opp) && 0 < needed && Offered(opp, side, limit) < TWO_32
    ensures SomePriceSuffices(opp, side, limit, needed) <==> Offered(opp, side, limit) >= needed
  {
    hide FokWalk, Crossing, Sum, Offered, Sorted;
    var isMarket, p := limit.None?, if limit.None? then 0 else limit.value;
    FokPassesIff(opp, side, isMarket, p, needed);
    CrossingIsOffered(opp, side, isMarket, p);
    FokDecision(opp, side, isMarket, p, needed);
  }

  /** To a market order the whole queue is offered. */
  lemma MarketOffered(q: seq<Order>, side: Side)
    ensures Offered(q, side, None) == Sum(q)
  {
    AllOffered(q, side, None);
  }

  // Resting

  /** o joins a queue behind every order priced at least as well as itself and ahead of every other. */
  ghost predicate Joins(side: Side, q: seq<Order>, q': seq<Order>, o: Order) {
    exists k :: 0 <= k <= |q| && JoinsAt(side, q, q', o, k)
  }

  ghost predicate JoinsAt(side: Side, q: seq<Order>, q': seq<Order>, o: Order, k: nat)
    requires k <= |q|
  {
    q' == q[..k] + [o] + q[k..] && forall i :: 0 <= i < |q| ==> (i < k <==> NoWorse(side, q[i].price, o.price))
  }

  /** For a buyer a price is no worse than another when it is at least as high, for a seller at most as high. */
  predicate NoWorse(side: Side, price: int, than: int) {
    (side == Buy && price >= than) || (side == Sell && price <= than)
  }

  lemma InsertJoins(side: Side, q: seq<Order>, o: Order)
    requires Sorted(side, q)
    ensures Joins(side, q, Insert(side, q, o), o)
  {
    hide Insert;
    var k := InsertFacts(side, q, o);
    forall i | 0 <= i < |q| ensures i < k <==> NoWorse(side, q[i].price, o.price) {
      assert k < i ==> AtLeastAsGood(side, q[k].price, q[i].price);
    }
    assert JoinsAt(side, q, Insert(side, q, o), o, k);
  }

  lemma JoinsMeansIn(side: Side, q: seq<Order>, q': seq<Order>, o: Order)
    requires Joins(side, q, q', o)
    ensures o in q' && o.id in Ids(q')
  {
    var k: nat :| k <= |q| && JoinsAt(side, q, q', o, k);
    assert q'[k] == o;
  }
}
