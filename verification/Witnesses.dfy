/** Short sessions in which 32-bit totals wrap: what the engine then gets wrong, request by request. */
module Witnesses {
  import opened Api
  import opened TickTable
  import opened Market
  import opened MatchTheory
  import opened MarketInvariant
  import opened MarketRun
  import opened Band
  import opened Configuration

  /** One instrument whose band is its reference price, 0.10. */
  const ONE_PRICE := [InstrumentConfig(1, 1000, 0)]

  const HALF: uint32 := 0x8000_0000

  const FIRST_SELL := NewOrder(1, 1, Sell, Limit, Day, 1000, HALF)
  const SECOND_SELL := NewOrder(2, 1, Sell, Limit, Day, 1000, HALF)
  const FOK_BUY := NewOrder(3, 1, Buy, Limit, Fok, 1000, 1)

  /** A Day limit order that meets an empty opposite side rests completely. */
  lemma RestsWhole(s: State, o: NewOrder)
    requires IndexOk(s) && s.configured && o.instrumentId in s.index && o.orderId !in s.owner
    requires o.quantity > 0 && o.orderType == Limit && o.tif == Day && PriceOk(o.price)
    requires s.books[s.index[o.instrumentId]].lo <= o.price <= s.books[s.index[o.instrumentId]].hi
    requires Queue(s.books[s.index[o.instrumentId]], Opposite(o.side)) == []
    ensures var b, t := s.index[o.instrumentId], Submit(s, o);
      && t.books == s.books[b := SetQueue(s.books[b], o.side,
           Insert(o.side, Queue(s.books[b], o.side), Order(o.orderId, o.price, o.quantity, 0)))]
      && t.configured && t.index == s.index && t.owner.Keys == s.owner.Keys + {o.orderId}
  {
    hide IsTickAligned, Insert;
    var b := s.index[o.instrumentId];
    assert s.books[b := SetQueue(s.books[b], Opposite(o.side), [])] == s.books;
  }

  lemma SetUp()
    ensures IsValidSetup(ONE_PRICE) && IsWellFormed(TICK_SCHEDULE) && IsTickAligned(TICK_SCHEDULE, 1000)
    ensures IndexMap(ONE_PRICE) == map[1 := 0] && EmptyBook(ONE_PRICE[0]) == Book(1, 1000, 1000, [], [])
  {
    DeployedScheduleIsSound();
    assert BracketFrom(TICK_SCHEDULE, 0, 1000) == 0 && TICK_SCHEDULE[0].tick == 100;
    assert ONE_PRICE[..0] == [];
    assert Delta(1000, 0) == 0;
  }

  /** After two sell orders of 2^31 lots the book is as expected. */
  lemma TwoSells() returns (s: State)
    ensures Inv(Opening(ONE_PRICE, 1, [])) && Inv(s)
    ensures s == Run(Opening(ONE_PRICE, 1, []), [SubmitRequest(FIRST_SELL), SubmitRequest(SECOND_SELL)])
    ensures s.configured && s.index == map[1 := 0] && s.owner.Keys == {1, 2}
    ensures s.books == [Book(1, 1000, 1000, [], [Order(1, 1000, HALF, 0), Order(2, 1000, HALF, 0)])]
  {
    hide IsTickAligned, Submit, BookOk, IsValidConfig;
    SetUp();
    OpeningKeeps(ONE_PRICE, 1, []);
    var s0 := Opening(ONE_PRICE, 1, []);
    assert s0.books == [Book(1, 1000, 1000, [], [])];
    RestsWhole(s0, FIRST_SELL);
    var s1 := Submit(s0, FIRST_SELL);
    SubmitKeeps(s0, FIRST_SELL);
    var a, b := Order(1, 1000, HALF, 0), Order(2, 1000, HALF, 0);
    assert Insert(Sell, [], a) == [a];
    assert s1.books == [Book(1, 1000, 1000, [], [a])];
    RestsWhole(s1, SECOND_SELL);
    s := Submit(s1, SECOND_SELL);
    SubmitKeeps(s1, SECOND_SELL);
    assert [a][1..] == [] && Insert(Sell, [], b) == [b];
    assert Insert(Sell, [a], b) == [a] + Insert(Sell, [], b) == [a, b];
    assert s.books == [Book(1, 1000, 1000, [], [a, b])];
    RunTwo(s0, SubmitRequest(FIRST_SELL), SubmitRequest(SECOND_SELL));
  }

  lemma RunTwo(s: State, a: Request, b: Request)
    requires Inv(s)
    ensures Run(s, [a, b]) == Step(Step(s, a), b)
  {
    hide Inv, Step;
    assert [a, b][..1] == [a] && [a][..0] == [];
    assert Run(s, []) == s;
    assert Run(s, [a]) == Step(s, a);
  }

  /** The report says there are no sell orders although 2^32 lots are for sale. */
  lemma WrappedTopReportsNothing()
    ensures Inv(Opening(ONE_PRICE, 1, []))
    ensures var s := Run(Opening(ONE_PRICE, 1, []), [SubmitRequest(FIRST_SELL), SubmitRequest(SECOND_SELL)]);
      && |s.books| == 1 && Sum(s.books[0].asks) == TWO_32
      && Top(s.books[0]) == TopOfBook(0, 0, 1000, 0)
  {
    hide Inv, Run, Opening, Sum, LevelSize, Crossing;
    var s := TwoSells();
    WrappedLevel(s.books[0].asks);
  }

  lemma WrappedLevel(q: seq<Order>)
    requires q == [Order(1, 1000, HALF, 0), Order(2, 1000, HALF, 0)]
    ensures LevelSize(q, 1000) == 2 && Sum(q[..2]) == Sum(q) == TWO_32 && Crossing(q, Buy, false, 1000) == q
  {
    var a, b := q[0], q[1];
    assert q[1..] == [b] && [b][1..] == [] && q[..2] == q;
    assert LevelSize([b], 1000) == 1 + LevelSize([], 1000);
    assert LevelSize(q, 1000) == 1 + LevelSize([b], 1000);
    assert Sum(q) == a.open + Sum([b]) && Sum([b]) == b.open + Sum([]);
    assert Crossing([b], Buy, false, 1000) == [b] + Crossing([], Buy, false, 1000);
    assert Crossing(q, Buy, false, 1000) == [a] + Crossing([b], Buy, false, 1000);
  }

  /** The feasibility walk over two orders whose total wraps to zero. */
  lemma WrappedWalk(q: seq<Order>)
    requires q == [Order(1, 1000, HALF, 0), Order(2, 1000, HALF, 0)]
    ensures !FokWalk(q, Buy, false, 1000, 1, 0)
  {
    hide Sum, LevelSize, Crossing;
    WrappedLevel(q);
    assert q[2..] == [];
    assert !FokWalk([], Buy, false, 1000, 1, 0);
  }

  /** A fill-or-kill order for one lot is killed although 2^32 lots are for sale at its price. */
  lemma WrappedTotalKillsFillableOrder()
    ensures Inv(Opening(ONE_PRICE, 1, []))
    ensures var s := Run(Opening(ONE_PRICE, 1, []), [SubmitRequest(FIRST_SELL), SubmitRequest(SECOND_SELL)]);
      && |s.books| == 1 && Sum(Crossing(s.books[0].asks, Buy, false, 1000)) == TWO_32
      && Step(s, SubmitRequest(FOK_BUY)).books == s.books
      && Step(s, SubmitRequest(FOK_BUY)).log == s.log + [Accepted(3), Canceled(3, 1, FokUnfillable)]
  {
    hide Inv, Run, Opening, Sum, LevelSize, Crossing, FokWalk, Execute, EnterDay, IsTickAligned, IndexMap, EmptyBook;
    var s := TwoSells();
    SetUp();
    WrappedLevel(s.books[0].asks);
    WrappedWalk(s.books[0].asks);
    IndexStands(s);
  }

  lemma IndexStands(s: State)
    requires Inv(s)
    ensures IndexOk(s)
  {
  }
}
