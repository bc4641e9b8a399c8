/** What every request keeps: sorted queues of live orders, one home per id, and a book that is never
    crossed or locked. */
module MarketInvariant {
  import opened Api
  import opened TickTable
  import opened Market
  import opened MatchTheory

  /** A resting order: registered, accounted for, live, on a valid price of the band. */
  ghost predicate OrderOk(s: State, b: nat, side: Side, o: Order)
    requires b < |s.books|
  {
    && o.id in s.owner && s.owner[o.id] == (b, side)
    && o.id in s.asked && o.open + o.filled == s.asked[o.id] && o.open > 0
    && s.books[b].lo <= o.price <= s.books[b].hi && PriceOk(o.price)
  }

  ghost predicate PriceOk(price: int) {
    IsWellFormed(TICK_SCHEDULE) && IsTickAligned(TICK_SCHEDULE, price)
  }

  ghost predicate QueueOk(s: State, b: nat, side: Side)
    requires b < |s.books|
  {
    var q := Queue(s.books[b], side);
    Sorted(side, q) && DistinctIds(q) && forall i :: 0 <= i < |q| ==> OrderOk(s, b, side, q[i])
  }

  /** Best bid below best ask, and so every bid below every ask. */
  ghost predicate Uncrossed(b: Book) {
    forall i, j :: 0 <= i < |b.bids| && 0 <= j < |b.asks| ==> b.bids[i].price < b.asks[j].price
  }

  ghost predicate BookOk(s: State, b: nat)
    requires b < |s.books|
  {
    QueueOk(s, b, Buy) && QueueOk(s, b, Sell) && Uncrossed(s.books[b])
  }

  /** Ids, requested totals and the instrument index fit the books. */
  ghost predicate Registered(s: State) {
    && IndexOk(s)
    && (forall id <- s.asked :: id in s.owner && s.asked[id] < TWO_32)
    && (forall i <- s.index :: s.books[s.index[i]].instrumentId == i)
    && (forall b :: 0 <= b < |s.books| ==> s.books[b].instrumentId in s.index && s.index[s.books[b].instrumentId] == b)
  }

  ghost predicate Inv(s: State) {
    Registered(s) && forall b :: 0 <= b < |s.books| ==> BookOk(s, b)
  }

  // Queues

  lemma {:induction false} InsertFacts(side: Side, q: seq<Order>, o: Order) returns (k: nat)
    ensures k <= |q| && Insert(side, q, o) == q[..k] + [o] + q[k..]
    ensures forall i :: 0 <= i < k ==> AtLeastAsGood(side, q[i].price, o.price)
    ensures k < |q| ==> !AtLeastAsGood(side, q[k].price, o.price)
  {
    if |q| == 0 || !AtLeastAsGood(side, q[0].price, o.price) {
      k := 0;
    } else {
      var k' := InsertFacts(side, q[1..], o);
      k := k' + 1;
      assert q[..k] == [q[0]] + q[1..][..k'];
      assert q[k..] == q[1..][k'..];
    }
  }

  /** Which order stands where once o is put at position k. */
  lemma InsertedAt(q: seq<Order>, o: Order, k: nat, i: nat)
    requires k <= |q| && i <= |q|
    ensures (q[..k] + [o] + q[k..])[i] == if i < k then q[i] else if i == k then o else q[i - 1]
  {
  }

  /** Inserting keeps priority order. */
  lemma InsertSorted(side: Side, q: seq<Order>, o: Order)
    requires Sorted(side, q)
    ensures Sorted(side, Insert(side, q, o))
  {
    var k := InsertFacts(side, q, o);
    var r := Insert(side, q, o);
    hide Insert;
    forall i, j | 0 <= i < j < |r| ensures AtLeastAsGood(side, r[i].price, r[j].price) {
      InsertedAt(q, o, k, i);
      InsertedAt(q, o, k, j);
      assert j > k ==> AtLeastAsGood(side, q[k].price, q[j - 1].price);
    }
  }

  /** Inserting adds exactly that order. */
  lemma InsertMembers(side: Side, q: seq<Order>, o: Order, i: nat)
    requires i < |Insert(side, q, o)|
    ensures Insert(side, q, o)[i] == o || Insert(side, q, o)[i] in q
  {
    var k := InsertFacts(side, q, o);
    InsertedAt(q, o, k, i);
  }

  lemma InsertDistinct(side: Side, q: seq<Order>, o: Order)
    requires DistinctIds(q) && o.id !in Ids(q)
    ensures DistinctIds(Insert(side, q, o))
  {
    var k := InsertFacts(side, q, o);
    var r := Insert(side, q, o);
    assert forall i :: 0 <= i < |q| ==> q[i] in q;
    forall i, j | 0 <= i < j < |r| ensures r[i].id != r[j].id {
      InsertedAt(q, o, k, i);
      InsertedAt(q, o, k, j);
    }
  }

  lemma RemoveSorted(side: Side, q: seq<Order>, k: nat)
    requires Sorted(side, q) && DistinctIds(q) && k < |q|
    ensures Sorted(side, RemoveAt(q, k)) && DistinctIds(RemoveAt(q, k))
    ensures forall i :: 0 <= i < |q| - 1 ==> RemoveAt(q, k)[i] == if i < k then q[i] else q[i + 1]
    ensures q[k].id !in Ids(RemoveAt(q, k))
  {
    var r := RemoveAt(q, k);
    assert forall i :: 0 <= i < |r| ==> r[i] == if i < k then q[i] else q[i + 1];
  }

  /** What matching leaves of a queue: a suffix, its first order possibly reduced. */
  lemma RestOf(opp: seq<Order>, side: Side, isMarket: bool, limit: int, qty: nat) returns (j: nat)
    requires Positive(opp)
    ensures var m := Match(opp, side, isMarket, limit, qty);
      && j <= |opp| && |m.rest| == |opp| - j
      && forall i :: 0 <= i < |m.rest| ==>
           && m.rest[i].id == opp[j + i].id && m.rest[i].price == opp[j + i].price
           && m.rest[i].open + m.rest[i].filled == opp[j + i].open + opp[j + i].filled && m.rest[i].open > 0
  {
    var part;
    j, part := MatchConsumes(opp, side, isMarket, limit, qty);
  }

  // Frames

  /** Ids other than x keep their home and their requested total. */
  ghost predicate Extends(s: State, t: State, x: uint64) {
    && (forall id <- s.owner :: id != x ==> id in t.owner && t.owner[id] == s.owner[id])
    && (forall id <- s.asked :: id != x ==> id in t.asked && t.asked[id] == s.asked[id])
  }

  lemma QueueFrame(s: State, t: State, b: nat, side: Side, x: uint64)
    requires b < |s.books| == |t.books| && QueueOk(s, b, side) && Extends(s, t, x)
    requires Queue(t.books[b], side) == Queue(s.books[b], side)
    requires t.books[b].lo == s.books[b].lo && t.books[b].hi == s.books[b].hi
    requires x !in Ids(Queue(s.books[b], side))
    ensures QueueOk(t, b, side)
  {
    var q := Queue(s.books[b], side);
    forall i | 0 <= i < |q| ensures OrderOk(t, b, side, q[i]) {
      assert OrderOk(s, b, side, q[i]);
      assert q[i] in q;
    }
  }

  lemma BookKept(s: State, t: State, b: nat, x: uint64)
    requires b < |s.books| == |t.books| && BookOk(s, b) && Extends(s, t, x) && t.books[b] == s.books[b]
    requires x !in Ids(s.books[b].bids) && x !in Ids(s.books[b].asks)
    ensures BookOk(t, b)
  {
    QueueFrame(s, t, b, Buy, x);
    QueueFrame(s, t, b, Sell, x);
  }

  /** An id that rests nowhere. */
  ghost predicate Absent(s: State, x: uint64) {
    forall b :: 0 <= b < |s.books| ==> x !in Ids(s.books[b].bids) && x !in Ids(s.books[b].asks)
  }

  lemma UnusedIsAbsent(s: State, x: uint64)
    requires Inv(s) && x !in s.owner
    ensures Absent(s, x)
  {
    forall b | 0 <= b < |s.books| ensures x !in Ids(s.books[b].bids) && x !in Ids(s.books[b].asks) {
      assert BookOk(s, b);
      forall side, i | 0 <= i < |Queue(s.books[b], side)| ensures Queue(s.books[b], side)[i].id != x {
        assert OrderOk(s, b, side, Queue(s.books[b], side)[i]);
      }
      forall o <- s.books[b].bids ensures o.id != x {
        var i :| 0 <= i < |Queue(s.books[b], Buy)| && Queue(s.books[b], Buy)[i] == o;
      }
      forall o <- s.books[b].asks ensures o.id != x {
        var i :| 0 <= i < |Queue(s.books[b], Sell)| && Queue(s.books[b], Sell)[i] == o;
      }
    }
  }

  /** t differs from s in one book, whose identity it keeps, and in the registration of x. */
  ghost predicate OneBook(s: State, t: State, b: nat, x: uint64) {
    && b < |s.books| == |t.books| && t.books == s.books[b := t.books[b]]
    && t.books[b].instrumentId == s.books[b].instrumentId && t.books[b].lo == s.books[b].lo
    && t.books[b].hi == s.books[b].hi
    && t.index == s.index && Extends(s, t, x)
    && IndexOk(t) && (forall id <- t.asked :: id in t.owner && t.asked[id] < TWO_32)
  }

  /** An id that rests in no book but b. */
  ghost predicate AbsentBut(s: State, x: uint64, b: nat) {
    forall c :: 0 <= c < |s.books| && c != b ==> x !in Ids(s.books[c].bids) && x !in Ids(s.books[c].asks)
  }

  lemma InvOneBook(s: State, t: State, b: nat, x: uint64)
    requires Inv(s) && OneBook(s, t, b, x) && AbsentBut(s, x, b) && BookOk(t, b)
    ensures Inv(t)
  {
    hide BookOk;
    forall c | 0 <= c < |t.books| ensures BookOk(t, c) {
      if c != b { BookKept(s, t, c, x); }
    }
  }

  // Requests

  lemma EmitKeeps(s: State, e: Event)
    requires Inv(s)
    ensures Inv(Emit(s, e))
  {
    var t := Emit(s, e);
    forall b | 0 <= b < |t.books| ensures BookOk(t, b) {
      assert BookOk(s, b);
      forall side, i | 0 <= i < |Queue(t.books[b], side)| ensures OrderOk(t, b, side, Queue(t.books[b], side)[i]) {
        assert OrderOk(s, b, side, Queue(s.books[b], side)[i]);
      }
    }
  }

  /** Registering an id that rests nowhere, with or without a requested total. */
  lemma RegisterKeeps(s: State, t: State, x: uint64, home: (nat, Side), total: Option<nat>)
    requires Inv(s) && Absent(s, x) && home.0 < |s.books|
    requires t == s.(owner := s.owner[x := home], asked := if total.Some? then s.asked[x := total.value] else s.asked)
    requires total.Some? ==> total.value < TWO_32
    ensures Inv(t) && Absent(t, x)
  {
    forall b | 0 <= b < |t.books| ensures BookOk(t, b) { BookKept(s, t, b, x); }
  }

  /** Which parts of the state an execution touches. */
  lemma ExecuteTouches(s: State, b: nat, side: Side, isMarket: bool, limit: int, id: uint64, qty: nat)
    requires Registered(s) && b < |s.books|
    ensures var (t, left) := Execute(s, b, side, isMarket, limit, id, qty);
      && OneBook(s, t, b, id) && t.owner == s.owner && t.asked == s.asked
      && Queue(t.books[b], side) == Queue(s.books[b], side)
      && Queue(t.books[b], Opposite(side)) == Match(Queue(s.books[b], Opposite(side)), side, isMarket, limit, qty).rest
      && left == Match(Queue(s.books[b], Opposite(side)), side, isMarket, limit, qty).left
  {
  }

  /** What is left of a queue after matching is a queue in order. */
  lemma RestQueueOk(s: State, t: State, b: nat, side: Side, isMarket: bool, limit: int, qty: nat)
    requires b < |s.books| == |t.books| && QueueOk(s, b, Opposite(side))
    requires t.owner == s.owner && t.asked == s.asked
    requires t.books[b].lo == s.books[b].lo && t.books[b].hi == s.books[b].hi
    requires Queue(t.books[b], Opposite(side)) ==
      Match(Queue(s.books[b], Opposite(side)), side, isMarket, limit, qty).rest
    ensures QueueOk(t, b, Opposite(side))
  {
    hide Match, PriceOk;
    var opp, rest := Queue(s.books[b], Opposite(side)), Queue(t.books[b], Opposite(side));
    forall i | 0 <= i < |opp| ensures opp[i].open > 0 { assert OrderOk(s, b, Opposite(side), opp[i]); }
    var j := RestOf(opp, side, isMarket, limit, qty);
    forall i | 0 <= i < |rest| ensures OrderOk(t, b, Opposite(side), rest[i]) {
      assert OrderOk(s, b, Opposite(side), opp[j + i]);
    }
  }

  /** What is left of a queue after matching has no new price and no new id. */
  lemma RestIsPart(opp: seq<Order>, side: Side, isMarket: bool, limit: int, qty: nat)
    requires Positive(opp)
    ensures forall o <- Match(opp, side, isMarket, limit, qty).rest :: HasPrice(opp, o.price) && o.id in Ids(opp)
  {
    hide Match;
    var rest := Match(opp, side, isMarket, limit, qty).rest;
    var j := RestOf(opp, side, isMarket, limit, qty);
    forall i | 0 <= i < |rest| ensures HasPrice(opp, rest[i].price) && rest[i].id in Ids(opp) {
      assert opp[j + i].price == rest[i].price;
      assert opp[j + i] in opp;
    }
  }

  ghost predicate HasPrice(q: seq<Order>, price: int) {
    exists k :: 0 <= k < |q| && q[k].price == price
  }

  /** Orders at no new prices cannot cross where the old ones did not. */
  lemma ShrinkUncrossed(book: Book, book': Book, side: Side)
    requires Uncrossed(book) && Queue(book', Opposite(side)) == Queue(book, Opposite(side))
    requires forall i :: 0 <= i < |Queue(book', side)| ==> HasPrice(Queue(book, side), Queue(book', side)[i].price)
    ensures Uncrossed(book')
  {
    forall i, j | 0 <= i < |book'.bids| && 0 <= j < |book'.asks| ensures book'.bids[i].price < book'.asks[j].price {
      var x := if side == Buy then i else j;
      assert HasPrice(Queue(book, side), Queue(book', side)[x].price);
      var k :| 0 <= k < |Queue(book, side)| && Queue(book, side)[k].price == Queue(book', side)[x].price;
    }
  }

  /** Matching keeps the book standing; what is left of a limit order no longer crosses. */
  lemma ExecuteKeeps(s: State, b: nat, side: Side, isMarket: bool, limit: int, id: uint64, qty: nat)
    requires Inv(s) && b < |s.books| && Absent(s, id)
    ensures var (t, left) := Execute(s, b, side, isMarket, limit, id, qty);
      && Inv(t) && OneBook(s, t, b, id)
      && Queue(t.books[b], side) == Queue(s.books[b], side)
      && (left > 0 ==> forall o <- Queue(t.books[b], Opposite(side)) :: !Marketable(side, isMarket, limit, o.price))
  {
    hide Execute, Match, Registered, OrderOk, DistinctIds;
    var (t, left) := Execute(s, b, side, isMarket, limit, id, qty);
    ExecuteTouches(s, b, side, isMarket, limit, id, qty);
    assert BookOk(s, b);
    NothingMarketableLeft(Queue(s.books[b], Opposite(side)), side, isMarket, limit, qty);
    RestQueueOk(s, t, b, side, isMarket, limit, qty);
    OpenQuantities(s, b, Opposite(side));
    RestIsPart(Queue(s.books[b], Opposite(side)), side, isMarket, limit, qty);
    QueueFrame(s, t, b, side, id);
    ShrinkUncrossed(s.books[b], t.books[b], Opposite(side));
    InvOneBook(s, t, b, id);
  }

  /** Executing does not bring back an id that rests nowhere. */
  lemma ExecuteAbsent(s: State, b: nat, side: Side, isMarket: bool, limit: int, id: uint64, qty: nat)
    requires Inv(s) && b < |s.books| && Absent(s, id)
    ensures Absent(Execute(s, b, side, isMarket, limit, id, qty).0, id)
  {
    hide Execute, Match, BookOk, Registered;
    var t := Execute(s, b, side, isMarket, limit, id, qty).0;
    ExecuteTouches(s, b, side, isMarket, limit, id, qty);
    OpenQuantities(s, b, Opposite(side));
    RestIsPart(Queue(s.books[b], Opposite(side)), side, isMarket, limit, qty);
    forall c | 0 <= c < |t.books| ensures id !in Ids(t.books[c].bids) && id !in Ids(t.books[c].asks) {
      if c == b { QueueWithout(s.books[b], t.books[b], side, id); }
    }
  }

  lemma QueueWithout(book: Book, book': Book, side: Side, id: uint64)
    requires id !in Ids(book.bids) && id !in Ids(book.asks)
    requires Queue(book', side) == Queue(book, side)
    requires forall i :: 0 <= i < |Queue(book', Opposite(side))| ==>
      Queue(book', Opposite(side))[i].id in Ids(Queue(book, Opposite(side)))
    ensures id !in Ids(book'.bids) && id !in Ids(book'.asks)
  {
    var opp' := Queue(book', Opposite(side));
    forall o <- opp' ensures o.id != id {
      var i :| 0 <= i < |opp'| && opp'[i] == o;
    }
  }

  lemma RestQueue(s: State, t: State, b: nat, side: Side, o: Order)
    requires b < |s.books| && QueueOk(s, b, side) && OrderOk(s, b, side, o) && o.id !in Ids(Queue(s.books[b], side))
    requires t == RestOrder(s, b, side, o)
    ensures QueueOk(t, b, side)
  {
    var q, q' := Queue(s.books[b], side), Queue(t.books[b], side);
    assert q' == Insert(side, q, o);
    InsertSorted(side, q, o);
    InsertDistinct(side, q, o);
    hide Insert, Sorted, DistinctIds;
    forall i | 0 <= i < |q'| ensures OrderOk(t, b, side, q'[i]) {
      InsertMembers(side, q, o, i);
      if q'[i] != o {
        var k :| 0 <= k < |q| && q[k] == q'[i];
        assert OrderOk(s, b, side, q[k]);
      }
    }
  }

  /** Resting an order that does not cross keeps the book standing. */
  lemma RestKeeps(s: State, b: nat, side: Side, o: Order)
    requires Inv(s) && b < |s.books| && Absent(s, o.id) && OrderOk(s, b, side, o)
    requires forall x <- Queue(s.books[b], Opposite(side)) :: !Crosses(side, o.price, x.price)
    ensures Inv(RestOrder(s, b, side, o))
  {
    var t := RestOrder(s, b, side, o);
    assert BookOk(s, b);
    RestQueue(s, t, b, side, o);
    RestUncrossed(s.books[b], side, o);
    QueueFrame(s, t, b, Opposite(side), o.id);
    hide QueueOk, Uncrossed, OrderOk, Insert;
    InvOneBook(s, t, b, o.id);
  }

  lemma RestUncrossed(book: Book, side: Side, o: Order)
    requires Uncrossed(book) && Sorted(side, Queue(book, side))
    requires forall x <- Queue(book, Opposite(side)) :: !Crosses(side, o.price, x.price)
    ensures Uncrossed(SetQueue(book, side, Insert(side, Queue(book, side), o)))
  {
    var book' := SetQueue(book, side, Insert(side, Queue(book, side), o));
    forall i, j | 0 <= i < |book'.bids| && 0 <= j < |book'.asks| ensures book'.bids[i].price < book'.asks[j].price {
      InsertMembers(side, Queue(book, side), o, if side == Buy then i else j);
      assert side == Buy ==> book'.asks[j] in book.asks;
      assert side == Sell ==> book'.bids[i] in book.bids;
    }
  }

  /** Entering a limit order under an id that rests nowhere. */
  lemma EnterDayKeeps(s: State, b: nat, side: Side, id: uint64, price: int, qty: nat, filled: nat)
    requires Registered(s) && Inv(s) && b < |s.books| && Absent(s, id)
    requires id in s.owner && s.owner[id] == (b, side) && id in s.asked && s.asked[id] == filled + qty
    requires s.books[b].lo <= price <= s.books[b].hi && PriceOk(price)
    ensures Inv(EnterDay(s, b, side, id, price, qty, filled))
  {
    hide Inv, Absent, PriceOk, Match, Execute, OneBook;
    var (t, left) := Execute(s, b, side, false, price, id, qty);
    ExecuteKeeps(s, b, side, false, price, id, qty);
    ExecuteAbsent(s, b, side, false, price, id, qty);
    if left > 0 {
      EnteredOk(s, b, side, id, price, qty, filled);
      RestKeeps(t, b, side, Order(id, price, left, filled + (qty - left)));
    }
  }

  lemma EnteredOk(s: State, b: nat, side: Side, id: uint64, price: int, qty: nat, filled: nat)
    requires Registered(s) && b < |s.books|
    requires id in s.owner && s.owner[id] == (b, side) && id in s.asked && s.asked[id] == filled + qty
    requires s.books[b].lo <= price <= s.books[b].hi && PriceOk(price)
    ensures var (t, left) := Execute(s, b, side, false, price, id, qty);
      |t.books| == |s.books| && left <= qty && (left > 0 ==>
        OrderOk(t, b, side, Order(id, price, left, filled + (qty - left))))
  {
    ExecuteTouches(s, b, side, false, price, id, qty);
  }

  /** Where an open order stands. */
  lemma OpenAt(s: State, id: uint64) returns (b: nat, side: Side, k: nat)
    requires Inv(s) && IsOpen(s, id)
    ensures s.owner[id] == (b, side) && b < |s.books|
    ensures k == Find(Queue(s.books[b], side), id) < |Queue(s.books[b], side)|
    ensures Queue(s.books[b], side)[k] == OpenOrder(s, id) && OpenOrder(s, id).id == id
    ensures OrderOk(s, b, side, OpenOrder(s, id))
  {
    b, side := s.owner[id].0, s.owner[id].1;
    k := Find(Queue(s.books[b], side), id);
    assert BookOk(s, b);
    assert OrderOk(s, b, side, Queue(s.books[b], side)[k]);
  }

  /** Which parts of the state taking an order out touches. */
  lemma TakeOutTouches(s: State, id: uint64)
    requires Registered(s) && IsOpen(s, id)
    ensures var t, (b, side) := TakeOut(s, id), s.owner[id];
      && OneBook(s, t, b, id) && t.owner == s.owner && t.asked == s.asked
      && Queue(t.books[b], Opposite(side)) == Queue(s.books[b], Opposite(side))
      && Queue(t.books[b], side) == RemoveAt(Queue(s.books[b], side), Find(Queue(s.books[b], side), id))
  {
  }

  lemma RemoveUncrossed(book: Book, book': Book, side: Side, k: nat)
    requires Uncrossed(book) && Queue(book', Opposite(side)) == Queue(book, Opposite(side)) && k < |Queue(book, side)|
    requires Queue(book', side) == RemoveAt(Queue(book, side), k)
    ensures Uncrossed(book')
  {
    var q := Queue(book, side);
    forall i | 0 <= i < |Queue(book', side)| ensures HasPrice(q, Queue(book', side)[i].price) {
      assert q[if i < k then i else i + 1].price == RemoveAt(q, k)[i].price;
    }
    ShrinkUncrossed(book, book', side);
  }

  lemma TakenBook(s: State, t: State, b: nat, side: Side, k: nat)
    requires b < |s.books| == |t.books| && BookOk(s, b) && k < |Queue(s.books[b], side)|
    requires t.owner == s.owner && t.asked == s.asked && t.books[b].lo == s.books[b].lo
    requires t.books[b].hi == s.books[b].hi
    requires Queue(t.books[b], side) == RemoveAt(Queue(s.books[b], side), k)
    requires Queue(t.books[b], Opposite(side)) == Queue(s.books[b], Opposite(side))
    ensures BookOk(t, b)
  {
    TakenQueue(s, t, b, side, k);
    OppositeFrame(s, t, b, side);
    RemoveUncrossed(s.books[b], t.books[b], side, k);
  }

  /** Taking an open order off its queue leaves its id resting nowhere. */
  lemma TakeOutKeeps(s: State, id: uint64)
    requires Inv(s) && IsOpen(s, id)
    ensures Inv(TakeOut(s, id)) && Absent(TakeOut(s, id), id)
  {
    var b, side, k := OpenAt(s, id);
    var t := TakeOut(s, id);
    var q := Queue(s.books[b], side);
    assert BookOk(s, b);
    RemoveSorted(side, q, k);
    TakeOutTouches(s, id);
    hide TakeOut, BookOk, RemoveAt, OrderOk;
    TakenBook(s, t, b, side, k);
    forall c | 0 <= c < |t.books| ensures BookOk(t, c) && id !in Ids(t.books[c].bids) && id !in Ids(t.books[c].asks) {
      AbsentElsewhere(s, c, id);
      if c != b { assert BookOk(s, c); BookKept(s, t, c, id); }
    }
  }

  lemma TakenQueue(s: State, t: State, b: nat, side: Side, k: nat)
    requires b < |s.books| == |t.books| && QueueOk(s, b, side) && k < |Queue(s.books[b], side)|
    requires t.owner == s.owner && t.asked == s.asked && t.books[b].lo == s.books[b].lo
    requires t.books[b].hi == s.books[b].hi
    requires Queue(t.books[b], side) == RemoveAt(Queue(s.books[b], side), k)
    ensures QueueOk(t, b, side)
  {
    var q := Queue(s.books[b], side);
    RemoveSorted(side, q, k);
    forall i | 0 <= i < |q| - 1 ensures OrderOk(t, b, side, RemoveAt(q, k)[i]) {
      assert OrderOk(s, b, side, q[if i < k then i else i + 1]);
    }
  }

  lemma OppositeFrame(s: State, t: State, b: nat, side: Side)
    requires b < |s.books| == |t.books| && BookOk(s, b)
    requires t.owner == s.owner && t.asked == s.asked && t.books[b].lo == s.books[b].lo
    requires t.books[b].hi == s.books[b].hi
    requires Queue(t.books[b], Opposite(side)) == Queue(s.books[b], Opposite(side))
    ensures QueueOk(t, b, Opposite(side))
  {
    var q := Queue(s.books[b], Opposite(side));
    forall i | 0 <= i < |q| ensures OrderOk(t, b, Opposite(side), q[i]) { assert OrderOk(s, b, Opposite(side), q[i]); }
  }

  /** An id rests only on the side and book it is registered for. */
  lemma AbsentElsewhere(s: State, c: nat, id: uint64)
    requires Inv(s) && c < |s.books| && id in s.owner
    ensures s.owner[id] != (c, Buy) ==> id !in Ids(s.books[c].bids)
    ensures s.owner[id] != (c, Sell) ==> id !in Ids(s.books[c].asks)
  {
    assert BookOk(s, c);
    forall side, i | 0 <= i < |Queue(s.books[c], side)| && s.owner[id] != (c, side)
      ensures Queue(s.books[c], side)[i].id != id
    {
      assert OrderOk(s, c, side, Queue(s.books[c], side)[i]);
    }
    if s.owner[id] != (c, Buy) {
      forall o <- s.books[c].bids ensures o.id != id {
        var i :| 0 <= i < |Queue(s.books[c], Buy)| && Queue(s.books[c], Buy)[i] == o;
      }
    }
    if s.owner[id] != (c, Sell) {
      forall o <- s.books[c].asks ensures o.id != id {
        var i :| 0 <= i < |Queue(s.books[c], Sell)| && Queue(s.books[c], Sell)[i] == o;
      }
    }
  }

  /** Substituting an order at its own price under an id that rests nowhere else. */
  lemma SubstituteKeeps(s: State, t: State, b: nat, side: Side, k: nat, o: Order)
    requires Inv(s) && b < |s.books| && k < |Queue(s.books[b], side)|
    requires Absent(s, o.id) || o.id == Queue(s.books[b], side)[k].id
    requires o.price == Queue(s.books[b], side)[k].price && o.open > 0 && o.open + o.filled < TWO_32
    requires t.owner == s.owner[o.id := (b, side)] && t.asked == s.asked[o.id := o.open + o.filled]
    requires t.books == s.books[b := SetQueue(s.books[b], side, Queue(s.books[b], side)[k := o])] && t.index == s.index
    ensures Inv(t)
  {
    hide Inv, BookOk, Absent, Registered;
    SubstituteBook(s, t, b, side, k, o);
    SubstituteTouches(s, t, b, side, k, o);
    InvOneBook(s, t, b, o.id);
  }

  lemma SubstituteTouches(s: State, t: State, b: nat, side: Side, k: nat, o: Order)
    requires Inv(s) && b < |s.books| && k < |Queue(s.books[b], side)|
    requires Absent(s, o.id) || o.id == Queue(s.books[b], side)[k].id
    requires o.open + o.filled < TWO_32
    requires t.owner == s.owner[o.id := (b, side)] && t.asked == s.asked[o.id := o.open + o.filled]
    requires t.books == s.books[b := SetQueue(s.books[b], side, Queue(s.books[b], side)[k := o])] && t.index == s.index
    ensures OneBook(s, t, b, o.id) && AbsentBut(s, o.id, b)
  {
    hide BookOk;
    forall c | 0 <= c < |s.books| && c != b ensures o.id !in Ids(s.books[c].bids) && o.id !in Ids(s.books[c].asks) {
      ElsewhereAbsent(s, b, side, k, o.id, c);
    }
  }

  lemma SubstituteBook(s: State, t: State, b: nat, side: Side, k: nat, o: Order)
    requires Inv(s) && b < |s.books| && k < |Queue(s.books[b], side)|
    requires Absent(s, o.id) || o.id == Queue(s.books[b], side)[k].id
    requires o.price == Queue(s.books[b], side)[k].price && o.open > 0
    requires t.owner == s.owner[o.id := (b, side)] && t.asked == s.asked[o.id := o.open + o.filled]
    requires t.books == s.books[b := SetQueue(s.books[b], side, Queue(s.books[b], side)[k := o])]
    ensures BookOk(t, b)
  {
    assert BookOk(s, b);
    ElsewhereDiffers(s, b, side, k, o.id);
    hide QueueOk, Uncrossed, Absent, Inv;
    SubstituteQueue(s, t, b, side, k, o);
    QueueFrame(s, t, b, Opposite(side), o.id);
    SubstituteUncrossed(s.books[b], t.books[b], side, k, o);
  }

  lemma SubstituteQueue(s: State, t: State, b: nat, side: Side, k: nat, o: Order)
    requires b < |s.books| == |t.books| && QueueOk(s, b, side) && k < |Queue(s.books[b], side)|
    requires forall i :: 0 <= i < |Queue(s.books[b], side)| && i != k ==> Queue(s.books[b], side)[i].id != o.id
    requires o.price == Queue(s.books[b], side)[k].price && o.open > 0
    requires t.owner == s.owner[o.id := (b, side)] && t.asked == s.asked[o.id := o.open + o.filled]
    requires Queue(t.books[b], side) == Queue(s.books[b], side)[k := o]
    requires t.books[b].lo == s.books[b].lo && t.books[b].hi == s.books[b].hi
    ensures QueueOk(t, b, side)
  {
    var q, q' := Queue(s.books[b], side), Queue(t.books[b], side);
    assert OrderOk(s, b, side, q[k]);
    forall i | 0 <= i < |q'| ensures OrderOk(t, b, side, q'[i]) { assert OrderOk(s, b, side, q[i]); }
  }

  lemma SubstituteUncrossed(book: Book, book': Book, side: Side, k: nat, o: Order)
    requires Uncrossed(book) && k < |Queue(book, side)| && o.price == Queue(book, side)[k].price
    requires book' == SetQueue(book, side, Queue(book, side)[k := o])
    ensures Uncrossed(book')
  {
    var q, q' := Queue(book, side), Queue(book', side);
    forall i | 0 <= i < |q'| ensures HasPrice(q, q'[i].price) { assert q[i].price == q'[i].price; }
    ShrinkUncrossed(book, book', side);
  }

  lemma ElsewhereDiffers(s: State, b: nat, side: Side, k: nat, id: uint64)
    requires Inv(s) && b < |s.books| && k < |Queue(s.books[b], side)|
    requires Absent(s, id) || id == Queue(s.books[b], side)[k].id
    ensures forall i :: 0 <= i < |Queue(s.books[b], side)| && i != k ==> Queue(s.books[b], side)[i].id != id
    ensures id !in Ids(Queue(s.books[b], Opposite(side)))
  {
    var q := Queue(s.books[b], side);
    assert BookOk(s, b);
    assert OrderOk(s, b, side, q[k]);
    assert forall i :: 0 <= i < |q| ==> q[i] in q;
    if id == q[k].id { AbsentElsewhere(s, b, id); }
  }

  lemma ElsewhereAbsent(s: State, b: nat, side: Side, k: nat, id: uint64, c: nat)
    requires Inv(s) && b < |s.books| && k < |Queue(s.books[b], side)| && c < |s.books| && c != b
    requires Absent(s, id) || id == Queue(s.books[b], side)[k].id
    ensures id !in Ids(s.books[c].bids) && id !in Ids(s.books[c].asks)
  {
    assert BookOk(s, b);
    assert OrderOk(s, b, side, Queue(s.books[b], side)[k]);
    if id == Queue(s.books[b], side)[k].id { AbsentElsewhere(s, c, id); }
  }

  // Finding orders

  /** In a queue of distinct ids an id's position is unique. */
  lemma FindIs(q: seq<Order>, k: nat)
    requires DistinctIds(q) && k < |q|
    ensures Find(q, q[k].id) == k
  {
    assert forall i :: 0 <= i < k ==> q[i].id != q[k].id;
  }

  lemma QueueDistinct(s: State, b: nat, side: Side)
    requires Inv(s) && b < |s.books|
    ensures DistinctIds(Queue(s.books[b], side))
  {
    assert BookOk(s, b);
  }

  /** Every resting order has something open. */
  lemma OpenQuantities(s: State, b: nat, side: Side)
    requires Inv(s) && b < |s.books|
    ensures Positive(Queue(s.books[b], side))
  {
    var q := Queue(s.books[b], side);
    assert BookOk(s, b);
    forall i | 0 <= i < |q| ensures q[i].open > 0 { assert OrderOk(s, b, side, q[i]); }
  }
}
