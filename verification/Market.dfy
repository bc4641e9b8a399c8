/** The simple market the engine refines: per instrument and side, one queue of orders, best price
    first and oldest first among equal prices. */
module Market {
  import opened Api
  import opened TickTable

  /** `filled` counts what this order and the orders it replaced have traded. */
  datatype Order = Order(id: uint64, price: int, open: nat, filled: nat)

  datatype Book = Book(instrumentId: uint32, lo: int, hi: int, bids: seq<Order>, asks: seq<Order>)

  /** `owner` names the book and side of every id used so far; `asked` records the total quantity last
      requested for it; `log` holds the events in order. */
  datatype State = State(
    configured: bool, index: map<uint64, uint32>, books: seq<Book>, owner: map<uint64, (nat, Side)>,
    asked: map<uint64, nat>, nextTrade: nat, log: seq<Event>)

  ghost predicate IndexOk(s: State) {
    && (forall i <- s.index :: s.index[i] < |s.books|)
    && (forall id <- s.owner :: s.owner[id].0 < |s.books|)
  }

  function Queue(b: Book, side: Side): seq<Order> {
    if side == Buy then b.bids else b.asks
  }

  function SetQueue(b: Book, side: Side, q: seq<Order>): Book {
    if side == Buy then b.(bids := q) else b.(asks := q)
  }

  // Prices

  predicate AtLeastAsGood(side: Side, p: int, q: int) {
    if side == Buy then p >= q else p <= q
  }

  predicate Crosses(aggressor: Side, limit: int, resting: int) {
    if aggressor == Buy then limit >= resting else limit <= resting
  }

  predicate Marketable(side: Side, isMarket: bool, limit: int, resting: int) {
    isMarket || Crosses(side, limit, resting)
  }

  // Queues

  function Ids(q: seq<Order>): set<uint64> {
    set o <- q :: o.id
  }

  /** Behind every order of the same or a better price. */
  function Insert(side: Side, q: seq<Order>, o: Order): seq<Order> {
    if |q| == 0 || !AtLeastAsGood(side, q[0].price, o.price) then [o] + q
    else [q[0]] + Insert(side, q[1..], o)
  }

  /** Position of the order with this id, |q| if there is none. */
  function Find(q: seq<Order>, id: uint64): (r: nat)
    ensures r <= |q|
    ensures r < |q| ==> q[r].id == id
    ensures forall i :: 0 <= i < r ==> q[i].id != id
  {
    if |q| == 0 || q[0].id == id then 0 else 1 + Find(q[1..], id)
  }

  function RemoveAt(q: seq<Order>, k: nat): seq<Order>
    requires k < |q|
  {
    q[..k] + q[k + 1..]
  }

  // Matching

  datatype Fill = Fill(restingId: uint64, price: int, quantity: nat)

  datatype Matched = Matched(rest: seq<Order>, left: nat, fills: seq<Fill>)

  /** Takes orders from the front of the opposite queue for as long as they are marketable. */
  function Match(opp: seq<Order>, side: Side, isMarket: bool, limit: int, qty: nat): (m: Matched)
    ensures m.left <= qty
  {
    if qty == 0 || |opp| == 0 || !Marketable(side, isMarket, limit, opp[0].price) then
      Matched(opp, qty, [])
    else
      var o := opp[0];
      if o.open <= qty then
        var m := Match(opp[1..], side, isMarket, limit, qty - o.open);
        m.(fills := [Fill(o.id, o.price, o.open)] + m.fills)
      else
        Matched([o.(open := o.open - qty, filled := o.filled + qty)] + opp[1..], 0, [Fill(o.id, o.price, qty)])
  }

  function TradeEvents(fills: seq<Fill>, first: nat, inst: uint32, aggressor: uint64, side: Side): (r: seq<Event>)
    ensures |r| == |fills|
  {
    seq(|fills|, i requires 0 <= i < |fills| =>
      Trade(first + i, inst, fills[i].price, fills[i].quantity, fills[i].restingId, aggressor, side))
  }

  function Sum(q: seq<Order>): nat {
    if |q| == 0 then 0 else q[0].open + Sum(q[1..])
  }

  /** The front part of a queue an aggressor may trade with. */
  function Crossing(q: seq<Order>, side: Side, isMarket: bool, limit: int): seq<Order> {
    if |q| == 0 || !Marketable(side, isMarket, limit, q[0].price) then []
    else [q[0]] + Crossing(q[1..], side, isMarket, limit)
  }

  /** Number of leading orders at one price. */
  function LevelSize(q: seq<Order>, price: int): (r: nat)
    ensures r <= |q|
  {
    if |q| == 0 || q[0].price != price then 0 else 1 + LevelSize(q[1..], price)
  }

  /** The feasibility walk of a fill-or-kill order: level by level, in 32-bit arithmetic. */
  function FokWalk(q: seq<Order>, side: Side, isMarket: bool, limit: int, needed: nat, available: nat): bool
    decreases |q|
  {
    if |q| == 0 || !Marketable(side, isMarket, limit, q[0].price) then available >= needed
    else
      var k := LevelSize(q, q[0].price);
      var sum := (available + Sum(q[..k])) % TWO_32;
      sum >= needed || FokWalk(q[k..], side, isMarket, limit, needed, sum)
  }

  // Requests

  function Emit(s: State, e: Event): State {
    s.(log := s.log + [e])
  }

  /** Trades an aggressor against its opposite queue; also gives what is left of it. */
  function Execute(s: State, b: nat, side: Side, isMarket: bool, limit: int, id: uint64, qty: nat): (r: (State, nat))
    requires b < |s.books|
    ensures r.1 <= qty && |r.0.books| == |s.books|
  {
    var book := s.books[b];
    var m := Match(Queue(book, Opposite(side)), side, isMarket, limit, qty);
    (s.(books := s.books[b := SetQueue(book, Opposite(side), m.rest)],
        log := s.log + TradeEvents(m.fills, s.nextTrade, book.instrumentId, id, side),
        nextTrade := s.nextTrade + |m.fills|),
     m.left)
  }

  function RestOrder(s: State, b: nat, side: Side, o: Order): State
    requires b < |s.books|
  {
    s.(books := s.books[b := SetQueue(s.books[b], side, Insert(side, Queue(s.books[b], side), o))])
  }

  /** A limit order trades what it can and rests the remainder. */
  function EnterDay(s: State, b: nat, side: Side, id: uint64, price: int, qty: nat, filled: nat): State
    requires b < |s.books|
  {
    var (t, left) := Execute(s, b, side, false, price, id, qty);
    if left > 0 then RestOrder(t, b, side, Order(id, price, left, filled + (qty - left))) else t
  }

  function Submit(s: State, o: NewOrder): State
    requires IndexOk(s)
  {
    if !s.configured then Emit(s, Rejected(o.orderId, NotConfigured))
    else if o.instrumentId !in s.index then Emit(s, Rejected(o.orderId, UnknownInstrument))
    else if o.orderId in s.owner then Emit(s, Rejected(o.orderId, DuplicateOrderId))
    else
      var b: nat := s.index[o.instrumentId];
      Entered(s.(owner := s.owner[o.orderId := (b, o.side)]), b, o)
  }

  /** The rest of a submission, once its id is consumed. */
  function Entered(s: State, b: nat, o: NewOrder): State
    requires b < |s.books|
  {
    var isMarket := o.orderType == OrderType.Market;
    if o.quantity == 0 then Emit(s, Rejected(o.orderId, InvalidQuantity))
    else if isMarket && o.tif == Day then Emit(s, Rejected(o.orderId, InvalidTimeInForce))
    else if !isMarket && !IsTickAligned(TICK_SCHEDULE, o.price) then Emit(s, Rejected(o.orderId, InvalidPriceTick))
    else if !isMarket && !(s.books[b].lo <= o.price <= s.books[b].hi) then Emit(s, Rejected(o.orderId, PriceOutOfBand))
    else Accept(s, b, o)
  }

  function Accept(s: State, b: nat, o: NewOrder): State
    requires b < |s.books|
  {
    var isMarket := o.orderType == OrderType.Market;
    var limit := if isMarket then 0 else o.price;
    var t := Emit(s, Accepted(o.orderId)).(asked := s.asked[o.orderId := o.quantity]);
    if o.tif == Fok && !FokWalk(Queue(s.books[b], Opposite(o.side)), o.side, isMarket, limit, o.quantity, 0) then
      Emit(t, Canceled(o.orderId, o.quantity, FokUnfillable))
    else if o.tif == Day then
      EnterDay(t, b, o.side, o.orderId, limit, o.quantity, 0)
    else
      var (u, left) := Execute(t, b, o.side, isMarket, limit, o.orderId, o.quantity);
      if left == 0 then u
      else Emit(u, Canceled(o.orderId, left, if isMarket then NoLiquidity else if o.tif ==
        Ioc then IocRemainder else FokUnfillable))
  }

  /** The queue position of an open order. */
  predicate IsOpen(s: State, id: uint64)
    requires IndexOk(s)
  {
    id in s.owner && Find(Queue(s.books[s.owner[id].0], s.owner[id].1), id)
                     < |Queue(s.books[s.owner[id].0], s.owner[id].1)|
  }

  function OpenOrder(s: State, id: uint64): Order
    requires IndexOk(s) && IsOpen(s, id)
  {
    var q := Queue(s.books[s.owner[id].0], s.owner[id].1);
    q[Find(q, id)]
  }

  /** Takes an open order off its queue. */
  function TakeOut(s: State, id: uint64): State
    requires IndexOk(s) && IsOpen(s, id)
  {
    var (b, side) := s.owner[id];
    var q := Queue(s.books[b], side);
    s.(books := s.books[b := SetQueue(s.books[b], side, RemoveAt(q, Find(q, id)))])
  }

  function Cancel(s: State, id: uint64): State
    requires IndexOk(s)
  {
    if !s.configured then Emit(s, Rejected(id, NotConfigured))
    else if !IsOpen(s, id) then Emit(s, Rejected(id, UnknownOrder))
    else Emit(TakeOut(s, id), Canceled(id, OpenOrder(s, id).open, UserRequested))
  }

  function Replace(s: State, r: ReplaceOrder): State
    requires IndexOk(s)
  {
    if !s.configured then Emit(s, Rejected(r.newOrderId, NotConfigured))
    else if !IsOpen(s, r.orderId) then Emit(s, Rejected(r.newOrderId, UnknownOrder))
    else
      var (b, side) := s.owner[r.orderId];
      var o := OpenOrder(s, r.orderId);
      if r.newQuantity <= o.filled then Cancel(s, r.orderId)
      else if r.newOrderId != r.orderId && r.newOrderId in s.owner then Emit(s,
          Rejected(r.newOrderId, DuplicateOrderId))
      else if !IsTickAligned(TICK_SCHEDULE, r.newPrice) then Emit(s, Rejected(r.newOrderId, InvalidPriceTick))
      else if !(s.books[b].lo <= r.newPrice <= s.books[b].hi) then Emit(s, Rejected(r.newOrderId, PriceOutOfBand))
      else
        var open := r.newQuantity - o.filled;
        var t := s.(owner := s.owner[r.newOrderId := (b, side)], asked := s.asked[r.newOrderId := r.newQuantity]);
        var replaced := Replaced(r.orderId, r.newOrderId, r.newPrice, open);
        if r.newPrice != o.price || open > o.open then
          EnterDay(Emit(TakeOut(s, r.orderId).(owner := t.owner, asked := t.asked), replaced),
                   b, side, r.newOrderId, r.newPrice, open, o.filled)
        else
          var q := Queue(s.books[b], side);
          var q' := q[Find(q, r.orderId) := Order(r.newOrderId, o.price, open, o.filled)];
          Emit(t.(books := s.books[b := SetQueue(s.books[b], side, q')]), replaced)
  }

  /** Best bid and best ask with their sizes, reported modulo 2^32. */
  function Top(b: Book): TopOfBook {
    TopOfBook(
      if |b.bids| == 0 then 0 else b.bids[0].price,
      if |b.bids| == 0 then 0 else Sum(b.bids[..LevelSize(b.bids, b.bids[0].price)]) % TWO_32,
      if |b.asks| == 0 then 0 else b.asks[0].price,
      if |b.asks| == 0 then 0 else Sum(b.asks[..LevelSize(b.asks, b.asks[0].price)]) % TWO_32)
  }

  // Runs

  datatype Request = SubmitRequest(order: NewOrder) | CancelRequest(id: uint64) | ReplaceRequest(replace: ReplaceOrder)
}
