/** What matching does to a queue: price and time priority, maximal execution, fill-or-kill. */
module MatchTheory {
  import opened Api
  import opened Market

  ghost predicate Sorted(side: Side, q: seq<Order>) {
    forall i, j :: 0 <= i < j < |q| ==> AtLeastAsGood(side, q[i].price, q[j].price)
  }

  ghost predicate Positive(q: seq<Order>) {
    forall i :: 0 <= i < |q| ==> q[i].open > 0
  }

  ghost predicate DistinctIds(q: seq<Order>) {
    forall i, j :: 0 <= i < j < |q| ==> q[i].id != q[j].id
  }

  lemma {:induction false} SumSplit(a: seq<Order>, b: seq<Order>)
    ensures Sum(a + b) == Sum(a) + Sum(b)
  {
    if |a| > 0 {
      SumSplit(a[1..], b);
      assert (a + b)[1..] == a[1..] + b;
    } else {
      assert a + b == b;
    }
  }

  /** An order after trading part of its open quantity. */
  function Filled(o: Order, part: nat): Order
    requires part <= o.open
  {
    o.(open := o.open - part, filled := o.filled + part)
  }

  /** Matching consumes a prefix of the queue: the first j orders are filled completely, at most the
      next one in part; it stops only when the aggressor is filled or the next order is not marketable. */
  ghost predicate Consumes(opp: seq<Order>, side: Side, isMarket: bool, limit: int, qty: nat, m: Matched, j: nat,
                           part: nat) {
    && j <= |opp|
    && (part > 0 ==> j < |opp| && part < opp[j].open && m.left == 0)
    && m.rest == (if part > 0 && j < |opp| && part < opp[j].open then [Filled(opp[j], part)] +
      opp[j + 1..] else opp[j..])
    && |m.fills| == (if part > 0 then j + 1 else j)
    && (forall i :: 0 <= i < j ==> m.fills[i] == Fill(opp[i].id, opp[i].price, opp[i].open))
    && (part > 0 ==> j < |opp| && m.fills[j] == Fill(opp[j].id, opp[j].price, part))
    && qty == Sum(opp[..j]) + part + m.left
    && (forall i :: 0 <= i < |m.fills| && i < |opp| ==> Marketable(side, isMarket, limit, opp[i].price))
    && (m.left > 0 ==> j == |opp| || !Marketable(side, isMarket, limit, opp[j].price))
  }

  lemma {:induction false} MatchConsumes(opp: seq<Order>, side: Side, isMarket: bool, limit: int, qty: nat)
    returns (j: nat, part: nat)
    ensures Consumes(opp, side, isMarket, limit, qty, Match(opp, side, isMarket, limit, qty), j, part)
  {
    var m := Match(opp, side, isMarket, limit, qty);
    if qty == 0 || |opp| == 0 || !Marketable(side, isMarket, limit, opp[0].price) {
      j, part := 0, 0;
      assert opp[..0] == [] && opp[0..] == opp;
    } else if opp[0].open <= qty {
      var rest := opp[1..];
      var m' := Match(rest, side, isMarket, limit, qty - opp[0].open);
      var j' ;
      j', part := MatchConsumes(rest, side, isMarket, limit, qty - opp[0].open);
      j := j' + 1;
      ConsumeOne(opp, side, isMarket, limit, qty, m', j', part);
    } else {
      j, part := 0, qty;
      assert opp[..0] == [];
    }
  }

  /** Filling one more order completely in front. */
  lemma ConsumeOne(opp: seq<Order>, side: Side, isMarket: bool, limit: int, qty: nat, m': Matched, j': nat, part: nat)
    requires |opp| > 0 && opp[0].open <= qty && Marketable(side, isMarket, limit, opp[0].price)
    requires Consumes(opp[1..], side, isMarket, limit, qty - opp[0].open, m', j', part)
    ensures Consumes(opp, side, isMarket, limit, qty,
                     m'.(fills := [Fill(opp[0].id, opp[0].price, opp[0].open)] + m'.fills), j' + 1, part)
  {
    var rest := opp[1..];
    assert opp[..j' + 1] == [opp[0]] + rest[..j'];
    SumSplit([opp[0]], rest[..j']);
    assert Sum([opp[0]]) == opp[0].open + Sum([]);
    assert rest[j'..] == opp[j' + 1..];
    if part > 0 { assert rest[j' + 1..] == opp[j' + 2..]; }
  }

  // Maximal execution

  lemma {:induction false} CrossingIsPrefix(q: seq<Order>, side: Side, isMarket: bool, limit: int)
    ensures var c := Crossing(q, side, isMarket, limit);
      && |c| <= |q| && c == q[..|c|]
      && (forall i :: 0 <= i < |c| ==> Marketable(side, isMarket, limit, q[i].price))
      && (|c| < |q| ==> !Marketable(side, isMarket, limit, q[|c|].price))
  {
    if |q| > 0 && Marketable(side, isMarket, limit, q[0].price) {
      CrossingIsPrefix(q[1..], side, isMarket, limit);
    }
  }

  lemma {:induction false} CrossingCovers(q: seq<Order>, side: Side, isMarket: bool, limit: int, n: nat)
    requires n <= |q| && forall i :: 0 <= i < n ==> Marketable(side, isMarket, limit, q[i].price)
    ensures Crossing(q, side, isMarket, limit) == q[..n] + Crossing(q[n..], side, isMarket, limit)
  {
    if n > 0 {
      CrossingCovers(q[1..], side, isMarket, limit, n - 1);
      assert q[1..][n - 1..] == q[n..];
      assert q[..n] == [q[0]] + q[1..][..n - 1];
    } else {
      assert q[0..] == q;
    }
  }

  lemma {:induction false} SumPrefix(q: seq<Order>, i: nat, j: nat)
    requires i <= j <= |q|
    ensures Sum(q[..i]) <= Sum(q[..j])
    ensures i < j && Positive(q) ==> Sum(q[..i]) < Sum(q[..j])
  {
    SumSplit(q[..i], q[i..j]);
    assert q[..j] == q[..i] + q[i..j];
  }

  /** Matching executes exactly the smaller of the order's quantity and the marketable liquidity. */
  lemma MaximalExecution(opp: seq<Order>, side: Side, isMarket: bool, limit: int, qty: nat)
    ensures qty - Match(opp, side, isMarket, limit, qty).left == Min(qty, Sum(Crossing(opp, side, isMarket, limit)))
  {
    var m, c := Match(opp, side, isMarket, limit, qty), Crossing(opp, side, isMarket, limit);
    var j, part := MatchConsumes(opp, side, isMarket, limit, qty);
    CrossingCovers(opp, side, isMarket, limit, |m.fills|);
    SumSplit(opp[..|m.fills|], Crossing(opp[|m.fills|..], side, isMarket, limit));
    if part > 0 {
      assert opp[..j + 1] == opp[..j] + [opp[j]];
      SumSplit(opp[..j], [opp[j]]);
      assert Sum([opp[j]]) == opp[j].open + Sum([]);
    }
  }

  /** Afterwards either the aggressor is filled or nothing marketable is left. */
  lemma NothingMarketableLeft(opp: seq<Order>, side: Side, isMarket: bool, limit: int, qty: nat)
    requires Sorted(Opposite(side), opp)
    ensures var m := Match(opp, side, isMarket, limit, qty);
      m.left == 0 || forall o <- m.rest :: !Marketable(side, isMarket, limit, o.price)
  {
    var m := Match(opp, side, isMarket, limit, qty);
    var j, part := MatchConsumes(opp, side, isMarket, limit, qty);
    if m.left > 0 {
      forall i | 0 <= i < |m.rest| ensures !Marketable(side, isMarket, limit, m.rest[i].price) {
        assert m.rest[i] == opp[j + i];
        assert i > 0 ==> AtLeastAsGood(Opposite(side), opp[j].price, opp[j + i].price);
      }
    }
  }

  // Price and time priority

  /** Trades move monotonically away from the aggressor, stay within its limit, are made at the resting
      order's price in queue order, and fill every order but possibly the last completely. */
  lemma Priority(opp: seq<Order>, side: Side, isMarket: bool, limit: int, qty: nat)
    requires Sorted(Opposite(side), opp)
    ensures var m := Match(opp, side, isMarket, limit, qty);
      && |m.fills| <= |opp|
      && (forall i :: 0 <= i < |m.fills| ==>
            m.fills[i].restingId == opp[i].id && m.fills[i].price == opp[i].price &&
              0 <= m.fills[i].quantity <= opp[i].open)
      && (forall i :: 0 <= i < |m.fills| ==> Marketable(side, isMarket, limit, m.fills[i].price))
      && (forall i :: 0 <= i < |m.fills| - 1 ==> m.fills[i].quantity == opp[i].open)
      && (forall i, k :: 0 <= i < k < |m.fills| ==> AtLeastAsGood(Opposite(side), m.fills[i].price, m.fills[k].price))
  {
    var j, part := MatchConsumes(opp, side, isMarket, limit, qty);
  }

  // Fill-or-kill

  /** Prefix ends at which the feasibility walk looks at its running sum. */
  ghost predicate IsBoundary(q: seq<Order>, k: nat) {
    0 < k <= |q| && (k < |q| ==> q[k].price != q[k - 1].price)
  }

  /** Some level boundary of the crossing prefix has a running sum that, modulo 2^32, suffices. */
  ghost predicate WrappedFeasible(c: seq<Order>, needed: nat, available: nat) {
    exists k: nat :: IsBoundary(c, k) && (available + Sum(c[..k])) % TWO_32 >= needed
  }

  lemma {:induction false} LevelIsPrefix(q: seq<Order>, price: int)
    ensures forall i :: 0 <= i < LevelSize(q, price) ==> q[i].price == price
    ensures LevelSize(q, price) < |q| ==> q[LevelSize(q, price)].price != price
  {
    if |q| > 0 && q[0].price == price { LevelIsPrefix(q[1..], price); }
  }

  /** Marketability depends on the price alone, so a level crosses as a whole. */
  lemma CrossingLevel(q: seq<Order>, side: Side, isMarket: bool, limit: int, k: nat)
    requires |q| > 0 && Marketable(side, isMarket, limit, q[0].price) && k == LevelSize(q, q[0].price)
    ensures 0 < k <= |q| && k <= |Crossing(q, side, isMarket, limit)|
    ensures Crossing(q, side, isMarket, limit) == q[..k] + Crossing(q[k..], side, isMarket, limit)
    ensures IsBoundary(Crossing(q, side, isMarket, limit), k)
  {
    LevelIsPrefix(q, q[0].price);
    CrossingCovers(q, side, isMarket, limit, k);
    var d := Crossing(q[k..], side, isMarket, limit);
    CrossingIsPrefix(q[k..], side, isMarket, limit);
    if |d| > 0 { assert d[0] == q[k..][0] == q[k]; }
  }

  /** Boundaries of a crossing prefix: the end of the first level, and those beyond it. */
  lemma BoundariesBeyond(c: seq<Order>, k: nat, d: seq<Order>, i: nat)
    requires 0 < k <= |c| && c == c[..k] + d && (forall x :: 0 <= x < k ==> c[x].price == c[0].price) &&
      IsBoundary(c, k)
    ensures IsBoundary(c, i) <==> i == k || (i > k && IsBoundary(d, i - k))
  {
    assert forall x :: k <= x < |c| ==> c[x] == d[x - k];
  }

  /** The walk succeeds exactly when a boundary's wrapped running sum suffices. */
  lemma {:induction false} FokWalkIs(q: seq<Order>, side: Side, isMarket: bool, limit: int, needed: nat, available: nat)
    requires available < needed
    ensures FokWalk(q, side, isMarket, limit, needed, available)
        <==> WrappedFeasible(Crossing(q, side, isMarket, limit), needed, available)
    decreases |q|
  {
    var c := Crossing(q, side, isMarket, limit);
    if |q| > 0 && Marketable(side, isMarket, limit, q[0].price) {
      var k := LevelSize(q, q[0].price);
      var sum := (available + Sum(q[..k])) % TWO_32;
      CrossingLevel(q, side, isMarket, limit, k);
      LevelIsPrefix(q, q[0].price);
      var d := Crossing(q[k..], side, isMarket, limit);
      assert c[..k] == q[..k];
      if sum >= needed {
        assert IsBoundary(c, k) && (available + Sum(c[..k])) % TWO_32 >= needed;
      } else {
        FokWalkIs(q[k..], side, isMarket, limit, needed, sum);
        WalkOn(c, k, d, needed, available, sum);
      }
    }
  }

  /** Beyond the first level the running sum goes on from its wrapped value. */
  lemma WalkOn(c: seq<Order>, k: nat, d: seq<Order>, needed: nat, available: nat, sum: nat)
    requires 0 < k <= |c| && c == c[..k] + d && (forall x :: 0 <= x < k ==> c[x].price == c[0].price) &&
      IsBoundary(c, k)
    requires sum == (available + Sum(c[..k])) % TWO_32 < needed
    ensures WrappedFeasible(c, needed, available) <==> WrappedFeasible(d, needed, sum)
  {
    hide Sum;
    if WrappedFeasible(c, needed, available) {
      var i: nat :| IsBoundary(c, i) && (available + Sum(c[..i])) % TWO_32 >= needed;
      BoundariesBeyond(c, k, d, i);
      RunningSum(c, k, d, i - k, available);
      assert IsBoundary(d, i - k) && (sum + Sum(d[..i - k])) % TWO_32 >= needed;
    }
    if WrappedFeasible(d, needed, sum) {
      var i: nat :| IsBoundary(d, i) && (sum + Sum(d[..i])) % TWO_32 >= needed;
      BoundariesBeyond(c, k, d, i + k);
      RunningSum(c, k, d, i, available);
      assert IsBoundary(c, i + k) && (available + Sum(c[..i + k])) % TWO_32 >= needed;
    }
  }

  lemma RunningSum(c: seq<Order>, k: nat, d: seq<Order>, i: nat, available: nat)
    requires k <= |c| && c == c[..k] + d && i <= |d|
    ensures (available + Sum(c[..k + i])) % TWO_32 == ((available + Sum(c[..k])) % TWO_32 + Sum(d[..i])) % TWO_32
  {
    assert c[..k + i] == c[..k] + d[..i];
    SumSplit(c[..k], d[..i]);
    WrapAdd(available + Sum(c[..k]), Sum(d[..i]));
  }

  /** All or nothing: when the walk says yes the order fills completely, even if its sums wrapped. */
  lemma FokFills(opp: seq<Order>, side: Side, isMarket: bool, limit: int, needed: nat)
    requires Positive(opp) && needed > 0 && FokWalk(opp, side, isMarket, limit, needed, 0)
    ensures Match(opp, side, isMarket, limit, needed).left == 0
  {
    var c := Crossing(opp, side, isMarket, limit);
    FokWalkIs(opp, side, isMarket, limit, needed, 0);
    var k: nat :| IsBoundary(c, k) && (0 + Sum(c[..k])) % TWO_32 >= needed;
    SumPrefix(c, k, |c|);
    assert c[..|c|] == c;
    MaximalExecution(opp, side, isMarket, limit, needed);
  }

  /** The decision is right exactly when liquidity is lacking or some boundary's wrapped sum suffices;
      in particular whenever the marketable liquidity is below 2^32. */
  lemma FokDecision(opp: seq<Order>, side: Side, isMarket: bool, limit: int, needed: nat)
    requires Positive(opp) && 0 < needed
    ensures var c := Crossing(opp, side, isMarket, limit);
      && ((FokWalk(opp, side, isMarket, limit, needed, 0) <==> Sum(c) >= needed)
          <==> Sum(c) < needed || WrappedFeasible(c, needed, 0))
      && (Sum(c) < TWO_32 ==> (FokWalk(opp, side, isMarket, limit, needed, 0) <==> Sum(c) >= needed))
  {
    var c := Crossing(opp, side, isMarket, limit);
    FokWalkIs(opp, side, isMarket, limit, needed, 0);
    if FokWalk(opp, side, isMarket, limit, needed, 0) {
      FokFills(opp, side, isMarket, limit, needed);
      MaximalExecution(opp, side, isMarket, limit, needed);
    } else if Sum(c) < TWO_32 && Sum(c) >= needed {
      assert IsBoundary(c, |c|) && c[..|c|] == c;
    }
  }
}
