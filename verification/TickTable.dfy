/** The piecewise tick schedule: the minimum price increment widens as the price rises. */
module TickTable {
  import opened Api
  import opened Bits

  /** Prices below `upper`, down to the previous bracket's `upper`, move by `tick`. */
  datatype TickBracket = TickBracket(upper: int, tick: int)

  type Schedule = seq<TickBracket>

  const TICK_SCHEDULE: Schedule := [
    TickBracket(200000, 100),
    TickBracket(500000, 200),
    TickBracket(1000000, 500),
    TickBracket(PRICE_MAX, 1000)
  ]

  /** Ascending brackets with positive ticks, the last one open-ended. */
  ghost predicate IsWellFormed(s: Schedule) {
    && |s| >= 1
    && (forall i :: 0 <= i < |s| ==> s[i].tick > 0)
    && (forall i, j :: 0 <= i < j < |s| ==> s[i].upper < s[j].upper)
    && s[|s| - 1].upper == PRICE_MAX
  }

  /** Each bracket begins on a multiple of its own tick. */
  ghost predicate UpperEdgesAligned(s: Schedule) {
    forall i :: 1 <= i < |s| ==> s[i - 1].upper % NonZero(s[i].tick) == 0
  }

  /** Each bracket ends on a multiple of its own tick. */
  ghost predicate LowerEdgesAligned(s: Schedule) {
    forall i :: 0 <= i < |s| - 1 ==> s[i].upper % NonZero(s[i].tick) == 0
  }

  function NonZero(x: int): (r: int)
    ensures r != 0
  {
    if x == 0 then 1 else x
  }

  ghost predicate IsSound(s: Schedule) {
    IsWellFormed(s) && UpperEdgesAligned(s) && LowerEdgesAligned(s)
  }

  lemma DeployedScheduleIsSound()
    ensures IsSound(TICK_SCHEDULE)
  {
    var s := TICK_SCHEDULE;
    assert |s| == 4;
    assert s[0] == TickBracket(200000, 100) && s[1] == TickBracket(500000, 200);
    assert s[2] == TickBracket(1000000, 500) && s[3] == TickBracket(PRICE_MAX, 1000);
  }

  /** The first bracket from index i on that ends above `price`; the last one if none does. */
  function BracketFrom(s: Schedule, i: nat, price: int): (r: nat)
    requires i < |s|
    ensures i <= r < |s|
    ensures price < s[r].upper || r == |s| - 1
    ensures forall j :: i <= j < r ==> s[j].upper <= price
    decreases |s| - i
  {
    if price < s[i].upper || i == |s| - 1 then i else BracketFrom(s, i + 1, price)
  }

  function TickSize(s: Schedule, price: int): int
    requires |s| >= 1
  {
    s[BracketFrom(s, 0, price)].tick
  }

  predicate IsTickAligned(s: Schedule, price: int)
    requires IsWellFormed(s)
  {
    price > 0 && price % TickSize(s, price) == 0
  }

  /** Round up to the nearest valid tick. */
  function CeilToTick(s: Schedule, price: int): int
    requires IsWellFormed(s)
  {
    if price <= 0 then TickSize(s, 0)
    else
      var step := TickSize(s, price);
      var rem := price % step;
      if rem == 0 then price else price + (step - rem)
  }

  /** Round down to the nearest valid tick; 0 when there is none. */
  function FloorToTick(s: Schedule, price: int): int
    requires IsWellFormed(s)
  {
    if price <= 0 then 0 else price - price % TickSize(s, price)
  }

  // The documented ladder

  /** The increments the schedule documents, bracket by bracket. */
  function DocumentedTick(price: int): int {
    if price < 200000 then 100 else if price < 500000 then 200 else if price < 1000000 then 500 else 1000
  }

  /** A price an order may be entered at. */
  predicate OnTick(price: int) {
    price > 0 && price % DocumentedTick(price) == 0
  }

  /** The deployed schedule is the documented one, at every price. */
  lemma TicksAsDocumented(price: int)
    ensures IsWellFormed(TICK_SCHEDULE)
    ensures TickSize(TICK_SCHEDULE, price) == DocumentedTick(price)
    ensures IsTickAligned(TICK_SCHEDULE, price) <==> OnTick(price)
  {
    DeployedScheduleIsSound();
    var i := if price < 200000 then 0 else if price < 500000 then 1 else if price < 1000000 then 2 else 3;
    assert BracketFrom(TICK_SCHEDULE, 0, price) == i && TICK_SCHEDULE[i].tick == DocumentedTick(price);
  }

  /** The compile-time spot checks of the tick size, of alignment and of rounding. */
  lemma SpotChecks()
    ensures IsWellFormed(TICK_SCHEDULE)
    ensures TickSize(TICK_SCHEDULE, 1) == TickSize(TICK_SCHEDULE, 199900) == 100
    ensures TickSize(TICK_SCHEDULE, 200000) == TickSize(TICK_SCHEDULE, 499800) == 200
    ensures TickSize(TICK_SCHEDULE, 500000) == TickSize(TICK_SCHEDULE, 999500) == 500
    ensures TickSize(TICK_SCHEDULE, 1000000) == 1000
    ensures IsTickAligned(TICK_SCHEDULE, 251000) && !IsTickAligned(TICK_SCHEDULE, 251100)
    ensures !IsTickAligned(TICK_SCHEDULE, 0) && !IsTickAligned(TICK_SCHEDULE, -100)
    ensures CeilToTick(TICK_SCHEDULE, 251001) == 251200 && CeilToTick(TICK_SCHEDULE, 251000) == 251000
    ensures FloorToTick(TICK_SCHEDULE, 251199) == 251000 && FloorToTick(TICK_SCHEDULE, 251000) == 251000
  {
    hide TickSize;
    TicksAsDocumented(1);
    TicksAsDocumented(199900);
    TicksAsDocumented(200000);
    TicksAsDocumented(499800);
    TicksAsDocumented(500000);
    TicksAsDocumented(999500);
    TicksAsDocumented(1000000);
    TicksAsDocumented(251000);
    TicksAsDocumented(251001);
    TicksAsDocumented(251100);
    TicksAsDocumented(251199);
    TicksAsDocumented(0);
    TicksAsDocumented(-100);
  }

  // Multiples

  lemma MultipleStep(t: int, p: int, q: int)
    requires t > 0 && p % t == 0 && q % t == 0 && p < q
    ensures p + t <= q
  {
    assert q == t * (q / t) && p == t * (p / t);
    assert q - p == t * (q / t - p / t);
    if q / t - p / t <= 0 {
      NonPositiveProduct(t, q / t - p / t);
    } else {
      MulAtLeast(t, q / t - p / t);
    }
  }

  lemma NonPositiveProduct(t: int, k: int)
    requires t > 0 && k <= 0
    ensures t * k <= 0
  {
  }

  lemma MultipleAdd(t: int, p: int, k: int)
    requires t > 0 && p % t == 0
    ensures (p + t * k) % t == 0 && (p + t * k) / t == p / t + k
  {
    assert p == t * (p / t);
    assert p + t * k == t * (p / t + k);
    DivModUnique(p + t * k, t, p / t + k, 0);
  }

  lemma RoundUpIsMultiple(t: int, p: int)
    requires t > 0
    ensures (p + (t - p % t)) % t == 0 && (p - p % t) % t == 0
  {
    assert p == t * (p / t) + p % t;
    assert p + (t - p % t) == t * (p / t + 1);
    DivModUnique(p + (t - p % t), t, p / t + 1, 0);
    DivModUnique(p - p % t, t, p / t, 0);
  }

  // Brackets

  lemma SameBracket(s: Schedule, p: int, q: int)
    requires IsWellFormed(s) && p <= q
    requires q < s[BracketFrom(s, 0, p)].upper || BracketFrom(s, 0, p) == |s| - 1
    ensures BracketFrom(s, 0, q) == BracketFrom(s, 0, p)
  {
  }

  lemma NextBracket(s: Schedule, i: nat)
    requires IsWellFormed(s) && i < |s| - 1
    ensures BracketFrom(s, 0, s[i].upper) == i + 1
  {
    assert s[i].upper < s[i + 1].upper;
  }

  lemma BracketEndIsAligned(s: Schedule, i: nat)
    requires IsWellFormed(s) && UpperEdgesAligned(s) && i < |s| - 1 && s[i].upper > 0
    ensures IsTickAligned(s, s[i].upper)
  {
    NextBracket(s, i);
    assert s[i + 1 - 1].upper % NonZero(s[i + 1].tick) == 0;
  }

  /** A multiple of a bracket's tick that does not pass the bracket's end is a valid price. */
  lemma MultipleUpToEdge(s: Schedule, p: int, q: int)
    requires IsWellFormed(s) && UpperEdgesAligned(s) && p <= q && q > 0
    requires q % TickSize(s, p) == 0
    requires q <= s[BracketFrom(s, 0, p)].upper || BracketFrom(s, 0, p) == |s| - 1
    ensures IsTickAligned(s, q)
  {
    var i := BracketFrom(s, 0, p);
    if i < |s| - 1 && q == s[i].upper {
      BracketEndIsAligned(s, i);
    } else {
      SameBracket(s, p, q);
    }
  }

  /** A bracket's end is a multiple of its tick, or one above a multiple that is itself positive. */
  ghost predicate EndFits(b: TickBracket) {
    b.upper % NonZero(b.tick) == 0 || (b.upper % NonZero(b.tick) == 1 && b.upper > b.tick)
  }

  ghost predicate EndsFit(s: Schedule) {
    forall i :: 0 <= i < |s| - 1 && s[i].upper > 0 ==> EndFits(s[i])
  }

  lemma SoundEndsFit(s: Schedule)
    requires IsSound(s)
    ensures EndsFit(s)
  {
  }

  /** The first multiple of the tick from p on does not pass the end of p's bracket. */
  lemma CeilingStaysInBracket(s: Schedule, p: int, q: int)
    requires IsWellFormed(s) && EndsFit(s) && 0 <= p < PRICE_MAX
    requires q % TickSize(s, p) == 0 && (q - TickSize(s, p) < p || (p == 0 && q == TickSize(s, p)))
    ensures q <= s[BracketFrom(s, 0, p)].upper || BracketFrom(s, 0, p) == |s| - 1
  {
    var i := BracketFrom(s, 0, p);
    if i < |s| - 1 {
      var t, u := s[i].tick, s[i].upper;
      assert EndFits(s[i]);
      if u % NonZero(t) == 0 {
        if q > u { MultipleStep(t, u, q); }
      } else {
        RoundUpIsMultiple(t, u);
        if q > u - 1 { MultipleStep(t, u - 1, q); }
      }
    }
  }

  lemma NextStaysInBracket(s: Schedule, p: int)
    requires IsSound(s) && IsTickAligned(s, p) && p < PRICE_MAX
    ensures p + TickSize(s, p) <= s[BracketFrom(s, 0, p)].upper || BracketFrom(s, 0, p) == |s| - 1
  {
    var i := BracketFrom(s, 0, p);
    if i < |s| - 1 {
      assert s[i].upper % NonZero(s[i].tick) == 0;
      MultipleStep(s[i].tick, p, s[i].upper);
    }
  }

  /** From a valid price the next valid price is one tick up, across bracket edges too. */
  lemma NextPrice(s: Schedule, p: int)
    requires IsSound(s) && IsTickAligned(s, p) && p < PRICE_MAX
    ensures TickSize(s, p) > 0
    ensures IsTickAligned(s, p + TickSize(s, p))
    ensures forall q :: p < q < p + TickSize(s, p) ==> !IsTickAligned(s, q)
  {
    var t := TickSize(s, p);
    NextStaysInBracket(s, p);
    MultipleAdd(t, p, 1);
    MultipleUpToEdge(s, p, p + t);
    forall q | p < q < p + t ensures !IsTickAligned(s, q) {
      SameBracket(s, p, q);
      if q % t == 0 { MultipleStep(t, p, q); }
    }
  }

  /** c is the least valid price at or above p. */
  ghost predicate IsLeastFrom(s: Schedule, p: int, c: int)
    requires IsWellFormed(s)
  {
    IsTickAligned(s, c) && c >= p && forall q :: q >= p && IsTickAligned(s, q) ==> q >= c
  }

  lemma CeilIsLeastIf(s: Schedule, p: int)
    requires IsWellFormed(s) && UpperEdgesAligned(s) && EndsFit(s) && p < PRICE_MAX
    ensures IsLeastFrom(s, p, CeilToTick(s, p))
  {
    var base := if p <= 0 then 0 else p;
    var t := TickSize(s, base);
    var c := CeilToTick(s, p);
    RoundUpIsMultiple(t, base);
    assert p <= 0 ==> c == t && t % t == 0;
    CeilingStaysInBracket(s, base, c);
    MultipleUpToEdge(s, base, c);
    forall q | q >= p && IsTickAligned(s, q) ensures q >= c {
      if q < c {
        SameBracket(s, base, q);
        assert (c - t) % t == 0 by { MultipleAdd(t, c, -1); }
        MultipleStep(t, c - t, q);
      }
    }
  }

  /** Just below a bracket's ill-fitting end CeilToTick jumps past the end, which is a valid price. */
  lemma CeilOvershoots(s: Schedule, i: nat)
    requires IsWellFormed(s) && UpperEdgesAligned(s) && i < |s| - 1 && s[i].upper > 0 && !EndFits(s[i])
    ensures s[i].upper - 1 < PRICE_MAX && IsTickAligned(s, s[i].upper) && CeilToTick(s, s[i].upper - 1) > s[i].upper
  {
    var t, u := s[i].tick, s[i].upper;
    BracketEndIsAligned(s, i);
    assert u < s[|s| - 1].upper;
    assert BracketFrom(s, 0, u - 1) == i;
    if u > 1 {
      assert u % t > 1 by { if u % t == 1 { SmallRemainder(u, t); } }
      RemainderBelow(u, t);
    }
  }

  lemma SmallRemainder(u: int, t: int)
    requires t > 0 && u > 1 && u % t == 1
    ensures u > t
  {
  }

  lemma RemainderBelow(u: int, t: int)
    requires t > 0 && u % t > 0
    ensures (u - 1) % t == u % t - 1
  {
    assert u - 1 == t * (u / t) + (u % t - 1);
    DivModUnique(u - 1, t, u / t, u % t - 1);
  }

  /** For a schedule whose brackets begin on their ticks, as the compile-time checks assert, CeilToTick is the
      least valid price for every price exactly when every bracket's end fits its own tick. */
  lemma CeilIsLeastIff(s: Schedule)
    requires IsWellFormed(s) && UpperEdgesAligned(s)
    ensures (forall p :: p < PRICE_MAX ==> IsLeastFrom(s, p, CeilToTick(s, p))) <==> EndsFit(s)
  {
    hide CeilToTick, IsTickAligned, UpperEdgesAligned, EndFits;
    if EndsFit(s) {
      forall p | p < PRICE_MAX ensures IsLeastFrom(s, p, CeilToTick(s, p)) { CeilIsLeastIf(s, p); }
    } else {
      var i: nat :| i < |s| - 1 && s[i].upper > 0 && !EndFits(s[i]);
      CeilOvershoots(s, i);
      assert !IsLeastFrom(s, s[i].upper - 1, CeilToTick(s, s[i].upper - 1));
    }
  }

  /** The asserted edge conditions alone let CeilToTick(210) skip the valid price 250 for an invalid one. */
  lemma AssertedEdgesDoNotSuffice()
    ensures var s := [TickBracket(250, 100), TickBracket(PRICE_MAX, 250)];
      && IsWellFormed(s) && UpperEdgesAligned(s) && !EndsFit(s)
      && CeilToTick(s, 210) == 300 && !IsTickAligned(s, 300) && IsTickAligned(s, 250)
  {
    var s := [TickBracket(250, 100), TickBracket(PRICE_MAX, 250)];
    assert BracketFrom(s, 0, 210) == 0 && BracketFrom(s, 0, 300) == 1 && BracketFrom(s, 0, 250) == 1;
    assert 300 % 250 == 50 && 210 % 100 == 10 && 250 % 250 == 0 && 250 % 100 == 50;
    assert !EndFits(s[0]);
  }

  /** On a sound schedule CeilToTick is the least valid price at or above its argument, also when it lands on an
      edge. */
  lemma CeilIsLeast(s: Schedule, p: int)
    requires IsSound(s) && p < PRICE_MAX
    ensures IsTickAligned(s, CeilToTick(s, p)) && CeilToTick(s, p) >= p
    ensures forall q :: q >= p && IsTickAligned(s, q) ==> q >= CeilToTick(s, p)
  {
    hide CeilToTick, IsTickAligned;
    SoundEndsFit(s);
    CeilIsLeastIf(s, p);
  }

  /** FloorToTick is the greatest valid price at or below its argument, 0 when there is none. */
  lemma FloorIsGreatest(s: Schedule, p: int)
    requires IsWellFormed(s) && UpperEdgesAligned(s) && p < PRICE_MAX
    ensures FloorToTick(s, p) <= p || p <= 0
    ensures FloorToTick(s, p) == 0 || IsTickAligned(s, FloorToTick(s, p))
    ensures forall q :: q <= p && IsTickAligned(s, q) ==> q <= FloorToTick(s, p)
  {
    if p > 0 {
      var t, i := TickSize(s, p), BracketFrom(s, 0, p);
      var f := FloorToTick(s, p);
      RoundUpIsMultiple(t, p);
      var low := if i == 0 || s[i - 1].upper <= 0 then 0 else s[i - 1].upper;
      assert low % t == 0 by {
        if i > 0 { assert s[i - 1].upper % NonZero(s[i].tick) == 0; }
      }
      assert low <= p;
      if f < low { MultipleStep(t, f, low); }
      if f > 0 {
        assert BracketFrom(s, 0, low) == i by { if low > 0 { NextBracket(s, i - 1); } }
        SameBracket(s, low, f);
      }
      forall q | q <= p && IsTickAligned(s, q) ensures q <= f {
        if q > f {
          assert BracketFrom(s, 0, low) == i by { if low > 0 { NextBracket(s, i - 1); } }
          SameBracket(s, low, q);
          MultipleStep(t, f, q);
        }
      }
    }
  }

  /** Every valid price of the band [lo, hi], ascending: one tick up at a time from lo. */
  function Levels(s: Schedule, lo: int, hi: int): (r: seq<int>)
    requires IsWellFormed(s)
    ensures |r| == 0 <==> lo > hi
    decreases if lo <= hi then hi - lo + 1 else 0
  {
    if lo > hi then []
    else
      assert s[BracketFrom(s, 0, lo)].tick > 0;
      [lo] + Levels(s, lo + TickSize(s, lo), hi)
  }

  /** Levels lists exactly the valid prices of the band, each once, in ascending order. */
  lemma {:induction false} LevelsExact(s: Schedule, lo: int, hi: int)
    requires IsSound(s) && IsTickAligned(s, lo) && hi < PRICE_MAX
    ensures forall p :: p in Levels(s, lo, hi) <==> lo <= p <= hi && IsTickAligned(s, p)
    ensures forall i, j :: 0 <= i < j < |Levels(s, lo, hi)| ==> Levels(s, lo, hi)[i] < Levels(s, lo, hi)[j]
    decreases if lo <= hi then hi - lo + 1 else 0
  {
    if lo <= hi {
      NextPrice(s, lo);
      var next := lo + TickSize(s, lo);
      LevelsExact(s, next, hi);
      var ls, tail := Levels(s, lo, hi), Levels(s, next, hi);
      assert ls == [lo] + tail;
      forall i, j | 0 <= i < j < |ls| ensures ls[i] < ls[j] {
        assert ls[j] == tail[j - 1];
        assert tail[j - 1] in tail;
      }
    }
  }

  lemma MulStep(n: int, t: int, step: int, d: int)
    requires n * t > d - step && step <= t
    ensures (n + 1) * t > d
  {
    assert (n + 1) * t == n * t + t;
  }

  /** A band has at least one level per widest tick. */
  lemma {:induction false} LevelsAtLeast(s: Schedule, lo: int, hi: int, t: int)
    requires IsWellFormed(s)
    requires forall i :: 0 <= i < |s| ==> s[i].tick <= t
    ensures |Levels(s, lo, hi)| * t > hi - lo
    decreases if lo <= hi then hi - lo + 1 else 0
  {
    if lo <= hi {
      var step := TickSize(s, lo);
      assert s[BracketFrom(s, 0, lo)].tick > 0;
      LevelsAtLeast(s, lo + step, hi, t);
      MulStep(|Levels(s, lo + step, hi)|, t, step, hi - lo);
    }
  }
}
