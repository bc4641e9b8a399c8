/** Bijection between the valid prices of a daily band and a dense range of level indices. */
module PriceLadder {
  import opened Api
  import opened Bits
  import opened Pigeons
  import opened TickTable

  /** Prices start, start + tick, ..., end, mapped to indices from `offset` on. */
  datatype Segment = Segment(start: int, end: int, tick: int, offset: uint32, count: uint32)

  /** The price k ticks above start. */
  ghost function TickUp(start: int, tick: int, k: nat): int {
    if k == 0 then start else TickUp(start, tick, k - 1) + tick
  }

  /** The prices a segment maps, in index order. */
  ghost function Prices(seg: Segment): (r: seq<int>)
    ensures |r| == seg.count
  {
    TickRun(seg.start, seg.tick, seg.count)
  }

  /** n prices one tick apart. */
  ghost function TickRun(start: int, tick: int, n: nat): (r: seq<int>)
    ensures |r| == n
    decreases n
  {
    if n == 0 then [] else [start] + TickRun(start + tick, tick, n - 1)
  }

  lemma {:induction false} RunAt(start: int, tick: int, n: nat, i: nat)
    requires i < n
    ensures TickRun(start, tick, n)[i] == TickUp(start, tick, i)
    decreases i
  {
    if i > 0 {
      RunAt(start + tick, tick, n - 1, i - 1);
      TickUpShift(start, tick, i - 1);
    }
  }

  ghost function AllPrices(segs: seq<Segment>): seq<int> {
    if |segs| == 0 then [] else AllPrices(segs[..|segs| - 1]) + Prices(segs[|segs| - 1])
  }

  ghost predicate IsSegment(seg: Segment) {
    seg.tick > 0 && seg.count > 0 && seg.end == TickUp(seg.start, seg.tick, seg.count - 1)
  }

  /** Segments laid end to end: indices add up and prices ascend from one to the next. */
  ghost predicate Chained(segs: seq<Segment>) {
    |segs| > 0 ==>
      var init, last := segs[..|segs| - 1], segs[|segs| - 1];
      && Chained(init) && IsSegment(last) && last.offset == |AllPrices(init)|
      && (|init| > 0 ==> init[|init| - 1].end < last.start)
  }

  lemma {:induction false} TickUpIs(start: int, tick: int, k: nat)
    ensures TickUp(start, tick, k) == start + k * tick
  {
    if k > 0 {
      TickUpIs(start, tick, k - 1);
      assert k * tick == (k - 1) * tick + tick;
    }
  }

  lemma {:induction false} TickUpMono(start: int, tick: int, a: nat, b: nat)
    requires tick > 0 && a <= b
    ensures TickUp(start, tick, a) + (b - a) <= TickUp(start, tick, b)
  {
    if a < b { TickUpMono(start, tick, a, b - 1); }
  }

  lemma {:induction false} TickUpShift(start: int, tick: int, k: nat)
    ensures TickUp(start + tick, tick, k) == TickUp(start, tick, k + 1)
  {
    if k > 0 { TickUpShift(start, tick, k - 1); }
  }

  /** Segment i holds the indices and prices it says it holds. */
  lemma {:induction false} SegmentAt(segs: seq<Segment>, i: nat, k: nat)
    requires i < |segs| && Chained(segs) && k < segs[i].count
    ensures IsSegment(segs[i]) && segs[i].offset + segs[i].count <= |AllPrices(segs)|
    ensures AllPrices(segs)[segs[i].offset + k] == TickUp(segs[i].start, segs[i].tick, k)
    decreases |segs|
  {
    if i < |segs| - 1 { SegmentAt(segs[..|segs| - 1], i, k); }
    else { RunAt(segs[i].start, segs[i].tick, segs[i].count, k); }
  }

  lemma {:induction false} ChainedEach(segs: seq<Segment>, i: nat)
    requires i < |segs| && Chained(segs)
    ensures IsSegment(segs[i]) && segs[i].start <= segs[i].end
    ensures segs[i].offset + segs[i].count <= |AllPrices(segs)|
    decreases |segs|
  {
    if i < |segs| - 1 { ChainedEach(segs[..|segs| - 1], i); }
    else { TickUpMono(segs[i].start, segs[i].tick, 0, segs[i].count - 1); }
  }

  /** Every index lies in a segment. */
  lemma {:induction false} IndexInSegment(segs: seq<Segment>, index: nat) returns (i: nat)
    requires Chained(segs) && index < |AllPrices(segs)|
    ensures i < |segs| && segs[i].offset <= index < segs[i].offset + segs[i].count
    decreases |segs|
  {
    var init := segs[..|segs| - 1];
    if index < |AllPrices(init)| {
      i := IndexInSegment(init, index);
    } else {
      i := |segs| - 1;
    }
  }

  lemma {:induction false} SegmentsAscend(segs: seq<Segment>, i: nat, j: nat)
    requires Chained(segs) && i < j < |segs|
    ensures segs[i].end < segs[j].start
    decreases |segs|
  {
    if j < |segs| - 1 {
      SegmentsAscend(segs[..|segs| - 1], i, j);
    } else if i < j - 1 {
      SegmentsAscend(segs[..|segs| - 1], i, j - 1);
      ChainedEach(segs, j - 1);
    }
  }

  /** A level's price lies within the segment that holds its index. */
  lemma LocatePrice(segs: seq<Segment>, index: nat) returns (j: nat, k: nat)
    requires Chained(segs) && index < |AllPrices(segs)|
    ensures j < |segs| && k < segs[j].count && segs[j].tick > 0
    ensures AllPrices(segs)[index] == segs[j].start + k * segs[j].tick
    ensures segs[j].start <= AllPrices(segs)[index] <= segs[j].end
  {
    j := IndexInSegment(segs, index);
    k := index - segs[j].offset;
    SegmentAt(segs, j, k);
    TickUpMono(segs[j].start, segs[j].tick, k, segs[j].count - 1);
    TickUpMono(segs[j].start, segs[j].tick, 0, k);
    TickUpIs(segs[j].start, segs[j].tick, k);
  }

  /** A price inside a segment but off its tick is no level. */
  lemma OffTick(segs: seq<Segment>, i: nat, price: int)
    requires Chained(segs) && i < |segs| && segs[i].start <= price <= segs[i].end
    requires segs[i].tick > 0 && (price - segs[i].start) % segs[i].tick != 0
    ensures price !in AllPrices(segs)
  {
    forall index | 0 <= index < |AllPrices(segs)| ensures AllPrices(segs)[index] != price {
      OffTickAt(segs, i, price, index);
    }
  }

  lemma OffTickAt(segs: seq<Segment>, i: nat, price: int, index: nat)
    requires Chained(segs) && i < |segs| && segs[i].start <= price <= segs[i].end
    requires segs[i].tick > 0 && (price - segs[i].start) % segs[i].tick != 0
    requires index < |AllPrices(segs)|
    ensures AllPrices(segs)[index] != price
  {
    hide Chained, AllPrices;
    var j, k := LocatePrice(segs, index);
    if i < j {
      SegmentsAscend(segs, i, j);
    } else if j < i {
      SegmentsAscend(segs, j, i);
    } else {
      OffByRemainder(price - segs[i].start, segs[i].tick, k);
    }
  }

  lemma OffByRemainder(d: int, t: int, k: int)
    requires t > 0 && d % t != 0
    ensures d != k * t
  {
    RemOfMultiple(t, k);
  }

  lemma RemOfMultiple(t: int, k: int)
    requires t > 0
    ensures (k * t) % t == 0
  {
    MultipleAdd(t, 0, k);
    assert 0 + t * k == k * t;
  }

  /** A price inside a segment and on its tick is the level its distance says. */
  lemma OnTick(segs: seq<Segment>, i: nat, price: int)
    requires Chained(segs) && i < |segs| && segs[i].start <= price <= segs[i].end
    requires segs[i].tick > 0 && (price - segs[i].start) % segs[i].tick == 0
    ensures var r := segs[i].offset + (price - segs[i].start) / segs[i].tick;
      0 <= r < |AllPrices(segs)| && AllPrices(segs)[r] == price
  {
    var seg := segs[i];
    var k := (price - seg.start) / seg.tick;
    ChainedEach(segs, i);
    ExactQuotient(seg.tick, price - seg.start);
    TickUpIs(seg.start, seg.tick, k);
    if k >= seg.count { TickUpMono(seg.start, seg.tick, seg.count - 1, k); }
    SegmentAt(segs, i, k);
  }

  lemma ExactQuotient(t: int, x: int)
    requires t > 0 && x >= 0 && x % t == 0
    ensures x / t >= 0 && x / t * t == x
  {
    QuotientMono(t, 0, x);
  }

  lemma NoSegment(segs: seq<Segment>, price: int)
    requires Chained(segs)
    requires forall j :: 0 <= j < |segs| ==> !(segs[j].start <= price <= segs[j].end)
    ensures price !in AllPrices(segs)
  {
    forall index | 0 <= index < |AllPrices(segs)| ensures AllPrices(segs)[index] != price {
      var j, k := LocatePrice(segs, index);
    }
  }

  /** The prices from cur to the last one of its regime are one tick apart. */
  lemma BracketRun(s: Schedule, cur: int, hi: int, regimeLast: int)
    requires IsSound(s) && IsTickAligned(s, cur) && cur <= hi < PRICE_MAX && IsTickAligned(s, hi)
    requires var up := s[BracketFrom(s, 0, cur)].upper;
      regimeLast == if up == PRICE_MAX then hi else Min(hi, up - TickSize(s, cur))
    ensures TickSize(s, cur) > 0 && cur <= regimeLast <= hi
    ensures cur % TickSize(s, cur) == 0 && regimeLast % TickSize(s, cur) == 0
    ensures BracketFrom(s, 0, regimeLast) == BracketFrom(s, 0, cur)
    ensures regimeLast + TickSize(s, cur) > hi || regimeLast + TickSize(s, cur) == s[BracketFrom(s, 0, cur)].upper
  {
    var i := BracketFrom(s, 0, cur);
    var t, up := s[i].tick, s[i].upper;
    if up == PRICE_MAX {
      LastBracket(s, i);
      SameBracket(s, cur, hi);
    } else {
      assert i < |s| - 1 && up % NonZero(t) == 0;
      MultipleStep(t, cur, up);
      MultipleMinus(t, up);
      SameBracket(s, cur, regimeLast);
    }
  }

  lemma LastBracket(s: Schedule, i: nat)
    requires IsWellFormed(s) && i < |s| && s[i].upper >= PRICE_MAX
    ensures i == |s| - 1
  {
    var last := |s| - 1;
    assert s[last].upper == PRICE_MAX;
  }

  lemma MultipleMinus(t: int, p: int)
    requires t > 0 && p % t == 0
    ensures (p - t) % t == 0
  {
    MultipleAdd(t, p, -1);
    assert p + t * -1 == p - t;
  }

  lemma RunLength(t: int, a: int, b: int) returns (n: nat)
    requires t > 0 && a <= b && a % t == 0 && b % t == 0
    ensures (b - a) / t == n && b == TickUp(a, t, n)
  {
    assert a == t * (a / t) && b == t * (b / t);
    DivModUnique(b - a, t, b / t - a / t, 0);
    QuotientMono(t, a, b);
    n := b / t - a / t;
    TickUpIs(a, t, n);
  }

  lemma QuotientMono(t: int, a: int, b: int)
    requires t > 0 && a <= b
    ensures a / t <= b / t
  {
    assert a == t * (a / t) + a % t && b == t * (b / t) + b % t;
    assert t * (a / t) - t * (b / t) == t * (a / t - b / t);
    if a / t > b / t { MulAtLeast(t, a / t - b / t); }
  }

  /** Stepping through one regime yields the same prices as the one-tick walk. */
  lemma {:induction false} RunIsLevels(s: Schedule, cur: int, t: int, n: nat, last: int, hi: int)
    requires IsWellFormed(s) && TickSize(s, cur) == t > 0
    requires last == TickUp(cur, t, n) && last <= hi
    requires BracketFrom(s, 0, last) == BracketFrom(s, 0, cur)
    ensures Levels(s, cur, hi) == TickRun(cur, t, n + 1) + Levels(s, last + t, hi)
    decreases n
  {
    hide Levels, TickRun, IsWellFormed;
    TickUpMono(cur, t, 0, n);
    LevelsCons(s, cur, hi, t);
    RunCons(cur, t, n);
    if n > 0 {
      TickUpShift(cur, t, n - 1);
      TickUpMono(cur, t, 1, n);
      WithinBracket(s, cur, cur + t, last);
      RunIsLevels(s, cur + t, t, n - 1, last, hi);
      Reassociate([cur], TickRun(cur + t, t, n), Levels(s, last + t, hi));
    }
  }

  lemma Reassociate<T>(a: seq<T>, b: seq<T>, c: seq<T>)
    ensures a + (b + c) == (a + b) + c
  {
  }

  lemma RunCons(start: int, tick: int, n: nat)
    ensures TickRun(start, tick, n + 1) == [start] + TickRun(start + tick, tick, n)
  {
  }

  lemma LevelsCons(s: Schedule, cur: int, hi: int, t: int)
    requires IsWellFormed(s) && TickSize(s, cur) == t && cur <= hi
    ensures Levels(s, cur, hi) == [cur] + Levels(s, cur + t, hi)
  {
  }

  lemma WithinBracket(s: Schedule, p: int, q: int, r: int)
    requires IsWellFormed(s) && p <= q <= r && BracketFrom(s, 0, r) == BracketFrom(s, 0, p)
    ensures BracketFrom(s, 0, q) == BracketFrom(s, 0, p)
  {
    SameBracket(s, p, q);
  }

  /** What the building loop has done so far, as long as the level count fits in 32 bits. */
  ghost predicate Building(s: Schedule, segs: seq<Segment>, cur: int, offset: uint32, hi: int, all: seq<int>)
    requires IsWellFormed(s)
  {
    && Chained(segs)
    && AllPrices(segs) + Levels(s, cur, hi) == all
    && offset == |AllPrices(segs)|
    && (|segs| > 0 ==> segs[|segs| - 1].end < cur)
  }

  /** Where the building loop starts and what it has built when the band is used up. */
  lemma BuildEnds(s: Schedule, segs: seq<Segment>, cur: int, offset: uint32, hi: int, all: seq<int>)
    requires IsWellFormed(s)
    ensures Building(s, [], cur, 0, hi, Levels(s, cur, hi))
    ensures Building(s, segs, cur, offset, hi, all) && cur > hi ==>
      Chained(segs) && AllPrices(segs) == all && offset == |all|
  {
    assert AllPrices(segs) + [] == AllPrices(segs);
    assert [] + Levels(s, cur, hi) == Levels(s, cur, hi);
  }

  /** Levels from one price to another of the same regime, in 32-bit arithmetic. */
  method CountTo(from: int, last: int, step: int) returns (count: uint32, ghost n: nat)
    requires step > 0 && from <= last && from % step == 0 && last % step == 0
    ensures last == TickUp(from, step, n) && count == (n % TWO_32 + 1) % TWO_32
  {
    n := RunLength(step, from, last);
    count := ((last - from) / step % TWO_32 + 1) % TWO_32;
  }

  lemma WrapFits(n: nat)
    requires n + 1 < TWO_32
    ensures (n % TWO_32 + 1) % TWO_32 == n + 1
  {
  }

  /** One turn of the building loop. */
  lemma AppendRun(s: Schedule, segs: seq<Segment>, seg: Segment, n: nat, hi: int, all: seq<int>)
    requires IsSound(s) && Building(s, segs, seg.start, seg.offset, hi, all) && |all| < TWO_32
    requires seg.tick == TickSize(s, seg.start) > 0 && seg.start <= seg.end <= hi
    requires BracketFrom(s, 0, seg.end) == BracketFrom(s, 0, seg.start)
    requires seg.end == TickUp(seg.start, seg.tick, n) && seg.count == (n % TWO_32 + 1) % TWO_32
    ensures Building(s, segs + [seg], seg.end + seg.tick, (seg.offset + seg.count) % TWO_32, hi, all)
  {
    hide Levels, TickRun, UpperEdgesAligned, LowerEdgesAligned, TickUp;
    RunIsLevels(s, seg.start, seg.tick, n, seg.end, hi);
    var run := TickRun(seg.start, seg.tick, n + 1);
    var rest := Levels(s, seg.end + seg.tick, hi);
    Reassociate(AllPrices(segs), run, rest);
    assert |run| == n + 1 <= |all|;
    WrapFits(n);
    assert Prices(seg) == run;
    var segs' := segs + [seg];
    assert segs'[..|segs'| - 1] == segs;
  }

  /** Each turn uses up one bracket and keeps what the loop promises. */
  lemma BuildTurn(s: Schedule, segs: seq<Segment>, seg: Segment, n: nat, bracket: nat, hi: int, all: seq<int>)
    requires IsSound(s) && IsTickAligned(s, seg.start) && seg.start <= seg.end <= hi < PRICE_MAX
    requires seg.tick == TickSize(s, seg.start) > 0 && seg.end % seg.tick == 0
    requires BracketFrom(s, 0, seg.end) == BracketFrom(s, 0, seg.start)
    requires seg.end == TickUp(seg.start, seg.tick, n) && seg.count == (n % TWO_32 + 1) % TWO_32
    requires |segs| <= bracket <= |s| && (bracket > 0 ==> seg.start >= s[bracket - 1].upper)
    requires seg.end + seg.tick > hi || seg.end + seg.tick == s[BracketFrom(s, 0, seg.start)].upper
    requires |all| < TWO_32 ==> Building(s, segs, seg.start, seg.offset, hi, all)
    ensures IsTickAligned(s, seg.end + seg.tick)
    ensures bracket < BracketFrom(s, 0, seg.start) + 1
    ensures |all| < TWO_32 ==>
      Building(s, segs + [seg], seg.end + seg.tick, (seg.offset + seg.count) % TWO_32, hi, all)
  {
    NextPrice(s, seg.end);
    if bracket > 0 { BracketPassed(s, seg.start, bracket - 1); }
    if |all| < TWO_32 { AppendRun(s, segs, seg, n, hi, all); }
  }

  lemma BracketPassed(s: Schedule, p: int, i: nat)
    requires IsWellFormed(s) && i < |s| && s[i].upper <= p < PRICE_MAX
    ensures BracketFrom(s, 0, p) > i
  {
    var b, last := BracketFrom(s, 0, p), |s| - 1;
    assert s[last].upper == PRICE_MAX;
    assert forall j :: 0 <= j <= i ==> s[j].upper <= s[i].upper;
  }

  ghost predicate TicksPositive(segs: seq<Segment>) {
    forall i :: 0 <= i < |segs| ==> segs[i].tick > 0
  }

  /** The index the search over segments i, i + 1, ... gives a price; -1 if none. */
  function IndexFrom(segs: seq<Segment>, i: nat, price: int): int
    requires i <= |segs| && TicksPositive(segs)
    decreases |segs| - i
  {
    if i == |segs| then -1
    else if segs[i].start <= price <= segs[i].end then
      var rem := price - segs[i].start;
      if rem % segs[i].tick != 0 then -1 else segs[i].offset + rem / segs[i].tick
    else IndexFrom(segs, i + 1, price)
  }

  /** The price the search over segments i, i + 1, ... gives an index; 0 if none. */
  function PriceFrom(segs: seq<Segment>, i: nat, index: int): int
    requires i <= |segs|
    decreases |segs| - i
  {
    if i == |segs| then 0
    else if segs[i].offset <= index < (segs[i].offset + segs[i].count) % TWO_32 then
      segs[i].start + (index - segs[i].offset) * segs[i].tick
    else PriceFrom(segs, i + 1, index)
  }

  /** The ladder addresses every level of its band within [0, size) and back. */
  ghost predicate RoundTrips(segs: seq<Segment>, lo: int, hi: int, size: uint32, levels: seq<int>)
    requires TicksPositive(segs)
  {
    forall p <- levels :: lo <= p <= hi && 0 <= IndexFrom(segs, 0, p) < size &&
      PriceFrom(segs, 0, IndexFrom(segs, 0, p)) == p
  }

  /** The segment that stops the search for a price, or none. */
  lemma {:induction false} IndexSearch(segs: seq<Segment>, i: nat, price: int) returns (k: nat)
    requires i <= |segs| && TicksPositive(segs)
    ensures i <= k <= |segs|
    ensures forall j :: i <= j < k ==> !(segs[j].start <= price <= segs[j].end)
    ensures k < |segs| ==> segs[k].start <= price <= segs[k].end
    ensures IndexFrom(segs, i, price) == IndexFrom(segs, k, price)
    decreases |segs| - i
  {
    if i == |segs| || segs[i].start <= price <= segs[i].end { k := i; }
    else { k := IndexSearch(segs, i + 1, price); }
  }

  lemma {:induction false} PriceSearch(segs: seq<Segment>, i: nat, index: int) returns (k: nat)
    requires i <= |segs|
    ensures i <= k <= |segs|
    ensures forall j :: i <= j < k ==> !(segs[j].offset <= index < (segs[j].offset + segs[j].count) % TWO_32)
    ensures k < |segs| ==> segs[k].offset <= index < (segs[k].offset + segs[k].count) % TWO_32
    ensures PriceFrom(segs, i, index) == PriceFrom(segs, k, index)
    decreases |segs| - i
  {
    if i == |segs| || segs[i].offset <= index < (segs[i].offset + segs[i].count) % TWO_32 { k := i; }
    else { k := PriceSearch(segs, i + 1, index); }
  }

  /** In a chained ladder a price's index is its position among the levels. */
  lemma IndexIsLevel(segs: seq<Segment>, price: int)
    requires TicksPositive(segs)
    ensures Chained(segs) ==>
      var r := IndexFrom(segs, 0, price);
      && (r == -1 <==> price !in AllPrices(segs))
      && (r != -1 ==> 0 <= r < |AllPrices(segs)| && AllPrices(segs)[r] == price)
  {
    if Chained(segs) {
      hide Chained, AllPrices, IsSegment;
      var k := IndexSearch(segs, 0, price);
      if k == |segs| {
        NoSegment(segs, price);
      } else if (price - segs[k].start) % segs[k].tick != 0 {
        OffTick(segs, k, price);
      } else {
        OnTick(segs, k, price);
      }
    }
  }

  /** In a chained ladder an index's price is the level at that position. */
  lemma PriceIsLevel(segs: seq<Segment>, index: nat)
    ensures Chained(segs) && |AllPrices(segs)| < TWO_32 ==>
      PriceFrom(segs, 0, index) == if index < |AllPrices(segs)| then AllPrices(segs)[index] else 0
  {
    if Chained(segs) && |AllPrices(segs)| < TWO_32 {
      hide Chained, AllPrices, IsSegment;
      var k := PriceSearch(segs, 0, index);
      if k < |segs| {
        ChainedEach(segs, k);
        SegmentAt(segs, k, index - segs[k].offset);
        TickUpIs(segs[k].start, segs[k].tick, index - segs[k].offset);
      } else if index < |AllPrices(segs)| {
        var i := IndexInSegment(segs, index);
        ChainedEach(segs, i);
      }
    }
  }

  /** One segment per bracket the band touches, from the shared schedule. */
  method Walk(s: Schedule, lo: int, hi: int) returns (segs: seq<Segment>, offset: uint32)
    requires IsSound(s) && IsTickAligned(s, lo) && hi < PRICE_MAX
    requires lo <= hi ==> IsTickAligned(s, hi)
    ensures TicksPositive(segs) && |segs| <= |s|
    ensures |Levels(s, lo, hi)| < TWO_32 ==>
      Chained(segs) && AllPrices(segs) == Levels(s, lo, hi) && offset == |AllPrices(segs)|
  {
    hide Building, Levels, Chained, AllPrices, IsTickAligned, UpperEdgesAligned, LowerEdgesAligned, TickUp;
    segs, offset := [], 0;
    var cur := lo;
    ghost var all := Levels(s, lo, hi);
    ghost var bracket := 0;
    BuildEnds(s, [], lo, 0, hi, all);
    while cur <= hi
      invariant IsTickAligned(s, cur)
      invariant |segs| <= bracket <= |s| && TicksPositive(segs)
      invariant bracket > 0 ==> cur >= s[bracket - 1].upper || cur > hi
      invariant |all| < TWO_32 ==> Building(s, segs, cur, offset, hi, all)
      decreases hi - cur
    {
      var step := TickSize(s, cur);
      var nextBreakpoint := s[BracketFrom(s, 0, cur)].upper;
      var regimeLast := if nextBreakpoint == PRICE_MAX then hi else Min(hi, nextBreakpoint - step);
      BracketRun(s, cur, hi, regimeLast);
      var count, n := CountTo(cur, regimeLast, step);
      var seg := Segment(cur, regimeLast, step, offset, count);
      BuildTurn(s, segs, seg, n, bracket, hi, all);
      bracket := BracketFrom(s, 0, cur) + 1;
      segs := segs + [seg];
      offset := (offset + count) % TWO_32;
      cur := regimeLast + step;
    }
    BuildEnds(s, segs, cur, offset, hi, all);
  }

  class PriceLadder {
    var segments: seq<Segment>
    var totalCount: uint32
    var bandLo: int
    var bandHi: int
    /** The valid prices of the band, in index order. */
    ghost var levels: seq<int>

    /** Holds after building a band with fewer than 2^32 levels. */
    ghost predicate Valid()
      reads this
    {
      && Chained(segments) && AllPrices(segments) == levels && TicksPositive(segments)
      && totalCount == |levels|
      && Ascending(levels)
      && (forall p :: p in levels ==> bandLo <= p <= bandHi)
    }

    constructor ()
      ensures Valid() && levels == [] && bandLo == bandHi == 0
    {
      segments := [];
      totalCount := 0;
      bandLo, bandHi := 0, 0;
      levels := [];
    }

    /** Maps the band [lo, hi]; counts and offsets are 32 bits wide. */
    method Build(s: Schedule, lo: int, hi: int)
      requires IsSound(s) && IsTickAligned(s, lo) && hi < PRICE_MAX
      requires lo <= hi ==> IsTickAligned(s, hi)
      modifies this
      ensures bandLo == lo && bandHi == hi && levels == Levels(s, lo, hi)
      ensures |segments| <= |s|
      ensures TicksPositive(segments)
      ensures Valid() <==> |levels| < TWO_32
      ensures RoundTrips(segments, lo, hi, totalCount, levels) <==> |levels| < TWO_32
    {
      hide RoundTrips, IndexFrom, PriceFrom, Levels, Chained, AllPrices, IsTickAligned;
      var segs, offset := Walk(s, lo, hi);
      segments := segs;
      totalCount := offset;
      bandLo := lo;
      bandHi := hi;
      levels := Levels(s, lo, hi);
      LevelsExact(s, lo, hi);
      RoundTripsIffFewLevels(segs, lo, hi, offset, levels);
    }

    /** For a valid ladder, -1 exactly when the price is no level of the band. */
    method PriceToIndex(price: int) returns (r: int)
      requires TicksPositive(segments)
      ensures r == if price < bandLo || price > bandHi then -1 else IndexFrom(segments, 0, price)
      ensures Valid() ==> (r == -1 <==> price !in levels)
      ensures Valid() && r != -1 ==> 0 <= r < |levels| && levels[r] == price
    {
      if price < bandLo || price > bandHi { return -1; }
      IndexIsLevel(segments, price);
      for i := 0 to |segments|
        invariant IndexFrom(segments, i, price) == IndexFrom(segments, 0, price)
      {
        var seg := segments[i];
        if seg.start <= price <= seg.end {
          var rem := price - seg.start;
          if rem % seg.tick != 0 { return -1; }
          return seg.offset + rem / seg.tick;
        }
      }
      return -1;
    }

    /** For a valid ladder, the level's price; 0 when the index is beyond the ladder. */
    method IndexToPrice(index: nat) returns (r: int)
      ensures r == PriceFrom(segments, 0, index)
      ensures Valid() ==> r == if index < |levels| then levels[index] else 0
    {
      PriceIsLevel(segments, index);
      for i := 0 to |segments|
        invariant PriceFrom(segments, i, index) == PriceFrom(segments, 0, index)
      {
        var seg := segments[i];
        if seg.offset <= index < (seg.offset + seg.count) % TWO_32 {
          return seg.start + (index - seg.offset) * seg.tick;
        }
      }
      return 0;
    }
  }

  ghost predicate Ascending(levels: seq<int>) {
    forall i, j :: 0 <= i < j < |levels| ==> levels[i] < levels[j]
  }

  /** A ladder addresses every level of its band exactly when they number fewer than 2^32. */
  lemma RoundTripsIffFewLevels(segs: seq<Segment>, lo: int, hi: int, size: uint32, levels: seq<int>)
    requires TicksPositive(segs) && Ascending(levels)
    requires forall p :: p in levels ==> lo <= p <= hi
    requires |levels| < TWO_32 ==> Chained(segs) && AllPrices(segs) == levels && size == |levels|
    ensures RoundTrips(segs, lo, hi, size, levels) <==> |levels| < TWO_32
  {
    if |levels| < TWO_32 {
      forall p <- levels
        ensures 0 <= IndexFrom(segs, 0, p) < size && PriceFrom(segs, 0, IndexFrom(segs, 0, p)) == p
      {
        IndexIsLevel(segs, p);
        PriceIsLevel(segs, IndexFrom(segs, 0, p));
      }
    }
    if RoundTrips(segs, lo, hi, size, levels) {
      var f := seq(|levels|, k requires 0 <= k < |levels| => IndexFrom(segs, 0, levels[k]));
      forall i, j | 0 <= i < j < |levels| ensures f[i] != f[j] {
        assert PriceFrom(segs, 0, f[i]) == levels[i] && PriceFrom(segs, 0, f[j]) == levels[j];
      }
      Pigeonhole(f, size);
    }
  }
}
