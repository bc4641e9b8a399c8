/** The daily price band of an instrument, in exact integer arithmetic. */
module Band {
  import opened Api
  import opened TickTable

  /** What configure() accepts for one instrument. */
  predicate IsValidConfig(referencePrice: int, bandBps: int) {
    && referencePrice <= PRICE_MAX / MAX_BAND_BPS
    && IsTickAligned(TICK_SCHEDULE, referencePrice)
    && 0 <= bandBps <= MAX_BAND_BPS
  }

  function Delta(referencePrice: int, bandBps: int): int {
    referencePrice * bandBps / BPS_PER_UNIT
  }

  /** The raw lower limit, never below 1. */
  function RawLo(referencePrice: int, bandBps: int): int {
    if referencePrice - Delta(referencePrice, bandBps) < 1 then 1 else referencePrice - Delta(referencePrice, bandBps)
  }

  function BandLo(referencePrice: int, bandBps: int): int {
    CeilToTick(TICK_SCHEDULE, RawLo(referencePrice, bandBps))
  }

  function BandHi(referencePrice: int, bandBps: int): int {
    FloorToTick(TICK_SCHEDULE, referencePrice + Delta(referencePrice, bandBps))
  }

  lemma ProductBound(a: int, b: int, m: int)
    requires 0 <= a && 0 <= b <= m
    ensures 0 <= a * b <= a * m
  {
    assert a * m - a * b == a * (m - b);
  }

  lemma ReferencePositive(referencePrice: int)
    requires IsWellFormed(TICK_SCHEDULE) && IsTickAligned(TICK_SCHEDULE, referencePrice)
    ensures referencePrice > 0
  {
  }

  /** Every product and sum of the band computation fits the 64-bit Price type, and the band is never empty. */
  lemma BandFits(referencePrice: int, bandBps: int)
    requires IsValidConfig(referencePrice, bandBps)
    ensures 0 <= referencePrice * bandBps <= PRICE_MAX
    ensures 0 <= Delta(referencePrice, bandBps) <= referencePrice
    ensures 0 <= referencePrice * bandBps - Delta(referencePrice, bandBps) * 10_000 < 10_000
    ensures 1 <= RawLo(referencePrice, bandBps) && referencePrice + Delta(referencePrice, bandBps) < PRICE_MAX
    ensures IsTickAligned(TICK_SCHEDULE, BandLo(referencePrice, bandBps))
    ensures IsTickAligned(TICK_SCHEDULE, BandHi(referencePrice, bandBps))
    ensures BandLo(referencePrice, bandBps) <= referencePrice <= BandHi(referencePrice, bandBps) < PRICE_MAX
    ensures forall p :: IsTickAligned(TICK_SCHEDULE, p) ==>
      (BandLo(referencePrice, bandBps) <= p <= BandHi(referencePrice, bandBps)
       <==> RawLo(referencePrice, bandBps) <= p <= referencePrice + Delta(referencePrice, bandBps))
  {
    DeployedScheduleIsSound();
    ReferencePositive(referencePrice);
    hide IsTickAligned, CeilToTick, FloorToTick, IsSound;
    ProductBound(referencePrice, bandBps, MAX_BAND_BPS);
    CeilIsLeast(TICK_SCHEDULE, RawLo(referencePrice, bandBps));
    FloorIsGreatest(TICK_SCHEDULE, referencePrice + Delta(referencePrice, bandBps));
  }

  /** A configuration is valid exactly when the reference price is on the tick ladder and small enough for 64-bit
      arithmetic, and the band is at most 100 %. */
  lemma ValidConfigMeans(referencePrice: int, bandBps: int)
    ensures IsValidConfig(referencePrice, bandBps)
      <==> (referencePrice <= 922_337_203_685_477 && OnTick(referencePrice) && 0 <= bandBps <= 10_000)
  {
    TicksAsDocumented(referencePrice);
    assert PRICE_MAX / MAX_BAND_BPS == 922_337_203_685_477;
  }

  /** Dividing a distance's bound by 10000 loses nothing against whole distances. */
  lemma WithinDelta(d: int, product: int)
    ensures d <= product / 10_000 <==> d * 10_000 <= product
  {
  }

  /** At most bandBps parts in 10000 of the reference price away from it. */
  predicate WithinBand(referencePrice: int, bandBps: int, price: int) {
    && (referencePrice - price) * 10_000 <= referencePrice * bandBps
    && (price - referencePrice) * 10_000 <= referencePrice * bandBps
  }

  /** The band holds exactly the valid prices whose distance from the reference price is within the basis points. */
  lemma BandWidth(referencePrice: int, bandBps: int, price: int)
    requires IsValidConfig(referencePrice, bandBps) && OnTick(price)
    ensures IsWellFormed(TICK_SCHEDULE)
    ensures BandLo(referencePrice, bandBps) <= price <= BandHi(referencePrice, bandBps)
      <==> WithinBand(referencePrice, bandBps, price)
  {
    DeployedScheduleIsSound();
    hide BandLo, BandHi, IsValidConfig, IsTickAligned, OnTick;
    TicksAsDocumented(price);
    BandFits(referencePrice, bandBps);
    assert price > 0 by { PositivePrice(price); }
    WithinDelta(referencePrice - price, referencePrice * bandBps);
    WithinDelta(price - referencePrice, referencePrice * bandBps);
  }

  /** The levels of a band, in the terms of its configuration. */
  lemma BandLevels(referencePrice: int, bandBps: int)
    requires IsValidConfig(referencePrice, bandBps)
    ensures IsWellFormed(TICK_SCHEDULE)
    ensures forall p ::
      p in Levels(TICK_SCHEDULE, BandLo(referencePrice, bandBps), BandHi(referencePrice, bandBps)) <==>
        OnTick(p) && WithinBand(referencePrice, bandBps, p)
  {
    DeployedScheduleIsSound();
    BandFits(referencePrice, bandBps);
    hide BandLo, BandHi, IsValidConfig, IsTickAligned, OnTick, Levels, WithinBand, IsSound;
    var lo, hi := BandLo(referencePrice, bandBps), BandHi(referencePrice, bandBps);
    LevelsExact(TICK_SCHEDULE, lo, hi);
    forall p ensures p in Levels(TICK_SCHEDULE, lo, hi) <==> OnTick(p) && WithinBand(referencePrice, bandBps, p) {
      TicksAsDocumented(p);
      if OnTick(p) { BandWidth(referencePrice, bandBps, p); }
    }
  }

  lemma PositivePrice(price: int)
    requires OnTick(price)
    ensures price > 0
  {
  }

  /** A valid configuration may still span 2^32 or more levels, more than the ladder's indices can name. */
  lemma WideBandOverflowsLadder()
    ensures IsValidConfig(900_000_000_000_000, 10000)
    ensures |Levels(TICK_SCHEDULE, BandLo(900_000_000_000_000, 10000), BandHi(900_000_000_000_000, 10000))| >= TWO_32
  {
    var ref := 900_000_000_000_000;
    var s := TICK_SCHEDULE;
    DeployedScheduleIsSound();
    assert BracketFrom(s, 0, ref) == 3 && s[3].tick == 1000;
    assert BracketFrom(s, 0, 1) == 0 && BandLo(ref, 10000) == 100;
    assert BracketFrom(s, 0, 2 * ref) == 3 && BandHi(ref, 10000) == 2 * ref;
    LevelsAtLeast(s, 100, 2 * ref, 1000);
  }
}
