/** Configuring the engine: which instrument lists are accepted, and the empty market they set up. */
module Configuration {
  import opened Api
  import opened TickTable
  import opened BookModel
  import opened Market
  import opened QueueView
  import opened MarketInvariant
  import opened Band
  import opened EngineModel
  import opened OrderBook

  predicate DistinctInstruments(cfgs: seq<InstrumentConfig>) {
    forall i, j :: 0 <= i < j < |cfgs| ==> cfgs[i].instrumentId != cfgs[j].instrumentId
  }

  predicate AllValid(cfgs: seq<InstrumentConfig>) {
    forall i :: 0 <= i < |cfgs| ==> IsValidConfig(cfgs[i].referencePrice, cfgs[i].bandBps)
  }

  /** The lists configure() accepts. */
  predicate IsValidSetup(cfgs: seq<InstrumentConfig>) {
    0 < |cfgs| < TWO_32 && AllValid(cfgs) && DistinctInstruments(cfgs)
  }

  /** The band of every instrument has fewer than 2^32 valid prices. */
  ghost predicate LaddersFit(cfgs: seq<InstrumentConfig>) {
    forall i :: 0 <= i < |cfgs| ==> LadderFits(cfgs[i])
  }

  ghost predicate LadderFits(cfg: InstrumentConfig) {
    |EmptyView(cfg.instrumentId, cfg.referencePrice, cfg.bandBps).prices| < TWO_32
  }

  /** Instrument id to position. */
  function IndexMap(cfgs: seq<InstrumentConfig>): map<uint64, uint32>
    requires |cfgs| < TWO_32
  {
    if |cfgs| == 0 then map[]
    else IndexMap(cfgs[..|cfgs| - 1])[cfgs[|cfgs| - 1].instrumentId := |cfgs| - 1]
  }

  lemma {:induction false} IndexMapIs(cfgs: seq<InstrumentConfig>)
    requires |cfgs| < TWO_32 && DistinctInstruments(cfgs)
    ensures forall i :: 0 <= i < |cfgs| ==>
      cfgs[i].instrumentId in IndexMap(cfgs) && IndexMap(cfgs)[cfgs[i].instrumentId] == i
    ensures forall id <- IndexMap(cfgs) :: IndexMap(cfgs)[id] < |cfgs| && cfgs[IndexMap(cfgs)[id]].instrumentId == id
  {
    if |cfgs| > 0 { IndexMapIs(cfgs[..|cfgs| - 1]); }
  }

  function EmptyBook(cfg: InstrumentConfig): Book {
    DeployedScheduleIsSound();
    Book(cfg.instrumentId, BandLo(cfg.referencePrice, cfg.bandBps), BandHi(cfg.referencePrice, cfg.bandBps), [], [])
  }

  /** The market right after configuration. */
  function Opening(cfgs: seq<InstrumentConfig>, nextTrade: nat, log: seq<Event>): State
    requires |cfgs| < TWO_32
  {
    State(true, IndexMap(cfgs), seq(|cfgs|, i requires 0 <= i < |cfgs| => EmptyBook(cfgs[i])), map[], map[], nextTrade,
          log)
  }

  /** An opening market satisfies the invariant, so the theorems about runs apply to it. */
  lemma OpeningKeeps(cfgs: seq<InstrumentConfig>, nextTrade: nat, log: seq<Event>)
    requires |cfgs| < TWO_32 && DistinctInstruments(cfgs)
    ensures Inv(Opening(cfgs, nextTrade, log))
  {
    IndexMapIs(cfgs);
    hide BandLo, BandHi, IndexMap;
    var s := Opening(cfgs, nextTrade, log);
    forall b | 0 <= b < |s.books| ensures BookOk(s, b) {
      assert s.books[b] == EmptyBook(cfgs[b]);
    }
  }

  ghost function ViewOf(cfg: InstrumentConfig): BookView {
    EmptyView(cfg.instrumentId, cfg.referencePrice, cfg.bandBps)
  }

  ghost function OpeningViews(cfgs: seq<InstrumentConfig>): seq<BookView> {
    seq(|cfgs|, i requires 0 <= i < |cfgs| => ViewOf(cfgs[i]))
  }

  lemma EmptyViewStands(cfg: InstrumentConfig)
    requires IsValidConfig(cfg.referencePrice, cfg.bandBps)
    ensures BookRep(ViewOf(cfg), []) && LadderOk(ViewOf(cfg)) && AbsBook(ViewOf(cfg), []) == EmptyBook(cfg)
  {
    DeployedScheduleIsSound();
    var lo, hi := BandLo(cfg.referencePrice, cfg.bandBps), BandHi(cfg.referencePrice, cfg.bandBps);
    BandFits(cfg.referencePrice, cfg.bandBps);
    LevelsExact(TICK_SCHEDULE, lo, hi);
    hide BandLo, BandHi, Levels, IsTickAligned, IsSound;
    EmptyBookRep(ViewOf(cfg));
    NoOrders(ViewOf(cfg), [], Buy);
    NoOrders(ViewOf(cfg), [], Sell);
  }

  ghost function OpeningSys(cfgs: seq<InstrumentConfig>, nextTrade: nat, log: seq<Event>): Sys
    requires |cfgs| < TWO_32
  {
    Sys(true, IndexMap(cfgs), map[], OpeningViews(cfgs), [], map[], nextTrade, log)
  }

  /** The freshly configured engine stands for the opening market. */
  lemma OpeningStands(cfgs: seq<InstrumentConfig>, nextTrade: nat, log: seq<Event>)
    requires IsValidSetup(cfgs)
    ensures var sys := OpeningSys(cfgs, nextTrade, log);
      SysOk(sys) && Abs(sys) == Opening(cfgs, nextTrade, log) && Inv(Abs(sys))
  {
    hide BookRep, LadderOk, ViewOf, EmptyBook, AbsBook, IndexMap, IsValidConfig;
    var sys := OpeningSys(cfgs, nextTrade, log);
    IndexMapIs(cfgs);
    forall i | 0 <= i < |cfgs|
      ensures BookRep(sys.views[i], []) && LadderOk(sys.views[i]) && AbsBook(sys.views[i], []) == EmptyBook(cfgs[i])
      ensures sys.views[i].instrumentId == cfgs[i].instrumentId
    {
      EmptyViewStands(cfgs[i]);
      ViewName(cfgs[i]);
    }
    assert SysOk(sys);
    assert AbsBooks(sys) == Opening(cfgs, nextTrade, log).books;
    assert Owner(sys) == map[];
    OpeningKeeps(cfgs, nextTrade, log);
  }

  lemma LadderOfView(cfg: InstrumentConfig)
    ensures IsWellFormed(TICK_SCHEDULE)
    ensures LadderFits(cfg) <==>
      |Levels(TICK_SCHEDULE, BandLo(cfg.referencePrice, cfg.bandBps), BandHi(cfg.referencePrice, cfg.bandBps))| < TWO_32
    ensures ViewOf(cfg) == EmptyView(cfg.instrumentId, cfg.referencePrice, cfg.bandBps)
  {
    DeployedScheduleIsSound();
  }

  lemma ViewName(cfg: InstrumentConfig)
    ensures ViewOf(cfg).instrumentId == cfg.instrumentId
  {
  }

  // Growing a list of instruments by one

  lemma OneMore(cfgs: seq<InstrumentConfig>, i: nat)
    requires i < |cfgs| < TWO_32
    ensures cfgs[..i + 1] == cfgs[..i] + [cfgs[i]]
    ensures IndexMap(cfgs[..i + 1]) == IndexMap(cfgs[..i])[cfgs[i].instrumentId := i]
    ensures AllValid(cfgs[..i + 1]) <==> AllValid(cfgs[..i]) && IsValidConfig(cfgs[i].referencePrice, cfgs[i].bandBps)
    ensures DistinctInstruments(cfgs[..i]) ==>
      (DistinctInstruments(cfgs[..i + 1]) <==> cfgs[i].instrumentId !in IndexMap(cfgs[..i]))
  {
    hide IsValidConfig;
    assert cfgs[..i + 1][..i] == cfgs[..i];
    if DistinctInstruments(cfgs[..i]) {
      IndexMapIs(cfgs[..i]);
      if cfgs[i].instrumentId in IndexMap(cfgs[..i]) {
        var j := IndexMap(cfgs[..i])[cfgs[i].instrumentId];
        assert cfgs[..i + 1][j].instrumentId == cfgs[..i + 1][i].instrumentId;
      }
    }
  }

  /** Every prefix of a good list is good. */
  lemma PrefixGood(cfgs: seq<InstrumentConfig>, i: nat)
    requires i <= |cfgs|
    ensures IsValidSetup(cfgs) ==> AllValid(cfgs[..i]) && DistinctInstruments(cfgs[..i])
  {
    hide IsValidConfig;
    assert forall j :: 0 <= j < i ==> cfgs[..i][j] == cfgs[j];
  }
}
