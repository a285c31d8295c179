/** Current positions valued from the surviving lots, and the portfolio tiles rolled up from them. */
module Portfolios {
  import opened FxMath
  import opened Sequences
  import opened StableSorting
  import opened Holdings
  import opened LotQueues
  import Text

  datatype Currency = Inr | Usd

  // A price carries eight decimal places, like units; the valuation date is a day number.
  datatype Instrument = Instrument(
    id: int, symbol: string, name: string, assetClass: string, currency: Currency, nav: Option<nat>,
    navUpdatedOn: Option<int>)

  datatype Holding = Holding(
    instrument: int, symbol: string, name: string, assetClass: string, currency: Currency, netUnits: nat,
    averageCost: int, investedPaise: nat, nav: Option<nat>, currentValuePaise: Option<int>,
    unrealizedPaise: Option<int>, investedInrPaise: int, currentValueInrPaise: Option<int>,
    unrealizedInrPaise: Option<int>, stalenessDays: Option<int>)

  const SCALE: nat := 100_000_000

  /** Units times price, in paise. */
  function CurrentValue(units: nat, nav: nat): (paise: int)
    ensures IsHalfEven(units * nav * 100, SCALE * SCALE, paise)
  {
    RoundHalfEven(units * nav * 100, SCALE * SCALE)
  }

  /** Rupees invested per unit, to eight places. */
  function AverageCost(investedPaise: nat, units: nat): (cost: int)
    ensures units > 0 ==> IsHalfEven(investedPaise * SCALE * SCALE, 100 * units, cost)
  {
    if units == 0 then 0 else RoundHalfEven(investedPaise * SCALE * SCALE, 100 * units)
  }

  /** Age of the oldest valuation, of those that have a date. */
  function MaxStaleness(stamps: seq<Option<int>>, asOf: int): (age: Option<int>)
    ensures age.None? <==> forall stamp <- stamps :: stamp.None?
    ensures age.Some? ==> (forall stamp <- stamps :: stamp.Some? ==> asOf - stamp.value <= age.value)
    ensures age.Some? ==> exists stamp <- stamps :: stamp.Some? && age.value == asOf - stamp.value
  {
    if stamps == [] then None
    else
      InitLast(stamps);
      var before, last := MaxStaleness(Init(stamps), asOf), Last(stamps);
      if last.None? then before
      else if before.None? || asOf - last.value > before.value then Some(asOf - last.value) else before
  }

  /** INR never needs a quote; USD has no value without one. */
  function RateFor(i: Instrument, usdInr: Option<int>): Option<int> {
    if i.currency == Inr then Some(RATE_ONE) else usdInr
  }

  function Valued(i: Instrument, lots: seq<LotValue>, usdInr: Option<int>, asOf: Option<int>): Holding {
    var rate, invested, investedInr := RateFor(i, usdInr), Cost(lots), InvestedInr(lots);
    var current := if i.nav.Some? then Some(CurrentValue(Units(lots), i.nav.value)) else None;
    var currentInr := if current.Some? && rate.Some? then Some(ToInrPaise(current.value, rate.value)) else None;
    Holding(
      i.id, i.symbol, i.name, i.assetClass, i.currency, Units(lots), AverageCost(invested, Units(lots)), invested,
          i.nav,
      current, if current.Some? then Some(current.value - invested) else None, investedInr, currentInr,
      if currentInr.Some? then Some(currentInr.value - investedInr) else None,
      if asOf.Some? && i.nav.Some? then MaxStaleness([i.navUpdatedOn], asOf.value) else None)
  }

  /** Each active instrument's position; one with no units left is not a position. */
  function Positions(instruments: seq<Instrument>, rows: seq<Row>, usdInr: Option<int>,
      asOf: Option<int>): seq<Holding> {
    if instruments == [] then []
    else
      var i, before := Last(instruments), Positions(Init(instruments), rows, usdInr, asOf);
      var lots := Replay(History(rows, i.id));
      if Units(lots) > 0 then before + [Valued(i, lots, usdInr, asOf)] else before
  }

  const BY_SYMBOL: (Holding, Holding) -> bool := (a: Holding, b: Holding) => Text.LexLess(a.symbol, b.symbol)

  lemma {:induction false} PositionsMembers(
    instruments: seq<Instrument>, rows: seq<Row>, usdInr: Option<int>, asOf: Option<int>, h: Holding)
    ensures h in Positions(instruments, rows, usdInr, asOf) <==>
              exists i <- instruments ::
                Units(Replay(History(rows, i.id))) > 0 && h == Valued(i, Replay(History(rows, i.id)), usdInr, asOf)
  {
    hide Valued;
    if instruments != [] {
      InitLast(instruments);
      PositionsMembers(Init(instruments), rows, usdInr, asOf, h);
    }
  }

  /** An instrument is held exactly when its signed total stands above the lowest point it ever reached. */
  lemma HeldIffAboveLowestNet(instruments: seq<Instrument>, rows: seq<Row>, usdInr: Option<int>, asOf: Option<int>,
      i: Instrument)
    requires i in instruments
    ensures Valued(i, Replay(History(rows, i.id)), usdInr, asOf) in Positions(instruments, rows, usdInr, asOf)
            <== NetUnits(History(rows, i.id)) > LowestNet(History(rows, i.id))
    ensures NetUnits(History(rows, i.id)) == LowestNet(History(rows, i.id)) ==>
              forall h <- Positions(instruments, rows, usdInr, asOf) :: h.instrument != i.id
  {
    ReplayReflectsNet(History(rows, i.id));
    PositionsMembers(instruments, rows, usdInr, asOf, Valued(i, Replay(History(rows, i.id)), usdInr, asOf));
    forall h | h in Positions(instruments, rows, usdInr, asOf) {
      PositionsMembers(instruments, rows, usdInr, asOf, h);
    }
  }

  lemma {:induction false} InvestedAtRateOne(lots: seq<LotValue>)
    requires forall lot <- lots :: lot.fxRate == RATE_ONE
    ensures InvestedInr(lots) == Cost(lots)
  {
    if lots != [] {
      InitLast(lots);
      InvestedAtRateOne(Init(lots));
    }
  }

  lemma {:induction false} AcquiredRates(ts: seq<Txn>, rate: int)
    requires forall t <- ts :: t.fxRate == rate
    ensures forall lot <- Acquired(ts) :: lot.fxRate == rate
  {
    if ts != [] {
      InitLast(ts);
      AcquiredRates(Init(ts), rate);
    }
  }

  /** No consumption order can bring in a rate the acquisitions did not have. */
  lemma SurvivingRates(ts: seq<Txn>, rate: int)
    requires forall t <- ts :: t.fxRate == rate
    ensures forall lot <- Replay(ts) :: lot.fxRate == rate
  {
    AcquiredRates(ts, rate);
    QueueDropsFirstMatched(ts);
    var whole, lots := Acquired(ts), Replay(ts);
    var gone := |whole| - |lots|;
    forall k | 0 <= k < |lots|
      ensures lots[k].fxRate == rate
    {
      assert whole[gone + k] in whole;
      if k > 0 {
        assert lots[k] == lots[1..][k - 1] == whole[gone + 1..][k - 1] == whole[gone + k];
      }
    }
  }

  /** For an INR instrument bought at rate 1, every INR figure is its native one, whatever the dollar costs. */
  lemma InrHoldingIsItsOwnConversion(i: Instrument, ts: seq<Txn>, usdInr: Option<int>, asOf: Option<int>)
    requires i.currency == Inr && forall t <- ts :: t.fxRate == RATE_ONE
    ensures var h := Valued(i, Replay(ts), usdInr, asOf);
            && h.investedInrPaise == h.investedPaise
            && h.currentValueInrPaise == h.currentValuePaise && h.unrealizedInrPaise == h.unrealizedPaise
            && h == Valued(i, Replay(ts), None, asOf)
  {
    SurvivingRates(ts, RATE_ONE);
    InvestedAtRateOne(Replay(ts));
  }

  // ----- a position in its own fields -----

  /** The dollar quote a figure needs, where it needs one. */
  predicate Convertible(i: Instrument, usdInr: Option<int>) {
    i.currency == Inr || usdInr.Some?
  }

  /**
   * What a position says: a value exactly when the instrument has a price, an INR value when moreover it is in INR
   * or the dollar has a quote, each rounded half-even from the exact product, each profit value less cost.
   */
  lemma PositionSays(i: Instrument, lots: seq<LotValue>, usdInr: Option<int>, asOf: Option<int>)
    ensures var h := Valued(i, lots, usdInr, asOf);
            && h.instrument == i.id && h.symbol == i.symbol && h.name == i.name && h.assetClass == i.assetClass
            && h.currency == i.currency && h.nav == i.nav && h.netUnits == Units(lots) && h.investedPaise == Cost(lots)
            && h.investedInrPaise == InvestedInr(lots)
            && (h.currentValuePaise.Some? <==> i.nav.Some?)
            && (h.currentValueInrPaise.Some? <==> i.nav.Some? && Convertible(i, usdInr))
            && (h.stalenessDays == if asOf.Some? && i.nav.Some? && i.navUpdatedOn.Some?
                                   then Some(asOf.value - i.navUpdatedOn.value) else None)
    ensures var h := Valued(i, lots, usdInr, asOf);
            && (h.unrealizedPaise.Some? <==> h.currentValuePaise.Some?)
            && (h.unrealizedInrPaise.Some? <==> h.currentValueInrPaise.Some?)
            && (h.currentValuePaise.Some? ==>
                  && IsHalfEven(Units(lots) * i.nav.value * 100, SCALE * SCALE, h.currentValuePaise.value)
                  && h.unrealizedPaise.value == h.currentValuePaise.value - Cost(lots))
            && (h.currentValueInrPaise.Some? ==>
                  && h.unrealizedInrPaise.value == h.currentValueInrPaise.value - InvestedInr(lots)
                  && if i.currency == Inr then h.currentValueInrPaise == h.currentValuePaise
                     else IsHalfEven(h.currentValuePaise.value * usdInr.value, RATE_ONE, h.currentValueInrPaise.value))
  {
    hide Units, Cost, InvestedInr, RoundHalfEven, IsHalfEven;
    if i.navUpdatedOn.Some? && asOf.Some? {
      OneStamp(i.navUpdatedOn, asOf.value);
    }
  }

  lemma OneStamp(stamp: Option<int>, asOf: int)
    ensures MaxStaleness([stamp], asOf) == if stamp.Some? then Some(asOf - stamp.value) else None
  {
    assert stamp in [stamp];
  }

  /** n whole units at a price of p whole paise are worth n times p, and cost their average back. */
  lemma WholeUnitsAtWholePrice(n: nat, p: nat)
    ensures CurrentValue(n * 100_000_000, p * 1_000_000) == n * p
    ensures n > 0 ==> AverageCost(n * p, n * 100_000_000) == p * 1_000_000
  {
    var units, nav := n * SCALE, p * (SCALE / 100);
    assert units * nav * 100 == (n * p) * (SCALE * SCALE) by {
      WholeProduct(n, p);
    }
    ExactQuotient(n * p, SCALE * SCALE);
    HalfEvenUnique(units * nav * 100, SCALE * SCALE, n * p, CurrentValue(units, nav));
    if n > 0 {
      assert n * p * SCALE * SCALE == (p * (SCALE / 100)) * (100 * units) by {
        WholeQuotient(n, p);
      }
      ExactQuotient(p * (SCALE / 100), 100 * units);
      HalfEvenUnique(n * p * SCALE * SCALE, 100 * units, p * (SCALE / 100), AverageCost(n * p, units));
    }
  }

  lemma WholeProduct(n: int, p: int)
    ensures (n * SCALE) * (p * (SCALE / 100)) * 100 == (n * p) * (SCALE * SCALE)
  {
  }

  lemma WholeQuotient(n: int, p: int)
    ensures n * p * SCALE * SCALE == (p * (SCALE / 100)) * (100 * (n * SCALE))
  {
  }

  lemma ExactQuotient(q: int, den: nat)
    requires den > 0
    ensures IsHalfEven(q * den, den, q)
  {
  }

  method ValueQueue(i: Instrument, queue: LotQueue, usdInr: Option<int>,
      asOf: Option<int>) returns (holding: Option<Holding>)
    requires queue.Valid()
    ensures holding == if Units(queue.Contents()) > 0 then Some(Valued(i, queue.Contents(), usdInr, asOf)) else None
  {
    ghost var lots := queue.Contents();
    var netUnits, invested, investedInr := 0, 0, 0;
    for k := 0 to |queue.lots|
      invariant netUnits == Units(lots[..k]) && invested == Cost(lots[..k]) && investedInr == InvestedInr(lots[..k])
    {
      assert Init(lots[..k + 1]) == lots[..k] && Last(lots[..k + 1]) == queue.lots[k].Value();
      var lot := queue.lots[k];
      netUnits := netUnits + lot.units;
      invested := invested + lot.costPaise;
      investedInr := investedInr + ToInrPaise(lot.costPaise, lot.fxRate);
    }
    assert lots[..|queue.lots|] == lots;
    if netUnits <= 0 {
      return None;
    }
    var rate := RateFor(i, usdInr);
    var current: Option<int>, unrealized: Option<int>, currentInr: Option<int>, unrealizedInr: Option<int>;
    current, unrealized, currentInr, unrealizedInr := None, None, None, None;
    if i.nav.Some? {
      current := Some(CurrentValue(netUnits, i.nav.value));
      unrealized := Some(current.value - invested);
      if rate.Some? {
        currentInr := Some(ToInrPaise(current.value, rate.value));
        unrealizedInr := Some(currentInr.value - investedInr);
      }
    }
    var staleness := if asOf.Some? && i.nav.Some? then MaxStaleness([i.navUpdatedOn], asOf.value) else None;
    holding := Some(Holding(
      i.id, i.symbol, i.name, i.assetClass, i.currency, netUnits, AverageCost(invested, netUnits), invested, i.nav,
          current,
      unrealized, investedInr, currentInr, unrealizedInr, staleness));
  }

  lemma PositionsSnoc(instruments: seq<Instrument>, k: nat, rows: seq<Row>, usdInr: Option<int>, asOf: Option<int>)
    requires k < |instruments|
    ensures var i, lots := instruments[k], Replay(History(rows, instruments[k].id));
            Positions(instruments[..k + 1], rows, usdInr, asOf) ==
            Positions(instruments[..k], rows, usdInr, asOf) + if Units(lots) > 0 then [Valued(i, lots, usdInr,
                asOf)] else []
  {
    hide Valued, Replay, History;
    assert Init(instruments[..k + 1]) == instruments[..k] && Last(instruments[..k + 1]) == instruments[k];
  }

  method ValueOne(i: Instrument, queues: map<int, LotQueue>, ghost rows: seq<Row>, usdInr: Option<int>,
      asOf: Option<int>)
    returns (holding: Option<Holding>)
    requires i.id in queues && Separate(queues) && queues[i.id].Contents() == Replay(History(rows, i.id))
    ensures var lots := Replay(History(rows, i.id));
            holding == if Units(lots) > 0 then Some(Valued(i, lots, usdInr, asOf)) else None
  {
    hide Valued, Replay, History;
    holding := ValueQueue(i, queues[i.id], usdInr, asOf);
  }

  /** `rows` come back ordered by instrument, date and id. */
  method ComputeHoldings(instruments: seq<Instrument>, rows: seq<Row>, usdInr: Option<int>, asOf: Option<int>)
    returns (holdings: seq<Holding>)
    ensures holdings == StableSort(Positions(instruments, rows, usdInr, asOf), BY_SYMBOL)
  {
    hide Valued, Replay, History, StableSort, Units, Positions, Separate;
    var active := seq(|instruments|, k requires 0 <= k < |instruments| => instruments[k].id);
    var queues := LotsByInstrument(active, rows);
    holdings := [];
    NoPositions(rows, usdInr, asOf);
    for k := 0 to |instruments|
      invariant holdings == Positions(instruments[..k], rows, usdInr, asOf)
      modifies {}
    {
      assert active[k] in active && active[k] == instruments[k].id;
      assert instruments[k].id in queues.Keys;
      PositionsSnoc(instruments, k, rows, usdInr, asOf);
      var holding := ValueOne(instruments[k], queues, rows, usdInr, asOf);
      if holding.Some? {
        holdings := holdings + [holding.value];
      } else {
        assert holdings + [] == holdings;
      }
    }
    assert instruments[..|instruments|] == instruments;
    holdings := StableSort(holdings, BY_SYMBOL);
  }

  /** The list comes by symbol, and holds every position once. */
  lemma HoldingsBySymbol(instruments: seq<Instrument>, rows: seq<Row>, usdInr: Option<int>, asOf: Option<int>)
    ensures var positions := Positions(instruments, rows, usdInr, asOf);
            var holdings := StableSort(positions, BY_SYMBOL);
            && multiset(holdings) == multiset(positions)
            && forall i, j :: 0 <= i < j < |holdings| ==> !Text.LexLess(holdings[j].symbol, holdings[i].symbol)
  {
    hide Positions, Text.LexLess;
    var positions := Positions(instruments, rows, usdInr, asOf);
    SymbolIsAnOrder();
    SortIsInOrder(positions, BY_SYMBOL);
    SortKeepsElements(positions, BY_SYMBOL);
    var holdings := StableSort(positions, BY_SYMBOL);
    forall i, j | 0 <= i < j < |holdings|
      ensures !Text.LexLess(holdings[j].symbol, holdings[i].symbol)
    {
      assert !BY_SYMBOL(holdings[j], holdings[i]);
    }
  }

  lemma SymbolIsAnOrder()
    ensures IsWeakOrder(BY_SYMBOL)
  {
    forall x: Holding, y: Holding, z: Holding
      ensures !Text.LexLess(x.symbol, x.symbol)
      ensures Text.LexLess(x.symbol, y.symbol) && Text.LexLess(y.symbol, z.symbol) ==> Text.LexLess(x.symbol, z.symbol)
      ensures Text.LexLess(x.symbol, z.symbol) ==>
                Text.LexLess(x.symbol, y.symbol) || Text.LexLess(y.symbol, z.symbol)
    {
      Text.LexLessTransitive(x.symbol, y.symbol, z.symbol);
      Text.LexLessTransitive(y.symbol, x.symbol, z.symbol);
      Text.LexLessTotal(x.symbol, y.symbol);
    }
    assert forall x: Holding, y: Holding :: BY_SYMBOL(x, y) == Text.LexLess(x.symbol, y.symbol);
  }

  lemma NoPositions(rows: seq<Row>, usdInr: Option<int>, asOf: Option<int>)
    ensures Positions([], rows, usdInr, asOf) == []
  {
  }

  // ----- the tiles -----

  datatype Tiles = Tiles(
    currentValuePaise: int, investedPaise: int, unrealizedPaise: int, priced: nat, unpriced: nat, rateless: nat)

  method SummarizeHoldings(holdings: seq<Holding>) returns (tiles: Tiles)
    ensures tiles == Summary(holdings)
  {
    var currentValue, invested, priced, unpriced, rateless := 0, 0, 0, 0, 0;
    for k := 0 to |holdings|
      invariant Tiles(currentValue, invested, currentValue - invested, priced, unpriced, rateless)
                == Summary(holdings[..k])
    {
      assert Init(holdings[..k + 1]) == holdings[..k];
      var h := holdings[k];
      if h.currentValueInrPaise.None? {
        if h.nav.Some? {
          rateless := rateless + 1;
        } else {
          unpriced := unpriced + 1;
        }
        continue;
      }
      priced := priced + 1;
      currentValue := currentValue + h.currentValueInrPaise.value;
      invested := invested + h.investedInrPaise;
    }
    assert holdings[..|holdings|] == holdings;
    tiles := Tiles(currentValue, invested, currentValue - invested, priced, unpriced, rateless);
  }

  function Summary(holdings: seq<Holding>): Tiles {
    if holdings == [] then Tiles(0, 0, 0, 0, 0, 0)
    else
      var h, before := Last(holdings), Summary(Init(holdings));
      if h.currentValueInrPaise.None? && h.nav.Some? then before.(rateless := before.rateless + 1)
      else if h.currentValueInrPaise.None? then before.(unpriced := before.unpriced + 1)
      else
        var value, invested := h.currentValueInrPaise.value, h.investedInrPaise;
        Tiles(before.currentValuePaise + value, before.investedPaise + invested,
              before.unrealizedPaise + value - invested, before.priced + 1, before.unpriced, before.rateless)
  }

  /** How many positions have the property. */
  function Count(holdings: seq<Holding>, p: Holding -> bool): nat {
    if holdings == [] then 0 else Count(Init(holdings), p) + if p(Last(holdings)) then 1 else 0
  }

  const HAS_VALUE: Holding -> bool := (h: Holding) => h.currentValueInrPaise.Some?
  const HAS_NO_PRICE: Holding -> bool := (h: Holding) => h.currentValueInrPaise.None? && h.nav.None?
  const HAS_NO_RATE: Holding -> bool := (h: Holding) => h.currentValueInrPaise.None? && h.nav.Some?

  /** Each tile counts what it says it counts. */
  lemma {:induction false} TilesCount(holdings: seq<Holding>)
    ensures var t := Summary(holdings);
            && t.priced == Count(holdings, HAS_VALUE) && t.unpriced == Count(holdings, HAS_NO_PRICE)
            && t.rateless == Count(holdings, HAS_NO_RATE)
  {
    if holdings != [] {
      TilesCount(Init(holdings));
    }
  }

  /** A computed position without an INR value lacks a price, or is in dollars and lacks a quote. */
  lemma ValuelessFor(i: Instrument, lots: seq<LotValue>, usdInr: Option<int>, asOf: Option<int>)
    ensures var h := Valued(i, lots, usdInr, asOf);
            && (HAS_NO_PRICE(h) <==> i.nav.None?)
            && (HAS_NO_RATE(h) <==> i.nav.Some? && i.currency == Usd && usdInr.None?)
  {
    PositionSays(i, lots, usdInr, asOf);
  }

  function SumUnrealized(holdings: seq<Holding>): int {
    if holdings == [] then 0
    else
      SumUnrealized(Init(holdings))
      + if Last(holdings).unrealizedInrPaise.Some? then Last(holdings).unrealizedInrPaise.value else 0
  }

  ghost predicate AreValued(holdings: seq<Holding>) {
    forall h <- holdings ::
      exists i: Instrument, lots: seq<LotValue>, usdInr: Option<int>, asOf: Option<int> ::
        h == Valued(i, lots, usdInr, asOf)
  }

  /** The tile's profit is the sum of the rows' own, and every position lands in exactly one of the counts. */
  lemma {:induction false} TilesAgreeWithRows(holdings: seq<Holding>)
    requires AreValued(holdings)
    ensures var t := Summary(holdings);
            && t.unrealizedPaise == SumUnrealized(holdings) == t.currentValuePaise - t.investedPaise
            && t.priced + t.unpriced + t.rateless == |holdings|
  {
    if holdings != [] {
      InitLast(holdings);
      TilesAgreeWithRows(Init(holdings));
      assert Last(holdings) in holdings;
    }
  }
}
