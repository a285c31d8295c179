/** The FIFO read-model: an investment history replayed through a queue of acquisition lots. */
module Holdings {
  import opened FxMath
  import opened Sequences

  datatype TxnType = Buy | Sell | Sip | Dividend | Bonus | Split | SwitchIn | SwitchOut

  // Units carry eight decimal places and are stored scaled to an integer; money is integer paise.
  datatype Txn = Txn(kind: TxnType, units: nat, amountPaise: nat, feesPaise: nat, fxRate: int)

  // What a lot holds. `cuts` counts the partial sells the lot has survived.
  datatype LotValue = LotValue(units: nat, costPaise: nat, fxRate: int, cuts: nat)

  function UnitSign(kind: TxnType): int {
    match kind
    case Buy | Sip | Bonus | SwitchIn => 1
    case Sell | SwitchOut => -1
    case Dividend | Split => 0
  }

  /** UnitSign times units. */
  function SignedUnits(t: Txn): int {
    if UnitSign(t.kind) > 0 then t.units else if UnitSign(t.kind) < 0 then 0 - t.units else 0
  }

  // ----- the queue as a function of the history -----

  function ReleasedShare(lot: LotValue, part: nat): (paise: nat)
    requires 0 < part < lot.units
    ensures paise <= lot.costPaise
    ensures IsHalfEven(lot.costPaise * part, lot.units, paise)
  {
    ShareWithinAmount(lot.costPaise, part, lot.units);
    RoundHalfEven(lot.costPaise * part, lot.units)
  }

  function CutLot(lot: LotValue, part: nat): LotValue
    requires 0 < part < lot.units
  {
    LotValue(lot.units - part, lot.costPaise - ReleasedShare(lot, part), lot.fxRate, lot.cuts + 1)
  }

  function Consume(lots: seq<LotValue>, qty: nat): seq<LotValue> {
    if qty == 0 || lots == [] then lots
    else if lots[0].units <= qty then Consume(lots[1..], qty - lots[0].units)
    else [CutLot(lots[0], qty)] + lots[1..]
  }

  function OpenedLot(t: Txn): LotValue {
    LotValue(t.units, if t.kind == Bonus then 0 else t.amountPaise + t.feesPaise, t.fxRate, 0)
  }

  function Apply(lots: seq<LotValue>, t: Txn): seq<LotValue> {
    if UnitSign(t.kind) > 0 then lots + [OpenedLot(t)]
    else if UnitSign(t.kind) < 0 then Consume(lots, t.units)
    else lots
  }

  function Replay(ts: seq<Txn>): seq<LotValue> {
    if ts == [] then [] else Apply(Replay(Init(ts)), Last(ts))
  }

  // ----- measures of histories and queues that know nothing of FIFO -----

  function Units(lots: seq<LotValue>): nat {
    if lots == [] then 0 else Units(Init(lots)) + Last(lots).units
  }

  function Cost(lots: seq<LotValue>): nat {
    if lots == [] then 0 else Cost(Init(lots)) + Last(lots).costPaise
  }

  /** Every lot a history ever opened, untouched. */
  function Acquired(ts: seq<Txn>): seq<LotValue> {
    if ts == [] then []
    else if UnitSign(Last(ts).kind) > 0 then Acquired(Init(ts)) + [OpenedLot(Last(ts))]
    else Acquired(Init(ts))
  }

  function Sold(ts: seq<Txn>): nat {
    if ts == [] then 0 else Sold(Init(ts)) + if UnitSign(Last(ts).kind) < 0 then Last(ts).units else 0
  }

  function Sells(ts: seq<Txn>): nat {
    if ts == [] then 0 else Sells(Init(ts)) + if UnitSign(Last(ts).kind) < 0 then 1 else 0
  }

  /** The signed fold behind the write-time oversell guard. */
  function NetUnits(ts: seq<Txn>): int {
    if ts == [] then 0 else NetUnits(Init(ts)) + SignedUnits(Last(ts))
  }

  /** The least value the signed fold takes on any prefix, the empty one included. */
  function LowestNet(ts: seq<Txn>): int {
    if ts == [] then 0
    else if NetUnits(ts) < LowestNet(Init(ts)) then NetUnits(ts) else LowestNet(Init(ts))
  }

  predicate NeverOversells(ts: seq<Txn>) {
    forall i :: 0 <= i <= |ts| ==> NetUnits(ts[..i]) >= 0
  }

  /** Units of sells that found nothing left to consume. */
  function Unmatched(ts: seq<Txn>): nat {
    if ts == [] then 0
    else
      var t, held := Last(ts), Units(Replay(Init(ts)));
      Unmatched(Init(ts)) + if UnitSign(t.kind) < 0 && held < t.units then t.units - held else 0
  }

  // ----- sums over queues -----

  lemma {:induction false} SumsSplit(a: seq<LotValue>, b: seq<LotValue>)
    ensures Units(a + b) == Units(a) + Units(b)
    ensures Cost(a + b) == Cost(a) + Cost(b)
  {
    if b == [] {
      assert a + b == a;
    } else {
      assert Init(a + b) == a + Init(b);
      SumsSplit(a, Init(b));
    }
  }

  lemma HeadSplits(lots: seq<LotValue>)
    requires lots != []
    ensures Units(lots) == lots[0].units + Units(lots[1..])
    ensures Cost(lots) == lots[0].costPaise + Cost(lots[1..])
  {
    assert lots == [lots[0]] + lots[1..];
    SumsSplit([lots[0]], lots[1..]);
    assert Init([lots[0]]) == [];
  }

  // ----- one sell against the queue -----

  /** A sell takes out exactly what it asks for, or everything when it asks for more. */
  lemma {:induction false} ConsumeTakesUnits(lots: seq<LotValue>, qty: nat)
    ensures Units(Consume(lots, qty)) == if qty <= Units(lots) then Units(lots) - qty else 0
  {
    if lots != [] {
      HeadSplits(lots);
      if qty > 0 && lots[0].units <= qty {
        ConsumeTakesUnits(lots[1..], qty - lots[0].units);
      } else if qty > 0 {
        HeadSplits(Consume(lots, qty));
      }
    }
  }

  // ----- the units of a replay, for every history -----

  /** The clamping replay is the signed fold reflected at its running minimum. */
  lemma {:induction false} ReplayReflectsNet(ts: seq<Txn>)
    ensures Units(Replay(ts)) == NetUnits(ts) - LowestNet(ts)
    ensures Unmatched(ts) == -LowestNet(ts)
  {
    if ts != [] {
      ReplayReflectsNet(Init(ts));
      var lots := Replay(Init(ts));
      ConsumeTakesUnits(lots, Last(ts).units);
      SumsSplit(lots, [OpenedLot(Last(ts))]);
      assert Init([OpenedLot(Last(ts))]) == [];
    }
  }

  /** LowestNet is the minimum over prefixes: a lower bound for all of them, attained by one. */
  lemma {:induction false} LowestNetIsMinimum(ts: seq<Txn>)
    ensures forall i :: 0 <= i <= |ts| ==> LowestNet(ts) <= NetUnits(ts[..i])
    ensures exists i :: 0 <= i <= |ts| && LowestNet(ts) == NetUnits(ts[..i])
  {
    assert ts[..|ts|] == ts;
    if ts != [] {
      var before := Init(ts);
      LowestNetIsMinimum(before);
      assert forall i :: 0 <= i < |ts| ==> before[..i] == ts[..i];
      var k :| 0 <= k <= |before| && LowestNet(before) == NetUnits(before[..k]);
      assert LowestNet(before) == NetUnits(ts[..k]);
    }
  }

  /** The replay never reports fewer units than the guard, and they agree just on histories that never oversell. */
  lemma ReplayAgreesWithGuard(ts: seq<Txn>)
    ensures Units(Replay(ts)) >= NetUnits(ts)
    ensures Units(Replay(ts)) == NetUnits(ts) <==> NeverOversells(ts)
    ensures Unmatched(ts) == 0 <==> NeverOversells(ts)
  {
    ReplayReflectsNet(ts);
    LowestNetIsMinimum(ts);
    assert ts[..0] == [];
  }

  lemma {:induction false} NetUnitsSplit(a: seq<Txn>, b: seq<Txn>)
    ensures NetUnits(a + b) == NetUnits(a) + NetUnits(b)
  {
    if b == [] {
      assert a + b == a;
    } else {
      assert Init(a + b) == a + Init(b);
      NetUnitsSplit(a, Init(b));
    }
  }

  lemma NetUnitsWithout(left: seq<Txn>, t: Txn, right: seq<Txn>)
    ensures NetUnits(left + [t] + right) == NetUnits(left + right) + SignedUnits(t)
  {
    NetUnitsSplit(left + [t], right);
    NetUnitsSplit(left, right);
    assert Init(left + [t]) == left;
  }

  /** The guard does not care in which order the rows come back; the replay does. */
  lemma {:induction false} NetUnitsOrderInsensitive(a: seq<Txn>, b: seq<Txn>)
    requires multiset(a) == multiset(b)
    ensures NetUnits(a) == NetUnits(b)
  {
    if a == [] {
      assert |multiset(b)| == 0;
    } else {
      InitLast(a);
      assert Last(a) in multiset(b);
      var k :| 0 <= k < |b| && b[k] == Last(a);
      var left, right := b[..k], b[k + 1..];
      assert b == left + [b[k]] + right;
      NetUnitsWithout(left, b[k], right);
      NetUnitsOrderInsensitive(Init(a), left + right);
    }
  }

  /** Selling before the funding buy: the guard's total is zero either way, the replay keeps the buy. */
  lemma ReplayDependsOnOrder(buy: Txn, sell: Txn)
    requires buy.kind == Buy && sell.kind == Sell && buy.units == sell.units > 0
    ensures Units(Replay([buy, sell])) == 0 && Units(Replay([sell, buy])) == buy.units
    ensures NetUnits([buy, sell]) == NetUnits([sell, buy]) == 0
  {
    assert Init([buy, sell]) == [buy] && Init([sell, buy]) == [sell] && Init([buy]) == Init([sell]) == [];
    assert NetUnits([sell]) == NetUnits(Init([sell])) + SignedUnits(sell);
    assert NetUnits([buy]) == buy.units && NetUnits([sell]) == 0 - sell.units;
    ReplayReflectsNet([buy, sell]);
    ReplayReflectsNet([sell, buy]);
    assert LowestNet([buy]) == 0 && LowestNet([sell]) == 0 - sell.units;
  }

  // ----- FIFO order, for every history -----

  /**
   * `lots` is what is left of `whole` once its first `sold` units are gone: some leading lots have
   * vanished, at most the one now in front is cut, and every lot behind it is as it was opened.
   */
  ghost predicate DropsFirst(whole: seq<LotValue>, sold: nat, lots: seq<LotValue>) {
    && |lots| <= |whole|
    && var gone := |whole| - |lots|;
       if lots == [] then sold == Units(whole)
       else
         && lots[1..] == whole[gone + 1..]
         && lots[0].units <= whole[gone].units
         && sold == Units(whole[..gone]) + whole[gone].units - lots[0].units
         && IsRemnant(whole[gone], lots[0])
  }

  /**
   * `part` is `whole` after `part.cuts` partial sells: a cut lot is strictly smaller and not empty,
   * keeps its rate, and its cost is within half a paisa per cut of the exact proportional cost.
   */
  predicate IsRemnant(whole: LotValue, part: LotValue) {
    && whole.cuts == 0
    && part.fxRate == whole.fxRate
    && part.costPaise <= whole.costPaise
    && (if part.cuts == 0 then part == whole else 0 < part.units < whole.units)
    && Abs(2 * (part.costPaise * whole.units - whole.costPaise * part.units)) <= part.cuts * whole.units
  }

  lemma DriftIdentity(unitsWas: int, unitsNow: int, costWas: int, costNow: int, part: int, released: int)
    ensures unitsNow * ((costNow - released) * unitsWas - costWas * (unitsNow - part))
         == (unitsNow - part) * (costNow * unitsWas - costWas * unitsNow)
            + unitsWas * (costNow * part - released * unitsNow)
  {
  }

  lemma DriftBelow(unitsWas: nat, unitsNow: nat, left: nat, drift: int, slip: int, after: int, bound: nat)
    requires left < unitsNow
    requires unitsNow * after == left * drift + unitsWas * slip
    requires 2 * drift <= bound && 2 * slip <= unitsNow
    ensures 2 * after <= bound + unitsWas
  {
    ScaledBelow(left, 2 * drift, bound);
    ScaledBelow(bound, left, unitsNow);
    ScaledBelow(unitsWas, 2 * slip, unitsNow);
    var x, y, z := unitsNow * after, left * drift, unitsWas * slip;
    assert left * (2 * drift) == 2 * y && unitsWas * (2 * slip) == 2 * z && unitsNow * (2 * after) == 2 * x;
    assert unitsNow * (bound + unitsWas) == bound * unitsNow + unitsWas * unitsNow;
    UnscaledBelow(unitsNow, 2 * after, bound + unitsWas);
  }

  lemma ScaledBelow(factor: nat, a: int, b: int)
    requires a <= b
    ensures factor * a <= factor * b
  {
    MulMonotone(a, b, 0, factor);
  }

  lemma UnscaledBelow(factor: nat, a: int, b: int)
    requires factor > 0 && factor * a <= factor * b
    ensures a <= b
  {
    MulMonotone(b, a, 1, factor);
  }

  lemma CutDrift(unitsWas: nat, unitsNow: nat, costWas: nat, costNow: nat, part: nat, released: nat, bound: nat)
    requires 0 < part < unitsNow
    requires IsHalfEven(costNow * part, unitsNow, released)
    requires Abs(2 * (costNow * unitsWas - costWas * unitsNow)) <= bound
    ensures Abs(2 * ((costNow - released) * unitsWas - costWas * (unitsNow - part))) <= bound + unitsWas
  {
    var left := unitsNow - part;
    var drift := costNow * unitsWas - costWas * unitsNow;
    var slip := costNow * part - released * unitsNow;
    var after := (costNow - released) * unitsWas - costWas * left;
    DriftIdentity(unitsWas, unitsNow, costWas, costNow, part, released);
    assert unitsNow * after == left * drift + unitsWas * slip;
    DriftBelow(unitsWas, unitsNow, left, drift, slip, after, bound);
    assert unitsNow * -after == left * -drift + unitsWas * -slip;
    DriftBelow(unitsWas, unitsNow, left, -drift, -slip, -after, bound);
  }

  lemma CutKeepsRemnant(whole: LotValue, lot: LotValue, part: nat)
    requires IsRemnant(whole, lot) && lot.units <= whole.units && 0 < part < lot.units
    ensures IsRemnant(whole, CutLot(lot, part))
  {
    var released := ReleasedShare(lot, part);
    CutDrift(whole.units, lot.units, whole.costPaise, lot.costPaise, part, released, lot.cuts * whole.units);
    OneMoreCut(lot.cuts, whole.units);
  }

  lemma OneMoreCut(cuts: nat, units: nat)
    ensures (cuts + 1) * units == cuts * units + units
  {
  }

  lemma DropHead(whole: seq<LotValue>, sold: nat, lots: seq<LotValue>)
    requires DropsFirst(whole, sold, lots) && lots != [] && (forall lot <- whole :: lot.cuts == 0)
    ensures DropsFirst(whole, sold + lots[0].units, lots[1..])
  {
    var gone := |whole| - |lots|;
    assert Init(whole[..gone + 1]) == whole[..gone];
    if |lots| == 1 {
      assert whole[..gone + 1] == whole;
    } else {
      assert lots[1] == lots[1..][0] == whole[gone + 1..][0] == whole[gone + 1];
      assert lots[1..][1..] == whole[gone + 1..][1..] == whole[gone + 2..];
      assert whole[gone + 1] in whole;
    }
  }

  lemma CutHead(whole: seq<LotValue>, sold: nat, lots: seq<LotValue>, part: nat)
    requires DropsFirst(whole, sold, lots) && lots != [] && 0 < part < lots[0].units
    ensures DropsFirst(whole, sold + part, [CutLot(lots[0], part)] + lots[1..])
  {
    CutKeepsRemnant(whole[|whole| - |lots|], lots[0], part);
  }

  lemma {:induction false} ConsumeDropsFirst(whole: seq<LotValue>, sold: nat, lots: seq<LotValue>, qty: nat)
    requires DropsFirst(whole, sold, lots) && (forall lot <- whole :: lot.cuts == 0)
    ensures DropsFirst(whole, sold + if qty <= Units(lots) then qty else Units(lots), Consume(lots, qty))
    decreases lots
  {
    hide IsRemnant;
    if lots != [] && qty > 0 {
      HeadSplits(lots);
      if lots[0].units <= qty {
        DropHead(whole, sold, lots);
        ConsumeDropsFirst(whole, sold + lots[0].units, lots[1..], qty - lots[0].units);
      } else {
        CutHead(whole, sold, lots, qty);
      }
    }
  }

  lemma AppendDropsFirst(whole: seq<LotValue>, sold: nat, lots: seq<LotValue>, lot: LotValue)
    requires DropsFirst(whole, sold, lots) && lot.cuts == 0
    ensures DropsFirst(whole + [lot], sold, lots + [lot])
  {
    var gone := |whole| - |lots|;
    assert (whole + [lot])[..gone] == whole[..gone];
    if lots == [] {
      assert whole[..gone] == whole;
    } else {
      assert (lots + [lot])[1..] == lots[1..] + [lot];
      assert (whole + [lot])[gone + 1..] == whole[gone + 1..] + [lot];
    }
  }

  lemma {:induction false} AcquiredUnits(ts: seq<Txn>)
    ensures Units(Acquired(ts)) - Sold(ts) == NetUnits(ts)
    ensures forall lot <- Acquired(ts) :: lot.cuts == 0
  {
    if ts != [] {
      AcquiredUnits(Init(ts));
      SumsSplit(Acquired(Init(ts)), [OpenedLot(Last(ts))]);
      assert Init([OpenedLot(Last(ts))]) == [];
    }
  }

  /** The units sells actually found: everything asked for, less what the running minimum says was missing. */
  function Matched(ts: seq<Txn>): int {
    Sold(ts) + LowestNet(ts)
  }

  lemma MatchedStep(ts: seq<Txn>)
    requires ts != []
    ensures var t, held := Last(ts), Units(Replay(Init(ts)));
            Matched(ts) == Matched(Init(ts))
                           + if UnitSign(t.kind) >= 0 then 0 else if t.units <= held then t.units else held
  {
    ReplayReflectsNet(Init(ts));
    LowestNetIsMinimum(Init(ts));
    assert Init(ts)[..|ts| - 1] == Init(ts);
  }

  lemma ApplyDropsFirst(whole: seq<LotValue>, sold: nat, lots: seq<LotValue>, t: Txn)
    requires DropsFirst(whole, sold, lots) && (forall lot <- whole :: lot.cuts == 0)
    ensures UnitSign(t.kind) > 0 ==> DropsFirst(whole + [OpenedLot(t)], sold, Apply(lots, t))
    ensures UnitSign(t.kind) < 0 ==>
              DropsFirst(whole, sold + if t.units <= Units(lots) then t.units else Units(lots), Apply(lots, t))
  {
    AppendDropsFirst(whole, sold, lots, OpenedLot(t));
    ConsumeDropsFirst(whole, sold, lots, t.units);
  }

  /**
   * FIFO, for every history: the queue is the acquisitions in order with the first matched units
   * dropped. Nothing in the statement of `Acquired`, `Sold` or `LowestNet` mentions a queue.
   */
  lemma {:induction false} QueueDropsFirstMatched(ts: seq<Txn>)
    ensures 0 <= Matched(ts) <= Sold(ts)
    ensures DropsFirst(Acquired(ts), Matched(ts), Replay(ts))
  {
    if ts != [] {
      QueueDropsFirstMatched(Init(ts));
      MatchedStep(ts);
      AcquiredUnits(Init(ts));
      ApplyDropsFirst(Acquired(Init(ts)), Matched(Init(ts)), Replay(Init(ts)), Last(ts));
    }
  }

  /** The front lot was cut at most once by each sell; no other lot was cut at all. */
  lemma {:induction false} CutsBoundedBySells(ts: seq<Txn>)
    ensures Replay(ts) != [] ==> Replay(ts)[0].cuts <= Sells(ts)
    ensures forall i :: 1 <= i < |Replay(ts)| ==> Replay(ts)[i].cuts == 0
  {
    if ts != [] {
      CutsBoundedBySells(Init(ts));
      ConsumeCuts(Replay(Init(ts)), Last(ts).units);
    }
  }

  lemma {:induction false} ConsumeCuts(lots: seq<LotValue>, qty: nat)
    requires forall i :: 1 <= i < |lots| ==> lots[i].cuts == 0
    ensures var left := Consume(lots, qty);
            && (left != [] ==> left[0].cuts <= lots[0].cuts + 1)
            && (forall i :: 1 <= i < |left| ==> left[i].cuts == 0)
  {
    if qty > 0 && lots != [] && lots[0].units <= qty {
      ConsumeCuts(lots[1..], qty - lots[0].units);
    }
  }

  // ----- the cost of a replay, for every history -----

  /** The cost basis one sell releases: whole lots at full cost, the boundary lot its rounded share. */
  function ReleasedBy(lots: seq<LotValue>, qty: nat): nat {
    if qty == 0 || lots == [] then 0
    else if lots[0].units <= qty then lots[0].costPaise + ReleasedBy(lots[1..], qty - lots[0].units)
    else ReleasedShare(lots[0], qty)
  }

  function Released(ts: seq<Txn>): nat {
    if ts == [] then 0
    else
      Released(Init(ts))
      + if UnitSign(Last(ts).kind) < 0 then ReleasedBy(Replay(Init(ts)), Last(ts).units) else 0
  }

  lemma {:induction false} ConsumeConservesCost(lots: seq<LotValue>, qty: nat)
    ensures Cost(Consume(lots, qty)) + ReleasedBy(lots, qty) == Cost(lots)
  {
    if lots != [] && qty > 0 {
      HeadSplits(lots);
      if lots[0].units <= qty {
        ConsumeConservesCost(lots[1..], qty - lots[0].units);
      } else {
        HeadSplits(Consume(lots, qty));
      }
    }
  }

  /** Not a paisa is lost to rounding: surviving and released cost make up every acquisition's cost. */
  lemma {:induction false} CostConserved(ts: seq<Txn>)
    ensures Cost(Replay(ts)) + Released(ts) == Cost(Acquired(ts))
  {
    if ts != [] {
      CostConserved(Init(ts));
      ConsumeConservesCost(Replay(Init(ts)), Last(ts).units);
      var newLot := [OpenedLot(Last(ts))];
      SumsSplit(Replay(Init(ts)), newLot);
      SumsSplit(Acquired(Init(ts)), newLot);
      assert Init(newLot) == [];
    }
  }

  lemma {:induction false} NoUnitsMeansEmptyLots(lots: seq<LotValue>)
    requires Units(lots) == 0
    ensures forall lot <- lots :: lot.units == 0
  {
    if lots != [] {
      NoUnitsMeansEmptyLots(Init(lots));
      assert lots == Init(lots) + [Last(lots)];
    }
  }

  /** A full exit leaves no lot and no cost behind, unless some acquisition had no units to sell. */
  lemma FullExitLeavesNothing(ts: seq<Txn>)
    requires NetUnits(ts) == LowestNet(ts)
    requires forall lot <- Acquired(ts) :: lot.units > 0
    ensures Replay(ts) == [] && Released(ts) == Cost(Acquired(ts))
  {
    ReplayReflectsNet(ts);
    NoUnitsMeansEmptyLots(Replay(ts));
    QueueDropsFirstMatched(ts);
    CostConserved(ts);
  }

  // ----- rolling lots up to INR -----

  function InvestedInr(lots: seq<LotValue>): int {
    if lots == [] then 0
    else InvestedInr(Init(lots)) + ToInrPaise(Last(lots).costPaise, Last(lots).fxRate)
  }

  /** The exact sum of cost times rate, in units of 1 / RATE_ONE paise. */
  function InvestedInrExact(lots: seq<LotValue>): int {
    if lots == [] then 0 else InvestedInrExact(Init(lots)) + Last(lots).costPaise * Last(lots).fxRate
  }

  /** Converting per lot and then summing stays within half a paisa per lot of the exact total. */
  lemma {:induction false} InvestedInrWithinHalfPaisaPerLot(lots: seq<LotValue>)
    ensures Abs(2 * (InvestedInrExact(lots) - InvestedInr(lots) * RATE_ONE)) <= |lots| * RATE_ONE
  {
    if lots != [] {
      InvestedInrWithinHalfPaisaPerLot(Init(lots));
    }
  }
}
