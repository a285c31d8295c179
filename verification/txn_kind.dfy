/** What each transaction type does to a position, in the transactions' own fields. */
module TxnKinds {
  import opened Sequences
  import opened Holdings

  /** Bought for money: at the amount paid plus the fees. */
  predicate IsBought(kind: TxnType) {
    kind == Buy || kind == Sip || kind == SwitchIn
  }

  predicate IsDisposal(kind: TxnType) {
    kind == Sell || kind == SwitchOut
  }

  /** Neither brings nor takes units. */
  predicate IsIdle(kind: TxnType) {
    kind == Dividend || kind == Split
  }

  // ----- types that stand for each other -----

  /** The same transaction but for the name of its type: of two purchases, or of two disposals. */
  predicate Alike(t: Txn, u: Txn) {
    && u == t.(kind := u.kind)
    && (t.kind == u.kind || (IsBought(t.kind) && IsBought(u.kind)) || (IsDisposal(t.kind) && IsDisposal(u.kind)))
  }

  lemma AlikeApply(lots: seq<LotValue>, t: Txn, u: Txn)
    requires Alike(t, u)
    ensures Apply(lots, t) == Apply(lots, u) && SignedUnits(t) == SignedUnits(u)
    ensures t.units == u.units && (UnitSign(t.kind) < 0 <==> UnitSign(u.kind) < 0)
  {
    hide Consume;
  }

  /** A switch-out is a sell, an instalment or a switch-in a buy: queue, guard and clamped units agree. */
  lemma {:induction false} AlikeHistories(ts: seq<Txn>, us: seq<Txn>)
    requires |ts| == |us| && forall i :: 0 <= i < |ts| ==> Alike(ts[i], us[i])
    ensures Replay(ts) == Replay(us) && NetUnits(ts) == NetUnits(us) && Unmatched(ts) == Unmatched(us)
  {
    hide Apply, SignedUnits, Alike, UnitSign;
    if ts != [] {
      assert Alike(Last(ts), Last(us));
      AlikeHistories(Init(ts), Init(us));
      AlikeApply(Replay(Init(ts)), Last(ts), Last(us));
    }
  }

  function WithoutIdle(ts: seq<Txn>): seq<Txn> {
    if ts == [] then []
    else if IsIdle(Last(ts).kind) then WithoutIdle(Init(ts))
    else WithoutIdle(Init(ts)) + [Last(ts)]
  }

  /** Dividends and splits may be left out of any history. */
  lemma {:induction false} IdleRowsDoNothing(ts: seq<Txn>)
    ensures var moving := WithoutIdle(ts);
            Replay(ts) == Replay(moving) && NetUnits(ts) == NetUnits(moving) && Unmatched(ts) == Unmatched(moving)
  {
    hide Consume;
    if ts != [] {
      IdleRowsDoNothing(Init(ts));
      var before, t := WithoutIdle(Init(ts)), Last(ts);
      assert Init(before + [t]) == before && Last(before + [t]) == t;
    }
  }

  // ----- totals by type -----

  /** The units of the rows of these types. */
  function UnitsOf(ts: seq<Txn>, kinds: set<TxnType>): nat {
    if ts == [] then 0 else UnitsOf(Init(ts), kinds) + if Last(ts).kind in kinds then Last(ts).units else 0
  }

  /** The amounts and fees of the purchases; what a bonus or a sale says in these columns is no cost. */
  function PaidFor(ts: seq<Txn>): nat {
    if ts == [] then 0
    else
      var t := Last(ts);
      PaidFor(Init(ts)) + if t.kind in {Buy, Sip, SwitchIn} then t.amountPaise + t.feesPaise else 0
  }

  /** The guard's total, and the units acquired and asked for, counted by type. */
  lemma NetUnitsByKind(ts: seq<Txn>)
    ensures NetUnits(ts) == UnitsOf(ts, {Buy, Sip, Bonus, SwitchIn}) - UnitsOf(ts, {Sell, SwitchOut})
    ensures Units(Acquired(ts)) == UnitsOf(ts, {Buy, Sip, Bonus, SwitchIn})
    ensures Sold(ts) == UnitsOf(ts, {Sell, SwitchOut})
  {
    hide NetUnits, Units, Acquired, Sold, UnitsOf;
    AcquiredByKind(ts, {Buy, Sip, Bonus, SwitchIn});
    SoldByKind(ts, {Sell, SwitchOut});
    NetIsAcquiredLessSold(ts);
  }

  lemma {:induction false} AcquiredByKind(ts: seq<Txn>, kinds: set<TxnType>)
    requires forall kind :: kind in kinds <==> UnitSign(kind) > 0
    ensures Units(Acquired(ts)) == UnitsOf(ts, kinds)
  {
    hide UnitSign;
    if ts != [] {
      AcquiredByKind(Init(ts), kinds);
      assert Init(Acquired(Init(ts)) + [OpenedLot(Last(ts))]) == Acquired(Init(ts));
    }
  }

  lemma {:induction false} SoldByKind(ts: seq<Txn>, kinds: set<TxnType>)
    requires forall kind :: kind in kinds <==> UnitSign(kind) < 0
    ensures Sold(ts) == UnitsOf(ts, kinds)
  {
    hide UnitSign;
    if ts != [] {
      SoldByKind(Init(ts), kinds);
    }
  }

  lemma {:induction false} NetIsAcquiredLessSold(ts: seq<Txn>)
    ensures NetUnits(ts) == Units(Acquired(ts)) - Sold(ts)
  {
    hide UnitSign;
    if ts != [] {
      NetIsAcquiredLessSold(Init(ts));
      assert Init(Acquired(Init(ts)) + [OpenedLot(Last(ts))]) == Acquired(Init(ts));
    }
  }

  /** The cost of what is held and of what was let go is what the purchases cost, fees included; a bonus is free. */
  lemma CostByKind(ts: seq<Txn>)
    ensures Cost(Acquired(ts)) == PaidFor(ts)
    ensures Cost(Replay(ts)) + Released(ts) == PaidFor(ts)
  {
    AcquiredCostByKind(ts);
    CostConserved(ts);
  }

  lemma {:induction false} AcquiredCostByKind(ts: seq<Txn>)
    ensures Cost(Acquired(ts)) == PaidFor(ts)
  {
    if ts != [] {
      AcquiredCostByKind(Init(ts));
      assert Init(Acquired(Init(ts)) + [OpenedLot(Last(ts))]) == Acquired(Init(ts));
    }
  }
}
