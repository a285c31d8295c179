/** The mutable lot queue the read-model folds transactions into, proved against Holdings. */
module LotQueues {
  import opened FxMath
  import opened Holdings
  import opened Sequences

  /** An open lot, decremented in place. The rate is the acquisition's own and never changes. */
  class Lot {
    var units: nat
    var costPaise: nat
    const fxRate: int
    ghost var cuts: nat

    constructor (units: nat, costPaise: nat, fxRate: int)
      ensures Value() == LotValue(units, costPaise, fxRate, 0)
    {
      this.units, this.costPaise, this.fxRate, this.cuts := units, costPaise, fxRate, 0;
    }

    ghost function Value(): LotValue
      reads this
    {
      LotValue(units, costPaise, fxRate, cuts)
    }
  }

  ghost function Values(lots: seq<Lot>): seq<LotValue>
    reads lots
  {
    seq(|lots|, i requires 0 <= i < |lots| reads lots => lots[i].Value())
  }

  /** One turn of the consuming loop, on values. */
  lemma ConsumeTurn(lots: seq<LotValue>, qty: nat)
    requires lots != [] && qty > 0
    ensures lots[0].units <= qty ==>
              && Consume(lots, qty) == Consume(lots[1..], qty - lots[0].units)
              && Units(lots) == lots[0].units + Units(lots[1..])
    ensures lots[0].units > qty ==>
              && Consume(Consume(lots, qty), 0) == Consume(lots, qty)
              && Units(Consume(lots, qty)) == Units(lots) - qty
  {
    HeadSplits(lots);
    ConsumeTakesUnits(lots, qty);
  }

  lemma NothingToConsume(lots: seq<LotValue>, qty: nat)
    requires qty == 0 || lots == []
    ensures Consume(lots, qty) == lots && (lots == [] ==> Units(lots) == 0)
  {
  }

  class LotQueue {
    var lots: seq<Lot>

    ghost predicate Valid()
      reads this
    {
      forall i, j :: 0 <= i < j < |lots| ==> lots[i] != lots[j]
    }

    ghost function Contents(): seq<LotValue>
      reads this, lots
    {
      Values(lots)
    }

    constructor ()
      ensures Valid() && Contents() == [] && lots == []
    {
      lots := [];
    }

    method CutHead(part: nat)
      requires Valid() && lots != [] && 0 < part < lots[0].units
      modifies lots[0]
      ensures Contents() == Consume(old(Contents()), part)
    {
      var lot := lots[0];
      ShareWithinAmount(lot.costPaise, part, lot.units);
      var released := RoundHalfEven(lot.costPaise * part, lot.units);
      lot.costPaise := lot.costPaise - released;
      lot.units := lot.units - part;
      lot.cuts := lot.cuts + 1;
    }

    method PopHead()
      requires Valid() && lots != []
      modifies this
      ensures Valid() && lots == old(lots[1..])
      ensures Contents() == old(Contents()[1..])
    {
      lots := lots[1..];
    }

    method ConsumeFifo(qty: nat) returns (unmatched: nat)
      requires Valid()
      modifies this, lots
      ensures Valid() && (forall lot <- lots :: lot in old(lots))
      ensures Contents() == Consume(old(Contents()), qty)
      ensures unmatched == if qty <= Units(old(Contents())) then 0 else qty - Units(old(Contents()))
    {
      hide Consume, Units;
      unmatched := qty;
      while unmatched > 0 && lots != []
        invariant Valid() && (forall lot <- lots :: lot in old(lots))
        invariant Consume(Contents(), unmatched) == Consume(old(Contents()), qty)
        invariant Units(Contents()) - unmatched == Units(old(Contents())) - qty
        decreases unmatched, |lots|
      {
        assert lots[0] in lots;
        ConsumeTurn(Contents(), unmatched);
        if lots[0].units <= unmatched {
          unmatched := unmatched - lots[0].units;
          PopHead();
        } else {
          CutHead(unmatched);
          unmatched := 0;
        }
      }
      NothingToConsume(Contents(), unmatched);
    }

    method Apply(t: Txn) returns (unmatched: nat)
      requires Valid()
      modifies this, lots
      ensures Valid() && forall i :: 0 <= i < |lots| ==> lots[i] in old(lots) || fresh(lots[i])
      ensures Contents() == Holdings.Apply(old(Contents()), t)
      ensures unmatched == if UnitSign(t.kind) < 0 && Units(old(Contents())) < t.units
                           then t.units - Units(old(Contents())) else 0
    {
      hide Consume, Units, CutLot;
      unmatched := 0;
      match t.kind {
        case Buy | Sip | SwitchIn =>
          var lot := new Lot(t.units, t.amountPaise + t.feesPaise, t.fxRate);
          Append(lot);
        case Bonus =>
          var lot := new Lot(t.units, 0, t.fxRate);
          Append(lot);
        case Sell | SwitchOut =>
          unmatched := ConsumeFifo(t.units);
        case Dividend | Split =>
      }
    }

    method Append(lot: Lot)
      requires Valid() && lot !in lots
      modifies this
      ensures Valid() && lots == old(lots) + [lot]
      ensures Contents() == old(Contents()) + [lot.Value()]
    {
      lots := lots + [lot];
      assert Contents() == old(Contents()) + [lot.Value()];
    }
  }

  /** Replays one instrument's history, already in (date, id) order, and counts what was clamped. */
  method ReplayHistory(ts: seq<Txn>) returns (queue: LotQueue, clamped: nat)
    ensures queue.Valid() && queue.Contents() == Replay(ts)
    ensures clamped == Unmatched(ts)
  {
    queue := new LotQueue();
    clamped := 0;
    for i := 0 to |ts|
      invariant fresh(queue) && fresh(queue.lots) && queue.Valid()
      invariant queue.Contents() == Replay(ts[..i])
      invariant clamped == Unmatched(ts[..i])
    {
      assert Init(ts[..i + 1]) == ts[..i] && Last(ts[..i + 1]) == ts[i];
      var unmatched := queue.Apply(ts[i]);
      assert queue.Contents() == Replay(ts[..i + 1]);
      clamped := clamped + unmatched;
    }
    assert ts[..|ts|] == ts;
  }

  /** The write-time guard's fold over the same rows. */
  method AvailableUnits(rows: seq<Txn>) returns (net: int)
    ensures net == NetUnits(rows)
  {
    net := 0;
    for i := 0 to |rows|
      invariant net == NetUnits(rows[..i])
    {
      assert Init(rows[..i + 1]) == rows[..i];
      net := net + SignedUnits(rows[i]);
    }
    assert rows[..|rows|] == rows;
  }

  datatype Row = Row(instrument: int, txn: Txn)

  /** One instrument's rows, in the order of the whole. */
  function History(rows: seq<Row>, instrument: int): seq<Txn> {
    if rows == [] then []
    else if Last(rows).instrument == instrument then History(Init(rows), instrument) + [Last(rows).txn]
    else History(Init(rows), instrument)
  }

  /** A history is the instrument's own rows, all of them and in order, and nothing of another's. */
  lemma {:induction false} HistoryIsOwn(a: seq<Row>, row: Row, b: seq<Row>, instrument: int)
    ensures History(a + [row] + b, instrument)
            == History(a, instrument) + (if row.instrument == instrument then [row.txn] else [])
               + History(b, instrument)
  {
    if b == [] {
      assert a + [row] + b == a + [row] && Init(a + [row]) == a;
    } else {
      assert Init(a + [row] + b) == a + [row] + Init(b);
      HistoryIsOwn(a, row, Init(b), instrument);
    }
  }

  ghost predicate Separate(queues: map<int, LotQueue>)
    reads queues.Values
  {
    && (forall a <- queues :: queues[a].Valid())
    && (forall a, b | a in queues && b in queues && a != b ::
          queues[a] != queues[b] && forall lot <- queues[a].lots :: lot !in queues[b].lots)
  }

  method EmptyQueues(active: seq<int>) returns (queues: map<int, LotQueue>)
    ensures queues.Keys == (set a | a in active) && Separate(queues)
    ensures forall a <- queues :: fresh(queues[a]) && queues[a].lots == []
  {
    queues := map[];
    for i := 0 to |active|
      invariant queues.Keys == (set a | a in active[..i])
      invariant Separate(queues)
      invariant forall a <- queues :: fresh(queues[a]) && queues[a].lots == []
    {
      var queue := new LotQueue();
      queues := queues[active[i] := queue];
    }
  }

  method Feed(queues: map<int, LotQueue>, a: int, t: Txn)
    requires a in queues && Separate(queues)
    modifies queues[a], queues[a].lots
    ensures Separate(queues) && forall i :: 0 <= i < |queues[a].lots| ==>
            queues[a].lots[i] in old(queues[a].lots) || fresh(queues[a].lots[i])
    ensures queues[a].Contents() == Apply(old(queues[a].Contents()), t)
    ensures forall b | b in queues && b != a :: queues[b].lots == old(queues[b].lots)
    ensures forall b | b in queues && b != a :: queues[b].Contents() == old(queues[b].Contents())
  {
    var _ := queues[a].Apply(t);
    forall b | b in queues && b != a
      ensures queues[b].lots == old(queues[b].lots) && queues[b].Contents() == old(queues[b].Contents())
    {
      assert forall i :: 0 <= i < |queues[b].lots| ==> queues[b].lots[i] in queues[b].lots;
    }
  }

  lemma HistorySnoc(rows: seq<Row>, i: nat, instrument: int)
    requires i < |rows|
    ensures Replay(History(rows[..i + 1], instrument)) ==
            if rows[i].instrument == instrument then Apply(Replay(History(rows[..i], instrument)), rows[i].txn)
            else Replay(History(rows[..i], instrument))
  {
    hide Apply;
    assert Init(rows[..i + 1]) == rows[..i] && Last(rows[..i + 1]) == rows[i];
    if rows[i].instrument == instrument {
      var after := History(rows[..i + 1], instrument);
      assert Init(after) == History(rows[..i], instrument) && Last(after) == rows[i].txn;
    }
  }

  ghost function AllLots(queues: map<int, LotQueue>): set<Lot>
    reads queues.Values
  {
    set a, lot | a in queues && lot in queues[a].lots :: lot
  }

  lemma NoHistory(instrument: int)
    ensures Replay(History([], instrument)) == []
  {
  }

  /** One row into the queue of its instrument, if that is active. */
  method FeedRow(queues: map<int, LotQueue>, rows: seq<Row>, i: nat)
    requires i < |rows| && Separate(queues)
    requires forall a <- queues :: queues[a].Contents() == Replay(History(rows[..i], a))
    modifies queues.Values, AllLots(queues)
    ensures Separate(queues)
    ensures forall a, k | a in queues && 0 <= k < |queues[a].lots| ::
              queues[a].lots[k] in old(queues[a].lots) || fresh(queues[a].lots[k])
    ensures forall a <- queues :: queues[a].Contents() == Replay(History(rows[..i + 1], a))
  {
    hide Replay, History, Apply;
    forall b | b in queues {
      HistorySnoc(rows, i, b);
    }
    var a := rows[i].instrument;
    if a in queues {
      assert queues[a] in queues.Values;
      assert forall lot <- queues[a].lots :: lot in AllLots(queues);
      Feed(queues, a, rows[i].txn);
    }
  }

  /** One pass over all rows feeds each active instrument its own history and nothing else. */
  method LotsByInstrument(active: seq<int>, rows: seq<Row>) returns (queues: map<int, LotQueue>)
    ensures queues.Keys == (set a | a in active) && Separate(queues)
    ensures forall a <- queues :: queues[a].Contents() == Replay(History(rows, a))
  {
    hide Replay, Separate;
    queues := EmptyQueues(active);
    forall a | a in queues {
      NoHistory(a);
    }
    assert rows[..0] == [];
    for i := 0 to |rows|
      invariant Separate(queues)
      invariant forall a <- queues :: fresh(queues[a]) && fresh(queues[a].lots)
      invariant forall a <- queues :: queues[a].Contents() == Replay(History(rows[..i], a))
    {
      FeedRow(queues, rows, i);
    }
    assert rows[..|rows|] == rows;
  }
}
