/** When the date-ordered replay of rows stored in any order clamps, said without sorting them. */
module ReplayOrders {
  import opened Sequences
  import opened StableSorting
  import opened Holdings
  import opened InvestmentImports

  // ----- balances read off the rows as stored -----

  /** Units of the rows dated at most `date`. */
  function NetThrough(rows: seq<Row>, date: int): int {
    if rows == [] then 0
    else NetThrough(Init(rows), date) + if Last(rows).date <= date then SignedUnits(Last(rows).txn) else 0
  }

  /** Units of the rows dated before `date`, and of those of that date stored at most at position k. */
  function StandingAt(rows: seq<Row>, date: int, k: nat): int {
    if rows == [] then 0
    else
      var r := Last(rows);
      StandingAt(Init(rows), date, k)
      + if r.date < date || (r.date == date && |rows| - 1 <= k) then SignedUnits(r.txn) else 0
  }

  /** At every row, whatever its place in the store, the units dated up to it cover what was sold. */
  ghost predicate AlwaysCovered(rows: seq<Row>) {
    forall k :: 0 <= k < |rows| ==> StandingAt(rows, rows[k].date, k) >= 0
  }

  // ----- balances along a sequence, each beside the date it is reached on -----

  type Balances = set<(int, int)>

  function Along(s: seq<Row>): Balances {
    if s == [] then {} else Along(Init(s)) + {(Last(s).date, NetUnits(Txns(s)))}
  }

  function Moved(b: (int, int), date: int, units: int): (int, int) {
    if b.0 > date then (b.0, b.1 + units) else b
  }

  /** A row dated `date` adds its units to every later balance. */
  function Shifted(balances: Balances, date: int, units: int): Balances {
    set b | b in balances :: Moved(b, date, units)
  }

  lemma ShiftedSplit(a: Balances, b: Balances, date: int, units: int)
    ensures Shifted(a + b, date, units) == Shifted(a, date, units) + Shifted(b, date, units)
  {
  }

  lemma ShiftedOne(b: (int, int), date: int, units: int)
    ensures Shifted({b}, date, units) == {Moved(b, date, units)}
  {
    assert b in {b};
  }

  lemma AlongSnoc(s: seq<Row>, x: Row)
    ensures Along(s + [x]) == Along(s) + {(x.date, NetUnits(Txns(s)) + SignedUnits(x.txn))}
  {
    hide NetUnits, Txns, SignedUnits;
    NetStep(s, x);
    AlongLast(s, x);
  }

  lemma AlongLast(s: seq<Row>, x: Row)
    ensures Along(s + [x]) == Along(s) + {(x.date, NetUnits(Txns(s + [x])))}
  {
    hide NetUnits, Txns;
    assert Init(s + [x]) == s && Last(s + [x]) == x;
  }

  lemma InsertShiftsAtEnd(s: seq<Row>, x: Row)
    requires InOrder(s, EARLIER) && (s != [] ==> Last(s).date <= x.date)
    ensures Along(s + [x])
            == Shifted(Along(s), x.date, SignedUnits(x.txn)) + {(x.date, NetThrough(s, x.date) + SignedUnits(x.txn))}
  {
    hide InOrder, NetThrough, NetUnits, Txns, Shifted, Along;
    AllThrough(s, x.date);
    LaterUntouched(s, x.date, SignedUnits(x.txn));
    AlongSnoc(s, x);
  }

  /** Inserting a row shifts the balances dated after it and adds its own. */
  lemma {:induction false} InsertShifts(s: seq<Row>, x: Row)
    requires InOrder(s, EARLIER)
    ensures Along(Insert(s, x, EARLIER))
            == Shifted(Along(s), x.date, SignedUnits(x.txn)) + {(x.date, NetThrough(s, x.date) + SignedUnits(x.txn))}
  {
    hide NetUnits, Txns, Shifted;
    if s == [] || !EARLIER(x, Last(s)) {
      InsertShiftsAtEnd(s, x);
    } else {
      var front, last, units := Init(s), Last(s), SignedUnits(x.txn);
      InsertShifts(front, x);
      assert s == front + [last] && Insert(s, x, EARLIER) == Insert(front, x, EARLIER) + [last];
      hide InOrder, Insert, Along;
      InsertKeepsNet(front, x);
      AlongSnoc(front, last);
      AlongSnoc(Insert(front, x, EARLIER), last);
      var balance := (last.date, NetUnits(Txns(front)) + SignedUnits(last.txn));
      ShiftedSplit(Along(front), {balance}, x.date, units);
      ShiftedOne(balance, x.date, units);
    }
  }

  lemma {:induction false} AllThrough(s: seq<Row>, date: int)
    requires InOrder(s, EARLIER) && (s != [] ==> Last(s).date <= date)
    ensures NetThrough(s, date) == NetUnits(Txns(s)) && forall r <- s :: r.date <= date
  {
    if s != [] {
      InitLast(s);
      forall i | 0 <= i < |s|
        ensures s[i].date <= date
      {
        assert i < |s| - 1 ==> !EARLIER(Last(s), s[i]);
      }
      AllThrough(Init(s), date);
      NetStep(Init(s), Last(s));
    }
  }

  lemma {:induction false} AlongDates(s: seq<Row>, date: int)
    requires forall r <- s :: r.date <= date
    ensures forall b <- Along(s) :: b.0 <= date
  {
    if s != [] {
      InitLast(s);
      AlongDates(Init(s), date);
    }
  }

  lemma LaterUntouched(s: seq<Row>, date: int, units: int)
    requires forall r <- s :: r.date <= date
    ensures Shifted(Along(s), date, units) == Along(s)
  {
    AlongDates(s, date);
    assert forall b <- Along(s) :: Moved(b, date, units) == b;
  }

  lemma {:induction false} InsertKeepsThrough(s: seq<Row>, x: Row, date: int)
    ensures NetThrough(Insert(s, x, EARLIER), date) == NetThrough(s,
            date) + if x.date <= date then SignedUnits(x.txn) else 0
  {
    if s != [] && EARLIER(x, Last(s)) {
      InsertKeepsThrough(Init(s), x, date);
      assert Init(Insert(s, x, EARLIER)) == Insert(Init(s), x, EARLIER);
    } else {
      assert Init(s + [x]) == s;
    }
  }

  lemma {:induction false} SortKeepsThrough(rows: seq<Row>, date: int)
    ensures NetThrough(StableSort(rows, EARLIER), date) == NetThrough(rows, date)
  {
    if rows != [] {
      SortKeepsThrough(Init(rows), date);
      InsertKeepsThrough(StableSort(Init(rows), EARLIER), Last(rows), date);
    }
  }

  // ----- the same balances without sorting -----

  function Standings(rows: seq<Row>): Balances {
    set k | 0 <= k < |rows| :: Standing(rows, k)
  }

  function Standing(rows: seq<Row>, k: nat): (int, int)
    requires k < |rows|
  {
    (rows[k].date, StandingAt(rows, rows[k].date, k))
  }

  lemma {:induction false} StandingThrough(rows: seq<Row>, date: int, k: nat)
    requires |rows| <= k + 1
    ensures StandingAt(rows, date, k) == NetThrough(rows, date)
  {
    if rows != [] {
      StandingThrough(Init(rows), date, k);
    }
  }

  lemma StandingStep(rows: seq<Row>, k: nat)
    requires rows != [] && k < |rows|
    ensures var x := Last(rows);
            Standing(rows, k) == if k < |rows| - 1 then Moved(Standing(Init(rows), k), x.date, SignedUnits(x.txn))
                                 else (x.date, NetThrough(Init(rows), x.date) + SignedUnits(x.txn))
  {
    if k == |rows| - 1 {
      StandingThrough(Init(rows), Last(rows).date, k);
    }
  }

  lemma StandingsStep(rows: seq<Row>)
    requires rows != []
    ensures var x := Last(rows);
            Standings(rows) == Shifted(Standings(Init(rows)), x.date, SignedUnits(x.txn))
                               + {(x.date, NetThrough(Init(rows), x.date) + SignedUnits(x.txn))}
  {
    var x, n := Last(rows), |rows| - 1;
    forall k: nat | k < |rows| {
      StandingStep(rows, k);
    }
    hide Standing, Moved;
    forall b
      ensures b in Standings(rows)
              <==> b in Shifted(Standings(Init(rows)), x.date, SignedUnits(x.txn))
                   || b == (x.date, NetThrough(Init(rows), x.date) + SignedUnits(x.txn))
    {
      if b in Standings(rows) {
        var k :| 0 <= k < |rows| && b == Standing(rows, k);
        assert k < n ==> Standing(Init(rows), k) in Standings(Init(rows));
      }
      if b in Shifted(Standings(Init(rows)), x.date, SignedUnits(x.txn)) {
        var k :| 0 <= k < n && b == Moved(Standing(Init(rows), k), x.date, SignedUnits(x.txn));
        assert b == Standing(rows, k);
      }
      assert Standing(rows, n) in Standings(rows);
    }
  }

  /** Sorting by date reaches the balances that can be read off the rows where they stand. */
  lemma {:induction false} SortedBalances(rows: seq<Row>)
    ensures Along(StableSort(rows, EARLIER)) == Standings(rows)
  {
    hide InOrder, Along, Standings, Insert, NetThrough, Shifted, SignedUnits;
    if rows == [] {
      NoBalances();
    } else {
      var before := StableSort(Init(rows), EARLIER);
      SortedBalances(Init(rows));
      EarlierIsAnOrder();
      SortIsInOrder(Init(rows), EARLIER);
      InsertShifts(before, Last(rows));
      SortKeepsThrough(Init(rows), Last(rows).date);
      StandingsStep(rows);
    }
  }

  lemma NoBalances()
    ensures Along(StableSort([], EARLIER)) == {} == Standings([])
  {
  }

  lemma EarlierIsAnOrder()
    ensures IsWeakOrder(EARLIER)
  {
    assert forall a, b :: EARLIER(a, b) == (a.date < b.date);
  }

  lemma NeverOversellsSnoc(ts: seq<Txn>)
    requires ts != []
    ensures NeverOversells(ts) <==> NeverOversells(Init(ts)) && NetUnits(ts) >= 0
  {
    assert ts[..|ts|] == ts;
    forall i | 0 <= i < |ts|
      ensures Init(ts)[..i] == ts[..i]
    {
    }
    hide NetUnits;
    if NeverOversells(Init(ts)) && NetUnits(ts) >= 0 {
      forall i | 0 <= i <= |ts|
        ensures NetUnits(ts[..i]) >= 0
      {
        if i < |ts| {
          assert NetUnits(Init(ts)[..i]) >= 0;
        }
      }
    }
    if NeverOversells(ts) {
      forall i | 0 <= i <= |Init(ts)|
        ensures NetUnits(Init(ts)[..i]) >= 0
      {
        assert NetUnits(ts[..i]) >= 0;
      }
    }
  }

  lemma {:induction false} AlongCovers(s: seq<Row>)
    ensures NeverOversells(Txns(s)) <==> forall b <- Along(s) :: b.1 >= 0
  {
    if s == [] {
      assert Txns(s) == [] && Txns(s)[..0] == [];
    } else {
      AlongCovers(Init(s));
      assert Txns(Init(s)) == Init(Txns(s));
      NeverOversellsSnoc(Txns(s));
      var balance := (Last(s).date, NetUnits(Txns(s)));
      assert Along(s) == Along(Init(s)) + {balance} && balance in Along(s);
      assert forall b <- Along(Init(s)) :: b in Along(s);
    }
  }

  /**
   * After any upload, in whatever order its rows and the stored ones are dated, the replay of an instrument
   * clamps nothing if and only if at each of its stored and accepted rows the units dated up to that row
   * are not negative.
   */
  lemma UploadNeverClampsIff(store: seq<Row>, file: seq<FileRow>, rates: seq<Option<int>>, instrument: int)
    requires |file| == |rates|
    ensures Unmatched(ReplayOrder(Upload(store, file, rates), instrument)) == 0
            <==> AlwaysCovered(Own(store, instrument) + Own(Persisted(store, file, rates, |file|), instrument))
  {
    var rows := Own(Upload(store, file, rates), instrument);
    OwnSplit(store, Persisted(store, file, rates, |file|), instrument);
    ReplayAgreesWithGuard(ReplayOrder(Upload(store, file, rates), instrument));
    AlongCovers(StableSort(rows, EARLIER));
    SortedBalances(rows);
    CoveredStandings(rows);
  }

  lemma CoveredStandings(rows: seq<Row>)
    ensures AlwaysCovered(rows) <==> forall b <- Standings(rows) :: b.1 >= 0
  {
    if AlwaysCovered(rows) {
      forall b | b in Standings(rows)
        ensures b.1 >= 0
      {
        var k :| 0 <= k < |rows| && b == Standing(rows, k);
      }
    }
    if forall b <- Standings(rows) :: b.1 >= 0 {
      forall k | 0 <= k < |rows|
        ensures StandingAt(rows, rows[k].date, k) >= 0
      {
        assert Standing(rows, k) in Standings(rows);
      }
    }
  }
}
