/**
 * Uploading an investment file: allocate, reject for a missing rate or an oversell, else persist,
 * against a running balance per instrument.
 */
module InvestmentImports {
  import opened Sequences
  import opened StableSorting
  import opened Fingerprints
  import opened Occurrences
  import opened FxMath
  import opened Holdings

  // A stored transaction; `fp` is None for a manual row, which takes part in no dedup.
  datatype Row = Row(instrument: int, date: int, txn: Txn, fp: Option<string>, occurrence: int)

  // A validated file row, its instrument resolved and its payload hashed. Its rate is not known yet.
  datatype FileRow = FileRow(instrument: int, date: int, txn: Txn, fp: string)

  type Key = (int, string)

  function KeyOf(r: FileRow): Key {
    (r.instrument, r.fp)
  }

  function Keys(file: seq<FileRow>): seq<Key> {
    seq(|file|, i requires 0 <= i < |file| => KeyOf(file[i]))
  }

  function Copies(file: seq<FileRow>, key: Key): nat {
    multiset(Keys(file))[key]
  }

  predicate Carries(r: Row, key: Key) {
    r.instrument == key.0 && r.fp == Some(key.1)
  }

  function CountKey(rows: seq<Row>, key: Key): nat {
    if rows == [] then 0 else CountKey(Init(rows), key) + if Carries(Last(rows), key) then 1 else 0
  }

  function MaxOccurrence(rows: seq<Row>, key: Key): (m: int)
    ensures m >= -1
  {
    if rows == [] then -1
    else
      var m := MaxOccurrence(Init(rows), key);
      if Carries(Last(rows), key) && Last(rows).occurrence > m then Last(rows).occurrence else m
  }

  function KnownFor(rows: seq<Row>, key: Key): Known {
    Known(CountKey(rows, key), MaxOccurrence(rows, key))
  }

  /** One instrument's rows, in the order of the whole. */
  function Own(rows: seq<Row>, instrument: int): seq<Row> {
    if rows == [] then []
    else if Last(rows).instrument == instrument then Own(Init(rows), instrument) + [Last(rows)]
    else Own(Init(rows), instrument)
  }

  function Txns(rows: seq<Row>): (ts: seq<Txn>)
    ensures |ts| == |rows| && forall i :: 0 <= i < |rows| ==> ts[i] == rows[i].txn
  {
    seq(|rows|, i requires 0 <= i < |rows| => rows[i].txn)
  }

  /** The guard's balance: available_units over the stored rows. */
  function Held(rows: seq<Row>, instrument: int): int {
    NetUnits(Txns(Own(rows, instrument)))
  }

  // ----- the fate of each row of a file -----

  datatype Fate = Duplicate | NoRate | Oversell | Stored(row: Row)

  /** `rates` is what the FX lookup answers for each row during this upload. */
  function FateOf(store: seq<Row>, file: seq<FileRow>, rates: seq<Option<int>>, i: nat): Fate
    requires i < |file| == |rates|
    decreases i, 1
  {
    var r := file[i];
    match Ordinal(KnownFor(store, KeyOf(r)), Copies(file[..i + 1], KeyOf(r)))
    case None => Duplicate
    case Some(occurrence) =>
      if rates[i].None? then NoRate
      else if UnitSign(r.txn.kind) < 0 && r.txn.units > Held(store + Persisted(store, file, rates, i),
          r.instrument) then Oversell
      else Stored(Row(r.instrument, r.date, r.txn.(fxRate := rates[i].value), Some(r.fp), occurrence))
  }

  /** The rows the first `n` file rows add to the store. */
  function Persisted(store: seq<Row>, file: seq<FileRow>, rates: seq<Option<int>>, n: nat): seq<Row>
    requires n <= |file| == |rates|
    decreases n, 0
  {
    if n == 0 then []
    else
      var before := Persisted(store, file, rates, n - 1);
      match FateOf(store, file, rates, n - 1)
      case Stored(row) => before + [row]
      case _ => before
  }

  function Rejected(store: seq<Row>, file: seq<FileRow>, rates: seq<Option<int>>, n: nat): nat
    requires n <= |file| == |rates|
  {
    if n == 0 then 0
    else
      Rejected(store, file, rates, n - 1)
      + match FateOf(store, file, rates, n - 1)
        case NoRate | Oversell => 1
        case _ => 0
  }

  function Upload(store: seq<Row>, file: seq<FileRow>, rates: seq<Option<int>>): seq<Row>
    requires |file| == |rates|
  {
    store + Persisted(store, file, rates, |file|)
  }

  // ----- the running balance -----

  lemma {:induction false} OwnSplit(a: seq<Row>, b: seq<Row>, instrument: int)
    ensures Own(a + b, instrument) == Own(a, instrument) + Own(b, instrument)
  {
    if b == [] {
      assert a + b == a;
    } else {
      assert Init(a + b) == a + Init(b);
      OwnSplit(a, Init(b), instrument);
    }
  }

  lemma HeldStep(rows: seq<Row>, row: Row, instrument: int)
    ensures Held(rows + [row], instrument) ==
            Held(rows, instrument) + if row.instrument == instrument then SignedUnits(row.txn) else 0
  {
    assert Init(rows + [row]) == rows;
    if row.instrument == instrument {
      var ts := Txns(Own(rows + [row], instrument));
      assert Init(ts) == Txns(Own(rows, instrument)) && Last(ts) == row.txn;
    }
  }

  /** An upload never takes a balance below zero, row by row in file order. */
  lemma {:induction false} BalancesStayNonNegative(store: seq<Row>, file: seq<FileRow>, rates: seq<Option<int>>,
      n: nat, instrument: int)
    requires n <= |file| == |rates| && Held(store, instrument) >= 0
    ensures Held(store + Persisted(store, file, rates, n), instrument) >= 0
  {
    if n == 0 {
      assert store + [] == store;
    } else {
      BalancesStayNonNegative(store, file, rates, n - 1, instrument);
      var before := Persisted(store, file, rates, n - 1);
      if FateOf(store, file, rates, n - 1).Stored? {
        var row := FateOf(store, file, rates, n - 1).row;
        assert store + (before + [row]) == (store + before) + [row];
        HeldStep(store + before, row, instrument);
      }
    }
  }

  // ----- copies per key -----

  lemma CopiesStep(file: seq<FileRow>, n: nat)
    requires 0 < n <= |file|
    ensures forall key :: Copies(file[..n], key) == Copies(file[..n - 1], key) + if KeyOf(file[n - 1]) == key
            then 1 else 0
  {
    assert Keys(file[..n]) == Keys(file[..n - 1]) + [KeyOf(file[n - 1])];
  }

  function Surplus(store: seq<Row>, file: seq<FileRow>, key: Key): nat {
    if Copies(file, key) <= CountKey(store, key) then 0 else Copies(file, key) - CountKey(store, key)
  }

  lemma FateStep(store: seq<Row>, file: seq<FileRow>, rates: seq<Option<int>>, n: nat, key: Key)
    requires 0 < n <= |file| == |rates|
    ensures var fate, own := FateOf(store, file, rates, n - 1), KeyOf(file[n - 1]);
            && (fate.Duplicate? <==> Copies(file[..n], own) <= CountKey(store, own))
            && CountKey(Persisted(store, file, rates, n), key)
               == CountKey(Persisted(store, file, rates, n - 1), key) + if fate.Stored? && own == key then 1 else 0
  {
    hide Held;
    var before, after := Persisted(store, file, rates, n - 1), Persisted(store, file, rates, n);
    if FateOf(store, file, rates, n - 1).Stored? {
      assert Init(after) == before;
    }
  }

  /** Whatever is rejected, an upload adds at most a key's surplus, and all of it when nothing is rejected. */
  lemma {:induction false} PersistsAtMostSurplus(store: seq<Row>, file: seq<FileRow>, rates: seq<Option<int>>,
      n: nat, key: Key)
    requires n <= |file| == |rates|
    ensures CountKey(Persisted(store, file, rates, n), key) <= Surplus(store, file[..n], key)
    ensures Rejected(store, file, rates, n) == 0 ==>
              CountKey(Persisted(store, file, rates, n), key) == Surplus(store, file[..n], key)
  {
    hide FateOf;
    if n == 0 {
      assert Keys(file[..0]) == [];
    } else {
      PersistsAtMostSurplus(store, file, rates, n - 1, key);
      CopiesStep(file, n);
      FateStep(store, file, rates, n, key);
    }
  }

  lemma {:induction false} CountKeySplit(a: seq<Row>, b: seq<Row>, key: Key)
    ensures CountKey(a + b, key) == CountKey(a, key) + CountKey(b, key)
  {
    if b == [] {
      assert a + b == a;
    } else {
      assert Init(a + b) == a + Init(b);
      CountKeySplit(a, Init(b), key);
    }
  }

  function Max(a: nat, b: nat): nat {
    if a < b then b else a
  }

  lemma UploadCounts(store: seq<Row>, file: seq<FileRow>, rates: seq<Option<int>>, key: Key)
    requires |file| == |rates|
    ensures CountKey(store, key) <= CountKey(Upload(store, file, rates), key)
            <= Max(CountKey(store, key), Copies(file, key))
    ensures Rejected(store, file, rates, |file|) == 0 ==>
              CountKey(Upload(store, file, rates), key) == Max(CountKey(store, key), Copies(file, key))
  {
    PersistsAtMostSurplus(store, file, rates, |file|, key);
    CountKeySplit(store, Persisted(store, file, rates, |file|), key);
    assert file[..|file|] == file;
  }

  // ----- many uploads of one file -----

  // What persists between uploads: the rows, and whether a batch for this file's hash is completed.
  datatype State = State(rows: seq<Row>, completed: bool)

  /** A completed batch short-circuits; otherwise the file is processed and completes when nothing is rejected. */
  function UploadFile(s: State, file: seq<FileRow>, rates: seq<Option<int>>): State
    requires |file| == |rates|
  {
    if s.completed then s
    else State(Upload(s.rows, file, rates), Rejected(s.rows, file, rates, |file|) == 0)
  }

  function Uploads(s: State, file: seq<FileRow>, tries: seq<seq<Option<int>>>): State
    requires forall rates <- tries :: |rates| == |file|
  {
    if tries == [] then s
    else
      InitLast(tries);
      UploadFile(Uploads(s, file, Init(tries)), file, Last(tries))
  }

  /**
   * Over any number of uploads of one file, whatever each of them rejects, copies per key never
   * pass the larger of what was there and what the file holds; a completed batch means they reached it.
   */
  lemma {:induction false} UploadsConverge(rows: seq<Row>, file: seq<FileRow>, tries: seq<seq<Option<int>>>, key: Key)
    requires forall rates <- tries :: |rates| == |file|
    ensures var after := Uploads(State(rows, false), file, tries);
            && CountKey(rows, key) <= CountKey(after.rows, key) <= Max(CountKey(rows, key), Copies(file, key))
            && (after.completed ==> CountKey(after.rows, key) == Max(CountKey(rows, key), Copies(file, key)))
  {
    if tries != [] {
      InitLast(tries);
      UploadsConverge(rows, file, Init(tries), key);
      var s := Uploads(State(rows, false), file, Init(tries));
      if !s.completed {
        UploadCounts(s.rows, file, Last(tries), key);
      }
    }
  }

  lemma {:induction false} AccountedForPersistsNothing(store: seq<Row>, file: seq<FileRow>, rates: seq<Option<int>>,
      n: nat)
    requires n <= |file| == |rates|
    requires forall key :: Copies(file, key) <= CountKey(store, key)
    ensures Persisted(store, file, rates, n) == [] && Rejected(store, file, rates, n) == 0
  {
    hide FateOf, Held, Copies, CountKey;
    if n > 0 {
      var key := KeyOf(file[n - 1]);
      AccountedForPersistsNothing(store, file, rates, n - 1);
      FateStep(store, file, rates, n, key);
      CopiesOfPrefix(file, n, key);
    }
  }

  lemma CopiesOfPrefix(file: seq<FileRow>, n: nat, key: Key)
    requires n <= |file|
    ensures Copies(file[..n], key) <= Copies(file, key)
  {
    assert Keys(file) == Keys(file[..n]) + Keys(file[n..]);
  }

  /** The hash short-circuit skips nothing: reprocessing a completed file under any rates changes no row. */
  lemma ShortCircuitIsSound(rows: seq<Row>, file: seq<FileRow>, tries: seq<seq<Option<int>>>, rates: seq<Option<int>>)
    requires |rates| == |file| && forall t <- tries :: |t| == |file|
    requires Uploads(State(rows, false), file, tries).completed
    ensures var after := Uploads(State(rows, false), file, tries);
            Upload(after.rows, file, rates) == after.rows && Rejected(after.rows, file, rates, |file|) == 0
  {
    var after := Uploads(State(rows, false), file, tries);
    forall key
      ensures Copies(file, key) <= CountKey(after.rows, key)
    {
      UploadsConverge(rows, file, tries, key);
    }
    AccountedForPersistsNothing(after.rows, file, rates, |file|);
  }

  // ----- the short-circuit after other writes -----

  /** Processing a file adds and rejects nothing exactly when no key is stored less often than the file holds it. */
  lemma ProcessingIsIdleIff(store: seq<Row>, file: seq<FileRow>, rates: seq<Option<int>>)
    requires |file| == |rates|
    ensures Upload(store, file, rates) == store && Rejected(store, file, rates, |file|) == 0
            <==> forall key :: Copies(file, key) <= CountKey(store, key)
  {
    hide FateOf, Persisted, Rejected, Copies, CountKey;
    if forall key :: Copies(file, key) <= CountKey(store, key) {
      AccountedForPersistsNothing(store, file, rates, |file|);
    } else {
      var key :| Copies(file, key) > CountKey(store, key);
      UploadCounts(store, file, rates, key);
    }
  }

  // What else a user does to the rows: uploads of this file or another, manual entries, deletes.
  datatype Event =
    | Again(rates: seq<Option<int>>)
    | Other(file: seq<FileRow>, rates: seq<Option<int>>)
    | Post(instrument: int, date: int, txn: Txn)
    | Delete(index: nat)

  predicate Fits(file: seq<FileRow>, e: Event) {
    match e
    case Again(rates) => |rates| == |file|
    case Other(other, rates) => |rates| == |other|
    case _ => true
  }

  /** A manual entry carries no fingerprint and is refused when it oversells. */
  function Posted(rows: seq<Row>, instrument: int, date: int, txn: Txn): seq<Row> {
    if UnitSign(txn.kind) < 0 && txn.units > Held(rows, instrument) then rows
    else rows + [Row(instrument, date, txn, None, 0)]
  }

  function Deleted(rows: seq<Row>, i: nat): seq<Row> {
    if i < |rows| then rows[..i] + rows[i + 1..] else rows
  }

  function After(s: State, file: seq<FileRow>, e: Event): State
    requires Fits(file, e)
  {
    match e
    case Again(rates) => UploadFile(s, file, rates)
    case Other(other, rates) => s.(rows := Upload(s.rows, other, rates))
    case Post(instrument, date, txn) => s.(rows := Posted(s.rows, instrument, date, txn))
    case Delete(i) => s.(rows := Deleted(s.rows, i))
  }

  function Course(s: State, file: seq<FileRow>, events: seq<Event>): State
    requires forall e <- events :: Fits(file, e)
  {
    if events == [] then s
    else
      InitLast(events);
      After(Course(s, file, Init(events)), file, Last(events))
  }

  /** Whatever is deleted was entered by hand. */
  predicate SparesUploads(s: State, file: seq<FileRow>, events: seq<Event>)
    requires forall e <- events :: Fits(file, e)
  {
    events == []
    || (InitLast(events);
        var before, e := Course(s, file, Init(events)).rows, Last(events);
        SparesUploads(s, file, Init(events)) && (e.Delete? && e.index < |before| ==> before[e.index].fp.None?))
  }

  lemma DeletedKeepsCount(rows: seq<Row>, i: nat, key: Key)
    requires i < |rows| ==> rows[i].fp.None?
    ensures CountKey(Deleted(rows, i), key) == CountKey(rows, key)
  {
    if i < |rows| {
      var left, row, right := rows[..i], rows[i], rows[i + 1..];
      assert rows == left + [row] + right && Init(left + [row]) == left;
      CountKeySplit(left + [row], right, key);
      CountKeySplit(left, right, key);
    }
  }

  lemma {:induction false} CourseKeepsCompletion(s: State, file: seq<FileRow>, events: seq<Event>)
    requires s.completed && forall e <- events :: Fits(file, e)
    ensures Course(s, file, events).completed
  {
    if events != [] {
      InitLast(events);
      CourseKeepsCompletion(s, file, Init(events));
    }
  }

  lemma SparedStep(s: State, file: seq<FileRow>, e: Event, key: Key)
    requires s.completed && Fits(file, e) && (e.Delete? && e.index < |s.rows| ==> s.rows[e.index].fp.None?)
    ensures CountKey(s.rows, key) <= CountKey(After(s, file, e).rows, key)
  {
    hide FateOf, Persisted, Rejected, Held, Copies, CountKey;
    match e
    case Again(_) =>
    case Other(other, rates) => UploadCounts(s.rows, other, rates, key);
    case Post(instrument, date, txn) => CountKeySplit(s.rows, [Row(instrument, date, txn, None, 0)], key);
    case Delete(i) => DeletedKeepsCount(s.rows, i, key);
  }

  lemma {:induction false} SparedCounts(s: State, file: seq<FileRow>, events: seq<Event>, key: Key)
    requires s.completed && (forall e <- events :: Fits(file, e)) && SparesUploads(s, file, events)
    ensures CountKey(s.rows, key) <= CountKey(Course(s, file, events).rows, key)
  {
    hide After, CountKey, Fits;
    if events != [] {
      InitLast(events);
      assert Last(events) in events;
      SparedCounts(s, file, Init(events), key);
      CourseKeepsCompletion(s, file, Init(events));
      SparedStep(Course(s, file, Init(events)), file, Last(events), key);
    }
  }

  /**
   * Once a file has completed, uploading it again changes nothing whatever happened since. Processing it would
   * change something if and only if some key is by then stored less often than the file holds it, which takes a
   * delete of an uploaded row.
   */
  lemma ShortCircuitLosesIff(s: State, file: seq<FileRow>, first: seq<Option<int>>, later: seq<Event>,
      rates: seq<Option<int>>)
    requires |first| == |rates| == |file| && forall e <- later :: Fits(file, e)
    requires !s.completed && UploadFile(s, file, first).completed
    ensures var done := Course(UploadFile(s, file, first), file, later);
            && UploadFile(done, file, rates) == done
            && (Upload(done.rows, file, rates) == done.rows && Rejected(done.rows, file, rates, |file|) == 0
                <==> forall key :: Copies(file, key) <= CountKey(done.rows, key))
            && (SparesUploads(UploadFile(s, file, first), file, later) ==>
                  forall key :: Copies(file, key) <= CountKey(done.rows, key))
  {
    hide FateOf, Persisted, Rejected, Copies, CountKey, Course, SparesUploads;
    var completed := UploadFile(s, file, first);
    var done := Course(completed, file, later);
    CourseKeepsCompletion(completed, file, later);
    ProcessingIsIdleIff(done.rows, file, rates);
    if SparesUploads(completed, file, later) {
      forall key
        ensures Copies(file, key) <= CountKey(done.rows, key)
      {
        UploadCounts(s.rows, file, first, key);
        SparedCounts(completed, file, later, key);
      }
    }
  }

  /** A row uploaded and deleted stays away: its file is skipped, though processing it would store the row again. */
  lemma DeletedRowIsNotRestaged(r: FileRow, rate: int)
    requires UnitSign(r.txn.kind) >= 0
    ensures var file, rates := [r], [Some(rate)];
            var completed := UploadFile(State([], false), file, rates);
            var done := Course(completed, file, [Delete(0)]);
            && |completed.rows| == 1 && completed.completed && done.rows == []
            && UploadFile(done, file, rates) == done && |Upload(done.rows, file, rates)| == 1
  {
    var row := Row(r.instrument, r.date, r.txn.(fxRate := rate), Some(r.fp), 0);
    var completed := State([row], true);
    OneRowFile([], r, Some(rate), row);
    hide FateOf, Persisted, Rejected, Upload;
    assert [] + [row] == [row];
    assert [row][..0] + [row][1..] == [];
    assert Init([Delete(0)]) == [] && Last([Delete(0)]) == Delete(0);
    assert Course(completed, [r], []) == completed;
  }

  // ----- the unique index -----

  predicate Clash(a: Row, b: Row) {
    a.instrument == b.instrument && a.fp.Some? && a.fp == b.fp && a.occurrence == b.occurrence
  }

  ghost predicate IndexHolds(rows: seq<Row>) {
    forall i, j :: 0 <= i < j < |rows| ==> !Clash(rows[i], rows[j])
  }

  lemma {:induction false} MaxOccurrenceBounds(rows: seq<Row>, key: Key)
    ensures forall r <- rows :: Carries(r, key) ==> r.occurrence <= MaxOccurrence(rows, key)
  {
    if rows != [] {
      InitLast(rows);
      MaxOccurrenceBounds(Init(rows), key);
    }
  }

  ghost predicate IssuedBy(store: seq<Row>, sofar: seq<FileRow>, r: Row) {
    && r.fp.Some?
    && var key := (r.instrument, r.fp.value);
       MaxOccurrence(store, key) < r.occurrence <= MaxOccurrence(store, key) + Copies(sofar, key) - CountKey(store, key)
  }

  lemma {:induction false} PersistedOrdinals(store: seq<Row>, file: seq<FileRow>, rates: seq<Option<int>>, n: nat)
    requires n <= |file| == |rates|
    ensures forall r <- Persisted(store, file, rates, n) :: IssuedBy(store, file[..n], r)
    ensures IndexHolds(Persisted(store, file, rates, n))
  {
    if n > 0 {
      PersistedOrdinals(store, file, rates, n - 1);
      CopiesStep(file, n);
      var before, after := Persisted(store, file, rates, n - 1), Persisted(store, file, rates, n);
      forall r | r in before
        ensures IssuedBy(store, file[..n], r)
      {
        assert IssuedBy(store, file[..n - 1], r);
      }
      if FateOf(store, file, rates, n - 1).Stored? {
        var row := FateOf(store, file, rates, n - 1).row;
        assert after == before + [row];
        forall r | r in before
          ensures !Clash(r, row)
        {
          assert IssuedBy(store, file[..n - 1], r);
        }
        assert forall i :: 0 <= i < |before| ==> before[i] in before;
      }
    }
  }

  /** Gaps left by rejected rows notwithstanding, no upload ever trips the unique index. */
  lemma UploadKeepsIndex(store: seq<Row>, file: seq<FileRow>, rates: seq<Option<int>>)
    requires |file| == |rates| && IndexHolds(store)
    ensures IndexHolds(Upload(store, file, rates))
  {
    var added := Persisted(store, file, rates, |file|);
    PersistedOrdinals(store, file, rates, |file|);
    forall i, j | 0 <= i < |store| && 0 <= j < |added|
      ensures !Clash(store[i], added[j])
    {
      assert added[j] in added && IssuedBy(store, file[..|file|], added[j]);
      MaxOccurrenceBounds(store, (added[j].instrument, added[j].fp.value));
    }
  }

  // ----- the guard against the replay -----

  const EARLIER: (Row, Row) -> bool := (a: Row, b: Row) => a.date < b.date

  /** One instrument's transactions as the read-model replays them: by date, ties in stored order. */
  function ReplayOrder(rows: seq<Row>, instrument: int): seq<Txn> {
    Txns(StableSort(Own(rows, instrument), EARLIER))
  }

  lemma TxnsSplit(a: seq<Row>, b: seq<Row>)
    ensures Txns(a + b) == Txns(a) + Txns(b)
  {
  }

  lemma NetStep(rows: seq<Row>, row: Row)
    ensures NetUnits(Txns(rows + [row])) == NetUnits(Txns(rows)) + SignedUnits(row.txn)
  {
    var ts := Txns(rows + [row]);
    assert Init(ts) == Txns(rows) && Last(ts) == row.txn;
  }

  lemma {:induction false} InsertKeepsNet(rows: seq<Row>, row: Row)
    ensures NetUnits(Txns(Insert(rows, row, EARLIER))) == NetUnits(Txns(rows)) + SignedUnits(row.txn)
  {
    if rows == [] || !EARLIER(row, Last(rows)) {
      NetStep(rows, row);
    } else {
      InsertKeepsNet(Init(rows), row);
      NetStep(Insert(Init(rows), row, EARLIER), Last(rows));
      NetStep(Init(rows), Last(rows));
      InitLast(rows);
    }
  }

  lemma {:induction false} SortKeepsNet(rows: seq<Row>)
    ensures NetUnits(Txns(StableSort(rows, EARLIER))) == NetUnits(Txns(rows))
  {
    if rows != [] {
      SortKeepsNet(Init(rows));
      InsertKeepsNet(StableSort(Init(rows), EARLIER), Last(rows));
      NetStep(Init(rows), Last(rows));
      InitLast(rows);
    }
  }

  lemma HeldAfter(store: seq<Row>, added: seq<Row>, instrument: int)
    ensures Held(store + added, instrument) == Held(store, instrument) + NetUnits(Txns(Own(added, instrument)))
  {
    OwnSplit(store, added, instrument);
    TxnsSplit(Own(store, instrument), Own(added, instrument));
    NetUnitsSplit(Txns(Own(store, instrument)), Txns(Own(added, instrument)));
  }

  ghost predicate PrefixesCovered(held: int, rows: seq<Row>) {
    forall k :: 0 <= k <= |rows| ==> held + NetUnits(Txns(rows[..k])) >= 0
  }

  lemma PrefixesExtend(held: int, rows: seq<Row>, row: Row)
    requires PrefixesCovered(held, rows) && held + NetUnits(Txns(rows + [row])) >= 0
    ensures PrefixesCovered(held, rows + [row])
  {
    var all := rows + [row];
    forall k | 0 <= k <= |all|
      ensures held + NetUnits(Txns(all[..k])) >= 0
    {
      assert all[..k] == if k <= |rows| then rows[..k] else all;
    }
  }

  /** Added to what is already held, every prefix of an instrument's new rows stays non-negative. */
  lemma {:induction false} NewRowsNeverOversell(store: seq<Row>, file: seq<FileRow>, rates: seq<Option<int>>, n: nat,
      instrument: int)
    requires n <= |file| == |rates| && Held(store, instrument) >= 0
    ensures PrefixesCovered(Held(store, instrument), Own(Persisted(store, file, rates, n), instrument))
  {
    if n > 0 {
      NewRowsNeverOversell(store, file, rates, n - 1, instrument);
      BalancesStayNonNegative(store, file, rates, n, instrument);
      var before, after := Persisted(store, file, rates, n - 1), Persisted(store, file, rates, n);
      HeldAfter(store, after, instrument);
      if after != before {
        assert Init(after) == before;
        if Last(after).instrument == instrument {
          PrefixesExtend(Held(store, instrument), Own(before, instrument), Last(after));
        }
      }
    }
  }

  lemma NeverOversellsSplit(stored: seq<Txn>, added: seq<Row>)
    requires NeverOversells(stored) && PrefixesCovered(NetUnits(stored), added)
    ensures NeverOversells(stored + Txns(added))
  {
    var all := stored + Txns(added);
    forall i | 0 <= i <= |all|
      ensures NetUnits(all[..i]) >= 0
    {
      if i <= |stored| {
        assert all[..i] == stored[..i];
      } else {
        var k := i - |stored|;
        assert all[..i] == stored + Txns(added[..k]);
        NetUnitsSplit(stored, Txns(added[..k]));
      }
    }
  }

  /**
   * When the stored history never oversells and the persisted rows all fall behind it in (date, id)
   * order, the guard's file-order check is enough: the replay never clamps.
   */
  lemma InOrderUploadNeverClamps(store: seq<Row>, file: seq<FileRow>, rates: seq<Option<int>>, instrument: int)
    requires |file| == |rates| && NeverOversells(ReplayOrder(store, instrument))
    requires InOrder(Own(Persisted(store, file, rates, |file|), instrument), EARLIER)
    requires forall old' <- Own(store, instrument), new' <- Own(Persisted(store, file, rates, |file|), instrument) ::
               !EARLIER(new', old')
    ensures NeverOversells(ReplayOrder(Upload(store, file, rates), instrument))
    ensures Unmatched(ReplayOrder(Upload(store, file, rates), instrument)) == 0
  {
    var own, added := Own(store, instrument), Own(Persisted(store, file, rates, |file|), instrument);
    var stored := ReplayOrder(store, instrument);
    OwnSplit(store, Persisted(store, file, rates, |file|), instrument);
    SortAppend(own, added, EARLIER);
    TxnsSplit(StableSort(own, EARLIER), added);
    SortKeepsNet(own);
    assert stored[..|stored|] == stored;
    NewRowsNeverOversell(store, file, rates, |file|, instrument);
    NeverOversellsSplit(stored, added);
    ReplayAgreesWithGuard(ReplayOrder(Upload(store, file, rates), instrument));
  }

  /** What a caller can check first: the instrument's rows are dated in file order, none before a stored one. */
  ghost predicate DatedInOrder(store: seq<Row>, file: seq<FileRow>, instrument: int) {
    && (forall i, j :: 0 <= i < j < |file| && file[i].instrument == file[j].instrument == instrument ==>
          file[i].date <= file[j].date)
    && (forall s <- store, r <- file :: s.instrument == r.instrument == instrument ==> s.date <= r.date)
  }

  ghost predicate DatedBy(file: seq<FileRow>, n: nat, instrument: int, date: int)
    requires n <= |file|
  {
    exists i :: 0 <= i < n && file[i].instrument == instrument && file[i].date == date
  }

  lemma {:induction false} OwnRows(rows: seq<Row>, instrument: int)
    ensures forall r <- Own(rows, instrument) :: r in rows && r.instrument == instrument
  {
    if rows != [] {
      InitLast(rows);
      OwnRows(Init(rows), instrument);
    }
  }

  /** The accepted rows are dated as rows of the file, in its order. */
  lemma {:induction false} PersistedDates(store: seq<Row>, file: seq<FileRow>, rates: seq<Option<int>>, n: nat,
      instrument: int)
    requires n <= |file| == |rates| && DatedInOrder(store, file, instrument)
    ensures var added := Own(Persisted(store, file, rates, n), instrument);
            InOrder(added, EARLIER) && forall r <- added :: DatedBy(file, n, instrument, r.date)
  {
    hide FateOf, Held;
    if n > 0 {
      PersistedDates(store, file, rates, n - 1, instrument);
      var before, after := Persisted(store, file, rates, n - 1), Persisted(store, file, rates, n);
      assert forall date :: DatedBy(file, n - 1, instrument, date) ==> DatedBy(file, n, instrument, date);
      if after != before && Last(after).instrument == instrument {
        assert Init(after) == before;
        StoredAsDated(store, file, rates, n - 1);
        var own := Own(before, instrument);
        forall r | r in own
          ensures r.date <= Last(after).date
        {
          assert DatedBy(file, n - 1, instrument, r.date);
        }
        SnocInOrder(own, Last(after));
      }
    }
  }

  lemma StoredAsDated(store: seq<Row>, file: seq<FileRow>, rates: seq<Option<int>>, i: nat)
    requires i < |file| == |rates| && FateOf(store, file, rates, i).Stored?
    ensures var row := FateOf(store, file, rates, i).row;
            row.instrument == file[i].instrument && row.date == file[i].date
  {
  }

  lemma SnocInOrder(rows: seq<Row>, row: Row)
    requires InOrder(rows, EARLIER) && forall r <- rows :: r.date <= row.date
    ensures InOrder(rows + [row], EARLIER)
  {
  }

  /**
   * On a sound stored history a file whose rows of the instrument are in date order, none dated before a stored
   * row, never makes the replay clamp, whatever is rejected.
   */
  lemma DatedUploadNeverClamps(store: seq<Row>, file: seq<FileRow>, rates: seq<Option<int>>, instrument: int)
    requires |file| == |rates| && NeverOversells(ReplayOrder(store, instrument))
    requires DatedInOrder(store, file, instrument)
    ensures Unmatched(ReplayOrder(Upload(store, file, rates), instrument)) == 0
  {
    hide Persisted, Upload, ReplayOrder, NeverOversells, InOrder;
    var own, added := Own(store, instrument), Own(Persisted(store, file, rates, |file|), instrument);
    PersistedDates(store, file, rates, |file|, instrument);
    OwnRows(store, instrument);
    forall before, after | before in own && after in added
      ensures !EARLIER(after, before)
    {
      assert DatedBy(file, |file|, instrument, after.date);
      var i :| 0 <= i < |file| && file[i].instrument == instrument && file[i].date == after.date;
      assert before in store && file[i] in file;
    }
    InOrderUploadNeverClamps(store, file, rates, instrument);
  }

  /** In general the replay clamps after an upload exactly when a prefix in replay order goes negative. */
  lemma ReplayKeepsGuardBalance(rows: seq<Row>, instrument: int)
    ensures Units(Replay(ReplayOrder(rows, instrument))) >= Held(rows, instrument)
    ensures Units(Replay(ReplayOrder(rows, instrument))) == Held(rows, instrument)
            <==> NeverOversells(ReplayOrder(rows, instrument))
  {
    SortKeepsNet(Own(rows, instrument));
    ReplayAgreesWithGuard(ReplayOrder(rows, instrument));
  }

  /** A back-dated sell passes the guard, which looks at today's total, and still clamps in the replay. */
  lemma BackDatedSellClamps(units: nat, fp: string)
    requires units > 0
    ensures var buy := Row(1, 20, Txn(Buy, units, 100, 0, RATE_ONE), None, 0);
            var sell := FileRow(1, 10, Txn(Sell, units, 100, 0, RATE_ONE), fp);
            var after := Upload([buy], [sell], [Some(RATE_ONE)]);
            && Rejected([buy], [sell], [Some(RATE_ONE)], 1) == 0 && |after| == 2
            && Held(after, 1) == 0 && Units(Replay(ReplayOrder(after, 1))) == units
  {
    var buy := Row(1, 20, Txn(Buy, units, 100, 0, RATE_ONE), None, 0);
    var sell := FileRow(1, 10, Txn(Sell, units, 100, 0, RATE_ONE), fp);
    var stored := Row(1, 10, sell.txn, Some(fp), 0);
    OneRowStore(buy);
    OneRowFile([buy], sell, Some(RATE_ONE), stored);
    HeldStep([buy], stored, 1);
    ReplayDependsOnOrder(buy.txn, stored.txn);
    ReplayTwo(buy, stored);
  }

  lemma OneRowStore(row: Row)
    ensures Own([row], row.instrument) == [row] && Held([row], row.instrument) == SignedUnits(row.txn)
    ensures row.fp.None? ==> forall key: Key :: KnownFor([row], key) == UNKNOWN
  {
    assert Init([row]) == [] && Last([row]) == row && [] + [row] == [row];
    forall key: Key | row.fp.None?
      ensures KnownFor([row], key) == UNKNOWN
    {
      assert CountKey(Init([row]), key) == 0 && MaxOccurrence(Init([row]), key) == -1;
    }
    HeldStep([], row, row.instrument);
  }

  lemma OneRowFile(store: seq<Row>, r: FileRow, rate: Option<int>, row: Row)
    requires KnownFor(store, KeyOf(r)) == UNKNOWN && rate.Some?
    requires UnitSign(r.txn.kind) < 0 ==> r.txn.units <= Held(store, r.instrument)
    requires row == Row(r.instrument, r.date, r.txn.(fxRate := rate.value), Some(r.fp), 0)
    ensures Upload(store, [r], [rate]) == store + [row] && Rejected(store, [r], [rate], 1) == 0
  {
    assert [r][..1] == [r] && Keys([r]) == [KeyOf(r)] && store + [] == store;
    assert Persisted(store, [r], [rate], 0) == [];
    assert FateOf(store, [r], [rate], 0) == Stored(row);
    assert Persisted(store, [r], [rate], 1) == [row];
  }

  lemma SortTwo(a: Row, b: Row)
    requires EARLIER(b, a)
    ensures StableSort([a, b], EARLIER) == [b, a]
  {
    assert Init([a, b]) == [a] && Init([a]) == [];
    assert StableSort([a], EARLIER) == [a];
    assert Insert([a], b, EARLIER) == Insert([], b, EARLIER) + [a];
  }

  lemma ReplayTwo(a: Row, b: Row)
    requires EARLIER(b, a) && a.instrument == b.instrument
    ensures ReplayOrder([a] + [b], a.instrument) == [b.txn, a.txn]
  {
    hide StableSort;
    assert Init([a, b]) == [a] && Init([a]) == [];
    assert Own([a], a.instrument) == [a];
    assert Own([a, b], a.instrument) == [a, b] == [a] + [b];
    SortTwo(a, b);
  }

  // ----- the importer -----

  /** The running balances are what available_units would answer right now. */
  ghost predicate Balanced(running: map<int, int>, rows: seq<Row>) {
    forall instrument <- running :: running[instrument] == Held(rows, instrument)
  }

  function SeedRunning(rows: seq<Row>, file: seq<FileRow>): (running: map<int, int>)
    ensures Balanced(running, rows) && forall r <- file :: r.instrument in running
  {
    map r | r in file :: r.instrument := Held(rows, r.instrument)
  }

  class InvestmentTable {
    var rows: seq<Row>
    var completed: set<string>  // hashes of the files whose batch completed

    constructor ()
      ensures rows == [] && completed == {}
    {
      rows, completed := [], {};
    }

    /** One row of the file; `running` moves only when the row is stored. */
    method PersistRow(ghost store: seq<Row>, file: seq<FileRow>, rates: seq<Option<int>>, i: nat,
                      allocator: OccurrenceAllocator<Key>, running: map<int, int>)
      returns (fate: Fate, running': map<int, int>)
      requires i < |file| == |rates| && file[i].instrument in running
      requires allocator.Valid() && allocator.requests == Keys(file[..i])
      requires Lookup(allocator.existing, KeyOf(file[i])) == KnownFor(store, KeyOf(file[i]))
      requires rows == store + Persisted(store, file, rates, i) && Balanced(running, rows)
      modifies this`rows, allocator
      ensures allocator.Valid() && allocator.requests == Keys(file[..i + 1])
      ensures fate == FateOf(store, file, rates, i)
      ensures rows == store + Persisted(store, file, rates, i + 1) && Balanced(running', rows)
      ensures running'.Keys == running.Keys && |rows| == |old(rows)| + if fate.Stored? then 1 else 0
    {
      hide Held;
      var r := file[i];
      running' := running;
      assert Keys(file[..i + 1]) == Keys(file[..i]) + [KeyOf(r)];
      var occurrence := allocator.Allocate(KeyOf(r));
      if occurrence.None? {
        fate := Duplicate;
      } else if rates[i].None? {
        fate := NoRate;
      } else if UnitSign(r.txn.kind) < 0 && r.txn.units > running[r.instrument] {
        fate := Oversell;
      } else {
        var row := Row(r.instrument, r.date, r.txn.(fxRate := rates[i].value), Some(r.fp), occurrence.value);
        fate := Stored(row);
        forall instrument | instrument in running {
          HeldStep(rows, row, instrument);
        }
        rows := rows + [row];
        running' := running[r.instrument := running[r.instrument] + SignedUnits(r.txn)];
      }
    }

    /** `existing` is the grouped prefetch over the file's instruments. */
    method PersistTxns(file: seq<FileRow>, rates: seq<Option<int>>, existing: map<Key, Known>)
      returns (imported: nat, skipped: nat, rejected: nat)
      requires |file| == |rates|
      requires forall r <- file :: Lookup(existing, KeyOf(r)) == KnownFor(rows, KeyOf(r))
      modifies this`rows
      ensures rows == Upload(old(rows), file, rates)
      ensures rejected == Rejected(old(rows), file, rates, |file|) && imported + skipped + rejected == |file|
      ensures |rows| == |old(rows)| + imported
    {
      hide FateOf, Held, Balanced;
      imported, skipped, rejected := 0, 0, 0;
      ghost var store := rows;
      var allocator := new OccurrenceAllocator<Key>(existing);
      var running := SeedRunning(rows, file);
      assert rows + [] == rows && Keys(file[..0]) == [];
      for i := 0 to |file|
        invariant allocator.Valid() && fresh(allocator) && allocator.requests == Keys(file[..i])
        invariant rows == store + Persisted(store, file, rates, i) && Balanced(running, rows)
        invariant forall r <- file :: r.instrument in running
        invariant rejected == Rejected(store, file, rates, i) && imported + skipped + rejected == i
        invariant |rows| == |store| + imported
      {
        assert file[i] in file;
        var fate;
        fate, running := PersistRow(store, file, rates, i, allocator, running);
        if fate.Duplicate? {
          skipped := skipped + 1;
        } else if fate.Stored? {
          imported := imported + 1;
        } else {
          rejected := rejected + 1;
        }
      }
    }

    /** The whole upload: short-circuit on a completed batch, else persist and complete if nothing was rejected. */
    method PersistInvestmentRows(hash: string, file: seq<FileRow>, rates: seq<Option<int>>, existing: map<Key, Known>)
      returns (imported: nat, skipped: nat, rejected: nat, alreadyImported: bool)
      requires |file| == |rates|
      requires forall r <- file :: Lookup(existing, KeyOf(r)) == KnownFor(rows, KeyOf(r))
      modifies this
      ensures State(rows, hash in completed) == UploadFile(State(old(rows), hash in old(completed)), file, rates)
      ensures completed == old(completed) + if hash in completed then {hash} else {}
      ensures alreadyImported <==> hash in old(completed)
      ensures imported == |rows| - |old(rows)|
      ensures rejected == if alreadyImported then 0 else Rejected(old(rows), file, rates, |file|)
      ensures imported + skipped + rejected == if alreadyImported then 0 else |file|
    {
      alreadyImported := hash in completed;
      imported, skipped, rejected := 0, 0, 0;
      if !alreadyImported {
        imported, skipped, rejected := PersistTxns(file, rates, existing);
        if rejected == 0 {
          completed := completed + {hash};
        }
      }
    }
  }
}
