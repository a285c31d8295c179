/**
 * One user's transactions under imports, restores, identity edits, deletes and manual posts.
 * Everything here is about the stored rows as a value; StatementImports carries the same steps out
 * on a mutable store.
 */
module Dedup {
  import opened Sequences
  import opened Fingerprints
  import opened Occurrences

  // `fp` says what the row says now, `origin` which source line produced it (None: no source line).
  datatype Row = Row(identity: Identity, fp: string, origin: Option<string>, occurrence: int)

  /** The dedup key counts are taken on: the source line, else the row's own current fingerprint. */
  function SourceKey(r: Row): string {
    if r.origin.Some? then r.origin.value else r.fp
  }

  function CountKey(rows: seq<Row>, key: string): nat {
    if rows == [] then 0 else CountKey(Init(rows), key) + if SourceKey(Last(rows)) == key then 1 else 0
  }

  /** The largest occurrence among rows whose *current* fingerprint is fp, or -1. */
  function MaxOccurrence(rows: seq<Row>, fp: string): (m: int)
    ensures m >= -1
  {
    if rows == [] then -1
    else
      var m := MaxOccurrence(Init(rows), fp);
      if Last(rows).fp == fp && Last(rows).occurrence > m then Last(rows).occurrence else m
  }

  function KnownFor(rows: seq<Row>, fp: string): Known {
    Known(CountKey(rows, fp), MaxOccurrence(rows, fp))
  }

  // ----- the table's unique constraint -----

  /** The declared key: account, fingerprint, occurrence (the user is fixed). */
  predicate Collide(a: Row, b: Row) {
    a.identity.account == b.identity.account && a.fp == b.fp && a.occurrence == b.occurrence
  }

  ghost predicate KeyHolds(rows: seq<Row>) {
    forall i, j :: 0 <= i < j < |rows| ==> !Collide(rows[i], rows[j])
  }

  predicate IsNormal(id: Identity) {
    NormalizeMerchant(id.merchant) == id.merchant
  }

  predicate Fingerprinted(line: Parsed) {
    line.fp == TransactionFingerprint(line.identity) && IsNormal(line.identity)
  }

  /** Every stored fingerprint is that of the row's own columns, merchants being normalised. */
  predicate Faithful(r: Row) {
    Fingerprinted(Parsed(r.identity, r.fp)) && r.occurrence >= 0
  }

  ghost predicate Consistent(rows: seq<Row>) {
    KeyHolds(rows) && forall r <- rows :: Faithful(r)
  }

  // ----- staging a file -----

  // What an importer's first pass keeps of a line: its identity and the fingerprint computed from it.
  datatype Parsed = Parsed(identity: Identity, fp: string)

  function Keys(lines: seq<Parsed>): seq<string> {
    seq(|lines|, i requires 0 <= i < |lines| => lines[i].fp)
  }

  function Wanted(lines: seq<Parsed>, fp: string): nat {
    multiset(Keys(lines))[fp]
  }

  /** The rows an importer adds to `rows` for `lines`; only statements stamp an origin. */
  function Staged(rows: seq<Row>, lines: seq<Parsed>, stamp: bool): seq<Row> {
    if lines == [] then []
    else
      var line := Last(lines);
      var before := Staged(rows, Init(lines), stamp);
      match Ordinal(KnownFor(rows, line.fp), Wanted(lines, line.fp))
      case None => before
      case Some(occurrence) => before + [StagedAs(line, occurrence, stamp)]
  }

  function StagedAs(line: Parsed, occurrence: int, stamp: bool): Row {
    Row(line.identity, line.fp, if stamp then Some(line.fp) else None, occurrence)
  }

  lemma WantedStep(lines: seq<Parsed>)
    requires lines != []
    ensures forall fp :: Wanted(lines, fp) == Wanted(Init(lines), fp) + if Last(lines).fp == fp then 1 else 0
  {
    assert Keys(lines) == Keys(Init(lines)) + [Last(lines).fp];
  }

  lemma {:induction false} CountKeySplit(a: seq<Row>, b: seq<Row>, key: string)
    ensures CountKey(a + b, key) == CountKey(a, key) + CountKey(b, key)
  {
    if b == [] {
      assert a + b == a;
    } else {
      assert Init(a + b) == a + Init(b);
      CountKeySplit(a, Init(b), key);
    }
  }

  lemma {:induction false} MaxOccurrenceBounds(rows: seq<Row>, fp: string)
    ensures forall r <- rows :: r.fp == fp ==> r.occurrence <= MaxOccurrence(rows, fp)
  {
    if rows != [] {
      MaxOccurrenceBounds(Init(rows), fp);
      assert rows == Init(rows) + [Last(rows)];
    }
  }

  /** Per fingerprint a file stages exactly its surplus over the rows already accounted for. */
  lemma {:induction false} StagesSurplus(rows: seq<Row>, lines: seq<Parsed>, stamp: bool, fp: string)
    ensures CountKey(Staged(rows, lines, stamp), fp) ==
            if Wanted(lines, fp) <= CountKey(rows, fp) then 0 else Wanted(lines, fp) - CountKey(rows, fp)
  {
    if lines != [] {
      StagesSurplus(rows, Init(lines), stamp, fp);
      WantedStep(lines);
      var staged := Staged(rows, lines, stamp);
      if staged != Staged(rows, Init(lines), stamp) {
        assert Init(staged) == Staged(rows, Init(lines), stamp);
      }
    }
  }

  /** After an import each source line is stored as often as before or as often as in the file, whichever is more. */
  lemma ImportReachesMaximum(rows: seq<Row>, lines: seq<Parsed>, stamp: bool, fp: string)
    ensures CountKey(rows + Staged(rows, lines, stamp), fp) ==
            if Wanted(lines, fp) <= CountKey(rows, fp) then CountKey(rows, fp) else Wanted(lines, fp)
  {
    StagesSurplus(rows, lines, stamp, fp);
    CountKeySplit(rows, Staged(rows, lines, stamp), fp);
  }

  /** What is known of a staged row: its ordinal lies above everything stored and was issued by its own request. */
  ghost predicate StagedRow(rows: seq<Row>, lines: seq<Parsed>, r: Row) {
    && Parsed(r.identity, r.fp) in lines
    && MaxOccurrence(rows, r.fp) < r.occurrence
       <= MaxOccurrence(rows, r.fp) + Wanted(lines, r.fp) - CountKey(rows, r.fp)
  }

  lemma {:induction false} StagedOrdinalsAreFree(rows: seq<Row>, lines: seq<Parsed>, stamp: bool)
    requires forall line <- lines :: Fingerprinted(line)
    ensures forall r <- Staged(rows, lines, stamp) :: StagedRow(rows, lines, r) && Faithful(r)
    ensures KeyHolds(Staged(rows, lines, stamp))
  {
    hide Fingerprinted;
    if lines != [] {
      assert lines == Init(lines) + [Last(lines)];
      var before, staged := Staged(rows, Init(lines), stamp), Staged(rows, lines, stamp);
      StagedOrdinalsAreFree(rows, Init(lines), stamp);
      WantedStep(lines);
      forall r | r in before
        ensures StagedRow(rows, lines, r)
      {
        assert StagedRow(rows, Init(lines), r);
      }
      if staged != before {
        var added := Last(staged);
        assert staged == before + [added];
        assert StagedRow(rows, lines, added);
        forall r | r in before
          ensures !Collide(r, added)
        {
          assert StagedRow(rows, Init(lines), r);
        }
        assert forall i :: 0 <= i < |before| ==> before[i] in before;
      }
    }
  }

  /** No ordinal an import hands out is occupied, whatever gaps deletes and edits have left. */
  lemma ImportKeepsConsistent(rows: seq<Row>, lines: seq<Parsed>, stamp: bool)
    requires Consistent(rows) && forall line <- lines :: Fingerprinted(line)
    ensures Consistent(rows + Staged(rows, lines, stamp))
  {
    var staged := Staged(rows, lines, stamp);
    StagedOrdinalsAreFree(rows, lines, stamp);
    forall i, j | 0 <= i < |rows| && 0 <= j < |staged|
      ensures !Collide(rows[i], staged[j])
    {
      MaxOccurrenceBounds(rows, staged[j].fp);
      assert rows[i] in rows && staged[j] in staged;
    }
  }

  // ----- the steps a user's table goes through -----

  // A parsed statement line, its merchant as printed.
  datatype Line = Line(date: Date, amountPaise: int, merchantRaw: string)

  datatype Step =
    | ImportStatement(account: int, file: seq<Line>)
    | RestoreBackup(backup: seq<Identity>)
    | Edit(index: nat, identity: Identity)
    | Delete(index: nat)
    | Post(identity: Identity)

  function Normalized(id: Identity): Identity {
    id.(merchant := NormalizeMerchant(id.merchant))
  }

  function ParsedFrom(raw: Identity): Parsed {
    Parsed(Normalized(raw), TransactionFingerprint(Normalized(raw)))
  }

  lemma ParsedIsFingerprinted(raw: Identity)
    ensures Fingerprinted(ParsedFrom(raw))
  {
    NormalizeIdempotent(raw.merchant);
  }

  /** What the first pass keeps of a statement: every line but the zero-paise ones, in file order. */
  function StatementLines(account: int, file: seq<Line>): seq<Parsed> {
    if file == [] then []
    else
      var line, before := Last(file), StatementLines(account, Init(file));
      if line.amountPaise == 0 then before
      else before + [ParsedFrom(Identity(line.date, line.amountPaise, line.merchantRaw, account))]
  }

  function BackupLines(backup: seq<Identity>): seq<Parsed> {
    seq(|backup|, i requires 0 <= i < |backup| => ParsedFrom(backup[i]))
  }

  /** An edit asks for occurrence 0 when the fingerprint moves and never touches the origin. */
  function Edited(r: Row, to: Parsed): Row {
    if to.fp == r.fp then r.(identity := to.identity) else Row(to.identity, to.fp, r.origin, 0)
  }

  predicate Refused(rows: seq<Row>, r: Row, except: int) {
    exists j :: 0 <= j < |rows| && j != except && Collide(rows[j], r)
  }

  function Apply(rows: seq<Row>, step: Step): seq<Row> {
    match step
    case ImportStatement(account, file) => rows + Staged(rows, StatementLines(account, file), true)
    case RestoreBackup(file) => rows + Staged(rows, BackupLines(file), false)
    case Edit(i, id) =>
      if i >= |rows| then rows
      else
        var r := Edited(rows[i], ParsedFrom(id));
        if Refused(rows, r, i) then rows else rows[i := r]
    case Delete(i) => if i >= |rows| then rows else rows[..i] + rows[i + 1..]
    case Post(id) =>
      var r := StagedAs(ParsedFrom(id), 0, false);
      if Refused(rows, r, -1) then rows else rows + [r]
  }

  function Run(rows: seq<Row>, steps: seq<Step>): seq<Row> {
    if steps == [] then rows else Apply(Run(rows, Init(steps)), Last(steps))
  }

  lemma {:induction false} StatementLinesNormalized(account: int, file: seq<Line>)
    ensures forall line <- StatementLines(account, file) :: Fingerprinted(line) && line.identity.account == account
  {
    if file != [] {
      StatementLinesNormalized(account, Init(file));
      ParsedIsFingerprinted(Identity(Last(file).date, Last(file).amountPaise, Last(file).merchantRaw, account));
    }
  }

  function NonZero(file: seq<Line>): (kept: seq<Line>)
    ensures forall line <- kept :: line in file && line.amountPaise != 0
  {
    if file == [] then []
    else
      InitLast(file);
      if Last(file).amountPaise == 0 then NonZero(Init(file)) else NonZero(Init(file)) + [Last(file)]
  }

  /** A zero-paise line is never stored; every other line is asked for once, in file order. */
  lemma {:induction false} StatementLinesAreNonZero(account: int, file: seq<Line>)
    ensures var lines, kept := StatementLines(account, file), NonZero(file);
            && |lines| == |kept|
            && (forall i :: 0 <= i < |kept| ==>
                  lines[i] == ParsedFrom(Identity(kept[i].date, kept[i].amountPaise, kept[i].merchantRaw, account)))
            && forall line <- lines :: line.identity.amountPaise != 0
  {
    hide TransactionFingerprint, NormalizeMerchant;
    if file != [] {
      StatementLinesAreNonZero(account, Init(file));
    }
  }

  lemma EditKeepsConsistent(rows: seq<Row>, i: nat, r: Row)
    requires Consistent(rows) && i < |rows| && Faithful(r) && !Refused(rows, r, i)
    ensures Consistent(rows[i := r])
  {
    var after := rows[i := r];
    forall a, b | 0 <= a < b < |after|
      ensures !Collide(after[a], after[b])
    {
      assert a == i ==> after[b] == rows[b];
      assert b == i ==> after[a] == rows[a];
    }
  }

  lemma DeleteKeepsConsistent(rows: seq<Row>, i: nat)
    requires Consistent(rows) && i < |rows|
    ensures Consistent(rows[..i] + rows[i + 1..])
  {
    var after := rows[..i] + rows[i + 1..];
    assert forall k :: 0 <= k < |after| ==> after[k] == rows[if k < i then k else k + 1];
  }

  lemma PostKeepsConsistent(rows: seq<Row>, r: Row)
    requires Consistent(rows) && Faithful(r) && !Refused(rows, r, -1)
    ensures Consistent(rows + [r])
  {
  }

  lemma BackupLinesNormalized(backup: seq<Identity>)
    ensures forall line <- BackupLines(backup) :: Fingerprinted(line)
  {
    forall i | 0 <= i < |backup|
      ensures Fingerprinted(BackupLines(backup)[i])
    {
      ParsedIsFingerprinted(backup[i]);
    }
  }

  lemma ApplyKeepsConsistent(rows: seq<Row>, step: Step)
    requires Consistent(rows)
    ensures Consistent(Apply(rows, step))
  {
    match step
    case ImportStatement(account, file) =>
      StatementLinesNormalized(account, file);
      ImportKeepsConsistent(rows, StatementLines(account, file), true);
    case RestoreBackup(backup) =>
      BackupLinesNormalized(backup);
      ImportKeepsConsistent(rows, BackupLines(backup), false);
    case Edit(i, id) =>
      ParsedIsFingerprinted(id);
      if i < |rows| && !Refused(rows, Edited(rows[i], ParsedFrom(id)), i) {
        assert rows[i] in rows;
        EditKeepsConsistent(rows, i, Edited(rows[i], ParsedFrom(id)));
      }
    case Delete(i) =>
      if i < |rows| {
        DeleteKeepsConsistent(rows, i);
      }
    case Post(id) =>
      ParsedIsFingerprinted(id);
      var r := StagedAs(ParsedFrom(id), 0, false);
      if !Refused(rows, r, -1) {
        PostKeepsConsistent(rows, r);
      }
  }

  /**
   * In every run of imports, restores, edits, deletes and posts no two rows share (fingerprint,
   * occurrence), even though the declared key also names the account.
   */
  lemma {:induction false} RunKeepsConsistent(rows: seq<Row>, steps: seq<Step>)
    requires Consistent(rows)
    ensures Consistent(Run(rows, steps))
    ensures var after := Run(rows, steps);
            forall i, j :: 0 <= i < j < |after| ==>
              after[i].fp != after[j].fp || after[i].occurrence != after[j].occurrence
  {
    if steps != [] {
      RunKeepsConsistent(rows, Init(steps));
      ApplyKeepsConsistent(Run(rows, Init(steps)), Last(steps));
    }
    var after := Run(rows, steps);
    forall i, j | 0 <= i < j < |after| && after[i].fp == after[j].fp
      ensures after[i].identity.account == after[j].identity.account
    {
      assert Faithful(after[i]) && Faithful(after[j]);
      NormalizedMerchantHasNoSeparator(after[i].identity.merchant);
      NormalizedMerchantHasNoSeparator(after[j].identity.merchant);
      FingerprintInjective(after[i].identity, after[j].identity);
    }
  }

  // ----- what an edit and a post do, in the rows' own columns -----

  lemma SameKeyIff(a: Row, b: Row)
    requires Faithful(a) && Faithful(b)
    ensures Collide(a, b) <==> a.identity == b.identity && a.occurrence == b.occurrence
  {
    hide TransactionFingerprint;
    if a.identity != b.identity {
      FingerprintsDiffer(a.identity, b.identity);
    }
  }

  /** Another row has taken the identity's first place. */
  predicate Taken(rows: seq<Row>, id: Identity, except: int) {
    exists j :: 0 <= j < |rows| && j != except && rows[j].identity == id && rows[j].occurrence == 0
  }

  lemma RefusedIff(rows: seq<Row>, r: Row, except: int)
    requires (forall row <- rows :: Faithful(row)) && Faithful(r) && r.occurrence == 0
    ensures Refused(rows, r, except) <==> Taken(rows, r.identity, except)
  {
    hide Faithful;
    forall j | 0 <= j < |rows|
      ensures Collide(rows[j], r) <==> rows[j].identity == r.identity && rows[j].occurrence == 0
    {
      assert rows[j] in rows;
      SameKeyIff(rows[j], r);
    }
    hide Collide;
    if j :| 0 <= j < |rows| && j != except && Collide(rows[j], r) {
      assert rows[j].identity == r.identity;
    }
    if j :| 0 <= j < |rows| && j != except && rows[j].identity == r.identity && rows[j].occurrence == 0 {
      assert Collide(rows[j], r);
    }
  }

  /**
   * An edit is refused exactly when it moves the row to an identity whose first place another row has, and then
   * changes nothing. Otherwise the row says the new identity, in its old place when that is what it said before and
   * in the first place when not; the source line it came from and every other row stay.
   */
  lemma EditOutcome(rows: seq<Row>, i: nat, id: Identity)
    requires Consistent(rows) && i < |rows|
    ensures var after, to, was := Apply(rows, Edit(i, id)), Normalized(id), rows[i];
            after == if to != was.identity && Taken(rows, to, i) then rows
                     else rows[i := Row(to, TransactionFingerprint(to), was.origin,
                                        if to == was.identity then was.occurrence else 0)]
  {
    hide TransactionFingerprint, NormalizeMerchant;
    var to, was := Normalized(id), rows[i];
    assert was in rows && Faithful(was);
    ParsedIsFingerprinted(id);
    var r := Edited(was, ParsedFrom(id));
    if to != was.identity {
      FingerprintsDiffer(to, was.identity);
      RefusedIff(rows, r, i);
    } else {
      assert rows[i := r] == rows && !Refused(rows, r, i);
    }
  }

  /** A manual post is refused exactly when the first place is taken; what it adds came from no source line. */
  lemma PostOutcome(rows: seq<Row>, id: Identity)
    requires Consistent(rows)
    ensures var to := Normalized(id);
            Apply(rows, Post(id))
            == if Taken(rows, to, -1) then rows else rows + [Row(to, TransactionFingerprint(to), None, 0)]
  {
    hide TransactionFingerprint, NormalizeMerchant;
    ParsedIsFingerprinted(id);
    RefusedIff(rows, StagedAs(ParsedFrom(id), 0, false), -1);
  }

  /** A delete takes out the one row and moves those behind it up. */
  lemma DeleteOutcome(rows: seq<Row>, i: nat)
    ensures var after := Apply(rows, Delete(i));
            if i >= |rows| then after == rows
            else |after| == |rows| - 1 && forall j :: 0 <= j < |after| ==> after[j] == rows[if j < i then j else j + 1]
  {
  }

  // ----- what a statement adds -----

  /** The identity of the source line a row came from or, where it has none, its own. */
  predicate ComesFrom(r: Row, id: Identity) {
    IsNormal(id) && SourceKey(r) == TransactionFingerprint(id)
  }

  /** A line says what an identity says: date, amount, account and the words of the merchant in any spelling. */
  predicate Says(account: int, line: Line, id: Identity) {
    && id.date == line.date && id.amountPaise == line.amountPaise && id.account == account
    && Words(Lower(id.merchant)) == Words(Lower(line.merchantRaw))
  }

  function RawIdentity(account: int, line: Line): Identity {
    Identity(line.date, line.amountPaise, line.merchantRaw, account)
  }

  lemma ParsedSays(account: int, line: Line, id: Identity)
    requires IsNormal(id)
    ensures var parsed := ParsedFrom(RawIdentity(account, line));
            && Says(account, line, parsed.identity) && (id == parsed.identity <==> Says(account, line, id))
            && (TransactionFingerprint(id) == parsed.fp <==> Says(account, line, id))
  {
    var parsed := ParsedFrom(RawIdentity(account, line));
    hide TransactionFingerprint, Words, Lower;
    SameMerchantIff(id.merchant, line.merchantRaw);
    NormalizedWords(line.merchantRaw);
    NormalizeIdempotent(line.merchantRaw);
    SameMerchantIff(parsed.identity.merchant, line.merchantRaw);
    if id != parsed.identity {
      FingerprintsDiffer(id, parsed.identity);
    }
  }

  lemma {:induction false} UnsaidIsUncounted(rows: seq<Row>, account: int, line: Line)
    requires forall r <- rows, id: Identity :: ComesFrom(r, id) ==> !Says(account, line, id)
    ensures CountKey(rows, ParsedFrom(RawIdentity(account, line)).fp) == 0
  {
    hide ParsedFrom, Says;
    if rows != [] {
      InitLast(rows);
      UnsaidIsUncounted(Init(rows), account, line);
      var parsed := ParsedFrom(RawIdentity(account, line));
      ParsedIsFingerprinted(RawIdentity(account, line));
      assert ComesFrom(Last(rows), parsed.identity) <==> SourceKey(Last(rows)) == parsed.fp;
      ParsedSays(account, line, parsed.identity);
    }
  }

  lemma {:induction false} LineIsParsed(account: int, file: seq<Line>, line: Line)
    requires line in file && line.amountPaise != 0
    ensures ParsedFrom(RawIdentity(account, line)) in StatementLines(account, file)
  {
    hide ParsedFrom;
    InitLast(file);
    if line != Last(file) {
      LineIsParsed(account, Init(file), line);
    }
  }

  lemma AskedFor(lines: seq<Parsed>, line: Parsed)
    requires line in lines
    ensures Wanted(lines, line.fp) >= 1
  {
    var i :| 0 <= i < |lines| && lines[i] == line;
    assert Keys(lines)[i] == line.fp;
    assert line.fp in Keys(lines);
  }

  lemma {:induction false} CountedIsThere(rows: seq<Row>, key: string) returns (r: Row)
    requires CountKey(rows, key) >= 1
    ensures r in rows && SourceKey(r) == key
  {
    InitLast(rows);
    if SourceKey(Last(rows)) == key {
      r := Last(rows);
    } else {
      r := CountedIsThere(Init(rows), key);
    }
  }

  lemma {:induction false} StampedWithOwn(rows: seq<Row>, lines: seq<Parsed>)
    ensures forall r <- Staged(rows, lines, true) :: r.origin == Some(r.fp)
  {
    if lines != [] {
      StampedWithOwn(rows, Init(lines));
    }
  }

  /**
   * No transaction is lost: a non-zero line whose date, amount, account or merchant's words no stored source line
   * shares is among the rows an import adds, saying what the line says.
   */
  lemma NewLineIsStored(rows: seq<Row>, account: int, file: seq<Line>, line: Line)
    requires line in file && line.amountPaise != 0
    requires forall r <- rows, id: Identity :: ComesFrom(r, id) ==> !Says(account, line, id)
    ensures var after := Apply(rows, ImportStatement(account, file));
            && rows <= after
            && exists r <- after[|rows|..] ::
                 Says(account, line, r.identity) && r.fp == TransactionFingerprint(r.identity) && r.origin == Some(r.fp)
  {
    hide TransactionFingerprint, Words, Lower, NormalizeMerchant, Staged, StatementLines, CountKey, Wanted, Says,
         StagedRow;
    var lines, parsed := StatementLines(account, file), ParsedFrom(RawIdentity(account, line));
    var staged := Staged(rows, lines, true);
    LineIsParsed(account, file, line);
    AskedFor(lines, parsed);
    UnsaidIsUncounted(rows, account, line);
    StagesSurplus(rows, lines, true, parsed.fp);
    var r := CountedIsThere(staged, parsed.fp);
    StatementLinesNormalized(account, file);
    StagedOrdinalsAreFree(rows, lines, true);
    StampedWithOwn(rows, lines);
    assert Faithful(r);
    ParsedSays(account, line, r.identity);
    assert Apply(rows, ImportStatement(account, file))[|rows|..] == staged;
  }

  lemma OneLineFile(account: int, line: Line)
    requires line.amountPaise != 0
    ensures StatementLines(account, [line]) == [ParsedFrom(RawIdentity(account, line))]
  {
    assert Init([line]) == [] && Last([line]) == line;
  }

  /**
   * Two one-line statements of one account: the second adds its line exactly when date, amount or the merchant's
   * words differ.
   */
  lemma SecondStatementAddsIff(account: int, a: Line, b: Line)
    requires a.amountPaise != 0 && b.amountPaise != 0
    ensures var once := Apply([], ImportStatement(account, [a]));
            var same := a.date == b.date && a.amountPaise == b.amountPaise
                        && Words(Lower(a.merchantRaw)) == Words(Lower(b.merchantRaw));
            && |once| == 1
            && |Apply(once, ImportStatement(account, [b]))| == if same then 1 else 2
  {
    hide TransactionFingerprint, Words, Lower, NormalizeMerchant;
    var p, q := ParsedFrom(RawIdentity(account, a)), ParsedFrom(RawIdentity(account, b));
    OneLineFile(account, a);
    OneLineFile(account, b);
    StageOne([], p, true);
    var row := StagedAs(p, 0, true);
    assert [] + [row] == [row] && Init([row]) == [] && Last([row]) == row;
    ParsedIsFingerprinted(RawIdentity(account, a));
    ParsedSays(account, a, p.identity);
    ParsedSays(account, b, p.identity);
    if p.fp == q.fp {
      StageNone([row], q, true);
    } else {
      StageOne([row], q, true);
    }
  }

  lemma StageNone(rows: seq<Row>, line: Parsed, stamp: bool)
    requires CountKey(rows, line.fp) >= 1
    ensures Staged(rows, [line], stamp) == []
  {
    assert Init([line]) == [] && Keys([line]) == [line.fp];
    assert Wanted([line], line.fp) == 1;
  }

  // ----- re-uploading a statement -----

  /** Steps that leave every source line accounted for: anything but deletes and edits of rows with no origin. */
  predicate KeepsLines(rows: seq<Row>, step: Step) {
    match step
    case Edit(i, _) => i < |rows| ==> rows[i].origin.Some?
    case Delete(i) => i >= |rows|
    case _ => true
  }

  predicate RunKeepsLines(rows: seq<Row>, steps: seq<Step>) {
    steps == [] || (RunKeepsLines(rows, Init(steps)) && KeepsLines(Run(rows, Init(steps)), Last(steps)))
  }

  lemma ReplaceKeepsCount(rows: seq<Row>, i: nat, r: Row, key: string)
    requires i < |rows| && SourceKey(r) == SourceKey(rows[i])
    ensures CountKey(rows[i := r], key) == CountKey(rows, key)
  {
    var left, right := rows[..i], rows[i + 1..];
    assert rows == left + [rows[i]] + right && rows[i := r] == left + [r] + right;
    CountKeySplit(left + [rows[i]], right, key);
    CountKeySplit(left + [r], right, key);
    assert Init(left + [rows[i]]) == left && Init(left + [r]) == left;
  }

  lemma KeepsLinesKeepsCount(rows: seq<Row>, step: Step, key: string)
    requires KeepsLines(rows, step)
    ensures CountKey(rows, key) <= CountKey(Apply(rows, step), key)
  {
    match step
    case ImportStatement(account, file) => CountKeySplit(rows, Staged(rows, StatementLines(account, file), true), key);
    case RestoreBackup(file) => CountKeySplit(rows, Staged(rows, BackupLines(file), false), key);
    case Edit(i, id) =>
      if i < |rows| {
        ReplaceKeepsCount(rows, i, Edited(rows[i], ParsedFrom(id)), key);
      }
    case Delete(i) =>
    case Post(id) =>
      CountKeySplit(rows, [StagedAs(ParsedFrom(id), 0, false)], key);
  }

  lemma {:induction false} RunKeepsLinesKeepsCount(rows: seq<Row>, steps: seq<Step>, key: string)
    requires RunKeepsLines(rows, steps)
    ensures CountKey(rows, key) <= CountKey(Run(rows, steps), key)
  {
    if steps != [] {
      RunKeepsLinesKeepsCount(rows, Init(steps), key);
      KeepsLinesKeepsCount(Run(rows, Init(steps)), Last(steps), key);
    }
  }

  /** No fingerprint is asked for by more lines than there are rows counted for it. */
  ghost predicate AccountsFor(rows: seq<Row>, lines: seq<Parsed>) {
    forall fp :: Wanted(lines, fp) <= CountKey(rows, fp)
  }

  /** A file stages nothing exactly when the store already accounts for every one of its lines. */
  lemma {:induction false} StagesNothing(rows: seq<Row>, lines: seq<Parsed>, stamp: bool)
    ensures Staged(rows, lines, stamp) == [] <==> forall fp :: Wanted(lines, fp) <= CountKey(rows, fp)
  {
    if lines == [] {
      assert Keys(lines) == [];
    } else {
      var fp := Last(lines).fp;
      StagesNothing(rows, Init(lines), stamp);
      WantedStep(lines);
      if Wanted(lines, fp) <= CountKey(rows, fp) {
        forall other
          ensures Wanted(lines, other) <= CountKey(rows, other) <==> Wanted(Init(lines), other) <= CountKey(rows, other)
        {
        }
      }
    }
  }

  /** Re-uploading a statement after any edits of imported rows, posts and other imports stages nothing. */
  lemma ReuploadStagesNothing(rows: seq<Row>, account: int, file: seq<Line>, steps: seq<Step>)
    requires RunKeepsLines(Apply(rows, ImportStatement(account, file)), steps)
    ensures var after := Run(Apply(rows, ImportStatement(account, file)), steps);
            Apply(after, ImportStatement(account, file)) == after
  {
    var lines := StatementLines(account, file);
    var first := Apply(rows, ImportStatement(account, file));
    var after := Run(first, steps);
    forall fp
      ensures Wanted(lines, fp) <= CountKey(after, fp)
    {
      ImportReachesMaximum(rows, lines, true, fp);
      RunKeepsLinesKeepsCount(first, steps, fp);
    }
    StagesNothing(after, lines, true);
    assert after + [] == after;
  }

  // ----- re-importing one's own backup -----

  function CountFp(rows: seq<Row>, fp: string): nat {
    if rows == [] then 0 else CountFp(Init(rows), fp) + if Last(rows).fp == fp then 1 else 0
  }

  function ParsedRows(rows: seq<Row>): seq<Parsed> {
    seq(|rows|, i requires 0 <= i < |rows| => Parsed(rows[i].identity, rows[i].fp))
  }

  function Identities(rows: seq<Row>): seq<Identity> {
    seq(|rows|, i requires 0 <= i < |rows| => rows[i].identity)
  }

  lemma {:induction false} ExportedKeys(exported: seq<Row>, fp: string)
    ensures Wanted(ParsedRows(exported), fp) == CountFp(exported, fp)
  {
    if exported == [] {
      assert Keys(ParsedRows(exported)) == [];
    } else {
      ExportedKeys(Init(exported), fp);
      assert Init(ParsedRows(exported)) == ParsedRows(Init(exported));
      WantedStep(ParsedRows(exported));
    }
  }

  lemma AccountedIff(rows: seq<Row>, exported: seq<Row>)
    ensures AccountsFor(rows, ParsedRows(exported)) <==> forall fp :: CountFp(exported, fp) <= CountKey(rows, fp)
  {
    var lines := ParsedRows(exported);
    hide ParsedRows;
    forall fp
      ensures Wanted(lines, fp) == CountFp(exported, fp)
    {
      ExportedKeys(exported, fp);
    }
    assert (forall fp :: Wanted(lines, fp) <= CountKey(rows, fp))
           <==> forall fp :: CountFp(exported, fp) <= CountKey(rows, fp);
    assert AccountsFor(rows, lines) <==> forall fp :: Wanted(lines, fp) <= CountKey(rows, fp);
  }

  /**
   * Asserting the stored identities themselves, account ids included, adds nothing exactly when no fingerprint
   * is read by more exported rows than there are rows whose source line it is.
   */
  lemma OwnIdentitiesAddNothing(rows: seq<Row>, exported: seq<Row>)
    requires forall r <- exported :: Faithful(r)
    ensures Apply(rows, RestoreBackup(Identities(exported))) == rows
            <==> forall fp :: CountFp(exported, fp) <= CountKey(rows, fp)
  {
    var lines := BackupLines(Identities(exported));
    assert lines == ParsedRows(exported) by {
      forall i | 0 <= i < |exported|
        ensures lines[i] == ParsedRows(exported)[i]
      {
        assert exported[i] in exported;
      }
    }
    StagesNothing(rows, lines, false);
    assert rows + Staged(rows, lines, false) == rows <==> Staged(rows, lines, false) == [];
    forall fp
      ensures Wanted(lines, fp) == CountFp(exported, fp)
    {
      ExportedKeys(exported, fp);
    }
  }

  lemma {:induction false} UnmovedRowsCounted(rows: seq<Row>, fp: string)
    requires forall r <- rows :: SourceKey(r) == r.fp
    ensures CountFp(rows, fp) == CountKey(rows, fp)
  {
    if rows != [] {
      assert rows == Init(rows) + [Last(rows)];
      UnmovedRowsCounted(Init(rows), fp);
    }
  }

  lemma ImportOneLine(line: Identity)
    requires IsNormal(line) && line.amountPaise != 0
    ensures var fp := TransactionFingerprint(line);
            Apply([], ImportStatement(line.account, [Line(line.date, line.amountPaise, line.merchant)]))
            == [Row(line, fp, Some(fp), 0)]
  {
    var file := [Line(line.date, line.amountPaise, line.merchant)];
    assert Init(file) == [] && Last(file) == file[0];
    assert StatementLines(line.account, file) == [ParsedFrom(line)];
    StageOne([], ParsedFrom(line), true);
  }

  lemma FingerprintsDiffer(a: Identity, b: Identity)
    requires IsNormal(a) && IsNormal(b) && a != b
    ensures TransactionFingerprint(a) != TransactionFingerprint(b)
  {
    NormalizedMerchantHasNoSeparator(a.merchant);
    NormalizedMerchantHasNoSeparator(b.merchant);
    if TransactionFingerprint(a) == TransactionFingerprint(b) {
      FingerprintInjective(a, b);
    }
  }

  /** One imported row corrected afterwards is enough for its own identity, asserted again, to duplicate it. */
  lemma EditedRowIsDuplicatedByOwnBackup(line: Identity, corrected: Identity)
    requires IsNormal(line) && IsNormal(corrected) && line != corrected && line.amountPaise != 0
    ensures var file := [Line(line.date, line.amountPaise, line.merchant)];
            var imported := Apply([], ImportStatement(line.account, file));
            var edited := Apply(imported, Edit(0, corrected));
            |edited| == 1 && |Apply(edited, RestoreBackup(Identities(edited)))| == 2
  {
    ImportOneLine(line);
    FingerprintsDiffer(line, corrected);
    var fp := TransactionFingerprint(line);
    var imported, edited := [Row(line, fp, Some(fp), 0)], [Row(corrected, TransactionFingerprint(corrected),
        Some(fp), 0)];
    assert Apply(imported, Edit(0, corrected)) == edited;
    assert BackupLines(Identities(edited)) == [ParsedFrom(corrected)];
    assert Init(edited) == [] && Last(edited) == edited[0];
    StageOne(edited, ParsedFrom(corrected), false);
  }

  lemma StageOne(rows: seq<Row>, line: Parsed, stamp: bool)
    requires CountKey(rows, line.fp) == 0
    ensures Staged(rows, [line], stamp) == [StagedAs(line, MaxOccurrence(rows, line.fp) + 1, stamp)]
  {
    assert Init([line]) == [] && Keys([line]) == [line.fp];
    assert Wanted([line], line.fp) == 1;
  }
}
