/**
 * The two migrations that re-key stored rows: add an occurrence, widen the unique key by it, and
 * rewrite every fingerprint row by row while the key is live. Payload fields are rendered already;
 * Fingerprints.Fields and Fingerprints.InvestmentFields are the two instances.
 */
module KeyMigration {
  import opened Sequences
  import opened Text
  import opened Fingerprints

  // `scope` is the key's leading columns: the user, and the account or instrument.
  datatype KeyedRow = KeyedRow(scope: (int, int), fields: seq<string>, fp: Option<string>, occurrence: nat)

  // A row without a fingerprint (a manual investment) takes part in no unique key.
  predicate NarrowClash(a: KeyedRow, b: KeyedRow) {
    a.scope == b.scope && a.fp.Some? && a.fp == b.fp
  }

  predicate Clash(a: KeyedRow, b: KeyedRow) {
    NarrowClash(a, b) && a.occurrence == b.occurrence
  }

  /** The four-column key. */
  ghost predicate WideKeyHolds(rows: seq<KeyedRow>) {
    forall i, j :: 0 <= i < j < |rows| ==> !Clash(rows[i], rows[j])
  }

  /** The three-column key, blind to occurrences. */
  ghost predicate NarrowKeyHolds(rows: seq<KeyedRow>) {
    forall i, j :: 0 <= i < j < |rows| ==> !NarrowClash(rows[i], rows[j])
  }

  ghost predicate Renderable(rows: seq<KeyedRow>) {
    forall i, j :: 0 <= i < |rows| && 0 <= j < |rows| ==>
      2 <= |rows[i].fields| == |rows[j].fields| && forall w <- rows[i].fields :: SEP !in w
  }

  ghost predicate KeyedBy(rows: seq<KeyedRow>, formula: seq<string> -> string) {
    forall i :: 0 <= i < |rows| && rows[i].fp.Some? ==> rows[i].fp == Some(formula(rows[i].fields))
  }

  const SEPARATED: seq<string> -> string := fields => Join(SEP, fields)
  const BARE: seq<string> -> string := fields => Concat(fields)

  function Rekeyed(row: KeyedRow, formula: seq<string> -> string): KeyedRow {
    if row.fp.Some? then row.(fp := Some(formula(row.fields))) else row
  }

  /** The table after the first `done` rows have been rewritten. */
  function Mixed(rows: seq<KeyedRow>, done: nat, formula: seq<string> -> string): (mixed: seq<KeyedRow>)
    ensures |mixed| == |rows|
  {
    seq(|rows|, i requires 0 <= i < |rows| => if i < done then Rekeyed(rows[i], formula) else rows[i])
  }

  class Table {
    var rows: seq<KeyedRow>

    /** One UPDATE by primary key; the unique key is checked as the statement runs. */
    method UpdateFingerprint(i: nat, fp: string) returns (ok: bool)
      requires i < |rows|
      modifies this
      ensures var updated := old(rows)[i := old(rows)[i].(fp := Some(fp))];
              && (ok <==> forall j :: 0 <= j < |old(rows)| && j != i ==> !Clash(old(rows)[j], updated[i]))
              && rows == if ok then updated else old(rows)
    {
      var updated := rows[i].(fp := Some(fp));
      ok := true;
      for j := 0 to |rows|
        invariant ok <==> forall k :: 0 <= k < j && k != i ==> !Clash(rows[k], updated)
      {
        if j != i && Clash(rows[j], updated) {
          ok := false;
        }
      }
      if ok {
        rows := rows[i := updated];
      }
    }

    /** Rewrites row after row and stops at the first refused statement. */
    method Recompute(formula: seq<string> -> string) returns (ok: bool)
      requires WideKeyHolds(rows)
      modifies this
      ensures ok <==> forall done :: 0 <= done <= |old(rows)| ==> WideKeyHolds(Mixed(old(rows), done, formula))
      ensures ok ==> rows == Mixed(old(rows), |old(rows)|, formula) && WideKeyHolds(rows)
    {
      ok := true;
      ghost var was := rows;
      assert Mixed(was, 0, formula) == was;
      for i := 0 to |rows|
        invariant ok && |rows| == |was| && rows == Mixed(was, i, formula)
        invariant forall done :: 0 <= done <= i ==> WideKeyHolds(Mixed(was, done, formula))
      {
        if rows[i].fp.Some? {
          ghost var next := Mixed(was, i + 1, formula);
          ghost var held := rows;
          assert next == held[i := held[i].(fp := Some(formula(held[i].fields)))];
          ok := UpdateFingerprint(i, formula(rows[i].fields));
          if !ok {
            ghost var j :| 0 <= j < |was| && j != i && Clash(held[j], next[i]);
            assert Clash(next[j], next[i]);
            assert !WideKeyHolds(next);
            return;
          }
        }
        assert rows == Mixed(was, i + 1, formula);
      }
    }

    /** Occurrence 0 everywhere, the wide key in place of the narrow one, then the separated formula. */
    method Upgrade() returns (ok: bool)
      requires NarrowKeyHolds(rows) && Renderable(rows) && KeyedBy(rows, BARE)
      modifies this
      ensures ok && rows == Upgraded(old(rows))
      ensures WideKeyHolds(rows) && KeyedBy(rows, SEPARATED)
    {
      ghost var was := rows;
      var zeroed: seq<KeyedRow> := [];
      for i := 0 to |rows|
        invariant zeroed == WithZeroOccurrence(rows)[..i]
      {
        zeroed := zeroed + [rows[i].(occurrence := 0)];
      }
      rows := zeroed;
      forall done | 0 <= done <= |rows|
        ensures WideKeyHolds(Mixed(rows, done, SEPARATED))
      {
        UpgradeKeepsKey(rows, done);
      }
      assert Mixed(rows, 0, SEPARATED) == rows;
      ok := Recompute(SEPARATED);
    }

    /** The old formula first, the narrow key second: either half may refuse. */
    method Downgrade() returns (ok: bool)
      requires WideKeyHolds(rows) && Renderable(rows) && KeyedBy(rows, SEPARATED)
      modifies this
      ensures ok <==> Reversible(old(rows))
      ensures ok ==> rows == Mixed(old(rows), |old(rows)|, BARE) && NarrowKeyHolds(rows)
    {
      ghost var was := rows;
      DowngradeOutcome(was);
      ok := Recompute(BARE);
      if ok {
        for i := 0 to |rows|
          invariant ok <==> forall a, b :: 0 <= a < b < |rows| && a < i ==> !NarrowClash(rows[a], rows[b])
        {
          for j := i + 1 to |rows|
            invariant ok <==> forall a, b :: 0 <= a < b < |rows| && (a < i || (a == i && b < j)) ==>
                    !NarrowClash(rows[a], rows[b])
          {
            if NarrowClash(rows[i], rows[j]) {
              ok := false;
            }
          }
        }
      }
    }
  }

  function WithZeroOccurrence(rows: seq<KeyedRow>): (r: seq<KeyedRow>)
    ensures |r| == |rows|
  {
    seq(|rows|, i requires 0 <= i < |rows| => rows[i].(occurrence := 0))
  }

  function Upgraded(rows: seq<KeyedRow>): seq<KeyedRow> {
    Mixed(WithZeroOccurrence(rows), |rows|, SEPARATED)
  }

  /** No two fingerprinted rows of one scope have fields that run together into the same text. */
  ghost predicate Reversible(rows: seq<KeyedRow>) {
    forall i, j :: 0 <= i < j < |rows| && rows[i].scope == rows[j].scope && rows[i].fp.Some? && rows[j].fp.Some? ==>
      Concat(rows[i].fields) != Concat(rows[j].fields)
  }

  lemma FormulasNeverMeet(a: KeyedRow, b: KeyedRow)
    requires |a.fields| >= 2 && forall w <- b.fields :: SEP !in w
    ensures Join(SEP, a.fields) != Concat(b.fields)
  {
    JoinShowsSeparator(SEP, a.fields);
    ConcatFree(SEP, b.fields);
  }

  /** At every intermediate mixture of old and new fingerprints the live key holds. */
  lemma UpgradeKeepsKey(rows: seq<KeyedRow>, done: nat)
    requires NarrowKeyHolds(rows) && Renderable(rows) && KeyedBy(rows, BARE)
    ensures WideKeyHolds(Mixed(rows, done, SEPARATED))
  {
    var mixed := Mixed(rows, done, SEPARATED);
    forall i, j | 0 <= i < j < |rows| && mixed[i].fp.Some? && mixed[j].fp.Some?
      ensures !Clash(mixed[i], mixed[j])
    {
      var a, b := rows[i], rows[j];
      FormulasNeverMeet(a, b);
      if Join(SEP, a.fields) == Join(SEP, b.fields) {
        JoinInjective(SEP, a.fields, b.fields);
      }
    }
  }

  lemma DowngradeKeepsKey(rows: seq<KeyedRow>, done: nat)
    requires WideKeyHolds(rows) && Renderable(rows) && KeyedBy(rows, SEPARATED) && Reversible(rows)
    ensures WideKeyHolds(Mixed(rows, done, BARE))
  {
    var mixed := Mixed(rows, done, BARE);
    forall i, j | 0 <= i < j < |rows| && mixed[i].fp.Some? && mixed[j].fp.Some?
      ensures !Clash(mixed[i], mixed[j])
    {
      FormulasNeverMeet(rows[j], rows[i]);
    }
  }

  /** Reversible is exactly what the recompute and the narrowing together ask for. */
  lemma DowngradeOutcome(rows: seq<KeyedRow>)
    requires WideKeyHolds(rows) && Renderable(rows) && KeyedBy(rows, SEPARATED)
    ensures Reversible(rows) <==>
              && (forall done :: 0 <= done <= |rows| ==> WideKeyHolds(Mixed(rows, done, BARE)))
              && NarrowKeyHolds(Mixed(rows, |rows|, BARE))
  {
    if Reversible(rows) {
      forall done | 0 <= done <= |rows|
        ensures WideKeyHolds(Mixed(rows, done, BARE))
      {
        DowngradeKeepsKey(rows, done);
      }
    }
    if NarrowKeyHolds(Mixed(rows, |rows|, BARE)) {
      var bare := Mixed(rows, |rows|, BARE);
      forall i, j | 0 <= i < j < |rows| && rows[i].scope == rows[j].scope && rows[i].fp.Some? && rows[j].fp.Some?
        ensures Concat(rows[i].fields) != Concat(rows[j].fields)
      {
        assert bare[i].fp == Some(Concat(rows[i].fields)) && bare[j].fp == Some(Concat(rows[j].fields));
      }
    }
  }

  /** Whatever a row's place was, the upgrade leaves it in place 0, re-keys it if it was keyed, and keeps the rest. */
  lemma UpgradedRow(rows: seq<KeyedRow>, i: nat)
    requires i < |rows|
    ensures var r, was := Upgraded(rows)[i], rows[i];
            && r.occurrence == 0 && r.scope == was.scope && r.fields == was.fields
            && r.fp == if was.fp.Some? then Some(Join(SEP, was.fields)) else None
  {
  }

  // ----- what that means for transactions -----

  /** Account rows as the transactions table holds them: the scope's second column is the account hashed. */
  ghost predicate AreTransactions(rows: seq<KeyedRow>, ids: seq<Identity>) {
    && |rows| == |ids|
    && forall i :: 0 <= i < |rows| ==> rows[i].fields == Fields(ids[i]) && rows[i].scope.1 == ids[i].account
  }

  /** What the old formula made of these two fields. */
  function AmountAndMerchant(id: Identity): string {
    IntToString(id.amountPaise) + id.merchant
  }

  predicate SameKeyed(a: KeyedRow, b: KeyedRow) {
    a.scope == b.scope && a.fp.Some? && b.fp.Some?
  }

  lemma SuffixEqual(a: string, b: string, tail: string)
    requires a + tail == b + tail
    ensures a == b
  {
    assert |a| == |b|;
    assert a == (a + tail)[..|a|] && b == (b + tail)[..|b|];
  }

  /** Of one account, two transactions run together exactly when dates and amount-then-merchant texts agree. */
  lemma RunTogetherIff(a: Identity, b: Identity)
    requires a.account == b.account
    ensures Concat(Fields(a)) == Concat(Fields(b))
            <==> a.date == b.date && AmountAndMerchant(a) == AmountAndMerchant(b)
  {
    ConcatFour(Fields(a));
    ConcatFour(Fields(b));
    var d, e, tail := IsoDate(a.date), IsoDate(b.date), IntToString(a.account);
    var x, y := AmountAndMerchant(a), AmountAndMerchant(b);
    var left, right := Concat(Fields(a)), Concat(Fields(b));
    assert left == d + (x + tail) && right == e + (y + tail);
    hide Concat, Fields, IsoDate, IntToString, AmountAndMerchant;
    if left == right {
      DatesAreAsLong(a.date, b.date);
      assert left[..|d|] == d && right[..|e|] == e && left[|d|..] == x + tail && right[|e|..] == y + tail;
      IsoDateInjective(a.date, b.date);
      SuffixEqual(x, y, tail);
    }
  }

  lemma DatesAreAsLong(a: Date, b: Date)
    ensures |IsoDate(a)| == |IsoDate(b)|
  {
  }

  /**
   * For transactions the downgrade goes through if and only if no two fingerprinted rows of one user and
   * account share the date and the text their amount and merchant run together to.
   */
  lemma TransactionsReversibleIff(rows: seq<KeyedRow>, ids: seq<Identity>)
    requires AreTransactions(rows, ids)
    ensures Reversible(rows) <==>
              forall i, j :: 0 <= i < j < |rows| && SameKeyed(rows[i], rows[j]) ==>
                ids[i].date != ids[j].date || AmountAndMerchant(ids[i]) != AmountAndMerchant(ids[j])
  {
    forall i, j | 0 <= i < j < |rows| && rows[i].scope == rows[j].scope
      ensures Concat(rows[i].fields) == Concat(rows[j].fields)
              <==> ids[i].date == ids[j].date && AmountAndMerchant(ids[i]) == AmountAndMerchant(ids[j])
    {
      RunTogetherIff(ids[i], ids[j]);
    }
    hide Concat, Fields, AmountAndMerchant;
  }

  lemma TwelveIsOneTwo()
    ensures IntToString(1) == "1" && IntToString(12) == "12"
  {
    assert NatToString(12) == NatToString(1) + [Digit(2)];
  }

  function RowOf(user: int, id: Identity): KeyedRow {
    KeyedRow((user, id.account), Fields(id), Some(Join(SEP, Fields(id))), 0)
  }

  /**
   * Different transactions are not enough to downgrade: on one day and account, 1 paisa at "2x" and 12
   * paise at "x" satisfy the new key and meet under the old formula.
   */
  lemma DistinctFieldsMayNotReverse(user: int, date: Date, account: int)
    ensures var a, b := Identity(date, 1, "2x", account), Identity(date, 12, "x", account);
            var rows := [RowOf(user, a), RowOf(user, b)];
            && Fields(a) != Fields(b) && Concat(Fields(a)) == Concat(Fields(b))
            && WideKeyHolds(rows) && Renderable(rows) && KeyedBy(rows, SEPARATED) && !Reversible(rows)
  {
    var a, b := Identity(date, 1, "2x", account), Identity(date, 12, "x", account);
    TwelveIsOneTwo();
    assert "1" + "2x" == "12" + "x";
    RunTogetherIff(a, b);
    FieldsFree(a);
    FieldsFree(b);
    assert Fields(a)[1] != Fields(b)[1];
    TwoRowsClashBare(RowOf(user, a), RowOf(user, b));
  }

  lemma TwoRowsClashBare(a: KeyedRow, b: KeyedRow)
    requires a.scope == b.scope && a.fp == Some(Join(SEP, a.fields)) && b.fp == Some(Join(SEP, b.fields))
    requires 2 <= |a.fields| == |b.fields| && (forall w <- a.fields :: SEP !in w) && forall w <- b.fields :: SEP !in w
    requires a.fields != b.fields && Concat(a.fields) == Concat(b.fields)
    ensures var rows := [a, b];
            WideKeyHolds(rows) && Renderable(rows) && KeyedBy(rows, SEPARATED) && !Reversible(rows)
  {
    var rows := [a, b];
    if Join(SEP, a.fields) == Join(SEP, b.fields) {
      JoinInjective(SEP, a.fields, b.fields);
    }
    assert !Reversible(rows) by {
      assert rows[0].scope == rows[1].scope;
    }
  }

  // ----- and for investment transactions -----

  predicate HasNoDigit(s: string) {
    forall c <- s :: !IsDigit(c)
  }

  /** Rows of one user and instrument; the kinds are the vocabulary's words, none with a digit. */
  ghost predicate AreInvestments(rows: seq<KeyedRow>, ids: seq<InvestmentIdentity>) {
    && |rows| == |ids|
    && forall i :: 0 <= i < |rows| ==>
         rows[i].fields == InvestmentFields(ids[i]) && rows[i].scope.1 == ids[i].instrument && HasNoDigit(ids[i].kind)
  }

  /** What the old formula made of the last two fields. */
  function AmountAndUnits(id: InvestmentIdentity): string {
    IntToString(id.amountPaise) + IntToString(id.unitsScaled)
  }

  lemma ConcatFive(f: seq<string>)
    requires |f| == 5
    ensures Concat(f) == f[0] + (f[1] + (f[2] + (f[3] + f[4])))
  {
    assert f[1..][0] == f[1] && f[1..][1] == f[2] && f[1..][2] == f[3] && f[1..][3] == f[4];
    ConcatFour(f[1..]);
    assert Concat(f) == f[0] + Concat(f[1..]);
  }

  lemma PrefixEqual(head: string, a: string, b: string)
    requires head + a == head + b
    ensures a == b
  {
    assert a == (head + a)[|head|..] && b == (head + b)[|head|..];
  }

  /** A word without digits ends where the number after it begins. */
  lemma {:induction false} WordThenNumber(a: string, x: string, b: string, y: string)
    requires HasNoDigit(a) && HasNoDigit(b) && x != "" && y != "" && IsDigit(x[0]) && IsDigit(y[0])
    requires a + x == b + y
    ensures a == b && x == y
  {
    assert (a + x)[0] == (b + y)[0];
    assert (a != "" ==> a[0] in a) && (b != "" ==> b[0] in b);
    if a != "" && b != "" {
      assert (a + x)[1..] == a[1..] + x && (b + y)[1..] == b[1..] + y;
      WordThenNumber(a[1..], x, b[1..], y);
      assert a == [a[0]] + a[1..] && b == [b[0]] + b[1..];
    } else {
      assert a + x == x && b + y == y;
    }
  }

  lemma NumberStartsWithDigit(n: nat)
    ensures IntToString(n) != "" && IsDigit(IntToString(n)[0])
  {
    assert IntToString(n)[0] in IntToString(n);
  }

  /** Of one instrument, two run together exactly when dates, kinds and amount-then-units texts agree. */
  lemma InvestmentsRunTogetherIff(a: InvestmentIdentity, b: InvestmentIdentity)
    requires a.instrument == b.instrument && HasNoDigit(a.kind) && HasNoDigit(b.kind)
    ensures Concat(InvestmentFields(a)) == Concat(InvestmentFields(b))
            <==> a.date == b.date && a.kind == b.kind && AmountAndUnits(a) == AmountAndUnits(b)
  {
    ConcatFive(InvestmentFields(a));
    ConcatFive(InvestmentFields(b));
    var head, d, e, x, y := IntToString(a.instrument), IsoDate(a.date), IsoDate(b.date), AmountAndUnits(a),
                            AmountAndUnits(b);
    NumberStartsWithDigit(a.amountPaise);
    NumberStartsWithDigit(b.amountPaise);
    assert IsDigit(x[0]) && IsDigit(y[0]);
    assert Concat(InvestmentFields(a)) == head + (d + (a.kind + x));
    assert Concat(InvestmentFields(b)) == head + (e + (b.kind + y));
    hide Concat, InvestmentFields, IsoDate, IntToString, AmountAndUnits, HasNoDigit;
    if head + (d + (a.kind + x)) == head + (e + (b.kind + y)) {
      PrefixEqual(head, d + (a.kind + x), e + (b.kind + y));
      DatesAreAsLong(a.date, b.date);
      assert (d + (a.kind + x))[..|d|] == d && (e + (b.kind + y))[..|e|] == e;
      IsoDateInjective(a.date, b.date);
      PrefixEqual(d, a.kind + x, b.kind + y);
      WordThenNumber(a.kind, x, b.kind, y);
    }
  }

  /**
   * For investment transactions the downgrade goes through if and only if no two fingerprinted rows of one user
   * and instrument share the date, the kind and the text their amount and units run together to.
   */
  lemma InvestmentsReversibleIff(rows: seq<KeyedRow>, ids: seq<InvestmentIdentity>)
    requires AreInvestments(rows, ids)
    ensures Reversible(rows) <==>
              forall i, j :: 0 <= i < j < |rows| && SameKeyed(rows[i], rows[j]) ==>
                ids[i].date != ids[j].date || ids[i].kind != ids[j].kind
                || AmountAndUnits(ids[i]) != AmountAndUnits(ids[j])
  {
    hide Concat, InvestmentFields, AmountAndUnits, HasNoDigit;
    forall i, j | 0 <= i < j < |rows| && rows[i].scope == rows[j].scope
      ensures Concat(rows[i].fields) == Concat(rows[j].fields)
              <==> ids[i].date == ids[j].date && ids[i].kind == ids[j].kind
                   && AmountAndUnits(ids[i]) == AmountAndUnits(ids[j])
    {
      InvestmentsRunTogetherIff(ids[i], ids[j]);
    }
  }

  function InvestmentRowOf(user: int, id: InvestmentIdentity): KeyedRow {
    KeyedRow((user, id.instrument), InvestmentFields(id), Some(Join(SEP, InvestmentFields(id))), 0)
  }

  lemma AmountsRunTogether()
    ensures IntToString(12) + IntToString(345) == IntToString(123) + IntToString(45)
    ensures IntToString(12) != IntToString(123)
  {
    assert NatToString(12) == NatToString(1) + [Digit(2)];
    assert NatToString(123) == NatToString(12) + [Digit(3)];
    assert NatToString(45) == NatToString(4) + [Digit(5)];
    assert NatToString(345) == NatToString(34) + [Digit(5)] && NatToString(34) == NatToString(3) + [Digit(4)];
  }

  /** The investments the separator was introduced for: 12 paise for 345 units and 123 paise for 45. */
  lemma DistinctInvestmentsMayNotReverse(user: int, date: Date, instrument: int)
    ensures var a, b := InvestmentIdentity(instrument, date, "buy", 12, 345),
                        InvestmentIdentity(instrument, date, "buy", 123, 45);
            var rows := [InvestmentRowOf(user, a), InvestmentRowOf(user, b)];
            && InvestmentFields(a) != InvestmentFields(b)
            && Concat(InvestmentFields(a)) == Concat(InvestmentFields(b))
            && WideKeyHolds(rows) && Renderable(rows) && KeyedBy(rows, SEPARATED) && !Reversible(rows)
  {
    hide Concat, Join, IntToString, Reversible, WideKeyHolds, Renderable, KeyedBy;
    var a := InvestmentIdentity(instrument, date, "buy", 12, 345);
    var b := InvestmentIdentity(instrument, date, "buy", 123, 45);
    AmountsRunTogether();
    InvestmentsRunTogetherIff(a, b);
    InvestmentFieldsFree(a);
    InvestmentFieldsFree(b);
    assert InvestmentFields(a)[3] != InvestmentFields(b)[3];
    TwoRowsClashBare(InvestmentRowOf(user, a), InvestmentRowOf(user, b));
  }

  lemma InvestmentFieldsFree(id: InvestmentIdentity)
    requires SEP !in id.kind
    ensures forall w <- InvestmentFields(id) :: SEP !in w
  {
  }
}
