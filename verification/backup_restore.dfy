/** The importer's transaction pass: resolve, dedup, insert, then pair transfers up again. */
module BackupRestores {
  import opened Sequences
  import opened StableSorting
  import opened Fingerprints
  import opened Occurrences
  import opened BackupFormat
  import opened BackupUpserts
  import opened BackupExports
  import Dedup
  import Labels

  type AccountsByName = map<string, Account>
  type CategoriesByKey = map<CategoryKey, Category>

  /** The records a parser accepts, in file order. */
  function Accepted<R, T>(records: seq<R>, parse: R -> Result<T>): seq<T> {
    if records == [] then []
    else
      var before := Accepted(Init(records), parse);
      match parse(Last(records))
      case Ok(row) => before + [row]
      case Rejected(_) => before
  }

  // ----- resolving -----

  /** The identity a row asserts here: the resolved account's own id and the merchant normalised again. */
  function LineOf(account: Account, row: TransactionRow): Dedup.Parsed {
    Dedup.ParsedFrom(Identity(row.date, row.amountPaise, row.merchant, account.id))
  }

  function Lines(accounts: AccountsByName, rows: seq<TransactionRow>): seq<Dedup.Parsed> {
    if rows == [] then []
    else if Last(rows).accountName !in accounts then Lines(accounts, Init(rows))
    else Lines(accounts, Init(rows)) + [LineOf(accounts[Last(rows).accountName], Last(rows))]
  }

  function CategoryIdOf(categories: CategoriesByKey, row: TransactionRow): Option<nat> {
    if row.categoryName.Some? && row.categoryKind.Some?
       && (row.categoryName.value, row.categoryKind.value) in categories
    then Some(categories[(row.categoryName.value, row.categoryKind.value)].id)
    else None
  }

  // ----- inserting -----

  datatype Inserted = Inserted(txn: Txn, group: Option<string>)

  function NewTxn(id: nat, line: Dedup.Parsed, occurrence: int, categories: CategoriesByKey, row: TransactionRow): Txn {
    Txn(id, Dedup.StagedAs(line, occurrence, false), row.kind, row.merchantRaw, CategoryIdOf(categories, row),
        Labels.LinkedLabels(row.labels), row.source, row.confirmedAt, None)
  }

  /** The ordinal the allocator answers the last of these lines with. */
  function OrdinalFor(store: seq<Dedup.Row>, lines: seq<Dedup.Parsed>, fp: string): Option<int> {
    Ordinal(Dedup.KnownFor(store, fp), Dedup.Wanted(lines, fp))
  }

  /** What the loop inserts for one row: nothing, or one transaction beside its transfer token. */
  function Insertion(
    store: seq<Dedup.Row>, id: nat, accounts: AccountsByName, categories: CategoriesByKey, lines: seq<Dedup.Parsed>,
    row: TransactionRow)
    : (added: seq<Inserted>)
    ensures |added| <= 1 && forall i <- added :: i.txn.id == id && i.txn.pairId.None?
  {
    if row.accountName !in accounts then []
    else
      var line := LineOf(accounts[row.accountName], row);
      match OrdinalFor(store, lines, line.fp)
      case None => []
      case Some(occurrence) => [Inserted(NewTxn(id, line, occurrence, categories, row), row.transferGroup)]
  }

  function Persisted(
    store: seq<Dedup.Row>, nextId: nat, accounts: AccountsByName, categories: CategoriesByKey,
        rows: seq<TransactionRow>)
    : seq<Inserted>
  {
    if rows == [] then []
    else
      var before := Persisted(store, nextId, accounts, categories, Init(rows));
      before + Insertion(store, nextId + |before|, accounts, categories, Lines(accounts, rows), Last(rows))
  }

  function Txns(inserted: seq<Inserted>): seq<Txn> {
    Mapped(inserted, (i: Inserted) => i.txn)
  }

  function Rows(txns: seq<Txn>): seq<Dedup.Row> {
    Mapped(txns, (t: Txn) => t.row)
  }

  lemma RowsSplit(a: seq<Inserted>, b: seq<Inserted>)
    ensures Rows(Txns(a + b)) == Rows(Txns(a)) + Rows(Txns(b))
  {
  }

  lemma StagedLast(store: seq<Dedup.Row>, lines: seq<Dedup.Parsed>)
    requires lines != []
    ensures Dedup.Staged(store, lines, false)
            == Dedup.Staged(store, Init(lines), false)
               + match OrdinalFor(store, lines, Last(lines).fp)
                 case None => []
                 case Some(occurrence) => [Dedup.StagedAs(Last(lines), occurrence, false)]
  {
    hide Ordinal, Dedup.KnownFor, Dedup.Wanted;
  }

  lemma InsertedRow(id: nat, line: Dedup.Parsed, occurrence: int, categories: CategoriesByKey, row: TransactionRow)
    ensures Rows(Txns([Inserted(NewTxn(id, line, occurrence, categories, row), row.transferGroup)]))
            == [Dedup.StagedAs(line, occurrence, false)]
  {
  }

  lemma InsertionStages(
    store: seq<Dedup.Row>, id: nat, accounts: AccountsByName, categories: CategoriesByKey, rows: seq<TransactionRow>)
    requires rows != []
    ensures var added := Insertion(store, id, accounts, categories, Lines(accounts, rows), Last(rows));
            Dedup.Staged(store, Lines(accounts, rows), false)
            == Dedup.Staged(store, Lines(accounts, Init(rows)), false) + Rows(Txns(added))
  {
    var row, lines := Last(rows), Lines(accounts, rows);
    if row.accountName in accounts {
      assert Init(lines) == Lines(accounts, Init(rows)) && Last(lines) == LineOf(accounts[row.accountName], row);
      StagedLast(store, lines);
      var ordinal := OrdinalFor(store, lines, Last(lines).fp);
      hide LineOf, Lines, Ordinal, Dedup.KnownFor, Dedup.Wanted, Dedup.Staged, Rows, Txns, NewTxn;
      assert Rows(Txns([])) == [] by { NoRows(); }
      if ordinal.Some? {
        InsertedRow(id, Last(lines), ordinal.value, categories, row);
      }
    } else {
      NoRows();
    }
  }

  lemma NoRows()
    ensures Rows(Txns([])) == []
  {
  }

  /** The dedup columns of what is inserted are what any unstamped import of the resolved lines stages. */
  lemma {:induction false} PersistStages(
    store: seq<Dedup.Row>, nextId: nat, accounts: AccountsByName, categories: CategoriesByKey,
        rows: seq<TransactionRow>)
    ensures var inserted := Persisted(store, nextId, accounts, categories, rows);
            Rows(Txns(inserted)) == Dedup.Staged(store, Lines(accounts, rows), false)
  {
    hide Persisted, Insertion, Rows, Txns, Lines, Dedup.Staged;
    if rows == [] {
      NoRowsStaged(store, nextId, accounts, categories);
    } else {
      PersistStages(store, nextId, accounts, categories, Init(rows));
      var before := Persisted(store, nextId, accounts, categories, Init(rows));
      var added := Insertion(store, nextId + |before|, accounts, categories, Lines(accounts, rows), Last(rows));
      InsertionStages(store, nextId + |before|, accounts, categories, rows);
      RowsSplit(before, added);
      PersistedLast(store, nextId, accounts, categories, rows);
    }
  }

  lemma NoRowsStaged(store: seq<Dedup.Row>, nextId: nat, accounts: AccountsByName, categories: CategoriesByKey)
    ensures Rows(Txns(Persisted(store, nextId, accounts, categories, [])))
            == Dedup.Staged(store, Lines(accounts, []), false)
  {
  }

  lemma {:induction false} LinesFingerprinted(accounts: AccountsByName, rows: seq<TransactionRow>)
    ensures forall line <- Lines(accounts, rows) :: Dedup.Fingerprinted(line)
  {
    if rows != [] {
      LinesFingerprinted(accounts, Init(rows));
      var row := Last(rows);
      if row.accountName in accounts {
        Dedup.ParsedIsFingerprinted(Identity(row.date, row.amountPaise, row.merchant, accounts[row.accountName].id));
      }
    }
  }

  lemma LinesSnoc(accounts: AccountsByName, done: seq<TransactionRow>, row: TransactionRow)
    ensures if row.accountName !in accounts then Lines(accounts, done + [row]) == Lines(accounts, done)
            else
              var line := LineOf(accounts[row.accountName], row);
              && Lines(accounts, done + [row]) == Lines(accounts, done) + [line]
              && Dedup.Keys(Lines(accounts, done + [row])) == Dedup.Keys(Lines(accounts, done)) + [line.fp]
  {
    hide LineOf;
    assert Init(done + [row]) == done;
  }

  lemma PersistedLast(
    store: seq<Dedup.Row>, nextId: nat, accounts: AccountsByName, categories: CategoriesByKey,
        rows: seq<TransactionRow>)
    requires rows != []
    ensures var before := Persisted(store, nextId, accounts, categories, Init(rows));
            Persisted(store, nextId, accounts, categories, rows)
            == before + Insertion(store, nextId + |before|, accounts, categories, Lines(accounts, rows), Last(rows))
  {
    hide Insertion, Lines;
  }

  /** One more row, as the persist loop meets it. */
  lemma PersistedSnoc(
    store: seq<Dedup.Row>, nextId: nat, accounts: AccountsByName, categories: CategoriesByKey,
    done: seq<TransactionRow>, row: TransactionRow)
    ensures var before := Persisted(store, nextId, accounts, categories, done);
            Persisted(store, nextId, accounts, categories, done + [row])
            == before + Insertion(store, nextId + |before|, accounts, categories, Lines(accounts, done + [row]), row)
  {
    hide Insertion, Lines, Persisted;
    PersistedLast(store, nextId, accounts, categories, done + [row]);
    assert Init(done + [row]) == done && Last(done + [row]) == row;
  }

  /** A restore into any consistent tenant collides with nothing and tops every source line up to the file's count. */
  lemma RestoreKeepsConsistent(
    store: seq<Dedup.Row>, nextId: nat, accounts: AccountsByName, categories: CategoriesByKey,
        rows: seq<TransactionRow>,
    fp: string)
    requires Dedup.Consistent(store)
    ensures var inserted := Rows(Txns(Persisted(store, nextId, accounts, categories, rows)));
            var wanted := Dedup.Wanted(Lines(accounts, rows), fp);
            && Dedup.Consistent(store + inserted)
            && Dedup.CountKey(store + inserted, fp) ==
               if wanted <= Dedup.CountKey(store, fp) then Dedup.CountKey(store, fp) else wanted
  {
    PersistStages(store, nextId, accounts, categories, rows);
    LinesFingerprinted(accounts, rows);
    Dedup.ImportKeepsConsistent(store, Lines(accounts, rows), false);
    Dedup.ImportReachesMaximum(store, Lines(accounts, rows), false, fp);
  }

  /** The row's identity, and the source line it came from if any, are of accounts numbered below n. */
  ghost predicate OfAccountsBelow(r: Dedup.Row, n: nat) {
    && Dedup.Faithful(r) && r.identity.account < n
    && (r.origin.Some? ==> exists id: Identity ::
          Dedup.IsNormal(id) && id.account < n && r.origin == Some(TransactionFingerprint(id)))
  }

  lemma {:induction false} UnseenAccount(store: seq<Dedup.Row>, account: Account, row: TransactionRow, n: nat)
    requires account.id >= n && forall r <- store :: OfAccountsBelow(r, n)
    ensures Dedup.CountKey(store, LineOf(account, row).fp) == 0
  {
    if store != [] {
      InitLast(store);
      UnseenAccount(Init(store), account, row, n);
      var r, line := Last(store), LineOf(account, row);
      LineIsFingerprinted(account, row);
      if Dedup.SourceKey(r) == line.fp {
        var id := SourceIdentity(r, n);
        NormalizedMerchantHasNoSeparator(id.merchant);
        NormalizedMerchantHasNoSeparator(line.identity.merchant);
        hide TransactionFingerprint;
        FingerprintInjective(id, line.identity);
      }
    }
  }

  lemma SourceIdentity(r: Dedup.Row, n: nat) returns (id: Identity)
    requires OfAccountsBelow(r, n)
    ensures Dedup.IsNormal(id) && id.account < n && Dedup.SourceKey(r) == TransactionFingerprint(id)
  {
    if r.origin.Some? {
      id :| Dedup.IsNormal(id) && id.account < n && r.origin == Some(TransactionFingerprint(id));
    } else {
      id := r.identity;
    }
  }

  lemma LineIsFingerprinted(account: Account, row: TransactionRow)
    ensures Dedup.Fingerprinted(LineOf(account, row)) && LineOf(account, row).identity.account == account.id
  {
    Dedup.ParsedIsFingerprinted(Identity(row.date, row.amountPaise, row.merchant, account.id));
  }

  /**
   * Re-importing one's own backup duplicates the rows of an archived account: the name matches no
   * active account, a new one is created, and every line of it is inserted as often as the file has it.
   */
  lemma ArchivedAccountIsDuplicated(
    tenant: seq<Account>, nextAccount: nat, accountRows: seq<AccountRow>, store: seq<Dedup.Row>, nextId: nat,
    categories: CategoriesByKey, rows: seq<TransactionRow>, row: TransactionRow)
    requires forall r <- store :: OfAccountsBelow(r, nextAccount)
    requires row.accountName !in ActiveAccounts(tenant)
    requires row.accountName in UpsertAccounts(tenant, nextAccount, accountRows).resolved
    ensures var accounts := UpsertAccounts(tenant, nextAccount, accountRows).resolved;
            var fp := LineOf(accounts[row.accountName], row).fp;
            && Dedup.CountKey(store, fp) == 0
            && Dedup.CountKey(Rows(Txns(Persisted(store, nextId, accounts, categories, rows))), fp)
               == Dedup.Wanted(Lines(accounts, rows), fp)
  {
    var active := ActiveAccounts(tenant);
    var start := AccountUpsert(tenant, nextAccount, map[], 0, 0, 0);
    ResolvedIsNewUnlessActive(active, start, StableSort(accountRows, ACTIVE_FIRST));
    var accounts := UpsertAccounts(tenant, nextAccount, accountRows).resolved;
    hide UpsertAccounts, LineOf, Persisted;
    UnseenAccount(store, accounts[row.accountName], row, nextAccount);
    PersistStages(store, nextId, accounts, categories, rows);
    Dedup.StagesSurplus(store, Lines(accounts, rows), false, LineOf(accounts[row.accountName], row).fp);
  }

  /** Inserted rows are numbered from nextId on, in file order, and start unpaired. */
  lemma {:induction false} InsertedIds(
    store: seq<Dedup.Row>, nextId: nat, accounts: AccountsByName, categories: CategoriesByKey,
        rows: seq<TransactionRow>)
    ensures var inserted := Persisted(store, nextId, accounts, categories, rows);
            && |inserted| <= |rows|
            && forall i :: 0 <= i < |inserted| ==> inserted[i].txn.id == nextId + i && inserted[i].txn.pairId.None?
  {
    hide Insertion, Lines;
    if rows != [] {
      InsertedIds(store, nextId, accounts, categories, Init(rows));
    }
  }

  // ----- relinking -----

  /** The positions of the rows inserted for a token. */
  function Legs(inserted: seq<Inserted>, token: string): (legs: seq<nat>)
    ensures forall k :: k in legs <==> 0 <= k < |inserted| && inserted[k].group == Some(token)
    ensures forall i, j :: 0 <= i < j < |legs| ==> legs[i] < legs[j]
  {
    if inserted == [] then []
    else
      var before := Legs(Init(inserted), token);
      assert forall i :: 0 <= i < |before| ==> before[i] in before;
      if Last(inserted).group == Some(token) then before + [|inserted| - 1] else before
  }

  function Other(legs: seq<nat>, i: nat): nat
    requires |legs| == 2
  {
    if legs[0] == i then legs[1] else legs[0]
  }

  /** The row a restored leg is pointed at: the other of exactly two. */
  function Partner(inserted: seq<Inserted>, i: nat): Option<nat>
    requires i < |inserted|
  {
    if inserted[i].group.None? then None
    else
      var legs := Legs(inserted, inserted[i].group.value);
      if |legs| != 2 then None else assert Other(legs, i) in legs; Some(inserted[Other(legs, i)].txn.id)
  }

  function Relinked(inserted: seq<Inserted>): (txns: seq<Txn>)
    ensures |txns| == |inserted|
    ensures forall i :: 0 <= i < |txns| ==> txns[i] == inserted[i].txn.(pairId := Partner(inserted, i))
  {
    seq(|inserted|, i requires 0 <= i < |inserted| => inserted[i].txn.(pairId := Partner(inserted, i)))
  }

  /** The rows i and j, and no other, carry the token. */
  ghost predicate ExactlyTwo(inserted: seq<Inserted>, token: string, i: nat, j: nat) {
    i < |inserted| && j < |inserted| && i != j
    && forall k :: 0 <= k < |inserted| ==> (inserted[k].group == Some(token) <==> k == i || k == j)
  }

  lemma {:induction false} AscendingFits(legs: seq<nat>, within: set<nat>)
    requires forall a, b :: 0 <= a < b < |legs| ==> legs[a] < legs[b]
    requires forall a :: 0 <= a < |legs| ==> legs[a] in within
    ensures |legs| <= |within|
  {
    if legs != [] {
      AscendingFits(Init(legs), within - {Last(legs)});
      assert |within - {Last(legs)}| == |within| - 1;
    }
  }

  lemma TwoLegs(inserted: seq<Inserted>, token: string, i: nat, j: nat)
    requires ExactlyTwo(inserted, token, i, j)
    ensures var legs := Legs(inserted, token);
            |legs| == 2 && i in legs && Other(legs, i) == j && Other(legs, j) == i
  {
    var legs := Legs(inserted, token);
    assert i in legs && j in legs;
    forall a | 0 <= a < |legs|
      ensures legs[a] in {i, j}
    {
      assert legs[a] in legs;
    }
    AscendingFits(legs, {i, j});
    assert |{i, j}| == 2;
  }

  lemma LegsAreTwo(inserted: seq<Inserted>, token: string, i: nat)
    requires i < |inserted| && inserted[i].group == Some(token) && |Legs(inserted, token)| == 2
    ensures ExactlyTwo(inserted, token, i, Other(Legs(inserted, token), i))
  {
    var legs := Legs(inserted, token);
    assert i in legs && Other(legs, i) in legs;
    forall k | 0 <= k < |inserted|
      ensures inserted[k].group == Some(token) <==> k == i || k == Other(legs, i)
    {
      assert inserted[k].group == Some(token) <==> k in legs;
    }
  }

  /**
   * Whatever tokens a file carries, restored pairs are mutual: a linked leg points at another inserted
   * row of its own token, and that row points back. Nothing is half-paired or paired with itself.
   */
  lemma PairsAreMutual(inserted: seq<Inserted>, i: nat)
    requires i < |inserted|
    requires forall a, b :: 0 <= a < b < |inserted| ==> inserted[a].txn.id != inserted[b].txn.id
    ensures var txns := Relinked(inserted);
            txns[i].pairId.Some? ==>
              exists j :: 0 <= j < |txns| && j != i && inserted[j].group == inserted[i].group
                          && txns[i].pairId == Some(txns[j].id) && txns[j].pairId == Some(txns[i].id)
  {
    hide Legs, Other;
    if Relinked(inserted)[i].pairId.Some? {
      var token := inserted[i].group.value;
      var j := Other(Legs(inserted, token), i);
      LegsAreTwo(inserted, token, i);
      TwoLegs(inserted, token, i, j);
      assert inserted[j].group == Some(token);
    }
  }

  /** A leg is paired exactly when one other inserted row carries its token: not none, not two or more. */
  lemma OnlyTwoLegsPair(inserted: seq<Inserted>, i: nat)
    requires i < |inserted|
    ensures Relinked(inserted)[i].pairId.Some? <==>
            inserted[i].group.Some? && exists j: nat :: ExactlyTwo(inserted, inserted[i].group.value, i, j)
  {
    hide Legs, Other, ExactlyTwo;
    if inserted[i].group.Some? {
      var token := inserted[i].group.value;
      if |Legs(inserted, token)| == 2 {
        LegsAreTwo(inserted, token, i);
      }
      if j: nat :| ExactlyTwo(inserted, token, i, j) {
        TwoLegs(inserted, token, i, j);
      }
    }
  }

  // ----- the whole restore -----

  datatype NextIds = NextIds(account: nat, category: nat, txn: nat)

  function Restore(tenant: Tenant, ids: NextIds, backup: Backup): Tenant {
    var accounts := UpsertAccounts(tenant.accounts, ids.account, Accepted(backup.accounts, ParseAccount));
    var categories := UpsertCategories(tenant.categories, ids.category, Accepted(backup.categories, ParseCategory));
    var inserted := Persisted(
      Rows(tenant.txns), ids.txn, accounts.resolved, categories.resolved,
      Accepted(backup.transactions, ParseTransaction));
    Tenant(accounts.store, categories.store, tenant.txns + Relinked(inserted))
  }
}
