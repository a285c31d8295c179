/** Restoring a tenant's own backup over the tenant itself: exactly when it adds no transaction. */
module OwnBackups {
  import opened Sequences
  import opened StableSorting
  import opened Fingerprints
  import opened BackupFormat
  import opened BackupUpserts
  import opened BackupExports
  import opened BackupRestores
  import opened BackupRepeats
  import opened BackupRoundTrips
  import opened BackupLosses
  import Dedup

  // ----- the condition, on the tenant before the restore -----

  /** The name a confirmed transaction is restored under. */
  function RestoredName(src: Tenant, t: Txn): string {
    Strip(AccountName(ExportedAccounts(src), t.row.identity.account))
  }

  predicate Describes(a: Account, name: string, active: Account) {
    Strip(a.name) == name && a.kind == active.kind && a.currency == active.currency
  }

  /** The active account of this name takes the rows: an account the backup holds under it has its type and currency. */
  predicate Takes(src: Tenant, name: string) {
    var active := ActiveAccounts(src.accounts);
    name != "" && name in active && exists a <- ExportedAccounts(src) :: Describes(a, name, active[name])
  }

  /** The lines these transactions assert once each is rebooked on the active account of its name. */
  function OwnLines(src: Tenant, txns: seq<Txn>): seq<Dedup.Parsed> {
    if txns == [] then []
    else
      var t, before := Last(txns), OwnLines(src, Init(txns));
      if !Takes(src, RestoredName(src, t)) then before
      else
        var account := ActiveAccounts(src.accounts)[RestoredName(src, t)];
        before + [Dedup.ParsedFrom(t.row.identity.(account := account.id))]
  }

  /** No confirmed row is restored under a name that is not active. */
  ghost predicate AllActive(src: Tenant) {
    forall t <- Confirmed(src.txns) ::
      RestoredName(src, t) == "" || RestoredName(src, t) in ActiveAccounts(src.accounts)
  }

  /** No line is asserted more often than stored rows account for it. */
  ghost predicate AllCounted(src: Tenant) {
    Dedup.AccountsFor(Rows(src.txns), OwnLines(src, Confirmed(src.txns)))
  }

  // ----- which names the backup's accounts resolve -----

  lemma {:induction false} AcceptedIs<R, T>(records: seq<R>, parse: R -> Result<T>, row: T)
    ensures row in Accepted(records, parse) <==> exists r <- records :: parse(r) == Ok(row)
  {
    if records != [] {
      InitLast(records);
      assert Last(records) in records;
      AcceptedIs(Init(records), parse, row);
    }
  }

  /** The account rows that are read back are those of the exported accounts with more than blanks for a name. */
  lemma OwnAccountRows(src: Tenant, row: AccountRow)
    requires InrTenant(src)
    ensures row in Accepted(Export(src).accounts, ParseAccount)
            <==> exists a <- ExportedAccounts(src) :: Strip(a.name) != "" && row == KeptAccount(AccountRowOf(a))
  {
    hide ParseAccount, PrintAccount, ExportedAccounts, KeptAccount, Strip, Accepted, AccountRowPrintable;
    var accounts, records := ExportedAccounts(src), Export(src).accounts;
    AcceptedIs(records, ParseAccount, row);
    if r :| r in records && ParseAccount(r) == Ok(row) {
      var i :| 0 <= i < |records| && records[i] == r;
      assert accounts[i] in accounts && r == PrintAccount(AccountRowOf(accounts[i]));
      AccountRoundTrip(AccountRowOf(accounts[i]));
    }
    if a :| a in accounts && Strip(a.name) != "" && row == KeptAccount(AccountRowOf(a)) {
      var i :| 0 <= i < |accounts| && accounts[i] == a;
      assert records[i] in records && records[i] == PrintAccount(AccountRowOf(a));
      AccountRoundTrip(AccountRowOf(a));
    }
  }

  /** An active account is resolved as soon as one row of its name fits it. */
  lemma {:induction false} FittingRowResolves(
    active: map<string, Account>, s: AccountUpsert, rows: seq<AccountRow>, row: AccountRow)
    requires row in rows && row.name in active
    requires row.kind == active[row.name].kind && row.currency == active[row.name].currency
    ensures row.name in FoldAccounts(active, s, rows).resolved
  {
    InitLast(rows);
    UpsertAccountResolves(active, FoldAccounts(active, s, Init(rows)), Last(rows));
    if row in Init(rows) {
      FittingRowResolves(active, s, Init(rows), row);
    }
  }

  lemma ResolvedIffTaken(src: Tenant, n: nat, name: string)
    requires InrTenant(src) && name in ActiveAccounts(src.accounts)
    ensures var resolved := UpsertAccounts(src.accounts, n, Accepted(Export(src).accounts, ParseAccount)).resolved;
            && (name in resolved <==> Takes(src, name))
            && (name in resolved ==> resolved[name] == ActiveAccounts(src.accounts)[name])
  {
    var rows, active := Accepted(Export(src).accounts, ParseAccount), ActiveAccounts(src.accounts);
    var sorted := StableSort(rows, ACTIVE_FIRST);
    var resolved := UpsertAccounts(src.accounts, n, rows).resolved;
    SortMembers(rows, ACTIVE_FIRST);
    ResolvedIsNewUnlessActive(active, Start(src.accounts, n), sorted);
    NeverRebinds(active, src.accounts, n, sorted);
    hide Accepted, ExportedAccounts, StableSort, FoldAccounts, ActiveAccounts, Strip, Export;
    if name in resolved {
      var row :| row in sorted && Binds(row, resolved[name]);
      OwnAccountRows(src, row);
      var a :| a in ExportedAccounts(src) && Strip(a.name) != "" && row == KeptAccount(AccountRowOf(a));
      assert Describes(a, name, active[name]);
    }
    if Takes(src, name) {
      var a :| a in ExportedAccounts(src) && Describes(a, name, active[name]);
      OwnAccountRows(src, KeptAccount(AccountRowOf(a)));
      FittingRowResolves(active, Start(src.accounts, n), sorted, KeptAccount(AccountRowOf(a)));
    }
  }

  // ----- which lines the backup's transactions assert -----

  function RowsOf(src: Tenant, txns: seq<Txn>): seq<TransactionRow> {
    var accounts, categories := ExportedAccounts(src), ExportedCategories(src);
    Mapped(txns, t => TransactionRowOf(accounts, categories, t))
  }

  function ReadBack(src: Tenant, txns: seq<Txn>): seq<TransactionRow> {
    Accepted(Mapped(RowsOf(src, txns), PrintTransaction), ParseTransaction)
  }

  lemma ReadBackLast(src: Tenant, txns: seq<Txn>)
    requires txns != []
    ensures var t := Last(txns);
            ReadBack(src, txns)
            == ReadBack(src, Init(txns))
               + if RestoredName(src, t) == "" then []
                 else [KeptTransaction(TransactionRowOf(ExportedAccounts(src), ExportedCategories(src), t))]
  {
    hide ParseTransaction, PrintTransaction, KeptTransaction, Strip, ExportedAccounts, ExportedCategories, AccountName;
    var rows := RowsOf(src, txns);
    var records := Mapped(rows, PrintTransaction);
    assert Init(rows) == RowsOf(src, Init(txns));
    assert Init(records) == Mapped(Init(rows), PrintTransaction) && Last(records) == PrintTransaction(Last(rows));
    TransactionRoundTrip(Last(rows));
    LastRow(src, txns);
  }

  lemma LastRow(src: Tenant, txns: seq<Txn>)
    requires txns != []
    ensures var row := Last(RowsOf(src, txns));
            && row == TransactionRowOf(ExportedAccounts(src), ExportedCategories(src), Last(txns))
            && Strip(row.accountName) == RestoredName(src, Last(txns))
  {
    hide Strip, ExportedAccounts, ExportedCategories, AccountName;
  }

  lemma OwnLine(src: Tenant, t: Txn, account: Account)
    requires Dedup.IsNormal(t.row.identity)
    ensures var row := KeptTransaction(TransactionRowOf(ExportedAccounts(src), ExportedCategories(src), t));
            && row.accountName == RestoredName(src, t)
            && LineOf(account, row) == Dedup.ParsedFrom(t.row.identity.(account := account.id))
  {
    hide Strip, ExportedAccounts, ExportedCategories, AccountName, SplitLabels, LabelCell, CategoryAt, IsClean;
    var merchant := t.row.identity.merchant;
    NormalMerchantIsClean(merchant);
    MerchantRoundTrip(merchant);
    hide NormalizeMerchant, TransactionFingerprint, Get;
  }

  lemma {:induction false} OwnLinesAre(src: Tenant, n: nat, txns: seq<Txn>)
    requires InrTenant(src) && forall t <- txns :: Dedup.IsNormal(t.row.identity)
    requires forall t <- txns :: RestoredName(src, t) == "" || RestoredName(src, t) in ActiveAccounts(src.accounts)
    ensures var resolved := UpsertAccounts(src.accounts, n, Accepted(Export(src).accounts, ParseAccount)).resolved;
            Lines(resolved, ReadBack(src, txns)) == OwnLines(src, txns)
  {
    hide UpsertAccounts, Accepted, ReadBack, InrTenant, RestoredName, LineOf, KeptTransaction, TransactionRowOf,
         ActiveAccounts, ExportedAccounts, ExportedCategories, Export, Dedup.IsNormal;
    var resolved := UpsertAccounts(src.accounts, n, Accepted(Export(src).accounts, ParseAccount)).resolved;
    if txns == [] {
      NothingReadBack(src);
    } else {
      InitLast(txns);
      var t, before := Last(txns), ReadBack(src, Init(txns));
      assert t in txns;
      OwnLinesAre(src, n, Init(txns));
      ReadBackLast(src, txns);
      if RestoredName(src, t) == "" {
        assert before + [] == before;
      } else {
        var account := ActiveAccounts(src.accounts)[RestoredName(src, t)];
        var row := KeptTransaction(TransactionRowOf(ExportedAccounts(src), ExportedCategories(src), t));
        OwnLine(src, t, account);
        ResolvedIffTaken(src, n, RestoredName(src, t));
        assert Init(before + [row]) == before;
      }
    }
  }

  lemma NothingReadBack(src: Tenant)
    ensures ReadBack(src, []) == []
  {
  }

  // ----- the theorem -----

  lemma ExportIsReadBack(src: Tenant)
    ensures Accepted(Export(src).transactions, ParseTransaction) == ReadBack(src, Confirmed(src.txns))
  {
    hide ParseTransaction, PrintTransaction, Accepted, ExportedAccounts, ExportedCategories;
    assert TransactionRows(src) == RowsOf(src, Confirmed(src.txns));
  }

  lemma {:induction false} ConfirmedAreStored(txns: seq<Txn>)
    ensures forall t <- Confirmed(txns) :: t in txns
    ensures |Confirmed(txns)| <= |txns|
  {
    if txns != [] {
      InitLast(txns);
      ConfirmedAreStored(Init(txns));
    }
  }

  lemma StoredAreNormal(src: Tenant, ids: NextIds)
    requires FreshIds(src, ids)
    ensures forall t <- Confirmed(src.txns) :: Dedup.Faithful(t.row) && Dedup.IsNormal(t.row.identity)
  {
    ConfirmedAreStored(src.txns);
    forall t | t in src.txns
      ensures Dedup.Faithful(t.row)
    {
      var i :| 0 <= i < |src.txns| && src.txns[i] == t;
      assert Rows(src.txns)[i] == t.row && t.row in Rows(src.txns);
    }
  }

  lemma NothingAddedIff(store: seq<Dedup.Row>, id: nat, accounts: AccountsByName, categories: CategoriesByKey,
      rows: seq<TransactionRow>)
    ensures Persisted(store, id, accounts, categories, rows) == []
            <==> Dedup.AccountsFor(store, Lines(accounts, rows))
  {
    hide Persisted, Lines, Dedup.Staged, Dedup.Wanted, Dedup.CountKey;
    PersistStages(store, id, accounts, categories, rows);
    Dedup.StagesNothing(store, Lines(accounts, rows), false);
  }

  lemma UnchangedIffNothingAdded(src: Tenant, ids: NextIds, lines: seq<Dedup.Parsed>)
    requires var rows := Accepted(Export(src).accounts, ParseAccount);
             lines == Lines(UpsertAccounts(src.accounts, ids.account, rows).resolved,
                            ReadBack(src, Confirmed(src.txns)))
    ensures Restore(src, ids, Export(src)).txns == src.txns <==> Dedup.AccountsFor(Rows(src.txns), lines)
  {
    hide Restore, UpsertAccounts, UpsertCategories, Accepted, Persisted, Lines, Dedup.Wanted, Dedup.CountKey, ReadBack,
         Export, Rows, Txns;
    var accounts := UpsertAccounts(src.accounts, ids.account, Accepted(Export(src).accounts, ParseAccount));
    var categories :=
      UpsertCategories(src.categories, ids.category, Accepted(Export(src).categories, ParseCategory));
    RestoreParts(src, ids, Export(src));
    ExportIsReadBack(src);
    var rows := ReadBack(src, Confirmed(src.txns));
    NothingAddedIff(Rows(src.txns), ids.txn, accounts.resolved, categories.resolved, rows);
    NothingRelinked(src.txns);
  }

  lemma {:induction false} RowIsReadBack(src: Tenant, txns: seq<Txn>, t: Txn)
    requires t in txns && RestoredName(src, t) != ""
    ensures KeptTransaction(TransactionRowOf(ExportedAccounts(src), ExportedCategories(src), t)) in ReadBack(src, txns)
  {
    hide ReadBack, RestoredName, KeptTransaction, TransactionRowOf, ExportedAccounts, ExportedCategories;
    InitLast(txns);
    ReadBackLast(src, txns);
    if t != Last(txns) {
      RowIsReadBack(src, Init(txns), t);
    }
  }

  /** The account of a name that is not active is created anew. */
  lemma InactiveResolves(src: Tenant, n: nat, t: Txn)
    requires InrTenant(src) && t in Confirmed(src.txns)
    requires RestoredName(src, t) != "" && RestoredName(src, t) !in ActiveAccounts(src.accounts)
    ensures RestoredName(src, t) in
              UpsertAccounts(src.accounts, n, Accepted(Export(src).accounts, ParseAccount)).resolved
  {
    hide Accepted, ExportedAccounts, StableSort, FoldAccounts, ActiveAccounts, Strip, Export, Named, AccountName;
    var rows := Accepted(Export(src).accounts, ParseAccount);
    PrintedName(src, t);
    var a := FindAccount(src.accounts, t.row.identity.account).value;
    var row := KeptAccount(AccountRowOf(a));
    OwnAccountRows(src, row);
    SortMembers(rows, ACTIVE_FIRST);
    ResolvedAreNamed(ActiveAccounts(src.accounts), Start(src.accounts, n), StableSort(rows, ACTIVE_FIRST));
  }

  lemma InactiveIsAdded(src: Tenant, ids: NextIds, t: Txn)
    requires InrTenant(src) && FreshIds(src, ids) && t in Confirmed(src.txns)
    requires RestoredName(src, t) != "" && RestoredName(src, t) !in ActiveAccounts(src.accounts)
    ensures |Restore(src, ids, Export(src)).txns| > |src.txns|
  {
    hide Restore, UpsertAccounts, UpsertCategories, Accepted, Persisted, Lines, ReadBack, Export, Rows, Txns, InrTenant,
         RestoredName, KeptTransaction, TransactionRowOf, ActiveAccounts, ExportedAccounts, ExportedCategories,
         OfAccountsBelow, LineOf, Confirmed, Relinked;
    var accountRows := Accepted(Export(src).accounts, ParseAccount);
    var accounts := UpsertAccounts(src.accounts, ids.account, accountRows).resolved;
    var categories :=
      UpsertCategories(src.categories, ids.category, Accepted(Export(src).categories, ParseCategory)).resolved;
    var rows := ReadBack(src, Confirmed(src.txns));
    var row := KeptTransaction(TransactionRowOf(ExportedAccounts(src), ExportedCategories(src), t));
    RestoreParts(src, ids, Export(src));
    ExportIsReadBack(src);
    StoredAreNormal(src, ids);
    OwnLine(src, t, Account(0, "", Cash, None, None, 0, "INR", None));
    RowIsReadBack(src, Confirmed(src.txns), t);
    InactiveResolves(src, ids.account, t);
    var inserted := Persisted(Rows(src.txns), ids.txn, accounts, categories, rows);
    ArchivedAccountIsDuplicated(
      src.accounts, ids.account, accountRows, Rows(src.txns), ids.txn, categories, rows, row);
    RowWanted(accounts, rows, row);
    SomethingInserted(inserted, LineOf(accounts[row.accountName], row).fp);
    assert Restore(src, ids, Export(src)).txns == src.txns + Relinked(inserted);
  }

  /**
   * Restoring a tenant's own backup over the tenant adds no transaction if and only if no confirmed one has an
   * account whose stripped name is not active, and the lines rebooked on the active account of their name are
   * asserted no more often than stored rows account for them. Rows under a blank name are never read back.
   */
  lemma OwnBackupAddsNothing(src: Tenant, ids: NextIds)
    requires InrTenant(src) && FreshIds(src, ids)
    ensures Restore(src, ids, Export(src)).txns == src.txns <==> AllActive(src) && AllCounted(src)
  {
    hide Restore, UpsertAccounts, Accepted, Lines, Dedup.Wanted, Dedup.CountKey, ReadBack, Export, Rows, InrTenant,
         RestoredName, ActiveAccounts, FreshIds, OwnLines, Dedup.IsNormal, Dedup.AccountsFor;
    if AllActive(src) {
      StoredAreNormal(src, ids);
      OwnLinesAre(src, ids.account, Confirmed(src.txns));
      UnchangedIffNothingAdded(src, ids, OwnLines(src, Confirmed(src.txns)));
    } else {
      var t :| t in Confirmed(src.txns) && RestoredName(src, t) != ""
               && RestoredName(src, t) !in ActiveAccounts(src.accounts);
      InactiveIsAdded(src, ids, t);
    }
  }

  // ----- active accounts with clean names -----

  /** The schema's key on accounts: no two active ones share a name. */
  ghost predicate ActiveNamesDistinct(accounts: seq<Account>) {
    forall a <- accounts, b <- accounts :: a.archivedAt.None? && b.archivedAt.None? && a.name == b.name ==> a == b
  }

  lemma {:induction false} UnarchivedIsActive(accounts: seq<Account>, a: Account)
    requires a in accounts && a.archivedAt.None?
    ensures a.name in ActiveAccounts(accounts)
  {
    InitLast(accounts);
    if a != Last(accounts) {
      UnarchivedIsActive(Init(accounts), a);
    }
  }

  lemma RestoredInPlace(src: Tenant, t: Txn)
    requires InrTenant(src) && ActiveNamesDistinct(src.accounts) && t in Confirmed(src.txns)
    requires forall a <- ExportedAccounts(src) :: a.archivedAt.None? && IsClean(a.name)
    ensures var name := RestoredName(src, t);
            && Takes(src, name) && ActiveAccounts(src.accounts)[name].id == t.row.identity.account
  {
    hide ExportedAccounts, ActiveAccounts, Confirmed, Strip, AccountName;
    PrintedName(src, t);
    var a := FindAccount(src.accounts, t.row.identity.account).value;
    StripShape(a.name);
    UnarchivedIsActive(src.accounts, a);
    assert ActiveAccounts(src.accounts)[a.name] == a;
    assert Describes(a, a.name, a);
  }

  lemma {:induction false} LinesInPlace(src: Tenant, txns: seq<Txn>)
    requires InrTenant(src) && ActiveNamesDistinct(src.accounts)
    requires forall a <- ExportedAccounts(src) :: a.archivedAt.None? && IsClean(a.name)
    requires forall t <- txns :: t in Confirmed(src.txns) && Dedup.Faithful(t.row)
    ensures OwnLines(src, txns) == Dedup.ParsedRows(Rows(txns))
  {
    hide InrTenant, ActiveNamesDistinct, ExportedAccounts, Confirmed, RestoredName, Takes, ActiveAccounts, IsClean,
         TransactionFingerprint, NormalizeMerchant;
    if txns != [] {
      InitLast(txns);
      var t := Last(txns);
      LinesInPlace(src, Init(txns));
      assert t in txns;
      RestoredInPlace(src, t);
      LastParsed(txns);
    }
  }

  lemma LastParsed(txns: seq<Txn>)
    requires txns != []
    ensures Dedup.ParsedRows(Rows(txns))
            == Dedup.ParsedRows(Rows(Init(txns))) + [Dedup.Parsed(Last(txns).row.identity, Last(txns).row.fp)]
  {
  }

  /** Where every account in use is active and its name clean, the dedup step on the rows' own identities decides. */
  lemma OwnBackupOfActiveAccounts(src: Tenant, ids: NextIds)
    requires InrTenant(src) && FreshIds(src, ids) && ActiveNamesDistinct(src.accounts)
    requires forall a <- ExportedAccounts(src) :: a.archivedAt.None? && IsClean(a.name)
    ensures var rows, exported := Rows(src.txns), Rows(Confirmed(src.txns));
            && (Restore(src, ids, Export(src)).txns == src.txns
                <==> forall fp :: Dedup.CountFp(exported, fp) <= Dedup.CountKey(rows, fp))
            && (Restore(src, ids, Export(src)).txns == src.txns
                <==> Dedup.Apply(rows, Dedup.RestoreBackup(Dedup.Identities(exported))) == rows)
  {
    hide Restore, Export, Rows, InrTenant, ActiveNamesDistinct, FreshIds, ExportedAccounts, RestoredName, Takes,
         OwnLines, IsClean, Dedup.Apply, Dedup.CountFp, Dedup.CountKey, Dedup.AccountsFor, Dedup.Faithful;
    var conf := Confirmed(src.txns);
    OwnBackupAddsNothing(src, ids);
    StoredAreNormal(src, ids);
    LinesInPlace(src, conf);
    forall t | t in conf
      ensures RestoredName(src, t) in ActiveAccounts(src.accounts)
    {
      RestoredInPlace(src, t);
      TakenIsActive(src, RestoredName(src, t));
    }
    RowsFaithful(conf);
    Dedup.AccountedIff(Rows(src.txns), Rows(conf));
    Dedup.OwnIdentitiesAddNothing(Rows(src.txns), Rows(conf));
  }

  lemma TakenIsActive(src: Tenant, name: string)
    requires Takes(src, name)
    ensures name in ActiveAccounts(src.accounts)
  {
  }

  lemma RowsFaithful(txns: seq<Txn>)
    requires forall t <- txns :: Dedup.Faithful(t.row)
    ensures forall r <- Rows(txns) :: Dedup.Faithful(r)
  {
  }

  // ----- an archived account -----

  /** One confirmed row on an archived account comes back a second time. */
  lemma ArchivedRowComesBackTwice(ids: NextIds, date: Date, amountPaise: int, kind: TransactionKind)
    requires ids.account >= 2
    ensures var account := Account(1, "a", Bank, None, None, 0, "INR", Some(0));
            var id := Identity(date, amountPaise, "tea", 1);
            var txn := Txn(1, Dedup.Row(id, TransactionFingerprint(id), None, 0), kind, None, None, [], Manual, Some(0),
                           None);
            var src := Tenant([account], [], [txn]);
            && Dedup.Apply([txn.row], Dedup.RestoreBackup(Dedup.Identities([txn.row]))) == [txn.row]
            && |Restore(src, ids, Export(src)).txns| == 2
  {
    hide Restore, Export, Strip, NormalizeMerchant, TransactionFingerprint;
    var account := Account(1, "a", Bank, None, None, 0, "INR", Some(0));
    var id := Identity(date, amountPaise, "tea", 1);
    var txn := Txn(1, Dedup.Row(id, TransactionFingerprint(id), None, 0), kind, None, None, [], Manual, Some(0), None);
    PlainWords();
    ArchivedRowDoubles(ids, account, txn);
    OwnRowIsCounted(txn.row);
  }

  lemma OwnRowIsCounted(r: Dedup.Row)
    requires Dedup.Faithful(r) && r.origin.None?
    ensures Dedup.Apply([r], Dedup.RestoreBackup(Dedup.Identities([r]))) == [r]
  {
    hide Dedup.Apply, Dedup.Faithful;
    Dedup.OwnIdentitiesAddNothing([r], [r]);
    forall fp {
      Dedup.UnmovedRowsCounted([r], fp);
    }
  }

  lemma ArchivedRowDoubles(ids: NextIds, account: Account, txn: Txn)
    requires AccountPrintable(account) && account.archivedAt.Some? && account.id < ids.account
    requires Dedup.Faithful(txn.row) && txn.row.origin.None? && txn.confirmedAt.Some?
    requires txn.row.identity.account == account.id && txn.categoryId.None?
    ensures var src := Tenant([account], [], [txn]);
            |Restore(src, ids, Export(src)).txns| == 2
  {
    hide Restore, Export, Strip, Dedup.Faithful, Confirmed, AccountIds, AccountsWithin, References, InrTenant;
    var src := Tenant([account], [], [txn]);
    OneRowSelected(account, txn);
    OneRowRefers(account, txn);
    OneRowInr(src, account, txn);
    OneRowFresh(src, ids, account, txn);
    OneRowName(src, account, txn);
    InactiveIsAdded(src, ids, txn);
    AtMostConfirmedAdded(src, ids);
  }

  lemma OneRowFresh(src: Tenant, ids: NextIds, account: Account, txn: Txn)
    requires src == Tenant([account], [], [txn]) && account.id < ids.account
    requires Dedup.Faithful(txn.row) && txn.row.origin.None? && txn.row.identity.account == account.id
    ensures FreshIds(src, ids)
  {
    hide Dedup.Faithful;
  }

  lemma OneRowName(src: Tenant, account: Account, txn: Txn)
    requires src == Tenant([account], [], [txn]) && txn.row.identity.account == account.id
    requires account.archivedAt.Some? && Strip(account.name) != "" && ExportedAccounts(src) == [account]
    ensures RestoredName(src, txn) != "" && ActiveAccounts(src.accounts) == map[]
  {
    hide Strip, ExportedAccounts;
    assert Init([account]) == [] && Last([account]) == account;
  }

  lemma AtMostConfirmedAdded(src: Tenant, ids: NextIds)
    ensures |Restore(src, ids, Export(src)).txns| <= |src.txns| + |Confirmed(src.txns)|
  {
    hide Restore, UpsertAccounts, UpsertCategories, ParseTransaction, Persisted, Rows, Txns, Confirmed, Accepted;
    RestoreParts(src, ids, Export(src));
    AcceptedFewer(Export(src).transactions, ParseTransaction);
    InsertedIds(Rows(src.txns), ids.txn,
                UpsertAccounts(src.accounts, ids.account, Accepted(Export(src).accounts, ParseAccount)).resolved,
                UpsertCategories(src.categories, ids.category,
                                 Accepted(Export(src).categories, ParseCategory)).resolved,
                Accepted(Export(src).transactions, ParseTransaction));
  }
}
