/** Restoring the same backup a second time: what stays as it is, and exactly what is added again. */
module BackupRepeats {
  import opened Sequences
  import opened StableSorting
  import opened Fingerprints
  import opened BackupFormat
  import opened BackupUpserts
  import opened BackupExports
  import opened BackupRestores
  import opened CategoryRepeats
  import Dedup

  function Start(store: seq<Account>, nextId: nat): AccountUpsert {
    AccountUpsert(store, nextId, map[], 0, 0, 0)
  }

  /** A name the file has only archived, and the store not active: every restore creates it anew. */
  predicate IsLost(active: set<string>, rows: seq<AccountRow>, name: string) {
    name !in active && Named(rows, name) && !HasUnarchived(rows, name)
  }

  // ----- the active accounts after a pass -----

  lemma ActiveSnoc(store: seq<Account>, a: Account)
    ensures ActiveAccounts(store + [a]) ==
            if a.archivedAt.None? then ActiveAccounts(store)[a.name := a] else ActiveAccounts(store)
  {
    assert Init(store + [a]) == store;
  }

  /** The accounts active after a pass are those active before and the unarchived ones it resolved. */
  ghost predicate ActiveAfter(active: map<string, Account>, now: map<string, Account>, resolved: map<string, Account>) {
    && (forall name <- active :: name in now && now[name] == active[name])
    && (forall name <- now :: name in active || (name in resolved && now[name] == resolved[name]))
    && (forall name <- resolved ::
          if name in active then resolved[name] == active[name]
          else name in now <==> resolved[name].archivedAt.None?)
  }

  lemma ActiveAfterStep(active: map<string, Account>, s: AccountUpsert, row: AccountRow)
    requires ActiveAfter(active, ActiveAccounts(s.store), s.resolved)
    requires forall name <- active :: active[name].name == name
    ensures var after := UpsertAccount(active, s, row);
            ActiveAfter(active, ActiveAccounts(after.store), after.resolved)
  {
    hide ActiveAccounts;
    if row.name !in s.resolved && row.name !in active {
      ActiveSnoc(s.store, NewAccount(s.nextId, row));
    }
  }

  lemma {:induction false} PassLeavesActive(store: seq<Account>, nextId: nat, rows: seq<AccountRow>)
    ensures var active, s := ActiveAccounts(store), FoldAccounts(ActiveAccounts(store), Start(store, nextId), rows);
            ActiveAfter(active, ActiveAccounts(s.store), s.resolved)
  {
    if rows != [] {
      hide ActiveAfter, UpsertAccount;
      PassLeavesActive(store, nextId, Init(rows));
      ActiveAfterStep(
        ActiveAccounts(store), FoldAccounts(ActiveAccounts(store), Start(store, nextId), Init(rows)), Last(rows));
    }
  }

  // ----- the second pass -----

  /**
   * Over the names active by then the second pass resolves as the first did; the store stays as it is
   * exactly when the file has no other name.
   */
  lemma {:induction false} SecondPass(
    active: map<string, Account>, start: AccountUpsert, rows: seq<AccountRow>, again: map<string, Account>,
    later: AccountUpsert)
    requires later.resolved == map[] && start.resolved == map[]
    requires var s := FoldAccounts(active, start, rows);
             && (forall name <- active :: name in again && again[name] == active[name])
             && (forall name <- s.resolved :: name in again ==> again[name] == s.resolved[name])
    ensures var s, t := FoldAccounts(active, start, rows), FoldAccounts(again, later, rows);
            && (forall name <- again :: name in t.resolved <==> name in s.resolved)
            && (forall name <- again :: name in s.resolved ==> t.resolved[name] == s.resolved[name])
            && later.store <= t.store && (t.store == later.store <==> forall row <- rows :: row.name in again)
            && (forall name <- t.resolved :: name !in again ==> name in s.resolved && t.store != later.store)
  {
    if rows != [] {
      InitLast(rows);
      assert Last(rows) in rows;
      var s := FoldAccounts(active, start, Init(rows));
      UpsertAccountResolves(active, s, Last(rows));
      SecondPass(active, start, Init(rows), again, later);
      var t := FoldAccounts(again, later, Init(rows));
      SecondPassStep(active, s, again, t, Last(rows));
    }
  }

  lemma SecondPassStep(
    active: map<string, Account>, s: AccountUpsert, again: map<string, Account>, t: AccountUpsert, row: AccountRow)
    requires var after := UpsertAccount(active, s, row);
             && (forall name <- active :: name in again && again[name] == active[name])
             && (forall name <- after.resolved :: name in again ==> again[name] == after.resolved[name])
    requires forall name <- again :: name in t.resolved <==> name in s.resolved
    requires forall name <- again :: name in s.resolved ==> t.resolved[name] == s.resolved[name]
    requires forall name <- t.resolved :: name !in again ==> name in s.resolved
    ensures var s', t' := UpsertAccount(active, s, row), UpsertAccount(again, t, row);
            && (forall name <- again :: name in t'.resolved <==> name in s'.resolved)
            && (forall name <- again :: name in s'.resolved ==> t'.resolved[name] == s'.resolved[name])
            && (forall name <- t'.resolved :: name !in again ==> name in s'.resolved)
            && t.store <= t'.store && (row.name in again ==> t'.store == t.store)
            && (row.name !in again && row.name !in t.resolved ==> |t'.store| == |t.store| + 1)
  {
  }

  /** What is active after the first restore: what was, and every name of the file that is not lost. */
  lemma ActiveUnlessLost(store: seq<Account>, nextId: nat, rows: seq<AccountRow>)
    ensures var once, active := UpsertAccounts(store, nextId, rows), ActiveAccounts(store);
            && ActiveAfter(active, ActiveAccounts(once.store), once.resolved)
            && (forall name :: Named(rows, name) ==>
                  (name in ActiveAccounts(once.store) <==> !IsLost(active.Keys, rows, name)))
            && (forall name <- once.resolved :: Named(rows, name))
            && (forall row <- rows :: row.name in active || row.name in once.resolved)
  {
    var sorted, active := StableSort(rows, ACTIVE_FIRST), ActiveAccounts(store);
    var once := UpsertAccounts(store, nextId, rows);
    SortMembers(rows, ACTIVE_FIRST);
    PassLeavesActive(store, nextId, sorted);
    ResolvedAreNamed(active, Start(store, nextId), sorted);
    forall row | row in rows && row.name !in active
      ensures row.name in ActiveAccounts(once.store) <==> HasUnarchived(rows, row.name)
    {
      ActiveRowWins(store, nextId, rows, row);
    }
    hide StableSort, FoldAccounts, ActiveAccounts, HasUnarchived;
  }

  lemma UpsertingTwice(store: seq<Account>, nextId: nat, laterId: nat, rows: seq<AccountRow>)
    ensures var once := UpsertAccounts(store, nextId, rows);
            var twice := UpsertAccounts(once.store, laterId, rows);
            var active, again := ActiveAccounts(store).Keys, ActiveAccounts(once.store);
            && (twice.store == once.store <==> forall row <- rows :: !IsLost(active, rows, row.name))
            && (forall name :: !IsLost(active, rows, name) ==>
                  && (name in twice.resolved <==> name in once.resolved)
                  && (name in once.resolved ==> twice.resolved[name] == once.resolved[name]))
            && (forall row <- rows :: IsLost(active, rows, row.name) ==>
                  row.name !in again && row.name in twice.resolved)
  {
    var sorted := StableSort(rows, ACTIVE_FIRST);
    var once := UpsertAccounts(store, nextId, rows);
    SortMembers(rows, ACTIVE_FIRST);
    ActiveUnlessLost(store, nextId, rows);
    ActiveUnlessLost(once.store, laterId, rows);
    assert forall row <- rows :: Named(rows, row.name);
    hide StableSort, ActiveAccounts, FoldAccounts, HasUnarchived, Named;
    var again := ActiveAccounts(once.store);
    SecondPass(ActiveAccounts(store), Start(store, nextId), sorted, again, Start(once.store, laterId));
    LostIsNamed(ActiveAccounts(store).Keys, rows);
  }

  lemma LostIsNamed(active: set<string>, rows: seq<AccountRow>)
    ensures forall name :: IsLost(active, rows, name) ==> name !in active && Named(rows, name)
  {
  }

  // ----- transactions -----

  /** Rows already persisted for a file are all accounted for when the same lines come again. */
  lemma PersistingTwice(
    store: seq<Dedup.Row>, firstId: nat, laterId: nat, accounts: AccountsByName, laterAccounts: AccountsByName,
    categories: CategoriesByKey, laterCategories: CategoriesByKey, rows: seq<TransactionRow>)
    requires Lines(laterAccounts, rows) == Lines(accounts, rows)
    ensures var once := store + Rows(Txns(Persisted(store, firstId, accounts, categories, rows)));
            Persisted(once, laterId, laterAccounts, laterCategories, rows) == []
  {
    var lines := Lines(accounts, rows);
    var once := store + Dedup.Staged(store, lines, false);
    PersistStages(store, firstId, accounts, categories, rows);
    forall fp
      ensures Dedup.Wanted(lines, fp) <= Dedup.CountKey(once, fp)
    {
      Dedup.ImportReachesMaximum(store, lines, false, fp);
    }
    Dedup.StagesNothing(once, lines, false);
    PersistStages(once, laterId, laterAccounts, laterCategories, rows);
  }

  lemma {:induction false} SameLines(a: AccountsByName, b: AccountsByName, rows: seq<TransactionRow>)
    requires forall row <- rows :: row.accountName in a <==> row.accountName in b
    requires forall row <- rows :: row.accountName in a ==> a[row.accountName] == b[row.accountName]
    ensures Lines(a, rows) == Lines(b, rows)
  {
    hide LineOf;
    if rows != [] {
      InitLast(rows);
      assert Last(rows) in rows;
      SameLines(a, b, Init(rows));
    }
  }

  lemma RelinkKeepsRows(before: seq<Txn>, inserted: seq<Inserted>)
    ensures Rows(before + Relinked(inserted)) == Rows(before) + Rows(Txns(inserted))
  {
  }

  /** Ids are handed out above everything stored, in the account table and in the rows' source lines. */
  ghost predicate FreshIds(tenant: Tenant, ids: NextIds) {
    && (forall a <- tenant.accounts :: a.id < ids.account)
    && (forall r <- Rows(tenant.txns) :: OfAccountsBelow(r, ids.account))
  }

  /** Account ids go on from where the first restore left off. */
  predicate LaterIds(tenant: Tenant, ids: NextIds, later: NextIds, backup: Backup) {
    UpsertAccounts(tenant.accounts, ids.account, Accepted(backup.accounts, ParseAccount)).nextId <= later.account
  }

  lemma {:induction false} ResolvedBelow(active: map<string, Account>, s: AccountUpsert, rows: seq<AccountRow>)
    requires (forall name <- active :: active[name].id < s.nextId)
    requires (forall name <- s.resolved :: s.resolved[name].id < s.nextId)
    ensures var after := FoldAccounts(active, s, rows);
            s.nextId <= after.nextId && forall name <- after.resolved :: after.resolved[name].id < after.nextId
  {
    if rows != [] {
      ResolvedBelow(active, s, Init(rows));
    }
  }

  lemma {:induction false} LineAccounts(accounts: AccountsByName, rows: seq<TransactionRow>, n: nat)
    requires forall name <- accounts :: accounts[name].id < n
    ensures forall line <- Lines(accounts, rows) :: Dedup.Fingerprinted(line) && 0 <= line.identity.account < n
  {
    hide LineOf, Dedup.Fingerprinted;
    if rows != [] {
      LineAccounts(accounts, Init(rows), n);
      if Last(rows).accountName in accounts {
        LineIsFingerprinted(accounts[Last(rows).accountName], Last(rows));
      }
    }
  }

  lemma {:induction false} UnstampedHaveNoOrigin(store: seq<Dedup.Row>, lines: seq<Dedup.Parsed>)
    ensures forall r <- Dedup.Staged(store, lines, false) :: r.origin.None?
  {
    if lines != [] {
      UnstampedHaveNoOrigin(store, Init(lines));
    }
  }

  lemma InsertedBelow(
    store: seq<Dedup.Row>, nextId: nat, accounts: AccountsByName, categories: CategoriesByKey,
        rows: seq<TransactionRow>,
    n: nat)
    requires forall name <- accounts :: accounts[name].id < n
    ensures forall r <- Rows(Txns(Persisted(store, nextId, accounts, categories, rows))) :: OfAccountsBelow(r, n)
  {
    var lines := Lines(accounts, rows);
    LineAccounts(accounts, rows, n);
    PersistStages(store, nextId, accounts, categories, rows);
    Dedup.StagedOrdinalsAreFree(store, lines, false);
    UnstampedHaveNoOrigin(store, lines);
    forall r | r in Dedup.Staged(store, lines, false)
      ensures OfAccountsBelow(r, n)
    {
      assert Dedup.StagedRow(store, lines, r) && Dedup.Parsed(r.identity, r.fp) in lines;
    }
  }

  lemma BelowStaysBelow(rows: seq<Dedup.Row>, n: nat, m: nat)
    requires n <= m && forall r <- rows :: OfAccountsBelow(r, n)
    ensures forall r <- rows :: OfAccountsBelow(r, m)
  {
  }

  lemma RowWanted(accounts: AccountsByName, rows: seq<TransactionRow>, row: TransactionRow)
    requires row in rows && row.accountName in accounts
    ensures Dedup.Wanted(Lines(accounts, rows), LineOf(accounts[row.accountName], row).fp) >= 1
  {
    var lines, line := Lines(accounts, rows), LineOf(accounts[row.accountName], row);
    RowHasLine(accounts, rows, row);
    var i :| 0 <= i < |lines| && lines[i] == line;
    assert Dedup.Keys(lines)[i] == line.fp;
    assert line.fp in Dedup.Keys(lines);
  }

  lemma {:induction false} RowHasLine(accounts: AccountsByName, rows: seq<TransactionRow>, row: TransactionRow)
    requires row in rows && row.accountName in accounts
    ensures LineOf(accounts[row.accountName], row) in Lines(accounts, rows)
  {
    hide LineOf;
    InitLast(rows);
    if row != Last(rows) {
      RowHasLine(accounts, Init(rows), row);
    }
  }

  // ----- the whole restore, twice -----

  predicate Lost(tenant: Tenant, backup: Backup, name: string) {
    IsLost(ActiveAccounts(tenant.accounts).Keys, Accepted(backup.accounts, ParseAccount), name)
  }

  lemma RestoreParts(tenant: Tenant, ids: NextIds, backup: Backup)
    ensures var accounts := UpsertAccounts(tenant.accounts, ids.account, Accepted(backup.accounts, ParseAccount));
            var categories := UpsertCategories(tenant.categories, ids.category,
              Accepted(backup.categories, ParseCategory));
            var inserted := Persisted(Rows(tenant.txns), ids.txn, accounts.resolved, categories.resolved,
                                      Accepted(backup.transactions, ParseTransaction));
            var after := Restore(tenant, ids, backup);
            && after.accounts == accounts.store && after.categories == categories.store
            && after.txns == tenant.txns + Relinked(inserted)
            && Rows(after.txns) == Rows(tenant.txns) + Rows(Txns(inserted))
  {
    var accounts := UpsertAccounts(tenant.accounts, ids.account, Accepted(backup.accounts, ParseAccount));
    var categories := UpsertCategories(tenant.categories, ids.category, Accepted(backup.categories, ParseCategory));
    hide UpsertAccounts, UpsertCategories, Persisted, Rows, Txns, Relinked, Accepted;
    RelinkKeepsRows(tenant.txns, Persisted(Rows(tenant.txns), ids.txn, accounts.resolved, categories.resolved,
                                           Accepted(backup.transactions, ParseTransaction)));
  }

  /**
   * The accounts stay as they are if and only if no name is lost: every archived row's name is active in the
   * store or has an unarchived row in the file.
   */
  lemma AccountsStayIffNoneLost(tenant: Tenant, ids: NextIds, later: NextIds, backup: Backup)
    ensures var once := Restore(tenant, ids, backup);
            Restore(once, later, backup).accounts == once.accounts
            <==> forall row <- Accepted(backup.accounts, ParseAccount) :: !Lost(tenant, backup, row.name)
  {
    var once := Restore(tenant, ids, backup);
    RestoreParts(tenant, ids, backup);
    RestoreParts(once, later, backup);
    hide UpsertAccounts, UpsertCategories, Persisted, Rows, Txns, Relinked, Accepted, Restore, ActiveAccounts, IsLost;
    UpsertingTwice(tenant.accounts, ids.account, later.account, Accepted(backup.accounts, ParseAccount));
  }

  /** No transaction is added when none of the file's is booked on a lost name. */
  lemma TransactionsStay(tenant: Tenant, ids: NextIds, later: NextIds, backup: Backup)
    requires forall row <- Accepted(backup.transactions, ParseTransaction) :: !Lost(tenant, backup, row.accountName)
    ensures var once := Restore(tenant, ids, backup);
            Restore(once, later, backup).txns == once.txns
  {
    var accountRows, rows := Accepted(backup.accounts, ParseAccount), Accepted(backup.transactions, ParseTransaction);
    var categoryRows := Accepted(backup.categories, ParseCategory);
    var once := Restore(tenant, ids, backup);
    RestoreParts(tenant, ids, backup);
    RestoreParts(once, later, backup);
    hide UpsertAccounts, UpsertCategories, Persisted, Rows, Txns, Relinked, Accepted, Restore, ActiveAccounts,
         IsLost, Lines;
    UpsertingTwice(tenant.accounts, ids.account, later.account, accountRows);
    var accounts := UpsertAccounts(tenant.accounts, ids.account, accountRows).resolved;
    var laterAccounts := UpsertAccounts(once.accounts, later.account, accountRows).resolved;
    SameLines(laterAccounts, accounts, rows);
    PersistingTwice(
      Rows(tenant.txns), ids.txn, later.txn, accounts, laterAccounts,
      UpsertCategories(tenant.categories, ids.category, categoryRows).resolved,
      UpsertCategories(once.categories, later.category, categoryRows).resolved, rows);
    NothingRelinked(once.txns);
  }

  lemma NothingRelinked(txns: seq<Txn>)
    ensures txns + Relinked([]) == txns
  {
    assert Relinked([]) == [];
  }

  /** A transaction of the file booked on a lost name is added again. */
  lemma LostTransactionIsAdded(tenant: Tenant, ids: NextIds, later: NextIds, backup: Backup, row: TransactionRow)
    requires FreshIds(tenant, ids)
    requires LaterIds(tenant, ids, later, backup)
    requires row in Accepted(backup.transactions, ParseTransaction) && Lost(tenant, backup, row.accountName)
    ensures var once := Restore(tenant, ids, backup);
            |Restore(once, later, backup).txns| > |once.txns|
  {
    var accountRows, rows := Accepted(backup.accounts, ParseAccount), Accepted(backup.transactions, ParseTransaction);
    var categoryRows := Accepted(backup.categories, ParseCategory);
    var once := Restore(tenant, ids, backup);
    RestoreParts(tenant, ids, backup);
    RestoreParts(once, later, backup);
    OnceIsBelow(tenant, ids, later, backup);
    var accountRow :| accountRow in accountRows && accountRow.name == row.accountName;
    hide UpsertAccounts, UpsertCategories, Persisted, Rows, Txns, Relinked, Accepted, Restore, ActiveAccounts,
         IsLost, Lines,
         LineOf, OfAccountsBelow;
    UpsertingTwice(tenant.accounts, ids.account, later.account, accountRows);
    var laterAccounts := UpsertAccounts(once.accounts, later.account, accountRows).resolved;
    var laterCategories := UpsertCategories(once.categories, later.category, categoryRows).resolved;
    var inserted := Persisted(Rows(once.txns), later.txn, laterAccounts, laterCategories, rows);
    ArchivedAccountIsDuplicated(
      once.accounts, later.account, accountRows, Rows(once.txns), later.txn, laterCategories, rows, row);
    RowWanted(laterAccounts, rows, row);
    SomethingInserted(inserted, LineOf(laterAccounts[row.accountName], row).fp);
  }

  lemma SomethingInserted(inserted: seq<Inserted>, fp: string)
    requires Dedup.CountKey(Rows(Txns(inserted)), fp) >= 1
    ensures |Relinked(inserted)| >= 1
  {
  }

  lemma OnceIsBelow(tenant: Tenant, ids: NextIds, later: NextIds, backup: Backup)
    requires FreshIds(tenant, ids)
    requires LaterIds(tenant, ids, later, backup)
    ensures forall r <- Rows(Restore(tenant, ids, backup).txns) :: OfAccountsBelow(r, later.account)
  {
    var accountRows := Accepted(backup.accounts, ParseAccount);
    var active := ActiveAccounts(tenant.accounts);
    assert forall name <- active :: active[name] in tenant.accounts;
    ResolvedBelow(active, Start(tenant.accounts, ids.account), StableSort(accountRows, ACTIVE_FIRST));
    var accounts := UpsertAccounts(tenant.accounts, ids.account, accountRows);
    var categories := UpsertCategories(tenant.categories, ids.category,
      Accepted(backup.categories, ParseCategory)).resolved;
    RestoreParts(tenant, ids, backup);
    hide UpsertAccounts, UpsertCategories, Persisted, Rows, Txns, Relinked, Accepted, Restore, ActiveAccounts,
         OfAccountsBelow;
    InsertedBelow(Rows(tenant.txns), ids.txn, accounts.resolved, categories,
                  Accepted(backup.transactions, ParseTransaction), later.account);
    BelowStaysBelow(Rows(tenant.txns), ids.account, later.account);
  }

  /**
   * Restoring a backup a second time adds a transaction if and only if one of the file's is booked on a
   * lost name: one the file holds only archived and the tenant had not active. An archived name that was
   * recreated, in the file or in the store, is not lost.
   */
  lemma TransactionsStayIffNoneLost(tenant: Tenant, ids: NextIds, later: NextIds, backup: Backup)
    requires FreshIds(tenant, ids)
    requires LaterIds(tenant, ids, later, backup)
    ensures var once := Restore(tenant, ids, backup);
            Restore(once, later, backup).txns == once.txns
            <==> forall row <- Accepted(backup.transactions, ParseTransaction) :: !Lost(tenant, backup, row.accountName)
  {
    hide Restore, Accepted, Lost, LaterIds, FreshIds;
    if row :| row in Accepted(backup.transactions, ParseTransaction) && Lost(tenant, backup, row.accountName) {
      LostTransactionIsAdded(tenant, ids, later, backup, row);
    } else {
      TransactionsStay(tenant, ids, later, backup);
    }
  }

  /** The categories stay as they are if and only if no key is lost in that sense, root rows deciding first. */
  lemma CategoriesStayIffNoneLost(tenant: Tenant, ids: NextIds, later: NextIds, backup: Backup)
    ensures var once, rows := Restore(tenant, ids, backup), Accepted(backup.categories, ParseCategory);
            Restore(once, later, backup).categories == once.categories
            <==> forall row <- rows :: !IsLostKey(ActiveCategories(tenant.categories).Keys, rows, row)
  {
    var once := Restore(tenant, ids, backup);
    RestoreParts(tenant, ids, backup);
    RestoreParts(once, later, backup);
    hide UpsertAccounts, UpsertCategories, Persisted, Rows, Txns, Relinked, Accepted, Restore, ActiveCategories,
         IsLostKey;
    UpsertingCategoriesTwice(tenant.categories, ids.category, later.category,
        Accepted(backup.categories, ParseCategory));
  }

  /**
   * Restoring any backup twice, over whatever the tenant held: the second time changes no account, no
   * transaction and no category, each exactly when nothing of its kind is lost.
   */
  lemma RestoringTwiceAddsNothing(tenant: Tenant, ids: NextIds, later: NextIds, backup: Backup)
    requires FreshIds(tenant, ids) && LaterIds(tenant, ids, later, backup)
    ensures var once, categoryRows := Restore(tenant, ids, backup), Accepted(backup.categories, ParseCategory);
            var twice := Restore(once, later, backup);
            && (twice.accounts == once.accounts
                <==> forall row <- Accepted(backup.accounts, ParseAccount) :: !Lost(tenant, backup, row.name))
            && (twice.txns == once.txns
                <==> forall row <- Accepted(backup.transactions, ParseTransaction) ::
                       !Lost(tenant, backup, row.accountName))
            && (twice.categories == once.categories
                <==> forall row <- categoryRows ::
                       !IsLostKey(ActiveCategories(tenant.categories).Keys, categoryRows, row))
  {
    hide Restore, Accepted, Lost, LaterIds, FreshIds, IsLostKey, ActiveCategories;
    AccountsStayIffNoneLost(tenant, ids, later, backup);
    TransactionsStayIffNoneLost(tenant, ids, later, backup);
    CategoriesStayIffNoneLost(tenant, ids, later, backup);
  }
}
