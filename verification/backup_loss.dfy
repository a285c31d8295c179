/** When a backup of a tenant comes back unchanged, and exactly what it loses when it does not. */
module BackupLosses {
  import opened Sequences
  import opened StableSorting
  import opened Fingerprints
  import opened BackupFormat
  import opened BackupUpserts
  import opened BackupExports
  import opened BackupRestores
  import opened BackupRepeats
  import opened BackupRoundTrips
  import Dedup
  import Labels

  // ----- unchanged -----

  lemma KeptAccountUnchanged(a: AccountRow)
    requires a.currency == "INR" && Strip(a.name) != ""
    ensures KeptAccount(a) == a <==> AccountRowPrintable(a)
  {
    AccountRoundTrip(a);
  }

  /** Labels are listed by name, as every query of them is, and each is its own normal form. */
  ghost predicate TextsClean(t: Txn) {
    OptionClean(t.merchantRaw) && Labels.Ascending(t.labels) && forall s <- t.labels :: Labels.IsKeptLabel(s)
  }

  lemma KeptUnchanged(src: Tenant, t: Txn)
    requires AccountsFit(ExportedAccounts(src)) && t in Confirmed(src.txns) && References(src, t)
    ensures var a, v := FindAccount(src.accounts, t.row.identity.account), ViewOf(src.accounts, src.categories, t);
            a.Some? && a.value in ExportedAccounts(src)
            && (Kept(v) == v <==> AccountRowPrintable(AccountRowOf(a.value)) && TextsClean(t))
  {
    hide ExportedAccounts, Strip, KeptAccount, AccountRowPrintable;
    PrintedName(src, t);
    var a := FindAccount(src.accounts, t.row.identity.account).value;
    assert AccountPrintable(a);
    KeptAccountUnchanged(AccountRowOf(a));
    CellRoundTrip(t.merchantRaw);
    Labels.LabelsComeBackIff(t.labels);
    hide Labels.RestoredLabels, Labels.Ascending, Labels.IsKeptLabel, Get;
  }

  lemma ExportedIsUsed(src: Tenant, a: Account) returns (t: Txn)
    requires Listed(src) && a in ExportedAccounts(src)
    ensures t in Confirmed(src.txns) && FindAccount(src.accounts, t.row.identity.account) == Some(a)
  {
    var ids := AccountIds(Confirmed(src.txns));
    AccountsWithinOrder(src.accounts, ids);
    t :| t in Confirmed(src.txns) && t.row.identity.account == a.id;
    FindListedAccount(src.accounts, a);
  }

  /** The i-th restored transaction says what the i-th confirmed one does. */
  ghost predicate Unchanged(src: Tenant, ids: NextIds, i: nat) {
    var dst, conf := Restore(EMPTY, ids, Export(src)), Confirmed(src.txns);
    i < |dst.txns| == |conf|
    && ViewOf(dst.accounts, dst.categories, dst.txns[i]) == ViewOf(src.accounts, src.categories, conf[i])
  }

  lemma UnchangedIff(src: Tenant, ids: NextIds, i: nat)
    requires WellFormed(src) && i < |Confirmed(src.txns)|
    ensures var t := Confirmed(src.txns)[i];
            var a := FindAccount(src.accounts, t.row.identity.account);
            a.Some? && a.value in ExportedAccounts(src)
            && (Unchanged(src, ids, i) <==> AccountRowPrintable(AccountRowOf(a.value)) && TextsClean(t))
  {
    hide Restore, Export, ViewOf, Kept, AccountRowPrintable, TextsClean, ExportedAccounts, Confirmed, FindAccount;
    BackupRoundTrip(src, ids);
    KeptUnchanged(src, Confirmed(src.txns)[i]);
  }

  /**
   * Every confirmed transaction comes back exactly as it was if and only if each account in use has a clean
   * name, a clean lower-case issuer and four digits, where it has them, no raw merchant is empty or has whitespace
   * at an end, and every label is its own normal form: no leading hash, in particular.
   */
  lemma RoundTripUnchangedIff(src: Tenant, ids: NextIds)
    requires WellFormed(src)
    ensures (forall i :: 0 <= i < |Confirmed(src.txns)| ==> Unchanged(src, ids, i))
            <==> (forall a <- ExportedAccounts(src) :: AccountRowPrintable(AccountRowOf(a)))
                 && forall t <- Confirmed(src.txns) :: TextsClean(t)
  {
    hide Unchanged, AccountRowPrintable, TextsClean, ExportedAccounts, Confirmed, FindAccount;
    var conf := Confirmed(src.txns);
    forall i | 0 <= i < |conf| {
      UnchangedIff(src, ids, i);
    }
    if forall i :: 0 <= i < |conf| ==> Unchanged(src, ids, i) {
      forall a | a in ExportedAccounts(src)
        ensures AccountRowPrintable(AccountRowOf(a))
      {
        var t := ExportedIsUsed(src, a);
        var i :| 0 <= i < |conf| && conf[i] == t;
        assert Unchanged(src, ids, i);
      }
    }
  }

  // ----- transactions lost -----

  /** Every exported account is in INR; nothing is asked of its name. */
  ghost predicate InrTenant(src: Tenant) {
    && (forall a <- ExportedAccounts(src) :: a.currency == "INR")
    && (forall t <- Confirmed(src.txns) :: References(src, t))
  }

  lemma {:induction false} AcceptedFewer<R, T>(records: seq<R>, parse: R -> Result<T>)
    ensures |Accepted(records, parse)| <= |records|
    ensures (exists r <- records :: parse(r).Rejected?) ==> |Accepted(records, parse)| < |records|
  {
    if records != [] {
      InitLast(records);
      AcceptedFewer(Init(records), parse);
    }
  }

  lemma NamesResolved(n: nat, rows: seq<AccountRow>)
    ensures forall row <- rows :: row.name in UpsertAccounts([], n, rows).resolved
  {
    SortMembers(rows, ACTIVE_FIRST);
    assert ActiveAccounts([]) == map[];
    ResolvedAreNamed(map[], Start([], n), StableSort(rows, ACTIVE_FIRST));
  }

  function RestoredRows(src: Tenant, ids: NextIds): seq<Inserted> {
    Persisted([], ids.txn, UpsertAccounts([], ids.account, Accepted(Export(src).accounts, ParseAccount)).resolved,
              UpsertCategories([], ids.category, Accepted(Export(src).categories, ParseCategory)).resolved,
              Accepted(Export(src).transactions, ParseTransaction))
  }

  lemma RestoredTxns(src: Tenant, ids: NextIds)
    ensures Restore(EMPTY, ids, Export(src)).txns == Relinked(RestoredRows(src, ids))
  {
    hide Export, Accepted, UpsertAccounts, UpsertCategories, Persisted, Relinked;
    assert Rows([]) == [];
  }

  lemma SomeBlankLoses(src: Tenant, ids: NextIds, t: Txn)
    requires InrTenant(src) && t in Confirmed(src.txns)
    requires Strip(AccountName(ExportedAccounts(src), t.row.identity.account)) == ""
    ensures |RestoredRows(src, ids)| < |Confirmed(src.txns)|
  {
    var records, rows, conf := Export(src).transactions, TransactionRows(src), Confirmed(src.txns);
    var i :| 0 <= i < |conf| && conf[i] == t;
    TransactionRoundTrip(rows[i]);
    assert records[i] == PrintTransaction(rows[i]) && records[i] in records;
    hide ParseTransaction, PrintTransaction, Export, Persisted, UpsertAccounts, UpsertCategories, InrTenant;
    AcceptedFewer(records, ParseTransaction);
    InsertedIds([], ids.txn, UpsertAccounts([], ids.account, Accepted(Export(src).accounts, ParseAccount)).resolved,
                UpsertCategories([], ids.category, Accepted(Export(src).categories, ParseCategory)).resolved,
                Accepted(records, ParseTransaction));
  }

  /** The account a row is restored under is among the restored ones. */
  lemma KeptRowName(src: Tenant, i: nat)
    requires InrTenant(src) && i < |Confirmed(src.txns)|
    ensures var row := KeptTransactionRows(src)[i];
            && row.accountName == Strip(AccountName(ExportedAccounts(src), Confirmed(src.txns)[i].row.identity.account))
            && exists a <- KeptAccountRows(src) :: a.name == row.accountName
  {
    hide Strip, ExportedAccounts, Get, SplitLabels, LabelCell, CategoryAt;
    var t, accounts := Confirmed(src.txns)[i], ExportedAccounts(src);
    PrintedName(src, t);
    var a := FindAccount(src.accounts, t.row.identity.account).value;
    var k :| 0 <= k < |accounts| && accounts[k] == a;
    assert KeptAccountRows(src)[k] == KeptAccount(AccountRowOf(a));
    assert KeptAccountRows(src)[k] in KeptAccountRows(src);
  }

  lemma NoBlankKeepsAll(src: Tenant, ids: NextIds)
    requires InrTenant(src) && forall a <- ExportedAccounts(src) :: Strip(a.name) != ""
    ensures var accounts := UpsertAccounts([], ids.account, KeptAccountRows(src)).resolved;
            var categories := UpsertCategories([], ids.category,
              Accepted(Export(src).categories, ParseCategory)).resolved;
            && (forall row <- KeptTransactionRows(src) :: row.accountName in accounts)
            && AllInserted(RestoredRows(src, ids), ids.txn, accounts, categories, KeptTransactionRows(src))
  {
    var rows, accountRows := KeptTransactionRows(src), KeptAccountRows(src);
    AccountsReadBack(src);
    TransactionsReadBack(src);
    NamesResolved(ids.account, accountRows);
    forall i | 0 <= i < |rows|
      ensures exists a <- accountRows :: a.name == rows[i].accountName
    {
      KeptRowName(src, i);
    }
    hide UpsertAccounts, UpsertCategories, Persisted, Export, ExportedAccounts, Strip, Accepted, KeptTransactionRows,
         KeptAccountRows, InrTenant;
    PersistFresh(
      ids.txn, UpsertAccounts([], ids.account, accountRows).resolved,
      UpsertCategories([], ids.category, Accepted(Export(src).categories, ParseCategory)).resolved, rows);
  }

  /** No confirmed transaction is lost if and only if every account in use has more than whitespace for a name. */
  lemma NothingLostIffNamed(src: Tenant, ids: NextIds)
    requires Listed(src) && InrTenant(src)
    ensures |Restore(EMPTY, ids, Export(src)).txns| == |Confirmed(src.txns)|
            <==> forall a <- ExportedAccounts(src) :: Strip(a.name) != ""
  {
    hide Restore, Strip, ExportedAccounts, UpsertAccounts, UpsertCategories, RestoredRows, Accepted;
    RestoredTxns(src, ids);
    if forall a <- ExportedAccounts(src) :: Strip(a.name) != "" {
      NoBlankKeepsAll(src, ids);
    } else {
      var a :| a in ExportedAccounts(src) && Strip(a.name) == "";
      var t := ExportedIsUsed(src, a);
      PrintedName(src, t);
      SomeBlankLoses(src, ids, t);
    }
  }

  lemma OneRowIsLost(src: Tenant, ids: NextIds, account: Account)
    requires Listed(src) && InrTenant(src) && |Confirmed(src.txns)| == 1
    requires account in ExportedAccounts(src) && Strip(account.name) == ""
    ensures Restore(EMPTY, ids, Export(src)).txns == []
  {
    hide Restore, Export, Strip, ExportedAccounts, Confirmed, InrTenant, Listed;
    NothingLostIffNamed(src, ids);
    AtMostConfirmed(src, ids);
  }

  /** The name " ", which the account schema accepts, loses everything booked on it. */
  lemma BlankAccountLosesItsRows(ids: NextIds, date: Date, amountPaise: int, kind: TransactionKind, fp: string)
    ensures var account := Account(1, " ", Bank, None, None, 0, "INR", None);
            var txn := Txn(1, Dedup.Row(Identity(date, amountPaise, "tea", 1), fp, None, 0), kind, None, None, [],
                           Manual, Some(0), None);
            Restore(EMPTY, ids, Export(Tenant([account], [], [txn]))).txns == []
  {
    var account := Account(1, " ", Bank, None, None, 0, "INR", None);
    var txn := Txn(1, Dedup.Row(Identity(date, amountPaise, "tea", 1), fp, None, 0), kind, None, None, [], Manual,
                   Some(0), None);
    var src := Tenant([account], [], [txn]);
    OneRowSelected(account, txn);
    OneRowRefers(account, txn);
    OneRowListed(account, txn);
    BlankStrips();
    assert ExportedAccounts(src) == [account];
    hide Restore, Export, Strip, ExportedAccounts, Confirmed, InrTenant, Listed, References, AccountsWithin, AccountIds,
         FindAccount;
    OneRowInr(src, account, txn);
    OneRowIsLost(src, ids, account);
  }

  /** A label typed "##x" is stored as "#x" and restored as "x": each normalisation drops one hash. */
  lemma HashedLabelComesBackBare(ids: NextIds, date: Date, amountPaise: int, kind: TransactionKind, fp: string)
    ensures Labels.NormalizeLabel("##x") == Some("#x")
    ensures var account := Account(1, "a", Bank, None, None, 0, "INR", None);
            var txn := Txn(1, Dedup.Row(Identity(date, amountPaise, "tea", 1), fp, None, 0), kind, None, None, ["#x"],
                           Manual, Some(0), None);
            var dst := Restore(EMPTY, ids, Export(Tenant([account], [], [txn])));
            |dst.txns| == 1 && dst.txns[0].labels == ["x"]
  {
    var account := Account(1, "a", Bank, None, None, 0, "INR", None);
    var txn := Txn(1, Dedup.Row(Identity(date, amountPaise, "tea", 1), fp, None, 0), kind, None, None, ["#x"], Manual,
                   Some(0), None);
    hide Restore, Export, Strip, NormalizeMerchant, Labels.NormalizeLabel, Labels.RestoredLabels;
    Labels.HashIsDroppedAgain();
    Labels.HashComesBackBare();
    PlainWords();
    OneRowRestored(ids, account, txn);
  }

  lemma PlainWords()
    ensures Strip("a") == "a" && NormalizeMerchant("tea") == "tea"
  {
    Labels.NormalWord("a");
    Labels.NormalWord("tea");
  }

  lemma OneRowRestored(ids: NextIds, account: Account, txn: Txn)
    requires AccountPrintable(account) && TxnPrintable(txn) && txn.confirmedAt.Some?
    requires txn.row.identity.account == account.id && txn.categoryId.None? && txn.pairId.None?
    ensures var dst := Restore(EMPTY, ids, Export(Tenant([account], [], [txn])));
            |dst.txns| == 1 && dst.txns[0].labels == Labels.RestoredLabels(txn.labels)
  {
    var src := Tenant([account], [], [txn]);
    OneRowSelected(account, txn);
    OneRowRefers(account, txn);
    OneRowListed(account, txn);
    hide AccountPrintable, TxnPrintable, AccountsWithin, AccountIds, References, Listed, Confirmed, FindAccount;
    assert ExportedAccounts(src) == [account];
    hide ExportedAccounts;
    OneRowWellFormed(src, account, txn);
    OneRowLabels(src, ids, txn);
  }

  lemma OneRowLabels(src: Tenant, ids: NextIds, txn: Txn)
    requires WellFormed(src) && Confirmed(src.txns) == [txn]
    ensures var dst := Restore(EMPTY, ids, Export(src));
            |dst.txns| == 1 && dst.txns[0].labels == Labels.RestoredLabels(txn.labels)
  {
    hide Restore, Export, WellFormed, Confirmed, Labels.RestoredLabels, AccountView, CategoryView;
    BackupRoundTrip(src, ids);
    var dst := Restore(EMPTY, ids, Export(src));
    assert ViewOf(dst.accounts, dst.categories, dst.txns[0]) == Kept(ViewOf(src.accounts, src.categories, txn));
  }

  lemma OneRowWellFormed(src: Tenant, account: Account, txn: Txn)
    requires src == Tenant([account], [], [txn]) && Listed(src) && AccountPrintable(account)
    requires Confirmed([txn]) == [txn] && ExportedAccounts(src) == [account] && References(src, txn)
    requires TxnPrintable(txn) && txn.pairId.None?
    ensures WellFormed(src)
  {
    hide References, AccountPrintable, TxnPrintable, Confirmed, ExportedAccounts, AccountsWithin, AccountIds;
    assert ExportedCategories(src) == [];
    assert forall a <- [account] :: a == account;
    assert forall t <- [txn] :: t == txn;
  }

  lemma OneRowSelected(account: Account, txn: Txn)
    requires txn.confirmedAt.Some? && txn.row.identity.account == account.id
    ensures Confirmed([txn]) == [txn] && AccountsWithin([account], AccountIds([txn])) == [account]
    ensures FindAccount([account], account.id) == Some(account)
  {
    assert Init([txn]) == [] && Last([txn]) == txn;
    var used := AccountIds([txn]);
    assert account.id in used by { assert txn in [txn]; }
    assert Init([account]) == [] && Last([account]) == account;
    assert AccountsWithin([], used) == [];
  }

  lemma OneRowListed(account: Account, txn: Txn)
    ensures Listed(Tenant([account], [], [txn]))
  {
  }

  lemma OneRowInr(src: Tenant, account: Account, txn: Txn)
    requires Confirmed(src.txns) == [txn] && ExportedAccounts(src) == [account] && References(src, txn)
    requires account.currency == "INR"
    ensures InrTenant(src) && account in ExportedAccounts(src)
  {
    hide References;
    assert forall a <- [account] :: a == account;
    assert forall t <- [txn] :: t == txn;
  }

  lemma OneRowRefers(account: Account, txn: Txn)
    requires txn.row.identity.account == account.id && txn.categoryId.None?
    ensures References(Tenant([account], [], [txn]), txn)
  {
    assert Last([account]) == account;
  }

  lemma BlankStrips()
    ensures Strip(" ") == ""
  {
    var blank := " ";
    var rest := blank[1..];
    assert IsSpace(blank[0]) && rest == "";
    assert StripLeft(blank) == StripLeft(rest) == "";
    assert StripRight("") == "";
  }

  lemma AtMostConfirmed(src: Tenant, ids: NextIds)
    ensures |Restore(EMPTY, ids, Export(src)).txns| <= |Confirmed(src.txns)|
  {
    RestoredTxns(src, ids);
    hide ParseTransaction, Persisted, UpsertAccounts, UpsertCategories;
    AcceptedFewer(Export(src).transactions, ParseTransaction);
    InsertedIds([], ids.txn, UpsertAccounts([], ids.account, Accepted(Export(src).accounts, ParseAccount)).resolved,
                UpsertCategories([], ids.category, Accepted(Export(src).categories, ParseCategory)).resolved,
                Accepted(Export(src).transactions, ParseTransaction));
  }

  // ----- accounts merged -----

  lemma {:induction false} CreatedIds(n: nat, rows: seq<AccountRow>)
    ensures var s := FoldAccounts(map[], Start([], n), rows);
            && s.nextId == n + |s.store| && (forall i :: 0 <= i < |s.store| ==> s.store[i].id == n + i)
            && forall name <- s.resolved :: s.resolved[name] in s.store && s.resolved[name].name == name
  {
    if rows != [] {
      CreatedIds(n, Init(rows));
    }
  }

  lemma DistinctNamesDistinctIds(n: nat, rows: seq<AccountRow>, a: string, b: string)
    requires a in UpsertAccounts([], n, rows).resolved && b in UpsertAccounts([], n, rows).resolved
    ensures var resolved := UpsertAccounts([], n, rows).resolved;
            resolved[a].id == resolved[b].id <==> a == b
  {
    assert ActiveAccounts([]) == map[];
    CreatedIds(n, StableSort(rows, ACTIVE_FIRST));
  }

  lemma RestoredUnder(src: Tenant, ids: NextIds, i: nat)
    requires InrTenant(src) && (forall a <- ExportedAccounts(src) :: Strip(a.name) != "") && i < |Confirmed(src.txns)|
    ensures var dst := Restore(EMPTY, ids, Export(src));
            var accounts := UpsertAccounts([], ids.account, KeptAccountRows(src)).resolved;
            var name := Strip(AccountName(ExportedAccounts(src), Confirmed(src.txns)[i].row.identity.account));
            && |dst.txns| == |Confirmed(src.txns)|
            && name in accounts && dst.txns[i].row.identity.account == accounts[name].id
  {
    hide Restore, Strip, ExportedAccounts, UpsertAccounts, UpsertCategories, RestoredRows, Accepted, Partner, InrTenant,
         CategoryIdOf, KeptAccountRows, AccountName, Confirmed, Export, KeptTransaction, NormalizeMerchant,
         TransactionFingerprint, Labels.LinkedLabels;
    var rows, inserted := KeptTransactionRows(src), RestoredRows(src, ids);
    RestoredTxns(src, ids);
    NoBlankKeepsAll(src, ids);
    KeptRowName(src, i);
    assert rows[i] in rows;
    assert Restore(EMPTY, ids, Export(src)).txns[i].row == inserted[i].txn.row;
  }

  /**
   * Restored transactions share an account if and only if the names of their accounts agree once stripped:
   * "x" and "x ", or an archived account and its successor of the same name, become one.
   */
  lemma RestoredTogetherIffSameName(src: Tenant, ids: NextIds, i: nat, j: nat)
    requires InrTenant(src) && forall a <- ExportedAccounts(src) :: Strip(a.name) != ""
    requires i < |Confirmed(src.txns)| && j < |Confirmed(src.txns)|
    ensures var dst, conf := Restore(EMPTY, ids, Export(src)), Confirmed(src.txns);
            && |dst.txns| == |conf|
            && (dst.txns[i].row.identity.account == dst.txns[j].row.identity.account
                <==> Strip(AccountName(ExportedAccounts(src), conf[i].row.identity.account))
                     == Strip(AccountName(ExportedAccounts(src), conf[j].row.identity.account)))
  {
    hide Restore, Strip, ExportedAccounts, UpsertAccounts, AccountName, Confirmed, Export, InrTenant, KeptAccountRows;
    RestoredUnder(src, ids, i);
    RestoredUnder(src, ids, j);
    var accounts, conf := ExportedAccounts(src), Confirmed(src.txns);
    DistinctNamesDistinctIds(
      ids.account, KeptAccountRows(src), Strip(AccountName(accounts, conf[i].row.identity.account)),
      Strip(AccountName(accounts, conf[j].row.identity.account)));
  }
}
