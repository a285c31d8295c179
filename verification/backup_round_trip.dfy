/** Exporting a tenant and restoring the file into an empty one gives the confirmed ledger back. */
module BackupRoundTrips {
  import opened Sequences
  import opened Text
  import opened StableSorting
  import opened Fingerprints
  import opened Occurrences
  import opened BackupFormat
  import opened BackupUpserts
  import opened BackupExports
  import opened BackupRestores
  import opened FreshUpserts
  import Dedup
  import Labels

  // ----- what a transaction says, whatever ids an installation gives its rows -----

  datatype View = View(
    account: Option<AccountRow>, date: Date, amountPaise: int, kind: TransactionKind, merchantRaw: Option<string>,
    merchant: string, category: Option<CategoryRow>, labels: seq<string>, source: Source, confirmedAt: Option<int>)

  function AccountView(accounts: seq<Account>, id: int): Option<AccountRow> {
    var a := FindAccount(accounts, id);
    if a.Some? then Some(AccountRowOf(a.value)) else None
  }

  /** A category with its parent's name. */
  function CategoryView(categories: seq<Category>, id: Option<nat>): Option<CategoryRow> {
    var c := CategoryAt(categories, id);
    if c.Some? then Some(CategoryRowOf(categories, c.value)) else None
  }

  function ViewOf(accounts: seq<Account>, categories: seq<Category>, t: Txn): View {
    var id := t.row.identity;
    View(AccountView(accounts, id.account), id.date, id.amountPaise, t.kind, t.merchantRaw, id.merchant,
         CategoryView(categories, t.categoryId), t.labels, t.source, t.confirmedAt)
  }

  /** What a backup keeps of it: the account's and the raw merchant's texts stripped, the labels normalised again. */
  function Kept(v: View): View {
    v.(account := if v.account.Some? then Some(KeptAccount(v.account.value)) else None,
       merchantRaw := Get(Cell(v.merchantRaw)), labels := Labels.RestoredLabels(v.labels))
  }

  // ----- the tenants the guarantee is for -----

  /** An INR account with something in its name besides whitespace. */
  predicate AccountPrintable(a: Account) {
    a.currency == "INR" && Strip(a.name) != ""
  }

  predicate CategoryPrintable(c: Category) {
    IsClean(c.name) && (c.color.Some? ==> IsHexColor(c.color.value))
  }

  /** Every write path normalises the merchant it stores. */
  predicate TxnPrintable(t: Txn) {
    Dedup.IsNormal(t.row.identity)
  }

  /** INR accounts whose stripped names are not empty and distinct. */
  ghost predicate AccountsFit(accounts: seq<Account>) {
    && (forall a <- accounts :: AccountPrintable(a))
    && (forall a <- accounts, b <- accounts :: Strip(a.name) == Strip(b.name) ==> a == b)
  }

  /** Distinct (name, kind). */
  ghost predicate CategoriesFit(categories: seq<Category>) {
    && (forall c <- categories :: CategoryPrintable(c))
    && (forall c <- categories, d <- categories :: KeyOf(c) == KeyOf(d) ==> c == d)
  }

  predicate ParentOf(p: Category, c: Category) {
    c.parentId == Some(p.id) && p.kind == c.kind && p.parentId.None?
  }

  ghost predicate ParentsFit(categories: seq<Category>) {
    forall c <- categories :: c.parentId.Some? ==> exists p <- categories :: ParentOf(p, c)
  }

  /** No foreign key of a confirmed row dangles. */
  ghost predicate References(src: Tenant, t: Txn) {
    FindAccount(src.accounts, t.row.identity.account).Some?
    && (t.categoryId.Some? ==> FindCategory(src.categories, t.categoryId.value).Some?)
  }

  predicate PartnerOf(u: Txn, t: Txn) {
    u != t && t.pairId == Some(u.id) && u.pairId == Some(t.id)
  }

  /** Transfer pairs are mutual, whether or not both legs are confirmed. */
  ghost predicate PairsMutual(txns: seq<Txn>) {
    forall t <- txns :: t.pairId.Some? ==> exists u <- txns :: PartnerOf(u, t)
  }

  ghost predicate WellFormed(src: Tenant) {
    && Listed(src) && ParentsFit(src.categories) && PairsMutual(src.txns)
    && AccountsFit(ExportedAccounts(src)) && CategoriesFit(ExportedCategories(src))
    && forall t <- Confirmed(src.txns) :: TxnPrintable(t) && References(src, t)
  }

  // ----- selection loses nothing a confirmed row refers to -----

  lemma {:induction false} FindAccountWithin(accounts: seq<Account>, ids: set<int>, id: int)
    requires id in ids
    ensures FindAccount(AccountsWithin(accounts, ids), id) == FindAccount(accounts, id)
  {
    if accounts != [] {
      FindAccountWithin(Init(accounts), ids, id);
      var s := AccountsWithin(accounts, ids);
      if Last(accounts).id in ids {
        assert Init(s) == AccountsWithin(Init(accounts), ids);
      }
    }
  }

  lemma {:induction false} FindCategoryWithin(categories: seq<Category>, ids: set<nat>, id: nat)
    requires id in ids
    ensures FindCategory(CategoriesWithin(categories, ids), id) == FindCategory(categories, id)
  {
    if categories != [] {
      FindCategoryWithin(Init(categories), ids, id);
      var s := CategoriesWithin(categories, ids);
      if Last(categories).id in ids {
        assert Init(s) == CategoriesWithin(Init(categories), ids);
      }
    }
  }

  lemma ParentsAreRoots(categories: seq<Category>, some: seq<Category>, c: Category)
    requires CategoriesListed(categories) && ParentsFit(categories) && c in categories && c.id in ParentIds(some)
    requires forall d <- some :: d in categories
    ensures c.parentId.None?
  {
    var d :| d in some && d.parentId == Some(c.id);
    var p :| p in categories && ParentOf(p, d);
    FindListed(categories, p);
    FindListed(categories, c);
  }

  /** The parent closure: an exported category's parent is exported with it. */
  lemma ExportedParent(src: Tenant, c: Category)
    requires CategoriesListed(src.categories) && ParentsFit(src.categories) && c in ExportedCategories(src)
    ensures CategoryAt(ExportedCategories(src), c.parentId) == CategoryAt(src.categories, c.parentId)
  {
    var referenced := CategoryIds(Confirmed(src.txns));
    var direct := CategoriesWithin(src.categories, referenced);
    CategoriesWithinOrder(src.categories, referenced);
    CategoriesWithinOrder(src.categories, referenced + ParentIds(direct));
    if c.parentId.Some? {
      if c.id in ParentIds(direct) {
        ParentsAreRoots(src.categories, direct, c);
      }
      assert c in direct;
      FindCategoryWithin(src.categories, referenced + ParentIds(direct), c.parentId.value);
    }
  }

  lemma FindListed(categories: seq<Category>, c: Category)
    requires CategoriesListed(categories) && c in categories
    ensures FindCategory(categories, c.id) == Some(c)
  {
    var r := FindCategory(categories, c.id);
    var i :| 0 <= i < |categories| && categories[i] == c;
    var j :| 0 <= j < |categories| && categories[j] == r.value;
  }

  lemma ViewFromExport(src: Tenant, t: Txn)
    requires CategoriesListed(src.categories) && ParentsFit(src.categories) && t in Confirmed(src.txns)
    ensures ViewOf(ExportedAccounts(src), ExportedCategories(src), t) == ViewOf(src.accounts, src.categories, t)
  {
    var conf := Confirmed(src.txns);
    var referenced := CategoryIds(conf);
    FindAccountWithin(src.accounts, AccountIds(conf), t.row.identity.account);
    if t.categoryId.Some? {
      assert t.categoryId.value in referenced;
      FindCategoryWithin(
        src.categories, referenced + ParentIds(CategoriesWithin(src.categories, referenced)), t.categoryId.value);
      var c := CategoryAt(ExportedCategories(src), t.categoryId);
      if c.Some? {
        ExportedParent(src, c.value);
      }
    }
  }

  // ----- every printed record is read back -----

  lemma {:induction false} AcceptedAll<R, T>(rows: seq<T>, write: T -> R, parse: R -> Result<T>, kept: T -> T)
    requires forall row <- rows :: parse(write(row)) == Ok(kept(row))
    ensures Accepted(Mapped(rows, write), parse) == Mapped(rows, kept)
  {
    if rows != [] {
      InitLast(rows);
      AcceptedAll(Init(rows), write, parse, kept);
      assert Init(Mapped(rows, write)) == Mapped(Init(rows), write);
    }
  }

  lemma MappedByIdentity<T>(rows: seq<T>)
    ensures Mapped(rows, row => row) == rows
  {
  }

  function KeptAccountRows(src: Tenant): seq<AccountRow> {
    Mapped(AccountRows(src), KeptAccount)
  }

  function KeptTransactionRows(src: Tenant): seq<TransactionRow> {
    Mapped(TransactionRows(src), KeptTransaction)
  }

  lemma AccountsReadBack(src: Tenant)
    requires forall a <- ExportedAccounts(src) :: AccountPrintable(a)
    ensures Accepted(Export(src).accounts, ParseAccount) == KeptAccountRows(src)
  {
    hide ParseAccount, PrintAccount, ExportedAccounts, KeptAccount, Strip;
    var accounts, rows := ExportedAccounts(src), AccountRows(src);
    forall row | row in rows
      ensures ParseAccount(PrintAccount(row)) == Ok(KeptAccount(row))
    {
      var i :| 0 <= i < |rows| && rows[i] == row;
      assert AccountPrintable(accounts[i]);
      AccountRoundTrip(row);
    }
    AcceptedAll(rows, PrintAccount, ParseAccount, KeptAccount);
  }

  lemma CategoriesReadBack(src: Tenant)
    requires CategoriesFit(ExportedCategories(src))
    ensures Accepted(Export(src).categories, ParseCategory) == CategoryRows(src)
  {
    hide ParseCategory, PrintCategory, ExportedCategories, FindCategory;
    var categories, rows := ExportedCategories(src), CategoryRows(src);
    forall row | row in rows
      ensures ParseCategory(PrintCategory(row)) == Ok(row)
    {
      var i :| 0 <= i < |rows| && rows[i] == row;
      assert CategoryPrintable(categories[i]);
      CategoryRoundTrip(row);
    }
    MappedByIdentity(rows);
    AcceptedAll(rows, PrintCategory, ParseCategory, row => row);
  }

  lemma TokenIsClean(t: Txn)
    ensures OptionClean(TransferGroup(t))
  {
    if t.pairId.Some? {
      var s := TransferGroup(t).value;
      assert s[0] in s && Last(s) in s;
    }
  }

  /** A confirmed row is printed under its account's own name. */
  lemma PrintedName(src: Tenant, t: Txn)
    requires t in Confirmed(src.txns) && References(src, t)
    ensures var a := FindAccount(src.accounts, t.row.identity.account);
            && FindAccount(ExportedAccounts(src), t.row.identity.account) == a
            && a.value in ExportedAccounts(src) && AccountName(ExportedAccounts(src), t.row.identity.account)
                == a.value.name
  {
    FindAccountWithin(src.accounts, AccountIds(Confirmed(src.txns)), t.row.identity.account);
  }

  lemma TransactionsReadBack(src: Tenant)
    requires forall a <- ExportedAccounts(src) :: AccountPrintable(a)
    requires forall t <- Confirmed(src.txns) :: References(src, t)
    ensures Accepted(Export(src).transactions, ParseTransaction) == KeptTransactionRows(src)
  {
    hide ParseTransaction, PrintTransaction, ExportedAccounts, ExportedCategories, Printable, KeptTransaction, Strip;
    var conf, rows := Confirmed(src.txns), TransactionRows(src);
    forall row | row in rows
      ensures ParseTransaction(PrintTransaction(row)) == Ok(KeptTransaction(row))
    {
      var i :| 0 <= i < |rows| && rows[i] == row;
      PrintedName(src, conf[i]);
      assert AccountPrintable(FindAccount(src.accounts, conf[i].row.identity.account).value);
      TransactionRoundTrip(row);
    }
    AcceptedAll(rows, PrintTransaction, ParseTransaction, KeptTransaction);
  }

  /** Stripping leaves alone what the theorem does not ask the view to strip. */
  lemma KeptTransactionIs(src: Tenant, t: Txn)
    requires CategoriesFit(ExportedCategories(src)) && TxnPrintable(t)
    ensures var row := TransactionRowOf(ExportedAccounts(src), ExportedCategories(src), t);
            KeptTransaction(row)
            == row.(accountName := Strip(row.accountName), merchantRaw := Get(Cell(row.merchantRaw)),
                    labels := SplitLabels(Get(LabelCell(row.labels))))
  {
    hide Strip, IsClean, SplitLabels, LabelCell;
    var c := CategoryAt(ExportedCategories(src), t.categoryId);
    NormalMerchantIsClean(t.row.identity.merchant);
    MerchantRoundTrip(t.row.identity.merchant);
    TokenIsClean(t);
    CellRoundTrip(TransferGroup(t));
    if c.Some? {
      assert CategoryPrintable(c.value);
    }
    CellRoundTrip(NameOf(c));
  }

  // ----- the exported rows are fit to be upserted -----

  lemma AccountRowsDecide(src: Tenant)
    requires AccountsFit(ExportedAccounts(src))
    ensures NamesDecide(KeptAccountRows(src))
  {
    hide ExportedAccounts, AccountPrintable, Strip;
    var accounts, rows := ExportedAccounts(src), KeptAccountRows(src);
    forall x, y | x in rows && y in rows && x.name == y.name
      ensures x == y
    {
      var i, j :| 0 <= i < |rows| && 0 <= j < |rows| && rows[i] == x && rows[j] == y;
      assert accounts[i] in accounts && accounts[j] in accounts;
    }
  }

  lemma CategoryRowsDecide(src: Tenant)
    requires CategoriesFit(ExportedCategories(src))
    ensures KeysDecide(CategoryRows(src))
  {
    hide ExportedCategories, CategoryPrintable;
    var categories, rows := ExportedCategories(src), CategoryRows(src);
    forall x, y | x in rows && y in rows && RowKey(x) == RowKey(y)
      ensures x == y
    {
      var i, j :| 0 <= i < |rows| && 0 <= j < |rows| && rows[i] == x && rows[j] == y;
      assert categories[i] in categories && categories[j] in categories;
      assert KeyOf(categories[i]) == KeyOf(categories[j]);
    }
  }

  lemma CategoryRowsListParents(src: Tenant)
    requires CategoriesListed(src.categories) && ParentsFit(src.categories)
    ensures ParentsListed(CategoryRows(src))
  {
    var categories, rows := ExportedCategories(src), CategoryRows(src);
    forall row | row in rows && row.parentName.Some?
      ensures exists p <- rows :: p.parentName.None? && RowKey(p) == ParentKey(row)
    {
      var i :| 0 <= i < |rows| && rows[i] == row;
      var c := categories[i];
      ExportedParent(src, c);
      ExportedIsStored(src, c);
      hide ExportedCategories;
      var p :| p in src.categories && ParentOf(p, c);
      FindListed(src.categories, p);
      assert CategoryAt(categories, c.parentId) == Some(p) && p in categories;
      var k :| 0 <= k < |categories| && categories[k] == p;
      assert rows[k].parentName.None? && RowKey(rows[k]) == ParentKey(row);
    }
  }

  lemma ExportedIsStored(src: Tenant, c: Category)
    requires CategoriesListed(src.categories) && c in ExportedCategories(src)
    ensures c in src.categories
  {
    var referenced := CategoryIds(Confirmed(src.txns));
    CategoriesWithinOrder(src.categories, referenced + ParentIds(CategoriesWithin(src.categories, referenced)));
  }

  // ----- nothing is skipped in an empty tenant -----

  /** Every row went in, numbered from n, its token beside it. */
  ghost predicate AllInserted(
    inserted: seq<Inserted>, n: nat, accounts: AccountsByName, categories: CategoriesByKey, rows: seq<TransactionRow>)
    requires forall row <- rows :: row.accountName in accounts
  {
    && |inserted| == |rows|
    && forall i :: 0 <= i < |rows| ==> InsertedFrom(inserted[i], n + i, accounts, categories, rows[i])
  }

  ghost predicate InsertedFrom(
    inserted: Inserted, id: nat, accounts: AccountsByName, categories: CategoriesByKey, row: TransactionRow)
    requires row.accountName in accounts
  {
    && inserted.group == row.transferGroup
    && inserted.txn
       == NewTxn(id, LineOf(accounts[row.accountName], row), inserted.txn.row.occurrence, categories, row)
  }

  lemma {:induction false} PersistFresh(
    n: nat, accounts: AccountsByName, categories: CategoriesByKey, rows: seq<TransactionRow>)
    requires forall row <- rows :: row.accountName in accounts
    ensures AllInserted(Persisted([], n, accounts, categories, rows), n, accounts, categories, rows)
  {
    hide LineOf, InsertedFrom, Persisted, NewTxn, Insertion, Lines;
    if rows == [] {
      NothingPersisted(n, accounts, categories);
    } else {
      InitLast(rows);
      PersistFresh(n, accounts, categories, Init(rows));
      var before := Persisted([], n, accounts, categories, Init(rows));
      var added := FreshInsertion(n + |before|, accounts, categories, rows);
      PersistedLast([], n, accounts, categories, rows);
      forall i | 0 <= i < |rows|
        ensures InsertedFrom((before + [added])[i], n + i, accounts, categories, rows[i])
      {
        if i < |before| {
          assert InsertedFrom(before[i], n + i, accounts, categories, Init(rows)[i]);
        }
      }
    }
  }

  lemma NothingPersisted(n: nat, accounts: AccountsByName, categories: CategoriesByKey)
    ensures Persisted([], n, accounts, categories, []) == []
  {
  }

  lemma FirstOrdinals(lines: seq<Dedup.Parsed>, fp: string)
    requires Dedup.Wanted(lines, fp) >= 1
    ensures OrdinalFor([], lines, fp) == Some(Dedup.Wanted(lines, fp) - 1)
  {
    assert Dedup.KnownFor([], fp) == Known(0, -1);
  }

  lemma FreshInsertion(id: nat, accounts: AccountsByName, categories: CategoriesByKey, rows: seq<TransactionRow>)
    returns (added: Inserted)
    requires rows != [] && Last(rows).accountName in accounts
    ensures Insertion([], id, accounts, categories, Lines(accounts, rows), Last(rows)) == [added]
    ensures InsertedFrom(added, id, accounts, categories, Last(rows))
  {
    var row, lines := Last(rows), Lines(accounts, rows);
    var line := LineOf(accounts[row.accountName], row);
    LastIsWanted(accounts, rows);
    FirstOrdinals(lines, line.fp);
    hide LineOf, Lines, OrdinalFor, Dedup.Wanted, CategoryIdOf;
    added := Inserted(NewTxn(id, line, Dedup.Wanted(lines, line.fp) - 1, categories, row), row.transferGroup);
  }

  lemma LastIsWanted(accounts: AccountsByName, rows: seq<TransactionRow>)
    requires rows != [] && Last(rows).accountName in accounts
    ensures Dedup.Wanted(Lines(accounts, rows), LineOf(accounts[Last(rows).accountName], Last(rows)).fp) >= 1
  {
    var lines := Lines(accounts, rows);
    assert Dedup.Keys(lines)[|lines| - 1] == Last(lines).fp;
    assert Last(lines).fp in Dedup.Keys(lines);
  }

  // ----- the view of one restored row -----

  lemma FindListedAccount(accounts: seq<Account>, a: Account)
    requires a in accounts && forall i, j :: 0 <= i < j < |accounts| ==> accounts[i].id < accounts[j].id
    ensures FindAccount(accounts, a.id) == Some(a)
  {
    var r := FindAccount(accounts, a.id);
    var i :| 0 <= i < |accounts| && accounts[i] == a;
    var j :| 0 <= j < |accounts| && accounts[j] == r.value;
  }

  lemma RestoredAccount(src: Tenant, n: nat, t: Txn)
    requires AccountsFit(ExportedAccounts(src)) && t in Confirmed(src.txns) && References(src, t)
    ensures var after := UpsertAccounts([], n, KeptAccountRows(src));
            var name := Strip(AccountName(ExportedAccounts(src), t.row.identity.account));
            var view := AccountView(ExportedAccounts(src), t.row.identity.account);
            && name in after.resolved && view.Some?
            && AccountView(after.store, after.resolved[name].id) == Some(KeptAccount(view.value))
  {
    var accounts, rows := ExportedAccounts(src), KeptAccountRows(src);
    FindAccountWithin(src.accounts, AccountIds(Confirmed(src.txns)), t.row.identity.account);
    hide ExportedAccounts, UpsertAccounts, Strip;
    var a := FindAccount(accounts, t.row.identity.account).value;
    var i :| 0 <= i < |accounts| && accounts[i] == a;
    assert rows[i] == KeptAccount(AccountRowOf(a)) && rows[i] in rows;
    AccountRowsDecide(src);
    AccountsFromEmpty(n, rows);
    var after := UpsertAccounts([], n, rows);
    FindListedAccount(after.store, after.resolved[rows[i].name]);
  }

  lemma RestoredCategory(src: Tenant, n: nat, row: TransactionRow, id: Option<nat>)
    requires CategoriesListed(src.categories) && ParentsFit(src.categories) && CategoriesFit(ExportedCategories(src))
    requires row.categoryName == NameOf(CategoryAt(ExportedCategories(src), id))
    requires row.categoryKind == KindOf(CategoryAt(ExportedCategories(src), id))
    ensures var after := UpsertCategories([], n, CategoryRows(src));
            CategoryView(after.store, CategoryIdOf(after.resolved, row)) == CategoryView(ExportedCategories(src), id)
  {
    hide ExportedCategories, UpsertCategories;
    var categories, rows := ExportedCategories(src), CategoryRows(src);
    var found := CategoryAt(categories, id);
    if found.Some? {
      var c := found.value;
      var i :| 0 <= i < |categories| && categories[i] == c;
      assert rows[i] == CategoryRowOf(categories, c) && rows[i] in rows;
      CategoryRowsDecide(src);
      CategoryRowsListParents(src);
      CategoriesFromEmpty(n, rows);
      var after := UpsertCategories([], n, rows);
      FindListed(after.store, after.resolved[RowKey(rows[i])]);
    }
  }

  // ----- transfer tokens -----

  lemma PartnerExists(txns: seq<Txn>, t: Txn) returns (u: Txn)
    requires PairsMutual(txns) && t in txns && t.pairId.Some?
    ensures u in txns && PartnerOf(u, t)
  {
    u :| u in txns && PartnerOf(u, t);
  }

  /** Two confirmed rows print one token exactly when they are each other's leg. */
  lemma TokensIdentifyPairs(txns: seq<Txn>, t: Txn, u: Txn)
    requires PairsMutual(txns) && (forall x <- txns, y <- txns :: x.id == y.id ==> x == y)
    requires t in txns && u in txns && t != u && t.pairId.Some?
    ensures TransferGroup(u) == TransferGroup(t) <==> t.pairId == Some(u.id)
  {
    hide NatToString, PairsMutual;
    var t' := PartnerExists(txns, t);
    if u.pairId.Some? {
      var u' := PartnerExists(txns, u);
      if TransferGroup(u) == TransferGroup(t) {
        NatToStringInjective(Smaller(t.id, t'.id), Smaller(u.id, u'.id));
      }
    }
  }

  lemma OnlyPairsCarryTokens(t: Txn)
    ensures TransferGroup(t).Some? <==> t.pairId.Some?
  {
  }

  ghost predicate PairedIn(conf: seq<Txn>, i: nat, j: nat)
    requires i < |conf| && j < |conf|
  {
    conf[i].pairId == Some(conf[j].id)
  }

  /** The inserted rows carry the tokens of the exported ones, position by position. */
  ghost predicate CarriesTokens(inserted: seq<Inserted>, conf: seq<Txn>) {
    |inserted| == |conf| && forall i :: 0 <= i < |conf| ==> inserted[i].group == TransferGroup(conf[i])
  }

  lemma TokenMatches(txns: seq<Txn>, i: nat, k: nat)
    requires (forall a, b :: 0 <= a < b < |txns| ==> txns[a].id < txns[b].id) && PairsMutual(txns)
    requires i < |Confirmed(txns)| && k < |Confirmed(txns)| && Confirmed(txns)[i].pairId.Some?
    ensures TransferGroup(Confirmed(txns)[k]) == TransferGroup(Confirmed(txns)[i])
            <==> k == i || PairedIn(Confirmed(txns), i, k)
  {
    var conf := Confirmed(txns);
    ConfirmedOrder(txns);
    if k != i {
      assert conf[i] in conf && conf[k] in conf;
      hide TransferGroup, Confirmed, PairsMutual;
      TokensIdentifyPairs(txns, conf[i], conf[k]);
    }
  }

  lemma NeverOwnPartner(txns: seq<Txn>, i: nat)
    requires (forall a, b :: 0 <= a < b < |txns| ==> txns[a].id < txns[b].id) && PairsMutual(txns)
    requires i < |Confirmed(txns)|
    ensures !PairedIn(Confirmed(txns), i, i)
  {
    hide PairsMutual, Confirmed;
    var t := Confirmed(txns)[i];
    ConfirmedOrder(txns);
    assert t in Confirmed(txns);
    if t.pairId.Some? {
      var u := PartnerExists(txns, t);
    }
  }

  lemma PairsBecomeTwoLegs(txns: seq<Txn>, inserted: seq<Inserted>, i: nat, j: nat)
    requires (forall a, b :: 0 <= a < b < |txns| ==> txns[a].id < txns[b].id) && PairsMutual(txns)
    requires CarriesTokens(inserted, Confirmed(txns)) && i < |inserted| && j < |inserted|
    ensures PairedIn(Confirmed(txns), i, j) <==>
            inserted[i].group.Some? && ExactlyTwo(inserted, inserted[i].group.value, i, j)
  {
    var conf := Confirmed(txns);
    ConfirmedOrder(txns);
    OnlyPairsCarryTokens(conf[i]);
    NeverOwnPartner(txns, i);
    hide TransferGroup, Confirmed, PairsMutual;
    if conf[i].pairId.Some? {
      forall k | 0 <= k < |conf|
        ensures inserted[k].group == inserted[i].group <==> k == i || PairedIn(conf, i, k)
      {
        TokenMatches(txns, i, k);
      }
    }
  }

  // ----- the round trip -----

  const EMPTY := Tenant([], [], [])

  function Imported(ids: NextIds, src: Tenant): seq<Inserted> {
    Persisted([], ids.txn, UpsertAccounts([], ids.account, KeptAccountRows(src)).resolved,
              UpsertCategories([], ids.category, CategoryRows(src)).resolved, KeptTransactionRows(src))
  }

  lemma RestoreOfExport(src: Tenant, ids: NextIds)
    requires WellFormed(src)
    ensures var dst := Restore(EMPTY, ids, Export(src));
            && dst.accounts == UpsertAccounts([], ids.account, KeptAccountRows(src)).store
            && dst.categories == UpsertCategories([], ids.category, CategoryRows(src)).store
            && dst.txns == Relinked(Imported(ids, src))
  {
    AccountsReadBack(src);
    CategoriesReadBack(src);
    TransactionsReadBack(src);
    hide Export, KeptAccountRows, CategoryRows, KeptTransactionRows, Accepted, UpsertAccounts, UpsertCategories,
         Persisted;
    assert Rows([]) == [];
  }

  lemma AllImported(src: Tenant, ids: NextIds)
    requires WellFormed(src)
    ensures var accounts := UpsertAccounts([], ids.account, KeptAccountRows(src)).resolved;
            var categories := UpsertCategories([], ids.category, CategoryRows(src)).resolved;
            && (forall row <- KeptTransactionRows(src) :: row.accountName in accounts)
            && AllInserted(Imported(ids, src), ids.txn, accounts, categories, KeptTransactionRows(src))
  {
    hide UpsertAccounts, UpsertCategories, CategoryRows, ExportedAccounts, ExportedCategories, Persisted, LineOf,
         TxnPrintable, PairsMutual, ParentsFit, AccountsFit, CategoriesFit, References, Strip;
    var conf, rows := Confirmed(src.txns), KeptTransactionRows(src);
    var accounts := UpsertAccounts([], ids.account, KeptAccountRows(src)).resolved;
    forall row | row in rows
      ensures row.accountName in accounts
    {
      var i :| 0 <= i < |rows| && rows[i] == row;
      RestoredAccount(src, ids.account, conf[i]);
    }
    PersistFresh(ids.txn, accounts, UpsertCategories([], ids.category, CategoryRows(src)).resolved, rows);
  }

  lemma RestoredView(src: Tenant, ids: NextIds, i: nat)
    requires WellFormed(src) && i < |Confirmed(src.txns)|
    ensures var dst := Restore(EMPTY, ids, Export(src));
            && |dst.txns| == |Confirmed(src.txns)|
            && dst.txns[i].id == ids.txn + i
            && ViewOf(dst.accounts, dst.categories, dst.txns[i])
               == Kept(ViewOf(src.accounts, src.categories, Confirmed(src.txns)[i]))
  {
    var t := Confirmed(src.txns)[i];
    var row := KeptTransactionRows(src)[i];
    assert t in Confirmed(src.txns) && TxnPrintable(t) && References(src, t);
    KeptTransactionIs(src, t);
    RestoreOfExport(src, ids);
    AllImported(src, ids);
    RestoredAccount(src, ids.account, t);
    RestoredCategory(src, ids.category, row, t.categoryId);
    ViewFromExport(src, t);
    hide UpsertAccounts, UpsertCategories, KeptAccountRows, CategoryRows, ExportedAccounts, ExportedCategories,
         Persisted,
         Restore, Export, Confirmed, WellFormed, NormalizeMerchant, AccountView, CategoryView, Partner, References,
         KeptTransaction, Strip, KeptAccount, SplitLabels, LabelCell, Labels.LinkedLabels;
    assert Imported(ids, src)[i].txn.row.identity.merchant == t.row.identity.merchant;
  }

  lemma ImportedTokens(src: Tenant, ids: NextIds)
    requires WellFormed(src)
    ensures CarriesTokens(Imported(ids, src), Confirmed(src.txns))
    ensures forall i :: 0 <= i < |Imported(ids, src)| ==> Imported(ids, src)[i].txn.id == ids.txn + i
  {
    AllImported(src, ids);
    forall t | t in Confirmed(src.txns)
      ensures Get(Cell(TransferGroup(t))) == TransferGroup(t)
    {
      TokenIsClean(t);
      CellRoundTrip(TransferGroup(t));
    }
    hide UpsertAccounts, UpsertCategories, AccountRows, CategoryRows, ExportedAccounts, ExportedCategories, Persisted,
         Confirmed, WellFormed, LineOf, TransferGroup, Strip, Get;
  }

  /** Where ids differ, a leg points at j exactly when i and j alone carry the token. */
  lemma PartnerIff(inserted: seq<Inserted>, i: nat, j: nat)
    requires i < |inserted| && j < |inserted|
    requires forall a, b :: 0 <= a < b < |inserted| ==> inserted[a].txn.id != inserted[b].txn.id
    ensures Partner(inserted, i) == Some(inserted[j].txn.id)
            <==> inserted[i].group.Some? && ExactlyTwo(inserted, inserted[i].group.value, i, j)
  {
    hide Legs, Other;
    if inserted[i].group.Some? {
      var token := inserted[i].group.value;
      if ExactlyTwo(inserted, token, i, j) {
        TwoLegs(inserted, token, i, j);
      }
      if |Legs(inserted, token)| == 2 {
        LegsAreTwo(inserted, token, i);
        hide ExactlyTwo;
      }
    }
  }

  lemma RestoredPair(src: Tenant, ids: NextIds, i: nat, j: nat)
    requires WellFormed(src) && i < |Confirmed(src.txns)| && j < |Confirmed(src.txns)|
    ensures var inserted := Imported(ids, src);
            && |inserted| == |Confirmed(src.txns)|
            && (Partner(inserted, i) == Some(inserted[j].txn.id) <==> PairedIn(Confirmed(src.txns), i, j))
  {
    ImportedTokens(src, ids);
    assert Listed(src) && PairsMutual(src.txns);
    hide Imported, Confirmed, WellFormed, PairedIn, Partner, ExactlyTwo, TransferGroup, PairsMutual;
    PartnerIff(Imported(ids, src), i, j);
    PairsBecomeTwoLegs(src.txns, Imported(ids, src), i, j);
  }

  lemma RestoredUnpaired(src: Tenant, ids: NextIds, i: nat)
    requires WellFormed(src) && i < |Confirmed(src.txns)|
    ensures var inserted := Imported(ids, src);
            && |inserted| == |Confirmed(src.txns)|
            && (Partner(inserted, i).Some? ==> exists j :: 0 <= j < |inserted| && PairedIn(Confirmed(src.txns), i, j))
  {
    var inserted := Imported(ids, src);
    ImportedTokens(src, ids);
    hide Imported, Confirmed, WellFormed, PairedIn, Legs, Other, TransferGroup, CarriesTokens;
    if Partner(inserted, i).Some? {
      LegsAreTwo(inserted, inserted[i].group.value, i);
      var j := Other(Legs(inserted, inserted[i].group.value), i);
      PairsBecomeTwoLegs(src.txns, inserted, i, j);
    }
  }

  /**
   * Exporting and restoring into an empty tenant gives the confirmed transactions back, in order: the
   * same account, date, amount, type, merchant, category with its parent link, labels, source and
   * confirmation, the texts a cell cannot hold stripped and the labels normalised once more. Under that renaming
   * the pairing is the source's, for exactly the pairs with both legs confirmed.
   */
  lemma BackupRoundTrip(src: Tenant, ids: NextIds)
    requires WellFormed(src)
    ensures var dst, conf := Restore(EMPTY, ids, Export(src)), Confirmed(src.txns);
            && |dst.txns| == |conf|
            && (forall i :: 0 <= i < |conf| ==>
                  ViewOf(dst.accounts, dst.categories, dst.txns[i])
                      == Kept(ViewOf(src.accounts, src.categories, conf[i])))
            && (forall i, j :: 0 <= i < |conf| && 0 <= j < |conf| ==>
                  (dst.txns[i].pairId == Some(dst.txns[j].id) <==> conf[i].pairId == Some(conf[j].id)))
            && (forall i :: 0 <= i < |conf| && dst.txns[i].pairId.Some? ==>
                  exists j :: 0 <= j < |conf| && conf[i].pairId == Some(conf[j].id))
  {
    hide Restore, Export, Confirmed, Imported, ViewOf, Partner, Kept, Listed, AccountsFit, CategoriesFit, ParentsFit,
         PairsMutual, TxnPrintable, References;
    var dst, conf, inserted := Restore(EMPTY, ids, Export(src)), Confirmed(src.txns), Imported(ids, src);
    RestoreOfExport(src, ids);
    ImportedTokens(src, ids);
    assert |dst.txns| == |inserted| == |conf|;
    forall i | 0 <= i < |conf|
      ensures ViewOf(dst.accounts, dst.categories, dst.txns[i]) == Kept(ViewOf(src.accounts, src.categories, conf[i]))
      ensures dst.txns[i].pairId.Some? ==> exists j :: 0 <= j < |conf| && conf[i].pairId == Some(conf[j].id)
    {
      RestoredView(src, ids, i);
      RestoredUnpaired(src, ids, i);
      if j :| dst.txns[i].pairId.Some? && 0 <= j < |conf| && PairedIn(conf, i, j) {
        assert conf[i].pairId == Some(conf[j].id);
      }
    }
    forall i, j | 0 <= i < |conf| && 0 <= j < |conf|
      ensures dst.txns[i].pairId == Some(dst.txns[j].id) <==> conf[i].pairId == Some(conf[j].id)
    {
      RestoredPair(src, ids, i, j);
    }
  }

  // ----- the same in the tables' own columns -----

  /** The account a restored row is booked on, against the one it was booked on. */
  predicate SameAccount(b: Account, a: Account) {
    var issuer, last4 := Strip(Cell(a.issuer)), Strip(Cell(a.last4));
    && b.name == Strip(a.name) && b.kind == a.kind && b.openingBalance == a.openingBalance
    && b.currency == a.currency && b.archivedAt == a.archivedAt
    && b.issuer == (if issuer == "" then None else Some(Lower(issuer)))
    && b.last4 == if IsLast4(last4) then Some(last4) else None
  }

  predicate SameCategory(d: Category, c: Category) {
    d.name == c.name && d.kind == c.kind && d.color == c.color && d.archivedAt == c.archivedAt
  }

  lemma SameAccountFromView(b: Account, a: Account)
    requires AccountRowOf(b) == KeptAccount(AccountRowOf(a))
    ensures SameAccount(b, a)
  {
    hide Strip, Lower;
  }

  /** Both rows are uncategorised, or their categories say the same and so do the parents' names. */
  ghost predicate SameCategorisation(dst: seq<Category>, u: Option<nat>, src: seq<Category>, t: Option<nat>) {
    var d, c := CategoryAt(dst, u), CategoryAt(src, t);
    && (d.Some? <==> c.Some?)
    && (c.Some? ==>
          && SameCategory(d.value, c.value)
          && var e, p := CategoryAt(dst, d.value.parentId), CategoryAt(src, c.value.parentId);
             (e.Some? <==> p.Some?) && (p.Some? ==> e.value.name == p.value.name))
  }

  lemma SameCategorisationFromView(dst: seq<Category>, u: Option<nat>, src: seq<Category>, t: Option<nat>)
    requires CategoryView(dst, u) == CategoryView(src, t)
    ensures SameCategorisation(dst, u, src, t)
  {
    hide FindCategory;
  }

  /** Column by column, the i-th restored transaction is the i-th confirmed one. */
  lemma RestoredColumns(src: Tenant, ids: NextIds, i: nat)
    requires WellFormed(src) && i < |Confirmed(src.txns)|
    ensures var dst, t := Restore(EMPTY, ids, Export(src)), Confirmed(src.txns)[i];
            && |dst.txns| == |Confirmed(src.txns)|
            && var u := dst.txns[i];
               var a, b := FindAccount(src.accounts, t.row.identity.account),
                           FindAccount(dst.accounts, u.row.identity.account);
               && u.row.identity.date == t.row.identity.date && u.row.identity.amountPaise == t.row.identity.amountPaise
               && u.row.identity.merchant == t.row.identity.merchant && u.kind == t.kind && u.source == t.source
               && u.confirmedAt == t.confirmedAt && u.labels == Labels.RestoredLabels(t.labels)
               && (u.merchantRaw == if Strip(Cell(t.merchantRaw)) == "" then None else Some(Strip(Cell(t.merchantRaw))))
               && a.Some? && b.Some? && SameAccount(b.value, a.value)
               && SameCategorisation(dst.categories, u.categoryId, src.categories, t.categoryId)
  {
    hide Restore, Export, Confirmed, Strip, KeptAccount, SameAccount, SameCategorisation, CategoryView,
         Labels.RestoredLabels, FindAccount, Listed, AccountsFit, CategoriesFit, ParentsFit, PairsMutual, TxnPrintable;
    BackupRoundTrip(src, ids);
    var dst, t := Restore(EMPTY, ids, Export(src)), Confirmed(src.txns)[i];
    var u := dst.txns[i];
    assert t in Confirmed(src.txns) && References(src, t);
    assert ViewOf(dst.accounts, dst.categories, u) == Kept(ViewOf(src.accounts, src.categories, t));
    SameAccountFromView(FindAccount(dst.accounts, u.row.identity.account).value,
                        FindAccount(src.accounts, t.row.identity.account).value);
    SameCategorisationFromView(dst.categories, u.categoryId, src.categories, t.categoryId);
  }
}
