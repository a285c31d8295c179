/** The exporter: which rows of a tenant a backup holds and what it writes for each. */
module BackupExports {
  import opened Sequences
  import opened Text
  import opened StableSorting
  import opened BackupFormat
  import opened BackupUpserts
  import Dedup

  // The dedup columns (identity, fingerprint, origin, occurrence) are the nested row.
  datatype Txn = Txn(
    id: nat, row: Dedup.Row, kind: TransactionKind, merchantRaw: Option<string>, categoryId: Option<nat>,
    labels: seq<string>, source: Source, confirmedAt: Option<int>, pairId: Option<nat>)

  // Tables are listed in id order, the order every query of the exporter asks for.
  datatype Tenant = Tenant(accounts: seq<Account>, categories: seq<Category>, txns: seq<Txn>)

  datatype Backup = Backup(
    accounts: seq<AccountRecord>, categories: seq<CategoryRecord>, transactions: seq<TransactionRecord>)

  ghost predicate Listed(tenant: Tenant) {
    && (forall i, j :: 0 <= i < j < |tenant.accounts| ==> tenant.accounts[i].id < tenant.accounts[j].id)
    && CategoriesListed(tenant.categories)
    && (forall i, j :: 0 <= i < j < |tenant.txns| ==> tenant.txns[i].id < tenant.txns[j].id)
  }

  ghost predicate CategoriesListed(categories: seq<Category>) {
    forall i, j :: 0 <= i < j < |categories| ==> categories[i].id < categories[j].id
  }

  // ----- selection -----

  function Confirmed(txns: seq<Txn>): seq<Txn> {
    if txns == [] then []
    else if Last(txns).confirmedAt.Some? then Confirmed(Init(txns)) + [Last(txns)]
    else Confirmed(Init(txns))
  }

  function AccountsWithin(accounts: seq<Account>, ids: set<int>): seq<Account> {
    if accounts == [] then []
    else if Last(accounts).id in ids then AccountsWithin(Init(accounts), ids) + [Last(accounts)]
    else AccountsWithin(Init(accounts), ids)
  }

  function CategoriesWithin(categories: seq<Category>, ids: set<nat>): seq<Category> {
    if categories == [] then []
    else if Last(categories).id in ids then CategoriesWithin(Init(categories), ids) + [Last(categories)]
    else CategoriesWithin(Init(categories), ids)
  }

  function AccountIds(txns: seq<Txn>): set<int> {
    set t | t in txns :: t.row.identity.account
  }

  function CategoryIds(txns: seq<Txn>): set<nat> {
    set t | t in txns && t.categoryId.Some? :: t.categoryId.value
  }

  function ParentIds(categories: seq<Category>): set<nat> {
    set c | c in categories && c.parentId.Some? :: c.parentId.value
  }

  function ExportedAccounts(tenant: Tenant): seq<Account> {
    AccountsWithin(tenant.accounts, AccountIds(Confirmed(tenant.txns)))
  }

  /** The referenced categories and their parents, in id order. */
  function ExportedCategories(tenant: Tenant): seq<Category> {
    var referenced := CategoryIds(Confirmed(tenant.txns));
    CategoriesWithin(tenant.categories, referenced + ParentIds(CategoriesWithin(tenant.categories, referenced)))
  }

  // ----- lookups by id -----

  function FindAccount(accounts: seq<Account>, id: int): (r: Option<Account>)
    ensures r.Some? ==> r.value in accounts && r.value.id == id
    ensures r.None? ==> forall a <- accounts :: a.id != id
  {
    if accounts == [] then None
    else
      InitLast(accounts);
      if Last(accounts).id == id then Some(Last(accounts)) else FindAccount(Init(accounts), id)
  }

  function FindCategory(categories: seq<Category>, id: nat): (r: Option<Category>)
    ensures r.Some? ==> r.value in categories && r.value.id == id
    ensures r.None? ==> forall c <- categories :: c.id != id
  {
    if categories == [] then None
    else
      InitLast(categories);
      if Last(categories).id == id then Some(Last(categories)) else FindCategory(Init(categories), id)
  }

  // ----- rows -----

  function AccountRowOf(a: Account): AccountRow {
    AccountRow(a.name, a.kind, a.issuer, a.last4, a.openingBalance, a.currency, a.archivedAt)
  }

  function NameOf(c: Option<Category>): Option<string> {
    if c.Some? then Some(c.value.name) else None
  }

  function KindOf(c: Option<Category>): Option<CategoryKind> {
    if c.Some? then Some(c.value.kind) else None
  }

  function CategoryAt(categories: seq<Category>, id: Option<nat>): Option<Category> {
    if id.Some? then FindCategory(categories, id.value) else None
  }

  function CategoryRowOf(categories: seq<Category>, c: Category): CategoryRow {
    CategoryRow(c.name, c.kind, c.color, c.archivedAt, NameOf(CategoryAt(categories, c.parentId)))
  }

  function AccountName(accounts: seq<Account>, id: int): string {
    var a := FindAccount(accounts, id);
    if a.Some? then a.value.name else ""
  }

  function Smaller(a: nat, b: nat): nat {
    if a <= b then a else b
  }

  /** Both legs of a pair print the same token: the smaller of the two ids. */
  function TransferGroup(t: Txn): Option<string> {
    if t.pairId.Some? then Some(NatToString(Smaller(t.id, t.pairId.value))) else None
  }

  function TransactionRowOf(accounts: seq<Account>, categories: seq<Category>, t: Txn): TransactionRow {
    var category := CategoryAt(categories, t.categoryId);
    TransactionRow(
      t.row.identity.date, AccountName(accounts, t.row.identity.account), t.row.identity.amountPaise, t.kind,
      t.merchantRaw, t.row.identity.merchant, NameOf(category), KindOf(category), t.labels, t.source, t.confirmedAt,
      TransferGroup(t))
  }

  function AccountRows(tenant: Tenant): seq<AccountRow> {
    Mapped(ExportedAccounts(tenant), AccountRowOf)
  }

  function CategoryRows(tenant: Tenant): seq<CategoryRow> {
    var categories := ExportedCategories(tenant);
    Mapped(categories, c => CategoryRowOf(categories, c))
  }

  function TransactionRows(tenant: Tenant): seq<TransactionRow> {
    var accounts, categories := ExportedAccounts(tenant), ExportedCategories(tenant);
    Mapped(Confirmed(tenant.txns), t => TransactionRowOf(accounts, categories, t))
  }

  /** The three files of the zip. */
  function Export(tenant: Tenant): Backup {
    Backup(Mapped(AccountRows(tenant), PrintAccount), Mapped(CategoryRows(tenant), PrintCategory),
           Mapped(TransactionRows(tenant), PrintTransaction))
  }

  // ----- what selection keeps -----

  lemma {:induction false} ConfirmedOrder(txns: seq<Txn>)
    requires forall i, j :: 0 <= i < j < |txns| ==> txns[i].id < txns[j].id
    ensures var c := Confirmed(txns);
            && (forall i, j :: 0 <= i < j < |c| ==> c[i].id < c[j].id)
            && (forall t :: t in c <==> t in txns && t.confirmedAt.Some?)
  {
    if txns != [] {
      InitLast(txns);
      ConfirmedOrder(Init(txns));
      var c := Confirmed(Init(txns));
      assert forall i :: 0 <= i < |c| ==> c[i] in Init(txns);
    }
  }

  lemma {:induction false} AccountsWithinOrder(accounts: seq<Account>, ids: set<int>)
    requires forall i, j :: 0 <= i < j < |accounts| ==> accounts[i].id < accounts[j].id
    ensures var s := AccountsWithin(accounts, ids);
            && (forall i, j :: 0 <= i < j < |s| ==> s[i].id < s[j].id)
            && (forall a :: a in s <==> a in accounts && a.id in ids)
  {
    if accounts != [] {
      InitLast(accounts);
      AccountsWithinOrder(Init(accounts), ids);
      var s := AccountsWithin(Init(accounts), ids);
      assert forall i :: 0 <= i < |s| ==> s[i] in Init(accounts);
    }
  }

  lemma {:induction false} CategoriesWithinOrder(categories: seq<Category>, ids: set<nat>)
    requires CategoriesListed(categories)
    ensures CategoriesListed(CategoriesWithin(categories, ids))
    ensures forall c :: c in CategoriesWithin(categories, ids) <==> c in categories && c.id in ids
  {
    if categories != [] {
      InitLast(categories);
      CategoriesWithinOrder(Init(categories), ids);
      var s := CategoriesWithin(Init(categories), ids);
      assert forall i :: 0 <= i < |s| ==> s[i] in Init(categories);
    }
  }

  // ----- the parent closure: extend, then sort -----

  const BY_ID: (Category, Category) -> bool := (a: Category, b: Category) => a.id < b.id

  lemma {:induction false} WithinSplits(categories: seq<Category>, a: set<nat>, b: set<nat>)
    requires a !! b
    ensures multiset(CategoriesWithin(categories, a + b)) ==
            multiset(CategoriesWithin(categories, a)) + multiset(CategoriesWithin(categories, b))
  {
    if categories != [] {
      WithinSplits(Init(categories), a, b);
    }
  }

  /** Sorting the referenced rows and the appended parents by id gives the selection of both at once. */
  lemma SortMergesSelections(categories: seq<Category>, a: set<nat>, b: set<nat>)
    requires CategoriesListed(categories) && a !! b
    ensures StableSort(CategoriesWithin(categories, a) + CategoriesWithin(categories, b), BY_ID) ==
            CategoriesWithin(categories, a + b)
  {
    var merged := CategoriesWithin(categories, a) + CategoriesWithin(categories, b);
    var both := CategoriesWithin(categories, a + b);
    CategoriesWithinOrder(categories, a + b);
    WithinSplits(categories, a, b);
    SortKeepsElements(merged, BY_ID);
    SortIsInOrder(merged, BY_ID);
    assert forall i, j :: 0 <= i < |both| && 0 <= j < |both| && i != j ==> both[i].id != both[j].id;
    SortedUnique(both, StableSort(merged, BY_ID), BY_ID);
  }

  method SelectCategories(tenant: Tenant, transactions: seq<Txn>) returns (categories: seq<Category>)
    requires CategoriesListed(tenant.categories) && transactions == Confirmed(tenant.txns)
    ensures categories == ExportedCategories(tenant)
  {
    hide StableSort, CategoriesWithin;
    var categoryIds := CategoryIds(transactions);
    categories := CategoriesWithin(tenant.categories, categoryIds);
    var parentIds := ParentIds(categories) - categoryIds;
    assert categoryIds + parentIds == categoryIds + ParentIds(categories);
    if parentIds != {} {
      SortMergesSelections(tenant.categories, categoryIds, parentIds);
      categories := categories + CategoriesWithin(tenant.categories, parentIds);
      categories := StableSort(categories, BY_ID);
    } else {
      assert categoryIds + parentIds == categoryIds;
    }
  }

  method BuildBackup(tenant: Tenant) returns (backup: Backup)
    requires Listed(tenant)
    ensures backup == Export(tenant)
  {
    hide PrintTransaction, PrintAccount, PrintCategory, AccountRowOf, CategoryRowOf, TransactionRowOf, Confirmed,
         AccountsWithin, ExportedCategories;
    var transactions := Confirmed(tenant.txns);
    var accounts := AccountsWithin(tenant.accounts, AccountIds(transactions));
    var categories := SelectCategories(tenant, transactions);
    var rows: seq<TransactionRecord> := [];
    for i := 0 to |transactions|
      invariant |rows| == i
      invariant forall k :: 0 <= k < i ==>
                  rows[k] == PrintTransaction(TransactionRowOf(accounts, categories, transactions[k]))
    {
      rows := rows + [PrintTransaction(TransactionRowOf(accounts, categories, transactions[i]))];
    }
    assert rows == Export(tenant).transactions;
    backup := Backup(
      Mapped(Mapped(accounts, AccountRowOf), PrintAccount),
      Mapped(Mapped(categories, c => CategoryRowOf(categories, c)), PrintCategory),
      rows);
  }
}
