/** Matching a backup's accounts and categories against the stored ones, creating what is missing. */
module BackupUpserts {
  import opened Sequences
  import opened StableSorting
  import opened BackupFormat

  datatype Account = Account(
    id: nat, name: string, kind: AccountKind, issuer: Option<string>, last4: Option<string>,
    openingBalance: int, currency: string, archivedAt: Option<int>)

  datatype Category = Category(
    id: nat, name: string, kind: CategoryKind, color: Option<string>, archivedAt: Option<int>, parentId: Option<nat>)

  type CategoryKey = (string, CategoryKind)

  function KeyOf(c: Category): CategoryKey {
    (c.name, c.kind)
  }

  // ----- accounts -----

  const ACTIVE_FIRST: (AccountRow, AccountRow) -> bool :=
    (a: AccountRow, b: AccountRow) => a.archivedAt.None? && b.archivedAt.Some?

  function ActiveAccounts(store: seq<Account>): (m: map<string, Account>)
    ensures forall name <- m :: m[name] in store && m[name].name == name && m[name].archivedAt.None?
  {
    if store == [] then map[]
    else
      InitLast(store);
      var m := ActiveAccounts(Init(store));
      if Last(store).archivedAt.None? then m[Last(store).name := Last(store)] else m
  }

  datatype AccountUpsert = AccountUpsert(
    store: seq<Account>, nextId: nat, resolved: map<string, Account>, created: nat, matched: nat, refused: nat)

  function NewAccount(id: nat, row: AccountRow): Account {
    Account(id, row.name, row.kind, row.issuer, row.last4, row.openingBalance, row.currency, row.archivedAt)
  }

  function UpsertAccount(active: map<string, Account>, s: AccountUpsert, row: AccountRow): AccountUpsert {
    if row.name in s.resolved then s
    else if row.name in active then
      var existing := active[row.name];
      if existing.kind != row.kind || existing.currency != row.currency then s.(refused := s.refused + 1)
      else s.(resolved := s.resolved[row.name := existing], matched := s.matched + 1)
    else
      var account := NewAccount(s.nextId, row);
      s.(store := s.store + [account], nextId := s.nextId + 1, resolved := s.resolved[row.name := account],
          created := s.created + 1)
  }

  function FoldAccounts(active: map<string, Account>, s: AccountUpsert, rows: seq<AccountRow>): AccountUpsert {
    if rows == [] then s else UpsertAccount(active, FoldAccounts(active, s, Init(rows)), Last(rows))
  }

  function UpsertAccounts(store: seq<Account>, nextId: nat, rows: seq<AccountRow>): AccountUpsert {
    FoldAccounts(ActiveAccounts(store), AccountUpsert(store, nextId, map[], 0, 0, 0), StableSort(rows, ACTIVE_FIRST))
  }

  /** Every account that existed before is still there, unmodified, and the new ones only follow. */
  lemma {:induction false} AccountsOnlyAdded(active: map<string, Account>, s: AccountUpsert, rows: seq<AccountRow>)
    ensures var after := FoldAccounts(active, s, rows);
            && s.store <= after.store && |after.store| == |s.store| + (after.created - s.created)
            && s.created <= after.created
  {
    if rows != [] {
      AccountsOnlyAdded(active, s, Init(rows));
    }
  }

  /** A name is rebound only to an active account; a name with none, an archived one's included, gets a new id. */
  lemma {:induction false} ResolvedIsNewUnlessActive(active: map<string, Account>, s: AccountUpsert,
      rows: seq<AccountRow>)
    requires s.resolved == map[]
    ensures var after := FoldAccounts(active, s, rows);
            && after.nextId >= s.nextId
            && forall name <- after.resolved ::
                 if name in active then after.resolved[name] == active[name] else after.resolved[name].id >= s.nextId
  {
    if rows != [] {
      ResolvedIsNewUnlessActive(active, s, Init(rows));
    }
  }

  /** The row lets itself be bound to the account: same type, same currency. */
  predicate Binds(row: AccountRow, a: Account) {
    row.name == a.name && row.kind == a.kind && row.currency == a.currency
  }

  ghost predicate BoundByRows(resolved: map<string, Account>, rows: seq<AccountRow>) {
    forall name <- resolved :: resolved[name].name == name && exists row <- rows :: Binds(row, resolved[name])
  }

  lemma BindingStep(active: map<string, Account>, s: AccountUpsert, done: seq<AccountRow>, row: AccountRow)
    requires forall name <- active :: active[name].name == name
    requires BoundByRows(s.resolved, done) && |s.resolved| == s.created + s.matched
    ensures var after := UpsertAccount(active, s, row);
            BoundByRows(after.resolved, done + [row]) && |after.resolved| == after.created + after.matched
  {
    var after := UpsertAccount(active, s, row);
    assert row in done + [row] && forall r <- done :: r in done + [row];
    if after.resolved != s.resolved {
      var a := after.resolved[row.name];
      assert Binds(row, a) && after.resolved == s.resolved[row.name := a];
    }
  }

  /**
   * A resolved account is always one some row of the file describes by type and currency, so a stored
   * account is never rebound to a row that contradicts it, and the two counters add up to the names resolved.
   */
  lemma {:induction false} NeverRebinds(
    active: map<string, Account>, store: seq<Account>, nextId: nat, rows: seq<AccountRow>)
    requires forall name <- active :: active[name].name == name
    ensures var after := FoldAccounts(active, AccountUpsert(store, nextId, map[], 0, 0, 0), rows);
            BoundByRows(after.resolved, rows) && |after.resolved| == after.created + after.matched
  {
    if rows != [] {
      hide UpsertAccount, BoundByRows;
      InitLast(rows);
      NeverRebinds(active, store, nextId, Init(rows));
      var s := FoldAccounts(active, AccountUpsert(store, nextId, map[], 0, 0, 0), Init(rows));
      BindingStep(active, s, Init(rows), Last(rows));
    } else {
      assert BoundByRows(map[], rows);
    }
  }

  /**
   * Of a file that names every account once each row is counted once: created, matched with the active account of
   * its name, or refused because that one has another type or currency.
   */
  lemma {:induction false} EveryAccountRowCounted(active: map<string, Account>, store: seq<Account>, nextId: nat,
      rows: seq<AccountRow>)
    requires forall name <- active :: active[name].name == name
    requires forall i, j :: 0 <= i < j < |rows| ==> rows[i].name != rows[j].name
    ensures var after := FoldAccounts(active, AccountUpsert(store, nextId, map[], 0, 0, 0), rows);
            && after.created == RowsOutside(active, rows) && after.refused == Contradicting(active, rows)
            && after.created + after.matched + after.refused == |rows|
            && forall name <- after.resolved :: Named(rows, name)
  {
    if rows != [] {
      EveryAccountRowCounted(active, store, nextId, Init(rows));
      InitLast(rows);
      hide Named;
      NamedByEarlier(rows);
      var s := FoldAccounts(active, AccountUpsert(store, nextId, map[], 0, 0, 0), Init(rows));
      forall name | name in UpsertAccount(active, s, Last(rows)).resolved
        ensures Named(rows, name)
      {
        NamedSnoc(rows, name);
      }
    }
  }

  lemma NamedByEarlier(rows: seq<AccountRow>)
    requires rows != [] && forall i, j :: 0 <= i < j < |rows| ==> rows[i].name != rows[j].name
    ensures !Named(Init(rows), Last(rows).name)
  {
  }

  function RowsOutside(active: map<string, Account>, rows: seq<AccountRow>): nat {
    if rows == [] then 0 else RowsOutside(active, Init(rows)) + if Last(rows).name in active then 0 else 1
  }

  function Contradicting(active: map<string, Account>, rows: seq<AccountRow>): nat {
    if rows == [] then 0
    else
      var row := Last(rows);
      Contradicting(active, Init(rows)) + if row.name in active && !Binds(row, active[row.name]) then 1 else 0
  }

  predicate Named(rows: seq<AccountRow>, name: string) {
    exists row <- rows :: row.name == name
  }

  lemma {:induction false} ResolvedAreNamed(active: map<string, Account>, s: AccountUpsert, rows: seq<AccountRow>)
    requires s.resolved == map[]
    ensures forall name <- FoldAccounts(active, s, rows).resolved :: Named(rows, name)
    ensures forall row <- rows :: row.name in active || row.name in FoldAccounts(active, s, rows).resolved
  {
    hide Named;
    if rows != [] {
      InitLast(rows);
      ResolvedAreNamed(active, s, Init(rows));
      forall name | Named(Init(rows), name) || Last(rows).name == name
        ensures Named(rows, name)
      {
        NamedSnoc(rows, name);
      }
    }
  }

  lemma NamedSnoc(rows: seq<AccountRow>, name: string)
    requires rows != []
    ensures Named(rows, name) <==> Named(Init(rows), name) || Last(rows).name == name
  {
    InitLast(rows);
    assert Last(rows) in rows;
  }

  predicate HasUnarchived(rows: seq<AccountRow>, name: string) {
    exists row <- rows :: row.name == name && row.archivedAt.None?
  }

  lemma HasUnarchivedSnoc(rows: seq<AccountRow>, name: string)
    requires rows != []
    ensures HasUnarchived(rows, name)
            <==> HasUnarchived(Init(rows), name) || (Last(rows).name == name && Last(rows).archivedAt.None?)
  {
    InitLast(rows);
    assert Last(rows) in rows;
  }

  lemma BeforeUnarchived(rows: seq<AccountRow>)
    requires rows != [] && InOrder(rows, ACTIVE_FIRST)
    ensures InOrder(Init(rows), ACTIVE_FIRST)
    ensures Last(rows).archivedAt.None? ==> forall row <- Init(rows) :: row.archivedAt.None?
  {
    forall k | 0 <= k < |rows| - 1
      ensures Last(rows).archivedAt.None? ==> rows[k].archivedAt.None?
    {
      assert !ACTIVE_FIRST(Last(rows), rows[k]);
    }
  }

  lemma UpsertAccountResolves(active: map<string, Account>, s: AccountUpsert, row: AccountRow)
    ensures var after := UpsertAccount(active, s, row);
            && (forall name <- s.resolved :: name in after.resolved && after.resolved[name] == s.resolved[name])
            && (row.name !in s.resolved && row.name !in active ==>
                  row.name in after.resolved && after.resolved[row.name].archivedAt == row.archivedAt)
  {
  }

  /** Active rows come first, so a created account is unarchived exactly when some row of its name is. */
  lemma {:induction false} FirstRowDecides(
    active: map<string, Account>, s: AccountUpsert, rows: seq<AccountRow>, row: AccountRow)
    requires row in rows && row.name !in active && row.name !in s.resolved && InOrder(rows, ACTIVE_FIRST)
    ensures var after := FoldAccounts(active, s, rows);
            row.name in after.resolved
            && (after.resolved[row.name].archivedAt.None? <==> HasUnarchived(rows, row.name))
  {
    InitLast(rows);
    BeforeUnarchived(rows);
    HasUnarchivedSnoc(rows, row.name);
    var before := Init(rows);
    UpsertAccountResolves(active, FoldAccounts(active, s, before), Last(rows));
    if earlier :| earlier in before && earlier.name == row.name {
      assert earlier.archivedAt.None? ==> HasUnarchived(before, row.name);
      hide InOrder, HasUnarchived, UpsertAccount;
      FirstRowDecides(active, s, before, earlier);
    } else {
      assert !HasUnarchived(before, row.name);
      hide InOrder, HasUnarchived, UpsertAccount;
      NotYetResolved(active, s, before, row.name);
      assert Last(rows) == row;
    }
  }

  lemma {:induction false} NotYetResolved(
    active: map<string, Account>, s: AccountUpsert, rows: seq<AccountRow>, name: string)
    requires name !in s.resolved && forall row <- rows :: row.name != name
    ensures name !in FoldAccounts(active, s, rows).resolved
  {
    if rows != [] {
      InitLast(rows);
      NotYetResolved(active, s, Init(rows), name);
    }
  }

  lemma ActiveFirstIsAnOrder()
    ensures IsWeakOrder(ACTIVE_FIRST)
  {
    assert forall a, b :: ACTIVE_FIRST(a, b) == (a.archivedAt.None? && b.archivedAt.Some?);
  }

  /** A created account is unarchived exactly when some row of its name is: an active row wins over archived ones. */
  lemma ActiveRowWins(store: seq<Account>, nextId: nat, rows: seq<AccountRow>, row: AccountRow)
    requires row in rows && row.name !in ActiveAccounts(store)
    ensures var after := UpsertAccounts(store, nextId, rows);
            row.name in after.resolved
            && (after.resolved[row.name].archivedAt.None? <==> HasUnarchived(rows, row.name))
  {
    ActiveFirstIsAnOrder();
    SortIsInOrder(rows, ACTIVE_FIRST);
    SortMembers(rows, ACTIVE_FIRST);
    var sorted := StableSort(rows, ACTIVE_FIRST);
    hide StableSort, FoldAccounts, ActiveAccounts;
    FirstRowDecides(ActiveAccounts(store), AccountUpsert(store, nextId, map[], 0, 0, 0), sorted, row);
  }

  // ----- categories -----

  const ACTIVE_CATEGORY_FIRST: (CategoryRow, CategoryRow) -> bool :=
    (a: CategoryRow, b: CategoryRow) => a.archivedAt.None? && b.archivedAt.Some?

  function ActiveCategories(store: seq<Category>): (m: map<CategoryKey, Category>)
    ensures forall key <- m :: m[key] in store && KeyOf(m[key]) == key && m[key].archivedAt.None?
  {
    if store == [] then map[]
    else
      InitLast(store);
      var m := ActiveCategories(Init(store));
      if Last(store).archivedAt.None? then m[KeyOf(Last(store)) := Last(store)] else m
  }

  // The message names the file's line; among created categories the key does the same.
  datatype Warning = ParentIsNested(key: CategoryKey) | ParentNotFound(key: CategoryKey)

  // `unflushed` are the categories added since the last flush: their ids cannot be read yet.
  datatype CategoryUpsert = CategoryUpsert(
    store: seq<Category>, nextId: nat, resolved: map<CategoryKey, Category>, unflushed: set<CategoryKey>,
    warnings: seq<Warning>, created: nat, matched: nat)

  function AddCategory(s: CategoryUpsert, row: CategoryRow, parentId: Option<nat>): CategoryUpsert {
    var key := (row.name, row.kind);
    var category := Category(s.nextId, row.name, row.kind, row.color, row.archivedAt, parentId);
    s.(store := s.store + [category], nextId := s.nextId + 1, resolved := s.resolved[key := category],
       unflushed := s.unflushed + {key}, created := s.created + 1)
  }

  function Match(s: CategoryUpsert, key: CategoryKey, existing: Category): CategoryUpsert {
    s.(resolved := s.resolved[key := existing], matched := s.matched + 1)
  }

  function UpsertRoot(active: map<CategoryKey, Category>, s: CategoryUpsert, row: CategoryRow): CategoryUpsert {
    var key := (row.name, row.kind);
    if key in s.resolved then s
    else if key in active then Match(s, key, active[key])
    else AddCategory(s, row, None)
  }

  /** The parent a row names: this file's own first, else a stored active one. */
  function NamedParent(active: map<CategoryKey, Category>, s: CategoryUpsert, row: CategoryRow): Option<Category>
    requires row.parentName.Some?
  {
    var key := (row.parentName.value, row.kind);
    if key in s.resolved then Some(s.resolved[key]) else if key in active then Some(active[key]) else None
  }

  /** The id the session can show for a resolved category. */
  function VisibleId(s: CategoryUpsert, c: Category): Option<nat> {
    if KeyOf(c) in s.unflushed then None else Some(c.id)
  }

  function Warn(s: CategoryUpsert, w: Warning): CategoryUpsert {
    s.(warnings := s.warnings + [w])
  }

  function UpsertNested(active: map<CategoryKey, Category>, s: CategoryUpsert, row: CategoryRow): CategoryUpsert
    requires row.parentName.Some?
  {
    var key, parent := (row.name, row.kind), NamedParent(active, s, row);
    if key in s.resolved then s
    else if key in active then Match(s, key, active[key])
    else if parent.None? then AddCategory(Warn(s, ParentNotFound(key)), row, None)
    else if parent.value.parentId.Some? then AddCategory(Warn(s, ParentIsNested(key)), row, None)
    else AddCategory(s, row, VisibleId(s, parent.value))
  }

  function UpsertCategory(active: map<CategoryKey, Category>, s: CategoryUpsert, row: CategoryRow): CategoryUpsert {
    if row.parentName.Some? then UpsertNested(active, s, row) else UpsertRoot(active, s, row)
  }

  function FoldCategories(active: map<CategoryKey, Category>, s: CategoryUpsert,
      rows: seq<CategoryRow>): CategoryUpsert {
    if rows == [] then s else UpsertCategory(active, FoldCategories(active, s, Init(rows)), Last(rows))
  }

  function RowsWithParent(rows: seq<CategoryRow>, nested: bool): seq<CategoryRow> {
    if rows == [] then []
    else if Last(rows).parentName.Some? == nested then RowsWithParent(Init(rows), nested) + [Last(rows)]
    else RowsWithParent(Init(rows), nested)
  }

  function Sorted(rows: seq<CategoryRow>, nested: bool): seq<CategoryRow> {
    StableSort(RowsWithParent(rows, nested), ACTIVE_CATEGORY_FIRST)
  }

  function Flushed(s: CategoryUpsert): CategoryUpsert {
    s.(unflushed := {})
  }

  /** Roots first, a flush that makes their ids readable, then the nested rows. */
  function UpsertCategories(store: seq<Category>, nextId: nat, rows: seq<CategoryRow>): CategoryUpsert {
    var active := ActiveCategories(store);
    var start := CategoryUpsert(store, nextId, map[], {}, [], 0, 0);
    var roots := Flushed(FoldCategories(active, start, Sorted(rows, false)));
    Flushed(FoldCategories(active, roots, Sorted(rows, true)))
  }

  // ----- counters -----

  function RowKeyOf(row: CategoryRow): CategoryKey {
    (row.name, row.kind)
  }

  function ActiveAmong(active: map<CategoryKey, Category>, rows: seq<CategoryRow>): nat {
    if rows == [] then 0 else ActiveAmong(active, Init(rows)) + if RowKeyOf(Last(rows)) in active then 1 else 0
  }

  predicate HasKey(rows: seq<CategoryRow>, key: CategoryKey) {
    exists row <- rows :: RowKeyOf(row) == key
  }

  lemma CountedOnce(active: map<CategoryKey, Category>, s: CategoryUpsert, row: CategoryRow)
    requires RowKeyOf(row) !in s.resolved
    ensures var after, known := UpsertCategory(active, s, row), RowKeyOf(row) in active;
            && after.matched == s.matched + (if known then 1 else 0)
            && after.created == s.created + (if known then 0 else 1)
            && after.resolved.Keys == s.resolved.Keys + {RowKeyOf(row)}
  {
    hide VisibleId, NamedParent;
  }

  /** Rows of distinct keys that nothing has resolved yet are each counted once: matched when active, else created. */
  lemma {:induction false} EveryCategoryRowCounted(active: map<CategoryKey, Category>, s: CategoryUpsert,
      rows: seq<CategoryRow>)
    requires forall i, j :: 0 <= i < j < |rows| ==> RowKeyOf(rows[i]) != RowKeyOf(rows[j])
    requires forall row <- rows :: RowKeyOf(row) !in s.resolved
    ensures var after := FoldCategories(active, s, rows);
            && after.matched == s.matched + ActiveAmong(active, rows)
            && after.created == s.created + |rows| - ActiveAmong(active, rows)
            && forall key <- after.resolved :: key in s.resolved || HasKey(rows, key)
  {
    hide UpsertCategory, HasKey, RowKeyOf;
    if rows != [] {
      InitLast(rows);
      assert Last(rows) in rows;
      EveryCategoryRowCounted(active, s, Init(rows));
      KeyOfLast(rows);
      CountedOnce(active, FoldCategories(active, s, Init(rows)), Last(rows));
    }
  }

  lemma KeyOfLast(rows: seq<CategoryRow>)
    requires rows != [] && forall i, j :: 0 <= i < j < |rows| ==> RowKeyOf(rows[i]) != RowKeyOf(rows[j])
    ensures !HasKey(Init(rows), RowKeyOf(Last(rows))) && HasKey(rows, RowKeyOf(Last(rows)))
    ensures forall key :: HasKey(Init(rows), key) ==> HasKey(rows, key)
  {
    InitLast(rows);
    assert Last(rows) in rows;
  }

  // ----- depth -----

  predicate IsRootIn(store: seq<Category>, id: nat) {
    exists p <- store :: p.id == id && p.parentId.None?
  }

  /** Every parent pointer leads to a root: the tree has at most two levels. */
  ghost predicate AtMostTwoLevels(store: seq<Category>) {
    forall c <- store :: c.parentId.Some? ==> IsRootIn(store, c.parentId.value)
  }

  ghost predicate ResolvedStored(s: CategoryUpsert, active: map<CategoryKey, Category>) {
    && (forall key <- s.resolved :: s.resolved[key] in s.store && KeyOf(s.resolved[key]) == key)
    && (forall key <- active :: active[key] in s.store && KeyOf(active[key]) == key)
  }

  lemma IsRootInExtends(store: seq<Category>, c: Category, id: nat)
    requires IsRootIn(store, id)
    ensures IsRootIn(store + [c], id)
  {
    var p :| p in store && p.id == id && p.parentId.None?;
    assert p in store + [c];
  }

  lemma AddKeepsDepth(active: map<CategoryKey, Category>, s: CategoryUpsert, row: CategoryRow, parentId: Option<nat>)
    requires AtMostTwoLevels(s.store) && ResolvedStored(s, active)
    requires parentId.Some? ==> IsRootIn(s.store, parentId.value)
    ensures var after := AddCategory(s, row, parentId);
            AtMostTwoLevels(after.store) && ResolvedStored(after, active) && s.store <= after.store
  {
    hide IsRootIn;
    var after := AddCategory(s, row, parentId);
    var added := Last(after.store);
    assert after.store == s.store + [added];
    forall c | c in after.store && c.parentId.Some?
      ensures IsRootIn(after.store, c.parentId.value)
    {
      IsRootInExtends(s.store, added, c.parentId.value);
    }
  }

  lemma UpsertKeepsDepth(active: map<CategoryKey, Category>, s: CategoryUpsert, row: CategoryRow)
    requires AtMostTwoLevels(s.store) && ResolvedStored(s, active)
    ensures var after := UpsertCategory(active, s, row);
            AtMostTwoLevels(after.store) && ResolvedStored(after, active) && s.store <= after.store
  {
    hide AtMostTwoLevels, AddCategory;
    AddKeepsDepth(active, s, row, None);
    if row.parentName.Some? {
      var key := (row.name, row.kind);
      AddKeepsDepth(active, Warn(s, ParentNotFound(key)), row, None);
      AddKeepsDepth(active, Warn(s, ParentIsNested(key)), row, None);
      var parent := NamedParent(active, s, row);
      if parent.Some? && parent.value.parentId.None? {
        assert parent.value in s.store;
        AddKeepsDepth(active, s, row, VisibleId(s, parent.value));
      }
    }
  }

  lemma {:induction false} FoldKeepsDepth(active: map<CategoryKey, Category>, s: CategoryUpsert, rows: seq<CategoryRow>)
    requires AtMostTwoLevels(s.store) && ResolvedStored(s, active)
    ensures var after := FoldCategories(active, s, rows);
            AtMostTwoLevels(after.store) && ResolvedStored(after, active) && s.store <= after.store
  {
    if rows != [] {
      FoldKeepsDepth(active, s, Init(rows));
      UpsertKeepsDepth(active, FoldCategories(active, s, Init(rows)), Last(rows));
    }
  }

  /**
   * Whatever the backup's rows say (self-parents, cycles, missing or nested parents), restoring into a
   * store of at most two levels leaves at most two, and every category that existed is unmodified.
   */
  lemma RestoreKeepsTwoLevels(store: seq<Category>, nextId: nat, rows: seq<CategoryRow>)
    requires AtMostTwoLevels(store)
    ensures var after := UpsertCategories(store, nextId, rows);
            AtMostTwoLevels(after.store) && store <= after.store
  {
    var active := ActiveCategories(store);
    var start := CategoryUpsert(store, nextId, map[], {}, [], 0, 0);
    FoldKeepsDepth(active, start, Sorted(rows, false));
    FoldKeepsDepth(active, Flushed(FoldCategories(active, start, Sorted(rows, false))), Sorted(rows, true));
  }

  lemma SilentStep(kind: CategoryKind)
    ensures var b := CategoryRow("b", kind, None, None, Some("x"));
            var c := CategoryRow("c", kind, None, None, Some("b"));
            var after := FoldCategories(map[], CategoryUpsert([], 1, map[], {}, [], 0, 0), [b, c]);
            |after.warnings| == 1 && |after.store| == 2 && forall x <- after.store :: x.parentId.None?
  {
    var b := CategoryRow("b", kind, None, None, Some("x"));
    var c := CategoryRow("c", kind, None, None, Some("b"));
    var start := CategoryUpsert([], 1, map[], {}, [], 0, 0);
    assert Init([b, c]) == [b] && Init([b]) == [];
    assert FoldCategories(map[], start, []) == start;
    assert FoldCategories(map[], start, [b]) == UpsertCategory(map[], start, b);
  }

  lemma PairInOrder<T>(a: T, b: T, before: (T, T) -> bool)
    requires !before(b, a)
    ensures StableSort([a, b], before) == [a, b]
  {
    assert Init([a, b]) == [a] && Init([a]) == [];
    assert StableSort([], before) == [];
    assert StableSort([a], before) == [a];
  }

  /** The silent case: "b" names the missing "x" and is warned about; "c" names "b" and is not. */
  lemma SilentFlattening(kind: CategoryKind)
    ensures var b := CategoryRow("b", kind, None, None, Some("x"));
            var c := CategoryRow("c", kind, None, None, Some("b"));
            var after := UpsertCategories([], 1, [b, c]);
            |after.warnings| == 1 && |after.store| == 2 && forall x <- after.store :: x.parentId.None?
  {
    hide StableSort, UpsertCategory;
    var b := CategoryRow("b", kind, None, None, Some("x"));
    var c := CategoryRow("c", kind, None, None, Some("b"));
    assert Init([b, c]) == [b] && Init([b]) == [];
    assert RowsWithParent([b], true) == RowsWithParent([], true) + [b] == [b];
    assert RowsWithParent([b], false) == [];
    assert RowsWithParent([b, c], true) == [b] + [c] == [b, c];
    assert RowsWithParent([b, c], false) == [];
    PairInOrder(b, c, ACTIVE_CATEGORY_FIRST);
    SortNothing(ACTIVE_CATEGORY_FIRST);
    SilentStep(kind);
  }

  lemma SortNothing<T>(before: (T, T) -> bool)
    ensures StableSort([], before) == []
  {
  }
}
