/** Upserting the same category rows a second time. */
module CategoryRepeats {
  import opened Sequences
  import opened StableSorting
  import opened BackupFormat
  import opened BackupUpserts
  import opened FreshUpserts
  import opened Flattenings

  predicate HasUnarchivedKey(rows: seq<CategoryRow>, key: CategoryKey) {
    exists row <- rows :: RowKey(row) == key && row.archivedAt.None?
  }

  /** The rows that decide a key's fate: root rows come first, so they do wherever there is one. */
  function Deciding(rows: seq<CategoryRow>, key: CategoryKey): seq<CategoryRow> {
    RowsWithParent(rows, key !in RootKeys(rows))
  }

  /** A row whose key is not active in the store and archived in every deciding row of the file. */
  predicate IsLostKey(active: Keys, rows: seq<CategoryRow>, row: CategoryRow) {
    RowKey(row) !in active && !HasUnarchivedKey(Deciding(rows, RowKey(row)), RowKey(row))
  }

  // ----- the active categories after a pass -----

  lemma ActiveCategorySnoc(store: seq<Category>, c: Category)
    ensures ActiveCategories(store + [c]).Keys
            == ActiveCategories(store).Keys + if c.archivedAt.None? then {KeyOf(c)} else {}
  {
    assert Init(store + [c]) == store;
  }

  function UnarchivedKeys(active: Keys, resolved: map<CategoryKey, Category>): Keys {
    set key | key in resolved && key !in active && resolved[key].archivedAt.None?
  }

  /** Active after a pass: what was, and the unarchived categories it created. */
  ghost predicate ActiveNow(active: map<CategoryKey, Category>, s: CategoryUpsert) {
    ActiveCategories(s.store).Keys == active.Keys + UnarchivedKeys(active.Keys, s.resolved)
  }

  lemma UpsertCategoryResolves(active: map<CategoryKey, Category>, s: CategoryUpsert, row: CategoryRow)
    ensures var after := UpsertCategory(active, s, row);
            && after.resolved.Keys == s.resolved.Keys + {RowKey(row)}
            && (forall key <- s.resolved :: after.resolved[key] == s.resolved[key])
            && (if RowKey(row) in s.resolved || RowKey(row) in active then after.store == s.store
                else after.store == s.store + [after.resolved[RowKey(row)]]
                     && KeyOf(after.resolved[RowKey(row)]) == RowKey(row)
                     && after.resolved[RowKey(row)].archivedAt == row.archivedAt)
  {
  }

  lemma ActiveNowStep(active: map<CategoryKey, Category>, s: CategoryUpsert, row: CategoryRow)
    requires ActiveNow(active, s)
    ensures ActiveNow(active, UpsertCategory(active, s, row))
  {
    UpsertCategoryResolves(active, s, row);
    hide UpsertCategory, ActiveCategories;
    var after := UpsertCategory(active, s, row);
    if after.store != s.store {
      ActiveCategorySnoc(s.store, after.resolved[RowKey(row)]);
    }
  }

  /** What a pass over the rows leaves: their keys resolved, and nothing stored if they all were known. */
  ghost predicate Resolved(
    active: map<CategoryKey, Category>, s: CategoryUpsert, after: CategoryUpsert, keys: Keys)
  {
    && ActiveNow(active, after) && after.resolved.Keys == s.resolved.Keys + keys
    && (forall key <- s.resolved :: after.resolved[key] == s.resolved[key])
    && s.store <= after.store && (after.store == s.store <==> keys <= s.resolved.Keys + active.Keys)
  }

  lemma ResolvedStep(
    active: map<CategoryKey, Category>, s: CategoryUpsert, before: CategoryUpsert, keys: Keys, row: CategoryRow)
    requires Resolved(active, s, before, keys)
    ensures Resolved(active, s, UpsertCategory(active, before, row), keys + {RowKey(row)})
  {
    UpsertCategoryResolves(active, before, row);
    ActiveNowStep(active, before, row);
    hide ActiveNow, UpsertCategory, RowKey;
  }

  lemma {:induction false} PassResolves(active: map<CategoryKey, Category>, s: CategoryUpsert, rows: seq<CategoryRow>)
    requires ActiveNow(active, s)
    ensures Resolved(active, s, FoldCategories(active, s, rows), RowKeys(rows))
  {
    if rows != [] {
      InitLast(rows);
      RowKeysSnoc(Init(rows), Last(rows));
      hide Resolved, ActiveNow, UpsertCategory, RowKeys;
      PassResolves(active, s, Init(rows));
      ResolvedStep(active, s, FoldCategories(active, s, Init(rows)), RowKeys(Init(rows)), Last(rows));
    } else {
      assert RowKeys(rows) == {};
    }
  }

  // ----- the first row of a key decides -----

  lemma HasUnarchivedKeySnoc(rows: seq<CategoryRow>, key: CategoryKey)
    requires rows != []
    ensures HasUnarchivedKey(rows, key)
            <==> HasUnarchivedKey(Init(rows), key) || (RowKey(Last(rows)) == key && Last(rows).archivedAt.None?)
  {
    InitLast(rows);
    assert Last(rows) in rows;
  }

  lemma BeforeUnarchivedRow(rows: seq<CategoryRow>)
    requires rows != [] && InOrder(rows, ACTIVE_CATEGORY_FIRST)
    ensures InOrder(Init(rows), ACTIVE_CATEGORY_FIRST)
    ensures Last(rows).archivedAt.None? ==> forall row <- Init(rows) :: row.archivedAt.None?
  {
    forall k | 0 <= k < |rows| - 1
      ensures Last(rows).archivedAt.None? ==> rows[k].archivedAt.None?
    {
      assert !ACTIVE_CATEGORY_FIRST(Last(rows), rows[k]);
    }
  }

  lemma {:induction false} FirstRowOfKeyDecides(
    active: map<CategoryKey, Category>, s: CategoryUpsert, rows: seq<CategoryRow>, key: CategoryKey)
    requires ActiveNow(active, s) && InOrder(rows, ACTIVE_CATEGORY_FIRST)
    requires key in RowKeys(rows) && key !in active && key !in s.resolved
    ensures var after := FoldCategories(active, s, rows);
            && key in after.resolved
            && (after.resolved[key].archivedAt.None? <==> HasUnarchivedKey(rows, key))
  {
    InitLast(rows);
    BeforeUnarchivedRow(rows);
    HasUnarchivedKeySnoc(rows, key);
    RowKeysSnoc(Init(rows), Last(rows));
    hide UpsertCategory, ActiveNow;
    PassResolves(active, s, Init(rows));
    var before := FoldCategories(active, s, Init(rows));
    UpsertCategoryResolves(active, before, Last(rows));
    if key in RowKeys(Init(rows)) {
      UnarchivedTogether(rows, key);
      hide InOrder, HasUnarchivedKey, RowKeys;
      FirstRowOfKeyDecides(active, s, Init(rows), key);
    } else {
      assert !HasUnarchivedKey(Init(rows), key);
      hide InOrder, HasUnarchivedKey, RowKeys;
    }
  }

  lemma UnarchivedTogether(rows: seq<CategoryRow>, key: CategoryKey)
    requires rows != [] && InOrder(rows, ACTIVE_CATEGORY_FIRST) && key in RowKeys(Init(rows))
    ensures Last(rows).archivedAt.None? ==> HasUnarchivedKey(Init(rows), key)
  {
    BeforeUnarchivedRow(rows);
    var earlier :| earlier in Init(rows) && RowKey(earlier) == key;
    assert earlier in Init(rows);
  }

  lemma ActiveCategoriesFirstIsAnOrder()
    ensures IsWeakOrder(ACTIVE_CATEGORY_FIRST)
  {
    assert forall a, b :: ACTIVE_CATEGORY_FIRST(a, b) == (a.archivedAt.None? && b.archivedAt.Some?);
  }

  lemma SortedPass(rows: seq<CategoryRow>, nested: bool)
    ensures InOrder(Sorted(rows, nested), ACTIVE_CATEGORY_FIRST)
    ensures RowKeys(Sorted(rows, nested)) == RowKeys(RowsWithParent(rows, nested))
    ensures forall key ::
              HasUnarchivedKey(Sorted(rows, nested), key) == HasUnarchivedKey(RowsWithParent(rows, nested), key)
  {
    ActiveCategoriesFirstIsAnOrder();
    SortIsInOrder(RowsWithParent(rows, nested), ACTIVE_CATEGORY_FIRST);
    SortMembers(RowsWithParent(rows, nested), ACTIVE_CATEGORY_FIRST);
  }

  lemma PassKeys(rows: seq<CategoryRow>)
    ensures RowKeys(RowsWithParent(rows, false)) == RootKeys(rows)
    ensures RowKeys(rows) == RootKeys(rows) + RowKeys(RowsWithParent(rows, true))
  {
    RowsWithParentMembers(rows, false);
    RowsWithParentMembers(rows, true);
  }

  // ----- twice -----

  lemma OnceActive(store: seq<Category>, nextId: nat, rows: seq<CategoryRow>, row: CategoryRow)
    requires row in rows
    ensures RowKey(row) in ActiveCategories(UpsertCategories(store, nextId, rows).store)
            <==> !IsLostKey(ActiveCategories(store).Keys, rows, row)
  {
    var active, key := ActiveCategories(store), RowKey(row);
    var start := NoCategoriesYet(store, nextId);
    var roots := Flushed(FoldCategories(active, start, Sorted(rows, false)));
    var after := FoldCategories(active, roots, Sorted(rows, true));
    assert UpsertCategories(store, nextId, rows) == Flushed(after);
    SortedPass(rows, false);
    SortedPass(rows, true);
    PassKeys(rows);
    assert key in RowKeys(rows);
    assert ActiveNow(active, start);
    hide UpsertCategories, FoldCategories, Sorted, ActiveCategories, RowKeys, RootKeys, HasUnarchivedKey,
         RowsWithParent,
         InOrder;
    PassResolves(active, start, Sorted(rows, false));
    PassResolves(active, roots, Sorted(rows, true));
    if key !in active {
      if key in RootKeys(rows) {
        FirstRowOfKeyDecides(active, start, Sorted(rows, false), key);
      } else {
        FirstRowOfKeyDecides(active, roots, Sorted(rows, true), key);
      }
    }
  }

  lemma AddsNothingIffActive(store: seq<Category>, nextId: nat, rows: seq<CategoryRow>)
    ensures UpsertCategories(store, nextId, rows).store == store <==> RowKeys(rows) <= ActiveCategories(store).Keys
  {
    var active, start := ActiveCategories(store), NoCategoriesYet(store, nextId);
    var roots := Flushed(FoldCategories(active, start, Sorted(rows, false)));
    var after := FoldCategories(active, roots, Sorted(rows, true));
    assert UpsertCategories(store, nextId, rows) == Flushed(after);
    SortedPass(rows, false);
    SortedPass(rows, true);
    PassKeys(rows);
    assert ActiveNow(active, start);
    hide UpsertCategories, FoldCategories, Sorted, ActiveCategories, HasUnarchivedKey, RowsWithParent, RowKeys,
         RootKeys,
         InOrder;
    PassResolves(active, start, Sorted(rows, false));
    PassResolves(active, roots, Sorted(rows, true));
  }

  /** A second pass leaves the categories as they are if and only if no row's key is lost. */
  lemma UpsertingCategoriesTwice(store: seq<Category>, nextId: nat, laterId: nat, rows: seq<CategoryRow>)
    ensures var once := UpsertCategories(store, nextId, rows);
            UpsertCategories(once.store, laterId, rows).store == once.store
            <==> forall row <- rows :: !IsLostKey(ActiveCategories(store).Keys, rows, row)
  {
    var once := UpsertCategories(store, nextId, rows);
    AddsNothingIffActive(once.store, laterId, rows);
    forall row | row in rows
      ensures RowKey(row) in ActiveCategories(once.store) <==> !IsLostKey(ActiveCategories(store).Keys, rows, row)
    {
      OnceActive(store, nextId, rows, row);
    }
    hide UpsertCategories, ActiveCategories, IsLostKey;
  }
}
