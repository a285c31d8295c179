/** Upserting a file's accounts and categories into an empty tenant reproduces them under new ids. */
module FreshUpserts {
  import opened Sequences
  import opened StableSorting
  import opened BackupFormat
  import opened BackupUpserts
  import opened BackupExports

  // ----- accounts -----

  function NoAccounts(n: nat): AccountUpsert {
    AccountUpsert([], n, map[], 0, 0, 0)
  }

  ghost predicate NamesDecide(rows: seq<AccountRow>) {
    forall x <- rows, y <- rows :: x.name == y.name ==> x == y
  }

  /** Every row is resolved to a stored account that says what the row says; ids count up from n. */
  ghost predicate AccountsCreated(s: AccountUpsert, n: nat, rows: seq<AccountRow>) {
    && s.nextId == n + |s.store|
    && (forall i :: 0 <= i < |s.store| ==> s.store[i].id == n + i)
    && (forall row <- rows :: row.name in s.resolved)
    && (forall name <- s.resolved ::
          s.resolved[name] in s.store && AccountRowOf(s.resolved[name]) in rows && s.resolved[name].name == name)
  }

  lemma {:induction false} FoldCreatesAccounts(n: nat, rows: seq<AccountRow>)
    requires NamesDecide(rows)
    ensures AccountsCreated(FoldAccounts(map[], NoAccounts(n), rows), n, rows)
  {
    if rows != [] {
      InitLast(rows);
      FoldCreatesAccounts(n, Init(rows));
      var s := FoldAccounts(map[], NoAccounts(n), Init(rows));
      var after := FoldAccounts(map[], NoAccounts(n), rows);
      if after != s {
        assert after.store == s.store + [NewAccount(s.nextId, Last(rows))];
        assert AccountRowOf(NewAccount(s.nextId, Last(rows))) == Last(rows);
      }
    }
  }

  lemma AccountsFromEmpty(n: nat, rows: seq<AccountRow>)
    requires NamesDecide(rows)
    ensures var after := UpsertAccounts([], n, rows);
            && (forall row <- rows ::
                  && row.name in after.resolved && after.resolved[row.name] in after.store
                  && AccountRowOf(after.resolved[row.name]) == row)
            && forall i, j :: 0 <= i < j < |after.store| ==> after.store[i].id < after.store[j].id
  {
    var sorted := StableSort(rows, ACTIVE_FIRST);
    SortMembers(rows, ACTIVE_FIRST);
    assert ActiveAccounts([]) == map[];
    FoldCreatesAccounts(n, sorted);
    var after := UpsertAccounts([], n, rows);
    assert after == FoldAccounts(map[], NoAccounts(n), sorted);
    forall row | row in rows
      ensures row.name in after.resolved && AccountRowOf(after.resolved[row.name]) == row
    {
      assert row in sorted;
    }
  }

  // ----- categories -----

  function NoCategories(n: nat): CategoryUpsert {
    CategoryUpsert([], n, map[], {}, [], 0, 0)
  }

  function RowKey(row: CategoryRow): CategoryKey {
    (row.name, row.kind)
  }

  function ParentKey(row: CategoryRow): CategoryKey
    requires row.parentName.Some?
  {
    (row.parentName.value, row.kind)
  }

  ghost predicate KeysDecide(rows: seq<CategoryRow>) {
    forall x <- rows, y <- rows :: RowKey(x) == RowKey(y) ==> x == y
  }

  /** Every nested row names a root row of the same file and kind. */
  ghost predicate ParentsListed(rows: seq<CategoryRow>) {
    forall row <- rows :: row.parentName.Some? ==>
      exists p <- rows :: p.parentName.None? && RowKey(p) == ParentKey(row)
  }

  /** The stored category says what the row says, its parent pointer included. */
  ghost predicate Realises(resolved: map<CategoryKey, Category>, row: CategoryRow) {
    && RowKey(row) in resolved
    && var c := resolved[RowKey(row)];
      && KeyOf(c) == RowKey(row) && c.color == row.color && c.archivedAt == row.archivedAt
      && if row.parentName.None? then c.parentId.None?
         else ParentKey(row) in resolved && c.parentId == Some(resolved[ParentKey(row)].id)
  }

  lemma RealisesStill(before: map<CategoryKey, Category>, after: map<CategoryKey, Category>, row: CategoryRow)
    requires Realises(before, row)
    requires forall key <- before :: key in after && after[key] == before[key]
    ensures Realises(after, row)
  {
  }

  ghost predicate AllRealised(resolved: map<CategoryKey, Category>, rows: seq<CategoryRow>) {
    forall row <- rows :: Realises(resolved, row)
  }

  lemma AllRealisedSnoc(
    before: map<CategoryKey, Category>, after: map<CategoryKey, Category>, done: seq<CategoryRow>, row: CategoryRow)
    requires AllRealised(before, done) && Realises(after, row)
    requires forall key <- before :: key in after && after[key] == before[key]
    ensures AllRealised(after, done + [row])
  {
    hide Realises;
    forall r | r in done + [row]
      ensures Realises(after, r)
    {
      if r in done {
        RealisesStill(before, after, r);
      }
    }
  }

  ghost predicate CategoriesCreated(s: CategoryUpsert, n: nat) {
    && s.nextId == n + |s.store|
    && (forall i :: 0 <= i < |s.store| ==> s.store[i].id == n + i)
    && (forall key <- s.resolved :: s.resolved[key] in s.store && KeyOf(s.resolved[key]) == key)
  }

  /** What the root pass has done after the rows so far. */
  ghost predicate RootsCreated(s: CategoryUpsert, n: nat, rows: seq<CategoryRow>) {
    && CategoriesCreated(s, n)
    && AllRealised(s.resolved, rows)
    && forall key <- s.resolved :: exists row <- rows :: RowKey(row) == key
  }

  lemma RootStep(n: nat, s: CategoryUpsert, done: seq<CategoryRow>, row: CategoryRow)
    requires RootsCreated(s, n, done) && KeysDecide(done + [row])
    requires forall r <- done + [row] :: r.parentName.None?
    ensures RootsCreated(UpsertCategory(map[], s, row), n, done + [row])
  {
    var after := UpsertCategory(map[], s, row);
    assert row in done + [row] && forall r <- done :: r in done + [row];
    if RowKey(row) in s.resolved {
      var same :| same in done && RowKey(same) == RowKey(row);
      assert same == row;
    } else {
      assert after == AddCategory(s, row, None);
    }
    assert Realises(after.resolved, row);
    hide Realises, UpsertCategory, AllRealised;
    AllRealisedSnoc(s.resolved, after.resolved, done, row);
  }

  lemma {:induction false} FoldCreatesRoots(n: nat, rows: seq<CategoryRow>)
    requires KeysDecide(rows) && forall row <- rows :: row.parentName.None?
    ensures RootsCreated(FoldCategories(map[], NoCategories(n), rows), n, rows)
  {
    if rows != [] {
      hide UpsertCategory, RootsCreated;
      InitLast(rows);
      FoldCreatesRoots(n, Init(rows));
      RootStep(n, FoldCategories(map[], NoCategories(n), Init(rows)), Init(rows), Last(rows));
    }
  }

  ghost predicate RootReady(s: CategoryUpsert, row: CategoryRow) {
    && row.parentName.Some? && RowKey(row) !in s.resolved
    && ParentKey(row) in s.resolved && s.resolved[ParentKey(row)].parentId.None?
  }

  /** What the first pass leaves for the second: every parent a nested row names is a root with a readable id. */
  ghost predicate RootsReady(s: CategoryUpsert, n: nat, nested: seq<CategoryRow>) {
    && CategoriesCreated(s, n) && s.unflushed == {}
    && forall row <- nested :: RootReady(s, row)
  }

  /** What the nested pass has done after the rows so far. */
  ghost predicate NestedCreated(s: CategoryUpsert, n: nat, roots: CategoryUpsert, rows: seq<CategoryRow>) {
    && CategoriesCreated(s, n)
    && AllRealised(s.resolved, rows)
    && (forall key <- roots.resolved :: key in s.resolved && s.resolved[key] == roots.resolved[key])
    && (forall key <- s.unflushed :: key !in roots.resolved)
    && KeysFrom(s.resolved.Keys, roots.resolved.Keys, rows)
  }

  ghost predicate KeysFrom(keys: set<CategoryKey>, roots: set<CategoryKey>, rows: seq<CategoryRow>) {
    forall key <- keys :: key in roots || exists row <- rows :: RowKey(row) == key
  }

  lemma KeysFromSnoc(keys: set<CategoryKey>, roots: set<CategoryKey>, done: seq<CategoryRow>, row: CategoryRow)
    requires KeysFrom(keys, roots, done)
    ensures KeysFrom(keys, roots, done + [row]) && KeysFrom(keys + {RowKey(row)}, roots, done + [row])
  {
    assert row in done + [row] && forall r <- done :: r in done + [row];
  }

  lemma SameRow(
    keys: set<CategoryKey>, roots: set<CategoryKey>, done: seq<CategoryRow>, row: CategoryRow)
    requires KeysFrom(keys, roots, done) && KeysDecide(done + [row]) && RowKey(row) in keys && RowKey(row) !in roots
    ensures row in done
  {
    assert row in done + [row] && forall r <- done :: r in done + [row];
    var same :| same in done && RowKey(same) == RowKey(row);
    assert same == row;
  }

  lemma NestedStep(n: nat, roots: CategoryUpsert, s: CategoryUpsert, row: CategoryRow)
    requires RootReady(roots, row) && CategoriesCreated(s, n)
    requires forall key <- roots.resolved :: key in s.resolved && s.resolved[key] == roots.resolved[key]
    requires forall key <- s.unflushed :: key !in roots.resolved
    ensures var after := UpsertCategory(map[], s, row);
            if RowKey(row) in s.resolved then after == s
            else
              && CategoriesCreated(after, n) && Realises(after.resolved, row)
              && after.resolved.Keys == s.resolved.Keys + {RowKey(row)}
              && (forall key <- s.resolved :: after.resolved[key] == s.resolved[key])
              && after.unflushed == s.unflushed + {RowKey(row)}
  {
    var after := UpsertCategory(map[], s, row);
    if RowKey(row) !in s.resolved {
      var parent := s.resolved[ParentKey(row)];
      assert NamedParent(map[], s, row) == Some(parent);
      assert KeyOf(parent) == ParentKey(row) by {
        assert roots.resolved[ParentKey(row)] == parent;
      }
      assert VisibleId(s, parent) == Some(parent.id);
      assert after == AddCategory(s, row, Some(parent.id));
    }
  }

  lemma NestedKnown(n: nat, roots: CategoryUpsert, s: CategoryUpsert, done: seq<CategoryRow>, row: CategoryRow)
    requires KeysDecide(done + [row]) && RootReady(roots, row) && NestedCreated(s, n, roots, done)
    requires RowKey(row) in s.resolved
    ensures NestedCreated(s, n, roots, done + [row])
  {
    hide Realises, CategoriesCreated;
    KeysFromSnoc(s.resolved.Keys, roots.resolved.Keys, done, row);
    SameRow(s.resolved.Keys, roots.resolved.Keys, done, row);
    assert Realises(s.resolved, row);
    AllRealisedSnoc(s.resolved, s.resolved, done, row);
  }

  lemma NestedNew(n: nat, roots: CategoryUpsert, s: CategoryUpsert, done: seq<CategoryRow>, row: CategoryRow)
    requires RootsReady(roots, n, [row]) && NestedCreated(s, n, roots, done) && RowKey(row) !in s.resolved
    ensures NestedCreated(UpsertCategory(map[], s, row), n, roots, done + [row])
  {
    hide UpsertCategory, Realises, CategoriesCreated, AllRealised, KeysFrom;
    var after := UpsertCategory(map[], s, row);
    assert row in [row] && RootReady(roots, row);
    NestedStep(n, roots, s, row);
    KeysFromSnoc(s.resolved.Keys, roots.resolved.Keys, done, row);
    AllRealisedSnoc(s.resolved, after.resolved, done, row);
  }

  lemma NestedKeeps(n: nat, roots: CategoryUpsert, s: CategoryUpsert, done: seq<CategoryRow>, row: CategoryRow)
    requires KeysDecide(done + [row]) && RootsReady(roots, n, done + [row]) && NestedCreated(s, n, roots, done)
    ensures NestedCreated(UpsertCategory(map[], s, row), n, roots, done + [row])
  {
    assert row in done + [row] && RootReady(roots, row);
    if RowKey(row) in s.resolved {
      NestedKnown(n, roots, s, done, row);
    } else {
      hide UpsertCategory, NestedCreated;
      NestedNew(n, roots, s, done, row);
    }
  }

  lemma {:induction false} FoldCreatesNested(n: nat, roots: CategoryUpsert, rows: seq<CategoryRow>)
    requires KeysDecide(rows) && RootsReady(roots, n, rows)
    ensures NestedCreated(FoldCategories(map[], roots, rows), n, roots, rows)
  {
    if rows != [] {
      hide UpsertCategory, NestedCreated;
      InitLast(rows);
      FoldCreatesNested(n, roots, Init(rows));
      NestedKeeps(n, roots, FoldCategories(map[], roots, Init(rows)), Init(rows), Last(rows));
    }
  }

  lemma {:induction false} RowsWithParentMembers(rows: seq<CategoryRow>, nested: bool)
    ensures forall row :: row in RowsWithParent(rows, nested) <==> row in rows && row.parentName.Some? == nested
  {
    if rows != [] {
      InitLast(rows);
      RowsWithParentMembers(Init(rows), nested);
    }
  }

  lemma SortedMembers(rows: seq<CategoryRow>, nested: bool)
    ensures forall row :: row in Sorted(rows, nested) <==> row in rows && row.parentName.Some? == nested
  {
    RowsWithParentMembers(rows, nested);
    SortMembers(RowsWithParent(rows, nested), ACTIVE_CATEGORY_FIRST);
  }

  lemma RootsAreReady(n: nat, rows: seq<CategoryRow>)
    requires KeysDecide(rows) && ParentsListed(rows)
    ensures var roots := Flushed(FoldCategories(map[], NoCategories(n), Sorted(rows, false)));
            && RootsReady(roots, n, Sorted(rows, true))
            && forall row <- Sorted(rows, false) :: Realises(roots.resolved, row)
  {
    SortedMembers(rows, false);
    SortedMembers(rows, true);
    hide Sorted, FoldCategories;
    FoldCreatesRoots(n, Sorted(rows, false));
    var roots := FoldCategories(map[], NoCategories(n), Sorted(rows, false));
    forall row | row in Sorted(rows, true)
      ensures RowKey(row) !in roots.resolved
      ensures ParentKey(row) in roots.resolved && roots.resolved[ParentKey(row)].parentId.None?
    {
      var p :| p in rows && p.parentName.None? && RowKey(p) == ParentKey(row);
      assert Realises(roots.resolved, p);
    }
  }

  /** The restored categories, parent links included, are the file's. */
  lemma CategoriesFromEmpty(n: nat, rows: seq<CategoryRow>)
    requires KeysDecide(rows) && ParentsListed(rows)
    ensures var after := UpsertCategories([], n, rows);
            && CategoriesListed(after.store)
            && forall row <- rows ::
                 && RowKey(row) in after.resolved && after.resolved[RowKey(row)] in after.store
                 && CategoryRowOf(after.store, after.resolved[RowKey(row)]) == row
  {
    var roots := Flushed(FoldCategories(map[], NoCategories(n), Sorted(rows, false)));
    assert ActiveCategories([]) == map[];
    var s := FoldCategories(map[], roots, Sorted(rows, true));
    var after := UpsertCategories([], n, rows);
    assert after == Flushed(s);
    RootsAreReady(n, rows);
    SortedMembers(rows, false);
    SortedMembers(rows, true);
    hide Sorted, FoldCategories, UpsertCategories, Realises;
    FoldCreatesNested(n, roots, Sorted(rows, true));
    forall row | row in rows
      ensures && RowKey(row) in after.resolved && after.resolved[RowKey(row)] in after.store
              && CategoryRowOf(after.store, after.resolved[RowKey(row)]) == row
    {
      assert row in Sorted(rows, row.parentName.Some?);
      assert Realises(s.resolved, row) by {
        if row.parentName.None? { RealisesStill(roots.resolved, s.resolved, row); }
      }
      RealisedRow(s, n, row);
    }
  }

  lemma RealisedRow(s: CategoryUpsert, n: nat, row: CategoryRow)
    requires CategoriesCreated(s, n) && Realises(s.resolved, row)
    ensures CategoryRowOf(s.store, s.resolved[RowKey(row)]) == row
  {
    if row.parentName.Some? {
      var parent := s.resolved[ParentKey(row)];
      var found := FindCategory(s.store, parent.id);
      assert found == Some(parent);
    }
  }
}
