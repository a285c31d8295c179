/** Which nested rows of a backup end up as roots, and which of those are reported. */
module Flattenings {
  import opened Sequences
  import opened BackupFormat
  import opened BackupUpserts
  import opened FreshUpserts

  type Keys = set<CategoryKey>

  // ----- read off the file and the store -----

  function RowKeys(rows: seq<CategoryRow>): Keys {
    set row | row in rows :: RowKey(row)
  }

  function RootKeys(rows: seq<CategoryRow>): Keys {
    set row | row in rows && row.parentName.None? :: RowKey(row)
  }

  /** The i-th nested row creates a category: its key is not active, no root row's and no earlier nested row's. */
  predicate IsNew(active: Keys, roots: Keys, nested: seq<CategoryRow>, i: nat)
    requires i < |nested|
  {
    RowKey(nested[i]) !in active && RowKey(nested[i]) !in roots && RowKey(nested[i]) !in RowKeys(nested[..i])
  }

  /** The row names an active root of the store, or else a root row of the file. */
  predicate NamesRoot(active: map<CategoryKey, Category>, roots: Keys, row: CategoryRow)
    requires row.parentName.Some?
  {
    if ParentKey(row) in active then active[ParentKey(row)].parentId.None? else ParentKey(row) in roots
  }

  ghost predicate AllNested(rows: seq<CategoryRow>) {
    forall row <- rows :: row.parentName.Some?
  }

  /** The j-th row is created, and as a root, although it names a parent. */
  predicate IsFlattened(active: map<CategoryKey, Category>, roots: Keys, nested: seq<CategoryRow>, j: nat)
    requires AllNested(nested) && j < |nested|
  {
    IsNew(active.Keys, roots, nested, j) && !NamesRoot(active, roots, nested[j])
  }

  /** The i-th row is created and names as its parent an earlier row that was itself flattened. */
  predicate IsSilent(active: map<CategoryKey, Category>, roots: Keys, nested: seq<CategoryRow>, i: nat)
    requires AllNested(nested) && i < |nested|
  {
    && IsNew(active.Keys, roots, nested, i)
    && exists j :: 0 <= j < i && IsFlattened(active, roots, nested, j) && RowKey(nested[j]) == ParentKey(nested[i])
  }

  function SilentCount(active: map<CategoryKey, Category>, roots: Keys, nested: seq<CategoryRow>): nat
    requires AllNested(nested)
  {
    if nested == [] then 0
    else
      SilentCount(active, roots, Init(nested)) + if IsSilent(active, roots, nested, |nested| - 1) then 1 else 0
  }

  // ----- what a restore leaves behind -----

  /** Stored as a root although no row of the file lists it as one. */
  predicate BecameRoot(roots: Keys, c: Category) {
    c.parentId.None? && KeyOf(c) !in roots
  }

  function BecameRoots(roots: Keys, added: seq<Category>): nat {
    if added == [] then 0 else BecameRoots(roots, Init(added)) + if BecameRoot(roots, Last(added)) then 1 else 0
  }

  predicate Warned(warnings: seq<Warning>, key: CategoryKey) {
    exists w <- warnings :: w.key == key
  }

  // ----- the nested pass, row by row -----

  /** What is known after the nested rows so far. */
  ghost predicate Passed(
    active: map<CategoryKey, Category>, rootKeys: Keys, s: CategoryUpsert, done: seq<CategoryRow>)
    requires AllNested(done)
  {
    && s.resolved.Keys == rootKeys + RowKeys(done)
    && (forall key <- s.resolved :: KeyOf(s.resolved[key]) == key)
    && (forall key <- s.resolved :: key in active ==> s.resolved[key] == active[key])
    && (forall key <- rootKeys :: key !in active ==> s.resolved[key].parentId.None?)
    && s.unflushed == RowKeys(done) - active.Keys - rootKeys
    && LinksRight(active, rootKeys, s.resolved, done)
  }

  /** A created nested category has a parent exactly when its row names a root. */
  ghost predicate LinksRight(
    active: map<CategoryKey, Category>, rootKeys: Keys, resolved: map<CategoryKey, Category>, done: seq<CategoryRow>)
    requires AllNested(done)
  {
    forall i :: 0 <= i < |done| && IsNew(active.Keys, rootKeys, done, i) ==>
      && RowKey(done[i]) in resolved
      && (resolved[RowKey(done[i])].parentId.None? <==> !NamesRoot(active, rootKeys, done[i]))
  }

  lemma RowKeysSnoc(done: seq<CategoryRow>, row: CategoryRow)
    ensures RowKeys(done + [row]) == RowKeys(done) + {RowKey(row)}
  {
    assert row in done + [row] && forall r <- done :: r in done + [row];
  }

  lemma NewEarlier(active: Keys, roots: Keys, done: seq<CategoryRow>, row: CategoryRow, i: nat)
    requires i < |done|
    ensures IsNew(active, roots, done + [row], i) == IsNew(active, roots, done, i)
  {
    assert (done + [row])[..i] == done[..i];
  }

  lemma NewLast(active: Keys, roots: Keys, done: seq<CategoryRow>, row: CategoryRow)
    ensures IsNew(active, roots, done + [row], |done|)
            <==> RowKey(row) !in active && RowKey(row) !in roots && RowKey(row) !in RowKeys(done)
  {
    assert (done + [row])[..|done|] == done;
  }

  /** Every key of a nested row that was created has the one row that created it. */
  lemma {:induction false} CreatorOf(active: Keys, roots: Keys, done: seq<CategoryRow>,
      key: CategoryKey) returns (j: nat)
    requires key in RowKeys(done) && key !in active && key !in roots
    ensures j < |done| && RowKey(done[j]) == key && IsNew(active, roots, done, j)
  {
    InitLast(done);
    RowKeysSnoc(Init(done), Last(done));
    if key in RowKeys(Init(done)) {
      j := CreatorOf(active, roots, Init(done), key);
      NewEarlier(active, roots, Init(done), Last(done), j);
    } else {
      j := |done| - 1;
      NewLast(active, roots, Init(done), Last(done));
    }
  }

  lemma KeyBefore(done: seq<CategoryRow>, i: nat, j: nat)
    requires i < j <= |done|
    ensures RowKey(done[i]) in RowKeys(done[..j])
  {
    assert done[i] in done[..j];
  }

  lemma OneCreator(active: Keys, roots: Keys, done: seq<CategoryRow>, i: nat, j: nat)
    requires i < |done| && j < |done| && RowKey(done[i]) == RowKey(done[j])
    requires IsNew(active, roots, done, i) && IsNew(active, roots, done, j)
    ensures i == j
  {
    if i < j {
      KeyBefore(done, i, j);
    } else if j < i {
      KeyBefore(done, j, i);
    }
  }

  lemma AllNestedSnoc(done: seq<CategoryRow>, row: CategoryRow)
    requires AllNested(done) && row.parentName.Some?
    ensures AllNested(done + [row])
  {
  }

  /** The row names an earlier row that was flattened. */
  ghost predicate NamesFlattened(
    active: map<CategoryKey, Category>, roots: Keys, done: seq<CategoryRow>, row: CategoryRow)
    requires AllNested(done) && row.parentName.Some?
  {
    exists j :: 0 <= j < |done| && IsFlattened(active, roots, done, j) && RowKey(done[j]) == ParentKey(row)
  }

  lemma SilentLast(active: map<CategoryKey, Category>, roots: Keys, done: seq<CategoryRow>, row: CategoryRow)
    requires AllNested(done) && row.parentName.Some? && AllNested(done + [row])
    ensures IsSilent(active, roots, done + [row], |done|)
            <==> IsNew(active.Keys, roots, done + [row], |done|) && NamesFlattened(active, roots, done, row)
  {
    hide IsNew;
    var more := done + [row];
    forall j: nat | j < |done|
      ensures IsFlattened(active, roots, more, j) == IsFlattened(active, roots, done, j)
    {
      NewEarlier(active.Keys, roots, done, row, j);
    }
    if NamesFlattened(active, roots, done, row) {
      var j :| 0 <= j < |done| && IsFlattened(active, roots, done, j) && RowKey(done[j]) == ParentKey(row);
      assert IsFlattened(active, roots, more, j) && more[j] == done[j];
    }
  }

  ghost predicate Says(said: seq<Warning>, key: CategoryKey, speaks: bool) {
    if speaks then |said| == 1 && said[0].key == key else said == []
  }

  /**
   * What a created nested row does: one category, a root unless its row names one, and at most one warning,
   * that the parent is not found exactly when neither the store nor an earlier row of the file has it.
   */
  lemma NewRowOutcome(
    active: map<CategoryKey, Category>, rootKeys: Keys, s: CategoryUpsert,
    done: seq<CategoryRow>, row: CategoryRow)
    returns (said: seq<Warning>)
    requires AllNested(done) && Passed(active, rootKeys, s, done) && row.parentName.Some?
    requires RowKey(row) !in active && RowKey(row) !in s.resolved
    requires forall key <- active :: KeyOf(active[key]) == key
    ensures var after := UpsertCategory(active, s, row);
            var c := Category(s.nextId, row.name, row.kind, row.color, row.archivedAt, Last(after.store).parentId);
            && after.store == s.store + [c]
            && (c.parentId.None? <==> !NamesRoot(active, rootKeys, row))
            && after.resolved == s.resolved[RowKey(row) := c] && after.unflushed == s.unflushed + {RowKey(row)}
            && after.warnings == s.warnings + said
    ensures Says(said, RowKey(row), !NamesRoot(active, rootKeys, row) && !NamesFlattened(active, rootKeys, done, row))
    ensures said != [] ==>
              (said[0].ParentNotFound? <==>
                 ParentKey(row) !in active && ParentKey(row) !in rootKeys && ParentKey(row) !in RowKeys(done))
  {
    said := UpsertCategory(active, s, row).warnings[|s.warnings|..];
    var key, parent := ParentKey(row), NamedParent(active, s, row);
    if key in RowKeys(done) && key !in active && key !in rootKeys {
      var j := CreatorOf(active.Keys, rootKeys, done, key);
      if NamesFlattened(active, rootKeys, done, row) {
        var k :| 0 <= k < |done| && IsFlattened(active, rootKeys, done, k) && RowKey(done[k]) == key;
        OneCreator(active.Keys, rootKeys, done, j, k);
      }
      assert IsFlattened(active, rootKeys, done, j) <==> s.resolved[key].parentId.None?;
    }
  }

  lemma LinksRightSnoc(
    active: map<CategoryKey, Category>, rootKeys: Keys, before: map<CategoryKey, Category>,
    after: map<CategoryKey, Category>, done: seq<CategoryRow>, row: CategoryRow)
    requires AllNested(done) && AllNested(done + [row]) && LinksRight(active, rootKeys, before, done)
    requires forall key <- before :: key in after && after[key] == before[key]
    requires IsNew(active.Keys, rootKeys, done + [row], |done|) ==>
               RowKey(row) in after && (after[RowKey(row)].parentId.None? <==> !NamesRoot(active, rootKeys, row))
    ensures LinksRight(active, rootKeys, after, done + [row])
  {
    forall i: nat | i < |done|
      ensures IsNew(active.Keys, rootKeys, done + [row], i) == IsNew(active.Keys, rootKeys, done, i)
    {
      NewEarlier(active.Keys, rootKeys, done, row, i);
    }
    hide IsNew, NamesRoot;
  }

  lemma PassedOld(
    active: map<CategoryKey, Category>, rootKeys: Keys, s: CategoryUpsert,
    done: seq<CategoryRow>, row: CategoryRow)
    requires AllNested(done) && Passed(active, rootKeys, s, done) && row.parentName.Some?
    requires RowKey(row) in active || RowKey(row) in s.resolved
    requires forall key <- active :: KeyOf(active[key]) == key
    ensures var after := UpsertCategory(active, s, row);
            && after.store == s.store && after.warnings == s.warnings
            && AllNested(done + [row]) && Passed(active, rootKeys, after, done + [row])
            && !IsNew(active.Keys, rootKeys, done + [row], |done|)
  {
    RowKeysSnoc(done, row);
    AllNestedSnoc(done, row);
    NewLast(active.Keys, rootKeys, done, row);
    var after := UpsertCategory(active, s, row);
    hide IsNew, NamesRoot, LinksRight, RowKeys;
    LinksRightSnoc(active, rootKeys, s.resolved, after.resolved, done, row);
  }

  lemma PassedNew(
    active: map<CategoryKey, Category>, rootKeys: Keys, s: CategoryUpsert,
    done: seq<CategoryRow>, row: CategoryRow)
    requires AllNested(done) && Passed(active, rootKeys, s, done) && row.parentName.Some?
    requires RowKey(row) !in active && RowKey(row) !in s.resolved
    requires forall key <- active :: KeyOf(active[key]) == key
    ensures AllNested(done + [row]) && Passed(active, rootKeys, UpsertCategory(active, s, row), done + [row])
    ensures IsNew(active.Keys, rootKeys, done + [row], |done|) && RowKey(row) !in RowKeys(done) + rootKeys
  {
    hide UpsertCategory, NamesRoot, NamesFlattened, LinksRight;
    var said := NewRowOutcome(active, rootKeys, s, done, row);
    RowKeysSnoc(done, row);
    AllNestedSnoc(done, row);
    NewLast(active.Keys, rootKeys, done, row);
    hide IsNew, RowKeys;
    var after := UpsertCategory(active, s, row);
    LinksRightSnoc(active, rootKeys, s.resolved, after.resolved, done, row);
  }

  function RootedKeys(roots: Keys, added: seq<Category>): Keys {
    set c | c in added && BecameRoot(roots, c) :: KeyOf(c)
  }

  function WarnedKeys(warnings: seq<Warning>): Keys {
    set w | w in warnings :: w.key
  }

  function SilentKeys(active: map<CategoryKey, Category>, roots: Keys, nested: seq<CategoryRow>): Keys
    requires AllNested(nested)
  {
    if nested == [] then {}
    else
      SilentKeys(active, roots, Init(nested))
      + if IsSilent(active, roots, nested, |nested| - 1) then {RowKey(Last(nested))} else {}
  }

  /** The flattened categories fall into the warned and the silent ones, in keys and in numbers. */
  ghost predicate Accounted(
    active: map<CategoryKey, Category>, rootKeys: Keys, added: seq<Category>, warnings: seq<Warning>,
    done: seq<CategoryRow>)
    requires AllNested(done)
  {
    && RootedKeys(rootKeys, added) == WarnedKeys(warnings) + SilentKeys(active, rootKeys, done)
    && WarnedKeys(warnings) !! SilentKeys(active, rootKeys, done)
    && BecameRoots(rootKeys, added) == |warnings| + SilentCount(active, rootKeys, done)
    && RootedKeys(rootKeys, added) <= RowKeys(done)
  }

  lemma RootedSnoc(roots: Keys, added: seq<Category>, c: Category)
    ensures RootedKeys(roots, added + [c])
            == RootedKeys(roots, added) + if BecameRoot(roots, c) then {KeyOf(c)} else {}
    ensures BecameRoots(roots, added + [c]) == BecameRoots(roots, added) + if BecameRoot(roots, c) then 1 else 0
  {
    assert Init(added + [c]) == added;
    assert c in added + [c] && forall d <- added :: d in added + [c];
  }

  lemma WarnedSnoc(warnings: seq<Warning>, w: Warning)
    ensures WarnedKeys(warnings + [w]) == WarnedKeys(warnings) + {w.key}
  {
    assert w in warnings + [w] && forall v <- warnings :: v in warnings + [w];
  }

  lemma SilentSnoc(active: map<CategoryKey, Category>, roots: Keys, done: seq<CategoryRow>, row: CategoryRow)
    requires AllNested(done) && AllNested(done + [row])
    ensures var silent := IsSilent(active, roots, done + [row], |done|);
            && SilentKeys(active, roots, done + [row])
               == SilentKeys(active, roots, done) + (if silent then {RowKey(row)} else {})
            && SilentCount(active, roots, done + [row])
               == SilentCount(active, roots, done) + if silent then 1 else 0
  {
    hide IsSilent;
    assert Init(done + [row]) == done;
  }

  lemma AccountedOld(
    active: map<CategoryKey, Category>, rootKeys: Keys, added: seq<Category>, warnings: seq<Warning>,
    done: seq<CategoryRow>, row: CategoryRow)
    requires AllNested(done) && AllNested(done + [row]) && Accounted(active, rootKeys, added, warnings, done)
    requires !IsNew(active.Keys, rootKeys, done + [row], |done|)
    ensures Accounted(active, rootKeys, added, warnings, done + [row])
  {
    hide IsNew, SilentKeys, SilentCount, RootedKeys, WarnedKeys, BecameRoots, RowKeys;
    RowKeysSnoc(done, row);
    SilentSnoc(active, rootKeys, done, row);
    assert !IsSilent(active, rootKeys, done + [row], |done|);
  }

  lemma KeysGrow(rooted: Keys, warned: Keys, silent: Keys, seen: Keys, key: CategoryKey, flat: bool, quiet: bool)
    requires rooted == warned + silent && warned !! silent && rooted <= seen && key !in seen && (quiet ==> flat)
    ensures var rooted' := rooted + if flat then {key} else {};
            var warned' := warned + if flat && !quiet then {key} else {};
            var silent' := silent + if quiet then {key} else {};
            rooted' == warned' + silent' && warned' !! silent' && rooted' <= seen + {key}
  {
  }

  lemma WarnedSaid(warnings: seq<Warning>, said: seq<Warning>, key: CategoryKey, speaks: bool)
    requires Says(said, key, speaks)
    ensures WarnedKeys(warnings + said) == WarnedKeys(warnings) + if speaks then {key} else {}
  {
    if speaks {
      assert said == [said[0]];
      WarnedSnoc(warnings, said[0]);
    } else {
      assert warnings + said == warnings;
    }
  }

  lemma AccountedNew(
    active: map<CategoryKey, Category>, rootKeys: Keys, added: seq<Category>, warnings: seq<Warning>,
    done: seq<CategoryRow>, row: CategoryRow, c: Category, said: seq<Warning>)
    requires AllNested(done) && AllNested(done + [row]) && Accounted(active, rootKeys, added, warnings, done)
    requires row.parentName.Some? && IsNew(active.Keys, rootKeys, done + [row], |done|)
    requires RowKey(row) !in RowKeys(done) + rootKeys && KeyOf(c) == RowKey(row)
    requires c.parentId.None? <==> !NamesRoot(active, rootKeys, row)
    requires NamesFlattened(active, rootKeys, done, row) ==> !NamesRoot(active, rootKeys, row)
    requires Says(said, RowKey(row), !NamesRoot(active, rootKeys, row) && !NamesFlattened(active, rootKeys, done, row))
    ensures Accounted(active, rootKeys, added + [c], warnings + said, done + [row])
  {
    var key, flat, quiet := RowKey(row), c.parentId.None?, NamesFlattened(active, rootKeys, done, row);
    RowKeysSnoc(done, row);
    SilentLast(active, rootKeys, done, row);
    SilentSnoc(active, rootKeys, done, row);
    RootedSnoc(rootKeys, added, c);
    hide IsNew, IsSilent, NamesRoot, NamesFlattened, SilentKeys, SilentCount, RootedKeys, WarnedKeys, BecameRoots,
         RowKeys;
    WarnedSaid(warnings, said, key, flat && !quiet);
    KeysGrow(RootedKeys(rootKeys, added), WarnedKeys(warnings), SilentKeys(active, rootKeys, done), RowKeys(done),
             key, flat, quiet);
  }

  lemma FlattenedNamesNoRoot(
    active: map<CategoryKey, Category>, rootKeys: Keys, done: seq<CategoryRow>, row: CategoryRow)
    requires AllNested(done) && row.parentName.Some? && NamesFlattened(active, rootKeys, done, row)
    ensures !NamesRoot(active, rootKeys, row)
  {
  }

  lemma AccountedStep(
    active: map<CategoryKey, Category>, roots: CategoryUpsert, rootKeys: Keys, s: CategoryUpsert,
    done: seq<CategoryRow>, row: CategoryRow)
    requires AllNested(done) && Passed(active, rootKeys, s, done) && row.parentName.Some?
    requires forall key <- active :: KeyOf(active[key]) == key
    requires roots.store <= s.store
    requires Accounted(active, rootKeys, s.store[|roots.store|..], s.warnings, done)
    ensures var after := UpsertCategory(active, s, row);
            && AllNested(done + [row]) && Passed(active, rootKeys, after, done + [row])
            && roots.store <= after.store
            && Accounted(active, rootKeys, after.store[|roots.store|..], after.warnings, done + [row])
  {
    hide UpsertCategory, NamesRoot, NamesFlattened, IsNew, Accounted;
    var added, after := s.store[|roots.store|..], UpsertCategory(active, s, row);
    if RowKey(row) in active || RowKey(row) in s.resolved {
      PassedOld(active, rootKeys, s, done, row);
      AccountedOld(active, rootKeys, added, s.warnings, done, row);
    } else {
      PassedNew(active, rootKeys, s, done, row);
      var said := NewRowOutcome(active, rootKeys, s, done, row);
      if NamesFlattened(active, rootKeys, done, row) {
        FlattenedNamesNoRoot(active, rootKeys, done, row);
      }
      hide Passed, RowKeys;
      var c := Last(after.store);
      assert after.store[|roots.store|..] == added + [c];
      AccountedNew(active, rootKeys, added, s.warnings, done, row, c, said);
    }
  }

  lemma {:induction false} NestedPassAccounted(
    active: map<CategoryKey, Category>, roots: CategoryUpsert, rootKeys: Keys, nested: seq<CategoryRow>)
    requires AllNested(nested) && Passed(active, rootKeys, roots, [])
    requires roots.warnings == [] && forall key <- active :: KeyOf(active[key]) == key
    ensures var s := FoldCategories(active, roots, nested);
            && Passed(active, rootKeys, s, nested) && roots.store <= s.store
            && Accounted(active, rootKeys, s.store[|roots.store|..], s.warnings, nested)
  {
    if nested != [] {
      InitLast(nested);
      NestedPassAccounted(active, roots, rootKeys, Init(nested));
      hide Passed, Accounted, UpsertCategory;
      AccountedStep(
        active, roots, rootKeys, FoldCategories(active, roots, Init(nested)), Init(nested), Last(nested));
    }
  }

  // ----- the root pass -----

  /** After the root pass: the rows' keys are resolved, to active categories or to new roots. */
  ghost predicate RootsPassed(
    active: map<CategoryKey, Category>, base: seq<Category>, s: CategoryUpsert, done: seq<CategoryRow>)
  {
    && s.resolved.Keys == RowKeys(done) && s.warnings == [] && base <= s.store
    && (forall key <- s.resolved :: KeyOf(s.resolved[key]) == key)
    && (forall key <- s.resolved ::
          if key in active then s.resolved[key] == active[key] else s.resolved[key].parentId.None?)
    && (forall c <- s.store[|base|..] :: KeyOf(c) in RowKeys(done))
  }

  lemma RootsPassedStep(
    active: map<CategoryKey, Category>, base: seq<Category>, s: CategoryUpsert, done: seq<CategoryRow>,
        row: CategoryRow)
    requires RootsPassed(active, base, s, done) && row.parentName.None?
    requires forall key <- active :: KeyOf(active[key]) == key
    ensures RootsPassed(active, base, UpsertCategory(active, s, row), done + [row])
  {
    RowKeysSnoc(done, row);
    hide RowKeys;
    var after := UpsertCategory(active, s, row);
    if after.store != s.store {
      var c := Last(after.store);
      assert after.store[|base|..] == s.store[|base|..] + [c];
    }
  }

  lemma {:induction false} RootPass(active: map<CategoryKey, Category>, s: CategoryUpsert, rows: seq<CategoryRow>)
    requires s.resolved == map[] && s.warnings == [] && forall row <- rows :: row.parentName.None?
    requires forall key <- active :: KeyOf(active[key]) == key
    ensures RootsPassed(active, s.store, FoldCategories(active, s, rows), rows)
  {
    if rows != [] {
      InitLast(rows);
      RootPass(active, s, Init(rows));
      hide RootsPassed, UpsertCategory;
      RootsPassedStep(active, s.store, FoldCategories(active, s, Init(rows)), Init(rows), Last(rows));
    }
  }

  // ----- the whole upsert -----

  function Nested(rows: seq<CategoryRow>): (nested: seq<CategoryRow>)
    ensures AllNested(nested) && forall row :: row in nested <==> row in rows && row.parentName.Some?
  {
    SortedMembers(rows, true);
    Sorted(rows, true)
  }

  lemma RootRows(rows: seq<CategoryRow>)
    ensures RowKeys(Sorted(rows, false)) == RootKeys(rows)
    ensures forall row <- Sorted(rows, false) :: row.parentName.None?
  {
    SortedMembers(rows, false);
  }

  lemma BecameRootsSplit(roots: Keys, a: seq<Category>, b: seq<Category>)
    requires forall c <- a :: KeyOf(c) in roots
    ensures RootedKeys(roots, a + b) == RootedKeys(roots, b)
    ensures BecameRoots(roots, a + b) == BecameRoots(roots, b)
  {
    assert forall c <- a + b :: c in a || c in b;
    assert forall c <- b :: c in a + b;
    BecameRootsOf(roots, a, b);
  }

  lemma {:induction false} BecameRootsOf(roots: Keys, a: seq<Category>, b: seq<Category>)
    requires forall c <- a :: KeyOf(c) in roots
    ensures BecameRoots(roots, a + b) == BecameRoots(roots, b)
  {
    if b != [] {
      assert Init(a + b) == a + Init(b);
      BecameRootsOf(roots, a, Init(b));
    } else if a != [] {
      assert a + b == a;
      InitLast(a);
      BecameRootsOf(roots, Init(a), []);
      assert Init(a) + [] == Init(a);
    }
  }

  lemma {:induction false} NoSilentKeys(active: map<CategoryKey, Category>, roots: Keys, nested: seq<CategoryRow>)
    requires AllNested(nested)
    ensures SilentKeys(active, roots, nested) == {} <==> SilentCount(active, roots, nested) == 0
    ensures SilentCount(active, roots, nested) == 0
            <==> forall i :: 0 <= i < |nested| ==> !IsSilent(active, roots, nested, i)
  {
    if nested != [] {
      InitLast(nested);
      var before := Init(nested);
      NoSilentKeys(active, roots, before);
      forall i | 0 <= i < |before|
        ensures IsSilent(active, roots, nested, i) == IsSilent(active, roots, before, i)
      {
        SilentEarlier(active, roots, before, Last(nested), i);
      }
    }
  }

  lemma SilentEarlier(
    active: map<CategoryKey, Category>, roots: Keys, done: seq<CategoryRow>, row: CategoryRow, i: nat)
    requires AllNested(done) && AllNested(done + [row]) && i < |done|
    ensures IsSilent(active, roots, done + [row], i) == IsSilent(active, roots, done, i)
  {
    hide IsNew;
    forall j: nat | j < |done|
      ensures IsFlattened(active, roots, done + [row], j) == IsFlattened(active, roots, done, j)
    {
      NewEarlier(active.Keys, roots, done, row, j);
    }
    NewEarlier(active.Keys, roots, done, row, i);
    hide IsFlattened;
    var more := done + [row];
    if j: nat :| j < i && IsFlattened(active, roots, done, j) && RowKey(done[j]) == ParentKey(done[i]) {
      assert IsFlattened(active, roots, more, j) && RowKey(more[j]) == ParentKey(more[i]);
    }
    if j: nat :| j < i && IsFlattened(active, roots, more, j) && RowKey(more[j]) == ParentKey(more[i]) {
      assert IsFlattened(active, roots, done, j) && RowKey(done[j]) == ParentKey(done[i]);
    }
  }

  /**
   * For every store and file: the new categories stored as roots though the file nests them are exactly
   * those warned about and those whose parent row was itself flattened earlier, and never both. So every
   * flattening is reported if and only if no created nested row names the key of an earlier created
   * nested row, in processing order, that names no root.
   */
  lemma EveryFlatteningWarnedIff(store: seq<Category>, nextId: nat, rows: seq<CategoryRow>)
    ensures var after := UpsertCategories(store, nextId, rows);
            var active, roots, nested := ActiveCategories(store), RootKeys(rows), Nested(rows);
            && store <= after.store
            && var added := after.store[|store|..];
               && RootedKeys(roots, added) == WarnedKeys(after.warnings) + SilentKeys(active, roots, nested)
               && WarnedKeys(after.warnings) !! SilentKeys(active, roots, nested)
               && BecameRoots(roots, added) == |after.warnings| + SilentCount(active, roots, nested)
               && ((forall c <- added :: BecameRoot(roots, c) ==> Warned(after.warnings, KeyOf(c)))
                   <==> forall i :: 0 <= i < |nested| ==> !IsSilent(active, roots, nested, i))
  {
    var active, rootKeys, nested := ActiveCategories(store), RootKeys(rows), Nested(rows);
    var after := UpsertCategories(store, nextId, rows);
    UpsertAccounted(store, nextId, rows);
    hide UpsertCategories, ActiveCategories, RootKeys, Nested, IsSilent, SilentKeys, SilentCount, RootedKeys,
         WarnedKeys,
         BecameRoots;
    NoSilentKeys(active, rootKeys, nested);
    WarnedIsCovered(rootKeys, after.store[|store|..], after.warnings);
  }

  lemma UpsertAccounted(store: seq<Category>, nextId: nat, rows: seq<CategoryRow>)
    ensures var after := UpsertCategories(store, nextId, rows);
            && store <= after.store
            && Accounted(ActiveCategories(store), RootKeys(rows), after.store[|store|..], after.warnings, Nested(rows))
  {
    var active, rootKeys, nested := ActiveCategories(store), RootKeys(rows), Nested(rows);
    var roots := Flushed(FoldCategories(active, NoCategoriesYet(store, nextId), Sorted(rows, false)));
    var s := FoldCategories(active, roots, nested);
    UpsertIsTwoPasses(store, nextId, rows);
    RootsReadyToPass(store, nextId, rows);
    ActiveKeys(store);
    hide FoldCategories, Sorted, ActiveCategories, RootKeys, Nested, Passed, Accounted, UpsertCategories;
    NestedPassAccounted(active, roots, rootKeys, nested);
    var early, late := roots.store[|store|..], s.store[|roots.store|..];
    assert s.store[|store|..] == early + late;
    AccountedAfter(active, rootKeys, early, late, s.warnings, nested);
  }

  lemma ActiveKeys(store: seq<Category>)
    ensures forall key <- ActiveCategories(store) :: KeyOf(ActiveCategories(store)[key]) == key
  {
  }

  lemma UpsertIsTwoPasses(store: seq<Category>, nextId: nat, rows: seq<CategoryRow>)
    ensures var active := ActiveCategories(store);
            var roots := Flushed(FoldCategories(active, NoCategoriesYet(store, nextId), Sorted(rows, false)));
            UpsertCategories(store, nextId, rows) == Flushed(FoldCategories(active, roots, Nested(rows)))
  {
  }

  lemma AccountedAfter(
    active: map<CategoryKey, Category>, rootKeys: Keys, early: seq<Category>, late: seq<Category>,
    warnings: seq<Warning>, nested: seq<CategoryRow>)
    requires AllNested(nested) && Accounted(active, rootKeys, late, warnings, nested)
    requires forall c <- early :: KeyOf(c) in rootKeys
    ensures Accounted(active, rootKeys, early + late, warnings, nested)
  {
    hide RootedKeys, BecameRoots, SilentKeys, SilentCount, WarnedKeys, RowKeys;
    BecameRootsSplit(rootKeys, early, late);
  }

  function NoCategoriesYet(store: seq<Category>, nextId: nat): CategoryUpsert {
    CategoryUpsert(store, nextId, map[], {}, [], 0, 0)
  }

  lemma PassedAtStart(
    active: map<CategoryKey, Category>, base: seq<Category>, s: CategoryUpsert, done: seq<CategoryRow>)
    requires RootsPassed(active, base, s, done)
    ensures Passed(active, RowKeys(done), Flushed(s), [])
  {
    assert RowKeys([]) == {};
  }

  lemma RootsReadyToPass(store: seq<Category>, nextId: nat, rows: seq<CategoryRow>)
    ensures var active := ActiveCategories(store);
            var roots := Flushed(FoldCategories(active, NoCategoriesYet(store, nextId), Sorted(rows, false)));
            && Passed(active, RootKeys(rows), roots, []) && roots.warnings == [] && store <= roots.store
            && forall c <- roots.store[|store|..] :: KeyOf(c) in RootKeys(rows)
  {
    RootRows(rows);
    hide FoldCategories, Sorted, Passed, RowKeys, RootKeys;
    var active, start := ActiveCategories(store), NoCategoriesYet(store, nextId);
    RootPass(active, start, Sorted(rows, false));
    PassedAtStart(active, store, FoldCategories(active, start, Sorted(rows, false)), Sorted(rows, false));
  }

  lemma WarnedIsCovered(roots: Keys, added: seq<Category>, warnings: seq<Warning>)
    ensures (forall c <- added :: BecameRoot(roots, c) ==> Warned(warnings, KeyOf(c)))
            <==> RootedKeys(roots, added) <= WarnedKeys(warnings)
  {
    forall key
      ensures key in WarnedKeys(warnings) <==> Warned(warnings, key)
    {
    }
    forall c | c in added && BecameRoot(roots, c)
      ensures KeyOf(c) in RootedKeys(roots, added)
    {
    }
  }
}
