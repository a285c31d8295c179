/** The backup importer over one user's mutable tables. */
module BackupStores {
  import opened Sequences
  import opened StableSorting
  import opened Occurrences
  import opened BackupFormat
  import opened BackupExports
  import opened BackupRestores
  import opened StatementImports
  import U = BackupUpserts
  import Dedup
  import L = Labels

  type Account = U.Account
  type Category = U.Category

  // ----- what the relink pass has done so far -----

  ghost predicate IsLinked(inserted: seq<Inserted>, todo: set<string>, i: nat)
    requires i < |inserted|
  {
    inserted[i].group.Some? && inserted[i].group.value !in todo && |Legs(inserted, inserted[i].group.value)| == 2
  }

  /** The rows whose token has been visited and found on exactly two of them. */
  ghost function Linked(inserted: seq<Inserted>, todo: set<string>): set<nat> {
    set i: nat | i < |inserted| && IsLinked(inserted, todo, i)
  }

  lemma IsLinkedStep(inserted: seq<Inserted>, todo: set<string>, token: string, i: nat)
    requires token in todo && i < |inserted|
    ensures IsLinked(inserted, todo - {token}, i)
            <==> IsLinked(inserted, todo, i) || (inserted[i].group == Some(token) && |Legs(inserted, token)| == 2)
    ensures inserted[i].group == Some(token) ==> !IsLinked(inserted, todo, i)
  {
  }

  lemma TwoLegsOf(inserted: seq<Inserted>, token: string, i: nat)
    requires |Legs(inserted, token)| == 2
    ensures var legs := Legs(inserted, token);
            && legs[0] < legs[1] < |inserted|
            && (i < |inserted| && inserted[i].group == Some(token) <==> i == legs[0] || i == legs[1])
  {
    var legs := Legs(inserted, token);
    LegsShareToken(inserted, token);
    assert legs[0] in legs && legs[1] in legs;
    assert i in legs <==> i == legs[0] || i == legs[1];
  }

  lemma LinkedStep(inserted: seq<Inserted>, todo: set<string>, token: string)
    requires token in todo
    ensures |Linked(inserted, todo - {token})| ==
            |Linked(inserted, todo)| + if |Legs(inserted, token)| == 2 then 2 else 0
  {
    hide Legs, IsLinked;
    var legs := Legs(inserted, token);
    var before, after := Linked(inserted, todo), Linked(inserted, todo - {token});
    forall i: nat | i < |inserted| {
      IsLinkedStep(inserted, todo, token, i);
    }
    if |legs| == 2 {
      forall i: nat
        ensures i in after <==> i in before + {legs[0], legs[1]}
        ensures i == legs[0] || i == legs[1] ==> i !in before
        ensures legs[0] < legs[1]
      {
        TwoLegsOf(inserted, token, i);
      }
      assert after == before + {legs[0], legs[1]};
    } else {
      assert after == before;
    }
  }

  /** What row i looks like once the tokens outside todo are done. */
  ghost function Midway(inserted: seq<Inserted>, todo: set<string>, i: nat): Txn
    requires i < |inserted|
  {
    if inserted[i].group.Some? && inserted[i].group.value !in todo then Relinked(inserted)[i] else inserted[i].txn
  }

  lemma LegsShareToken(inserted: seq<Inserted>, token: string)
    ensures forall k <- Legs(inserted, token) :: k < |inserted| && inserted[k].group == Some(token)
    ensures forall k :: 0 <= k < |inserted| && inserted[k].group == Some(token) ==> k in Legs(inserted, token)
  {
  }

  lemma MidwaySkipped(inserted: seq<Inserted>, todo: set<string>, token: string, i: nat)
    requires i < |inserted| && inserted[i].txn.pairId.None? && |Legs(inserted, token)| != 2
    ensures Midway(inserted, todo - {token}, i) == Midway(inserted, todo, i)
  {
  }

  lemma MidwayLinked(inserted: seq<Inserted>, todo: set<string>, token: string, i: nat)
    requires i < |inserted| && token in todo && |Legs(inserted, token)| == 2
    ensures var legs := Legs(inserted, token);
            && legs[0] < legs[1] < |inserted|
            && Midway(inserted, todo - {token}, i) ==
               if i == legs[0] then inserted[i].txn.(pairId := Some(inserted[legs[1]].txn.id))
               else if i == legs[1] then inserted[i].txn.(pairId := Some(inserted[legs[0]].txn.id))
               else Midway(inserted, todo, i)
    ensures inserted[i].group == Some(token) ==> Midway(inserted, todo, i) == inserted[i].txn
  {
    var legs := Legs(inserted, token);
    LegsShareToken(inserted, token);
    assert legs[0] in legs && legs[1] in legs;
    if inserted[i].group == Some(token) {
      assert i in legs;
    }
  }

  lemma NothingLinked(inserted: seq<Inserted>, groups: map<string, seq<nat>>)
    requires forall token :: token in groups <==> Legs(inserted, token) != []
    ensures forall i :: 0 <= i < |inserted| ==> Midway(inserted, groups.Keys, i) == inserted[i].txn
    ensures Linked(inserted, groups.Keys) == {}
  {
    forall i | 0 <= i < |inserted| && inserted[i].group.Some?
      ensures inserted[i].group.value in groups
    {
      LegsShareToken(inserted, inserted[i].group.value);
      assert i in Legs(inserted, inserted[i].group.value);
    }
  }

  lemma AllLinked(inserted: seq<Inserted>)
    requires forall i :: 0 <= i < |inserted| ==> inserted[i].txn.pairId.None?
    ensures forall i :: 0 <= i < |inserted| ==> Midway(inserted, {}, i) == Relinked(inserted)[i]
    ensures Linked(inserted, {}) == set i: nat | i < |inserted| && Partner(inserted, i).Some?
  {
  }

  lemma {:induction false} RowsWithParentSplit(rows: seq<CategoryRow>, nested: bool)
    ensures forall row <- U.RowsWithParent(rows, nested) :: row.parentName.Some? == nested
  {
    if rows != [] {
      RowsWithParentSplit(Init(rows), nested);
    }
  }

  lemma AccountPrefix(active: AccountsByName, start: U.AccountUpsert, rows: seq<AccountRow>)
    ensures U.FoldAccounts(active, start, rows[..0]) == start
    ensures forall i :: 0 <= i < |rows| ==>
              U.FoldAccounts(active, start, rows[..i + 1])
              == U.UpsertAccount(active, U.FoldAccounts(active, start, rows[..i]), rows[i])
  {
    hide U.UpsertAccount;
    forall i | 0 <= i < |rows|
      ensures U.FoldAccounts(active, start, rows[..i + 1])
              == U.UpsertAccount(active, U.FoldAccounts(active, start, rows[..i]), rows[i])
    {
      assert Init(rows[..i + 1]) == rows[..i] && Last(rows[..i + 1]) == rows[i];
    }
  }

  /** The rows before any turn, and one turn more, of the category fold. */
  lemma FoldPrefix(active: CategoriesByKey, start: U.CategoryUpsert, rows: seq<CategoryRow>)
    ensures U.FoldCategories(active, start, rows[..0]) == start
    ensures forall i :: 0 <= i < |rows| ==>
              U.FoldCategories(active, start, rows[..i + 1])
              == U.UpsertCategory(active, U.FoldCategories(active, start, rows[..i]), rows[i])
  {
    hide U.UpsertCategory;
    forall i | 0 <= i < |rows|
      ensures U.FoldCategories(active, start, rows[..i + 1])
              == U.UpsertCategory(active, U.FoldCategories(active, start, rows[..i]), rows[i])
    {
      assert Init(rows[..i + 1]) == rows[..i] && Last(rows[..i + 1]) == rows[i];
    }
  }

  lemma SortedSplit(rows: seq<CategoryRow>, nested: bool)
    ensures forall i :: 0 <= i < |U.Sorted(rows, nested)| ==> U.Sorted(rows, nested)[i].parentName.Some? == nested
  {
    RowsWithParentSplit(rows, nested);
    SortKeepsElements(U.RowsWithParent(rows, nested), U.ACTIVE_CATEGORY_FIRST);
    var sorted := U.Sorted(rows, nested);
    forall i | 0 <= i < |sorted|
      ensures sorted[i] in U.RowsWithParent(rows, nested)
    {
      assert sorted[i] in multiset(sorted);
    }
  }

  // ----- what becomes of one transaction row -----

  // A row goes in without labels: they are linked after the flush that gives it its id.
  datatype Fate = NoAccount | Duplicate | Stored(txn: Txn)

  // ----- the labels of the rows inserted so far -----

  // The position of an inserted row and the label names its cell split into.
  datatype Entry = Entry(position: nat, names: seq<string>)

  type Pending = seq<Entry>

  /** The labels of row k once these entries are linked. */
  ghost function LabelsFor(pending: Pending, k: nat): seq<string> {
    if pending == [] then []
    else if Last(pending).position == k then L.LinkedLabels(Last(pending).names)
    else LabelsFor(Init(pending), k)
  }

  /** The inserted rows once these entries are linked. */
  ghost function Labelled(inserted: seq<Inserted>, pending: Pending): (txns: seq<Txn>)
    ensures |txns| == |inserted|
  {
    seq(|inserted|, i requires 0 <= i < |inserted| => inserted[i].txn.(labels := LabelsFor(pending, i)))
  }

  /** The table is what it was and the inserted rows, no label linked yet. */
  ghost predicate Unlinked(txns: seq<Txn>, stored: seq<Txn>, inserted: seq<Inserted>) {
    && |txns| == |stored| + |inserted| && txns[..|stored|] == stored
    && txns[|stored|..] == Labelled(inserted, [])
  }

  ghost predicate Awaiting(pending: Pending, inserted: seq<Inserted>) {
    && (forall p <- pending :: p.position < |inserted| && inserted[p.position].txn.labels == L.LinkedLabels(p.names))
    && forall k :: 0 <= k < |inserted| ==> LabelsFor(pending, k) == inserted[k].txn.labels
  }

  lemma {:induction false} LabelsForOthers(pending: Pending, k: nat)
    ensures if exists p <- pending :: p.position == k then
              exists p <- pending :: p.position == k && LabelsFor(pending, k) == L.LinkedLabels(p.names)
            else LabelsFor(pending, k) == []
  {
    hide L.LinkedLabels;
    if pending != [] {
      InitLast(pending);
      assert Last(pending) in pending;
      LabelsForOthers(Init(pending), k);
    }
  }

  lemma AwaitingStep(pending: Pending, inserted: seq<Inserted>, added: Inserted, names: seq<string>)
    requires Awaiting(pending, inserted) && added.txn.labels == L.LinkedLabels(names)
    ensures Awaiting(if names == [] then pending else pending + [Entry(|inserted|, names)], inserted + [added])
  {
    hide L.LinkedLabels;
    var k, entry := |inserted|, Entry(|inserted|, names);
    var after := if names == [] then pending else pending + [entry];
    assert Init(pending + [entry]) == pending && Last(pending + [entry]) == entry;
    LabelsForOthers(pending, k);
    NoNamesNoLabels();
    assert LabelsFor(after, k) == added.txn.labels;
    assert forall p <- after :: p in pending || p == entry;
  }

  lemma LabelledSnoc(inserted: seq<Inserted>, txn: Txn, added: Inserted)
    requires txn.labels == [] && txn == added.txn.(labels := [])
    ensures Labelled(inserted + [added], []) == Labelled(inserted, []) + [txn]
  {
  }

  lemma NoNamesNoLabels()
    ensures L.LinkedLabels([]) == []
  {
  }

  lemma LabelledStep(inserted: seq<Inserted>, pending: Pending, k: nat, names: seq<string>)
    requires k < |inserted|
    ensures var before, after := Labelled(inserted, pending), Labelled(inserted, pending + [Entry(k, names)]);
            after == before[k := before[k].(labels := L.LinkedLabels(names))]
  {
    hide L.LinkedLabels;
    assert Init(pending + [Entry(k, names)]) == pending && Last(pending + [Entry(k, names)]) == Entry(k, names);
  }

  lemma AllLabelled(inserted: seq<Inserted>, pending: Pending)
    requires Awaiting(pending, inserted)
    ensures Labelled(inserted, pending) == Txns(inserted)
  {
  }

  /** Every label linked to one of these rows. */
  ghost function LabelNames(inserted: seq<Inserted>): set<string> {
    set i, n | i in inserted && n in i.txn.labels :: n
  }

  ghost predicate PendingName(pending: Pending, n: string) {
    exists p <- pending :: L.NamedBy(p.names, n)
  }

  lemma PendingNamesAreLinked(inserted: seq<Inserted>, pending: Pending, n: string)
    requires Awaiting(pending, inserted)
    ensures PendingName(pending, n) <==> n in LabelNames(inserted)
  {
    hide L.LinkedLabels, L.NamedBy;
    if p :| p in pending && L.NamedBy(p.names, n) {
      L.LinkedLabelsAre(p.names);
      assert inserted[p.position] in inserted;
    }
    if n in LabelNames(inserted) {
      var i :| i in inserted && n in i.txn.labels;
      var k :| 0 <= k < |inserted| && inserted[k] == i;
      LabelsForOthers(pending, k);
      var p :| p in pending && p.position == k;
      L.LinkedLabelsAre(p.names);
    }
  }

  lemma EntriesInRange(inserted: seq<Inserted>, pending: Pending)
    requires Awaiting(pending, inserted)
    ensures forall p <- pending :: p.position < |inserted|
  {
  }

  lemma ResolvedAreLinked(inserted: seq<Inserted>, pending: Pending, names: set<string>, resolved: set<string>)
    requires Awaiting(pending, inserted) && names == set p, raw | p in pending && raw in p.names :: raw
    requires forall n :: n in resolved <==> exists raw <- names :: L.NormalizeLabel(raw) == Some(n)
    ensures resolved == LabelNames(inserted)
    ensures forall p <- pending, raw <- p.names ::
              L.NormalizeLabel(raw).Some? ==> L.NormalizeLabel(raw).value in resolved
  {
    hide L.NormalizeLabel, Awaiting, LabelNames;
    forall n
      ensures n in resolved <==> PendingName(pending, n)
    {
      if n in resolved {
        var raw :| raw in names && L.NormalizeLabel(raw) == Some(n);
        var p :| p in pending && raw in p.names;
        assert L.NamedBy(p.names, n);
      }
    }
    forall n {
      PendingNamesAreLinked(inserted, pending, n);
    }
  }

  // ----- the tokens of the rows inserted so far -----

  /** The dictionary of legs per token, as the loop fills it. */
  ghost predicate Grouped(groups: map<string, seq<nat>>, inserted: seq<Inserted>) {
    forall token :: (token in groups <==> Legs(inserted, token) != [])
                    && (token in groups ==> groups[token] == Legs(inserted, token))
  }

  lemma GroupedStep(groups: map<string, seq<nat>>, inserted: seq<Inserted>, added: Inserted)
    requires Grouped(groups, inserted)
    ensures added.group.None? ==> Grouped(groups, inserted + [added])
    ensures added.group.Some? ==>
              var token := added.group.value;
              var legs := (if token in groups then groups[token] else []) + [|inserted|];
              Grouped(groups[token := legs], inserted + [added])
  {
    assert Init(inserted + [added]) == inserted;
    forall token
      ensures Legs(inserted + [added], token)
              == Legs(inserted, token) + if added.group == Some(token) then [|inserted|] else []
    {
    }
  }

  /** The i-th row from `base` on has a partner. */
  predicate IsPaired(txns: seq<Txn>, base: nat, i: nat) {
    base + i < |txns| && txns[base + i].pairId.Some?
  }

  /** The rows whose account the file and the store do not give. */
  function Unresolved(accounts: AccountsByName, rows: seq<TransactionRow>): nat {
    if rows == [] then 0
    else Unresolved(accounts, Init(rows)) + if Last(rows).accountName in accounts then 0 else 1
  }

  lemma {:induction false} UnresolvedAreRejected(accounts: AccountsByName, rows: seq<TransactionRow>)
    ensures |Lines(accounts, rows)| + Unresolved(accounts, rows) == |rows|
  {
    hide LineOf;
    if rows != [] {
      UnresolvedAreRejected(accounts, Init(rows));
    }
  }

  // ----- what the persist loop has so far -----

  datatype Progress = Progress(
    groups: map<string, seq<nat>>, pending: Pending, imported: nat, skipped: nat, rejected: nat)

  /** Every row is counted once: inserted, skipped as a duplicate, or rejected for want of an account. */
  predicate Tallied(p: Progress, inserted: nat, lines: nat, rows: nat) {
    p.imported == inserted && p.imported + p.skipped == lines && p.imported + p.skipped + p.rejected == rows
  }

  /** At the start, `none` of the rows having been looked at. */
  lemma NothingYet(
    was: seq<Dedup.Row>, stored: seq<Txn>, id: nat, accounts: AccountsByName, categories: CategoriesByKey,
    none: seq<TransactionRow>, start: Progress, inserted: seq<Inserted>)
    requires none == [] && start.groups == map[] && start.pending == [] && inserted == []
    requires start.imported == start.skipped == start.rejected == 0
    ensures inserted == Persisted(was, id, accounts, categories, none) && Unlinked(stored, stored, inserted)
    ensures Lines(accounts, none) == [] && Dedup.Keys(Lines(accounts, none)) == []
    ensures Grouped(start.groups, inserted) && Awaiting(start.pending, inserted)
  {
  }

  class BackupStore {
    var accounts: seq<Account>
    var categories: seq<Category>
    var txns: seq<Txn>
    var nextIds: NextIds
    var labels: set<string>  // the label table: a user's names are unique

    constructor ()
      ensures accounts == [] && categories == [] && txns == [] && labels == {}
    {
      accounts, categories, txns, nextIds, labels := [], [], [], NextIds(1, 1, 1), {};
    }

    function Contents(): Tenant
      reads this
    {
      Tenant(accounts, categories, txns)
    }

    method UpsertAccounts(rows: seq<AccountRow>)
      returns (resolved: AccountsByName, created: nat, matched: nat, refused: nat)
      modifies this`accounts, this`nextIds
      ensures U.AccountUpsert(accounts, nextIds.account, resolved, created, matched, refused)
              == U.UpsertAccounts(old(accounts), old(nextIds.account), rows)
      ensures nextIds == old(nextIds).(account := nextIds.account)
    {
      hide U.FoldAccounts, U.ActiveAccounts, StableSort;
      var existingActive := U.ActiveAccounts(accounts);
      ghost var start := U.AccountUpsert(accounts, nextIds.account, map[], 0, 0, 0);
      resolved, created, matched, refused := map[], 0, 0, 0;
      var sorted := StableSort(rows, U.ACTIVE_FIRST);
      AccountPrefix(existingActive, start, sorted);
      for i := 0 to |sorted|
        invariant nextIds == old(nextIds).(account := nextIds.account)
        invariant U.AccountUpsert(accounts, nextIds.account, resolved, created, matched, refused)
                  == U.FoldAccounts(existingActive, start, sorted[..i])
      {
        var row := sorted[i];
        if row.name in resolved {
          continue;
        }
        if row.name in existingActive {
          var existing := existingActive[row.name];
          if existing.kind != row.kind || existing.currency != row.currency {
            refused := refused + 1;
            continue;
          }
          resolved := resolved[row.name := existing];
          matched := matched + 1;
          continue;
        }
        var account := U.NewAccount(nextIds.account, row);
        nextIds := nextIds.(account := nextIds.account + 1);
        accounts := accounts + [account];
        resolved := resolved[row.name := account];
        created := created + 1;
      }
      assert sorted[..|sorted|] == sorted;
    }

    /** A category row's insertion into the session: its id cannot be read before the next flush. */
    method AddCategory(row: CategoryRow, parentId: Option<nat>) returns (category: Category)
      modifies this`categories, this`nextIds
      ensures category == U.Category(old(nextIds.category), row.name, row.kind, row.color, row.archivedAt, parentId)
      ensures categories == old(categories) + [category]
      ensures nextIds == old(nextIds).(category := old(nextIds.category) + 1)
    {
      category := U.Category(nextIds.category, row.name, row.kind, row.color, row.archivedAt, parentId);
      nextIds := nextIds.(category := nextIds.category + 1);
      categories := categories + [category];
    }

    method UpsertRoots(active: CategoriesByKey, roots: seq<CategoryRow>)
      returns (resolved: CategoriesByKey, ghost unflushed: set<U.CategoryKey>, created: nat, matched: nat)
      requires forall i :: 0 <= i < |roots| ==> roots[i].parentName.None?
      modifies this`categories, this`nextIds
      ensures U.CategoryUpsert(categories, nextIds.category, resolved, unflushed, [], created, matched)
              == U.FoldCategories(
                   active, U.CategoryUpsert(old(categories), old(nextIds.category), map[], {}, [], 0, 0), roots)
      ensures nextIds == old(nextIds).(category := nextIds.category)
    {
      hide U.FoldCategories;
      ghost var start := U.CategoryUpsert(categories, nextIds.category, map[], {}, [], 0, 0);
      FoldPrefix(active, start, roots);
      resolved, unflushed, created, matched := map[], {}, 0, 0;
      for i := 0 to |roots|
        invariant nextIds == old(nextIds).(category := nextIds.category)
        invariant U.CategoryUpsert(categories, nextIds.category, resolved, unflushed, [], created, matched)
                  == U.FoldCategories(active, start, roots[..i])
      {
        var row := roots[i];
        var key := (row.name, row.kind);
        if key in resolved {
          continue;
        }
        if key in active {
          resolved, matched := resolved[key := active[key]], matched + 1;
          continue;
        }
        var category := AddCategory(row, None);
        resolved, unflushed, created := resolved[key := category], unflushed + {key}, created + 1;
      }
      assert roots[..|roots|] == roots;
    }

    method UpsertSubcategories(
      active: CategoriesByKey, nested: seq<CategoryRow>, rootsByKey: CategoriesByKey, rootsCreated: nat,
          rootsMatched: nat)
      returns (resolved: CategoriesByKey, ghost pending: set<U.CategoryKey>, warnings: seq<U.Warning>, created: nat,
               matched: nat)
      requires forall i :: 0 <= i < |nested| ==> nested[i].parentName.Some?
      modifies this`categories, this`nextIds
      ensures U.CategoryUpsert(categories, nextIds.category, resolved, pending, warnings, created, matched)
              == U.FoldCategories(
                   active,
                   U.CategoryUpsert(
                     old(categories), old(nextIds.category), rootsByKey, {}, [], rootsCreated, rootsMatched),
                   nested)
      ensures nextIds == old(nextIds).(category := nextIds.category)
    {
      hide U.FoldCategories;
      ghost var start :=
        U.CategoryUpsert(categories, nextIds.category, rootsByKey, {}, [], rootsCreated, rootsMatched);
      FoldPrefix(active, start, nested);
      resolved, warnings, created, matched := rootsByKey, [], rootsCreated, rootsMatched;
      var unflushed: set<U.CategoryKey> := {};
      for i := 0 to |nested|
        invariant nextIds == old(nextIds).(category := nextIds.category)
        invariant U.CategoryUpsert(categories, nextIds.category, resolved, unflushed, warnings, created, matched)
                  == U.FoldCategories(active, start, nested[..i])
      {
        var row := nested[i];
        var key, parentKey := (row.name, row.kind), (row.parentName.value, row.kind);
        if key in resolved {
          continue;
        }
        if key in active {
          resolved, matched := resolved[key := active[key]], matched + 1;
          continue;
        }
        var parent := if parentKey in resolved then Some(resolved[parentKey])
                      else if parentKey in active then Some(active[parentKey]) else None;
        if parent.Some? && parent.value.parentId.Some? {
          warnings := warnings + [U.ParentIsNested(key)];
          parent := None;
        } else if parent.None? {
          warnings := warnings + [U.ParentNotFound(key)];
        }
        var parentId: Option<nat> :=
          if parent.Some? && U.KeyOf(parent.value) !in unflushed then Some(parent.value.id) else None;
        var category := AddCategory(row, parentId);
        resolved, unflushed, created := resolved[key := category], unflushed + {key}, created + 1;
      }
      assert nested[..|nested|] == nested;
      pending := unflushed;
    }

    method UpsertCategories(rows: seq<CategoryRow>)
      returns (resolved: CategoriesByKey, warnings: seq<U.Warning>, created: nat, matched: nat)
      modifies this`categories, this`nextIds
      ensures U.CategoryUpsert(categories, nextIds.category, resolved, {}, warnings, created, matched)
              == U.UpsertCategories(old(categories), old(nextIds.category), rows)
      ensures nextIds == old(nextIds).(category := nextIds.category)
    {
      hide U.FoldCategories, U.ActiveCategories, U.Sorted;
      SortedSplit(rows, false);
      SortedSplit(rows, true);
      var active := U.ActiveCategories(categories);
      var rootsByKey, unflushed, rootsCreated, rootsMatched := UpsertRoots(active, U.Sorted(rows, false));
      // the flush between the passes makes the roots' ids readable
      ghost var pending;
      resolved, pending, warnings, created, matched :=
        UpsertSubcategories(active, U.Sorted(rows, true), rootsByKey, rootsCreated, rootsMatched);
    }

    method RelinkGroup(
      ghost inserted: seq<Inserted>, base: nat, legs: seq<nat>, ghost todo: set<string>, ghost token: string)
      returns (linked: nat)
      requires base + |inserted| == |txns| && legs == Legs(inserted, token) && token in todo
      requires forall i :: 0 <= i < |inserted| ==> inserted[i].txn.pairId.None?
      requires forall i :: 0 <= i < |inserted| ==> txns[base + i] == Midway(inserted, todo, i)
      modifies this`txns
      ensures |txns| == base + |inserted| && txns[..base] == old(txns)[..base]
      ensures forall i :: 0 <= i < |inserted| ==> txns[base + i] == Midway(inserted, todo - {token}, i)
      ensures |Linked(inserted, todo - {token})| == |Linked(inserted, todo)| + linked
    {
      hide Linked, Midway, Legs;
      LinkedStep(inserted, todo, token);
      if |legs| != 2 {
        forall i | 0 <= i < |inserted| {
          MidwaySkipped(inserted, todo, token, i);
        }
        return 0;
      }
      forall i | 0 <= i < |inserted| {
        MidwayLinked(inserted, todo, token, i);
      }
      LegsShareToken(inserted, token);
      assert legs[0] in legs && legs[1] in legs;
      var first, second := base + legs[0], base + legs[1];
      txns := txns[first := txns[first].(pairId := Some(txns[second].id))];
      txns := txns[second := txns[second].(pairId := Some(txns[first].id))];
      return 2;
    }

    /** Points each pair's two legs at each other, one token at a time. */
    method Relink(ghost inserted: seq<Inserted>, base: nat, groups: map<string, seq<nat>>) returns (relinked: nat)
      requires base + |inserted| == |txns| && txns[base..] == Txns(inserted)
      requires forall i :: 0 <= i < |inserted| ==> inserted[i].txn.pairId.None?
      requires Grouped(groups, inserted)
      modifies this`txns
      ensures txns == old(txns)[..base] + Relinked(inserted)
      ensures relinked == |set i: nat | i < |inserted| && Partner(inserted, i).Some?|
    {
      relinked := 0;
      var todo := groups.Keys;
      NothingLinked(inserted, groups);
      assert forall i :: 0 <= i < |inserted| ==> txns[base + i] == txns[base..][i];
      while todo != {}
        invariant todo <= groups.Keys
        invariant |txns| == base + |inserted| && txns[..base] == old(txns)[..base]
        invariant forall i :: 0 <= i < |inserted| ==> txns[base + i] == Midway(inserted, todo, i)
        invariant relinked == |Linked(inserted, todo)|
        decreases todo
      {
        var token := AnyElement(todo);
        var linked := RelinkGroup(inserted, base, groups[token], todo, token);
        relinked := relinked + linked;
        todo := todo - {token};
      }
      AllLinked(inserted);
      assert txns == txns[..base] + txns[base..];
      assert txns[base..] == Relinked(inserted);
    }

    /** The normal forms of the names, each found in the label table or added to it. */
    method ResolveLabelNames(names: set<string>) returns (wanted: set<string>)
      modifies this`labels
      ensures forall n :: n in wanted <==> exists raw <- names :: L.NormalizeLabel(raw) == Some(n)
      ensures labels == old(labels) + wanted
    {
      hide L.NormalizeLabel;
      wanted := {};
      var todo := names;
      while todo != {}
        invariant todo <= names
        invariant forall n :: n in wanted <==> exists raw <- names - todo :: L.NormalizeLabel(raw) == Some(n)
        invariant labels == old(labels) + wanted
        decreases todo
      {
        var raw := AnyElement(todo);
        var name := L.NormalizeLabel(raw);
        assert names - (todo - {raw}) == (names - todo) + {raw};
        todo := todo - {raw};
        if name.Some? {
          wanted := wanted + {name.value};
          if name.value !in labels {
            labels := labels + {name.value};
          }
        }
      }
      assert names - todo == names;
    }

    /** Links one fresh row to the labels its names stand for, each once; the row lists them by name. */
    method LinkLabels(position: nat, names: seq<string>, resolved: set<string>)
      requires position < |txns|
      requires forall raw <- names :: L.NormalizeLabel(raw).Some? ==> L.NormalizeLabel(raw).value in resolved
      modifies this`txns
      ensures txns == old(txns)[position := old(txns)[position].(labels := L.LinkedLabels(names))]
    {
      hide L.NormalizeLabel, L.InsertName;
      var linked: seq<string> := [];
      for i := 0 to |names|
        invariant linked == L.LinkedLabels(names[..i])
      {
        assert Init(names[..i + 1]) == names[..i] && Last(names[..i + 1]) == names[i] && names[i] in names;
        var name := L.NormalizeLabel(names[i]);
        if name.Some? && name.value in resolved {
          linked := L.InsertName(name.value, linked);
        }
      }
      assert names[..|names|] == names;
      txns := txns[position := txns[position].(labels := linked)];
    }

    /** The labels of all rows are resolved together, then linked row by row. */
    method LinkPending(ghost inserted: seq<Inserted>, base: nat, pending: Pending)
      requires base + |inserted| == |txns| && txns[base..] == Labelled(inserted, []) && Awaiting(pending, inserted)
      modifies this`txns, this`labels
      ensures txns == old(txns)[..base] + Txns(inserted)
      ensures labels == old(labels) + LabelNames(inserted)
    {
      hide L.NormalizeLabel, L.LinkedLabels, Awaiting, Labelled, LabelNames;
      var allNames := set p, raw | p in pending && raw in p.names :: raw;
      var resolved := ResolveLabelNames(allNames);
      ResolvedAreLinked(inserted, pending, allNames, resolved);
      EntriesInRange(inserted, pending);
      ghost var prefix := txns[..base];
      assert txns == prefix + Labelled(inserted, []);
      for i := 0 to |pending|
        invariant txns == prefix + Labelled(inserted, pending[..i])
        invariant labels == old(labels) + LabelNames(inserted)
      {
        var Entry(k, names) := pending[i];
        assert pending[i] in pending && pending[..i + 1] == pending[..i] + [Entry(k, names)];
        LabelledStep(inserted, pending[..i], k, names);
        LinkLabels(base + k, names, resolved);
      }
      assert pending[..|pending|] == pending;
      AllLabelled(inserted, pending);
    }

    /** Resolves, dedups and inserts one row. */
    method InsertRow(
      ghost was: seq<Dedup.Row>, ghost done: seq<TransactionRow>, row: TransactionRow,
      accountsByName: AccountsByName, categoriesByKey: CategoriesByKey,
      allocator: OccurrenceAllocator<string>)
      returns (fate: Fate)
      requires allocator.Valid() && allocator.requests == Dedup.Keys(Lines(accountsByName, done))
      requires forall fp :: Lookup(allocator.existing, fp) == Dedup.KnownFor(was, fp)
      modifies this`txns, this`nextIds, allocator
      ensures allocator.Valid() && allocator.requests == Dedup.Keys(Lines(accountsByName, done + [row]))
      ensures txns == old(txns) + (if fate.Stored? then [fate.txn] else [])
      ensures nextIds == old(nextIds).(txn := old(nextIds).txn + if fate.Stored? then 1 else 0)
      ensures Insertion(was, old(nextIds).txn, accountsByName, categoriesByKey, Lines(accountsByName, done + [row]),
              row)
              == if fate.Stored? then
                   [Inserted(fate.txn.(labels := L.LinkedLabels(row.labels)), row.transferGroup)]
                 else []
      ensures fate.Stored? ==> fate.txn.labels == []
      ensures fate.NoAccount? <==> row.accountName !in accountsByName
    {
      LinesSnoc(accountsByName, done, row);
      hide LineOf, Lines, Dedup.KnownFor, Ordinal, CategoryIdOf, L.LinkedLabels;
      if row.accountName !in accountsByName {
        return NoAccount;
      }
      var line := LineOf(accountsByName[row.accountName], row);
      var occurrence := allocator.Allocate(line.fp);
      if occurrence.None? {
        return Duplicate;
      }
      var txn := NewTxn(nextIds.txn, line, occurrence.value, categoriesByKey, row).(labels := []);
      nextIds := nextIds.(txn := nextIds.txn + 1);
      txns := txns + [txn];
      return Stored(txn);
    }

    /** One turn of the persist loop: insert the row, note its labels and its transfer token, and count it. */
    method PersistRow(
      ghost was: seq<Dedup.Row>, ghost firstId: nat, ghost stored: seq<Txn>, ghost done: seq<TransactionRow>,
      row: TransactionRow, accountsByName: AccountsByName, categoriesByKey: CategoriesByKey,
      allocator: OccurrenceAllocator<string>, sofar: Progress)
      returns (next: Progress)
      requires allocator.Valid() && allocator.requests == Dedup.Keys(Lines(accountsByName, done))
      requires forall fp :: Lookup(allocator.existing, fp) == Dedup.KnownFor(was, fp)
      requires var inserted := Persisted(was, firstId, accountsByName, categoriesByKey, done);
               && nextIds.txn == firstId + |inserted| && Unlinked(txns, stored, inserted)
               && Grouped(sofar.groups, inserted) && Awaiting(sofar.pending, inserted)
               && Tallied(sofar, |inserted|, |Lines(accountsByName, done)|, |done|)
      modifies this`txns, this`nextIds, allocator
      ensures allocator.Valid() && allocator.requests == Dedup.Keys(Lines(accountsByName, done + [row]))
      ensures var inserted := Persisted(was, firstId, accountsByName, categoriesByKey, done + [row]);
              && nextIds == old(nextIds).(txn := firstId + |inserted|) && Unlinked(txns, stored, inserted)
              && Grouped(next.groups, inserted) && Awaiting(next.pending, inserted)
              && Tallied(next, |inserted|, |Lines(accountsByName, done + [row])|, |done + [row]|)
    {
      ghost var inserted := Persisted(was, firstId, accountsByName, categoriesByKey, done);
      LinesSnoc(accountsByName, done, row);
      PersistedSnoc(was, firstId, accountsByName, categoriesByKey, done, row);
      hide Persisted, Insertion, Grouped, Lines, Dedup.KnownFor, LineOf, NewTxn, Labelled, Awaiting, L.LinkedLabels;
      var fate := InsertRow(was, done, row, accountsByName, categoriesByKey, allocator);
      match fate {
        case NoAccount => next := sofar.(rejected := sofar.rejected + 1);
        case Duplicate => next := sofar.(skipped := sofar.skipped + 1);
        case Stored(txn) =>
          ghost var added := Inserted(txn.(labels := L.LinkedLabels(row.labels)), row.transferGroup);
          GroupedStep(sofar.groups, inserted, added);
          AwaitingStep(sofar.pending, inserted, added, row.labels);
          LabelledSnoc(inserted, txn, added);
          next := sofar.(imported := sofar.imported + 1);
          if row.labels != [] {
            next := next.(pending := sofar.pending + [Entry(sofar.imported, row.labels)]);
          }
          if row.transferGroup.Some? {
            var token, groups := row.transferGroup.value, sofar.groups;
            var legs := (if token in groups then groups[token] else []) + [sofar.imported];
            next := next.(groups := groups[token := legs]);
          }
      }
      if !fate.Stored? {
        assert inserted + [] == inserted;
      }
    }

    /** The persist loop, with the labels and the dictionary of legs it leaves for the later passes. */
    method PersistRows(
      ghost was: seq<Dedup.Row>, rows: seq<TransactionRow>, accountsByName: AccountsByName,
      categoriesByKey: CategoriesByKey, allocator: OccurrenceAllocator<string>)
      returns (ghost inserted: seq<Inserted>, progress: Progress)
      requires allocator.Valid() && allocator.requests == []
      requires forall fp :: Lookup(allocator.existing, fp) == Dedup.KnownFor(was, fp)
      modifies this`txns, this`nextIds, allocator
      ensures inserted == Persisted(was, old(nextIds.txn), accountsByName, categoriesByKey, rows)
      ensures Unlinked(txns, old(txns), inserted)
      ensures nextIds == old(nextIds).(txn := old(nextIds.txn) + |inserted|)
      ensures Grouped(progress.groups, inserted) && Awaiting(progress.pending, inserted)
      ensures Tallied(progress, |inserted|, |Lines(accountsByName, rows)|, |rows|)
    {
      hide Persisted, Lines, Dedup.KnownFor, Dedup.Keys, Lookup, Unlinked, Grouped, Awaiting;
      ghost var firstId := nextIds.txn;
      inserted, progress := [], Progress(map[], [], 0, 0, 0);
      NothingYet(was, txns, firstId, accountsByName, categoriesByKey, rows[..0], progress, inserted);
      for i := 0 to |rows|
        invariant allocator.Valid() && allocator.requests == Dedup.Keys(Lines(accountsByName, rows[..i]))
        invariant inserted == Persisted(was, firstId, accountsByName, categoriesByKey, rows[..i])
        invariant Unlinked(txns, old(txns), inserted)
        invariant nextIds == old(nextIds).(txn := firstId + |inserted|)
        invariant Grouped(progress.groups, inserted) && Awaiting(progress.pending, inserted)
        invariant Tallied(progress, |inserted|, |Lines(accountsByName, rows[..i])|, i)
      {
        assert rows[..i + 1] == rows[..i] + [rows[i]];
        progress := PersistRow(
          was, firstId, old(txns), rows[..i], rows[i], accountsByName, categoriesByKey, allocator, progress);
        inserted := Persisted(was, firstId, accountsByName, categoriesByKey, rows[..i + 1]);
      }
      assert rows[..|rows|] == rows;
    }

    /** `prefetch` is the database's answer to the unscoped, grouped query. */
    method PersistTransactions(
      rows: seq<TransactionRow>, accountsByName: AccountsByName, categoriesByKey: CategoriesByKey, prefetch: seq<Group>)
      returns (imported: nat, skipped: nat, rejected: nat, relinked: nat)
      requires IsGrouping(prefetch, Rows(txns))
      modifies this`txns, this`nextIds, this`labels
      ensures var inserted := Persisted(Rows(old(txns)), old(nextIds.txn), accountsByName, categoriesByKey, rows);
              && txns == old(txns) + Relinked(inserted)
              && nextIds == old(nextIds).(txn := old(nextIds.txn) + |inserted|)
              && labels == old(labels) + LabelNames(inserted)
              && imported == |inserted| && imported + skipped + rejected == |rows|
              && imported + skipped == |Lines(accountsByName, rows)|
              && relinked == |set i: nat | i < |inserted| && Partner(inserted, i).Some?|
    {
      hide IsGrouping, Persisted, Dedup.KnownFor, Lines, Rows, Grouped, Labelled, Awaiting, LabelNames;
      var existing := FoldUnscoped(prefetch, Rows(txns));
      var allocator := new OccurrenceAllocator<string>(existing);
      ghost var inserted;
      var progress;
      InsertedIds(Rows(txns), nextIds.txn, accountsByName, categoriesByKey, rows);
      inserted, progress := PersistRows(Rows(txns), rows, accountsByName, categoriesByKey, allocator);
      imported, skipped, rejected := progress.imported, progress.skipped, progress.rejected;
      LinkPending(inserted, |txns| - imported, progress.pending);
      relinked := Relink(inserted, |txns| - imported, progress.groups);
    }

    /** The whole restore: accounts, categories, transactions, then transfers. */
    method PersistBackup(backup: Backup, prefetch: seq<Group>)
      returns (imported: nat, skipped: nat, rejected: nat, relinked: nat)
      requires IsGrouping(prefetch, Rows(txns))
      modifies this
      ensures Contents() == Restore(old(Contents()), old(nextIds), backup)
      ensures imported + skipped + rejected == |Accepted(backup.transactions, ParseTransaction)|
      ensures imported == |txns| - |old(txns)|
      ensures var accounts := U.UpsertAccounts(old(accounts), old(nextIds.account),
                                               Accepted(backup.accounts, ParseAccount)).resolved;
              rejected == Unresolved(accounts, Accepted(backup.transactions, ParseTransaction))
      ensures relinked == |set i: nat | i < imported && IsPaired(txns, |old(txns)|, i)|
    {
      hide U.UpsertAccounts, U.UpsertCategories, Persisted, Accepted, Lines, Partner, LabelNames;
      var accountRows := Accepted(backup.accounts, ParseAccount);
      var categoryRows := Accepted(backup.categories, ParseCategory);
      var rows := Accepted(backup.transactions, ParseTransaction);
      var accountsByName, accountsNew, accountsMatched, refused := UpsertAccounts(accountRows);
      var categoriesByKey, warnings, categoriesNew, categoriesMatched := UpsertCategories(categoryRows);
      imported, skipped, rejected, relinked := PersistTransactions(rows, accountsByName, categoriesByKey, prefetch);
      UnresolvedAreRejected(accountsByName, rows);
      ghost var inserted := Persisted(Rows(old(txns)), old(nextIds.txn), accountsByName, categoriesByKey, rows);
      assert (set i: nat | i < imported && IsPaired(txns, |old(txns)|, i))
          == set i: nat | i < imported && Partner(inserted, i).Some?;
    }
  }
}
