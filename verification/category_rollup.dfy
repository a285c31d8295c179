/** Folding spend rows into the two-level category taxonomy, and the drill-down that must agree with it. */
module CategoryRollups {
  import opened Sequences
  import opened StableSorting

  datatype Category = Category(id: int, name: string, parentId: Option<int>)

  datatype SpendRow = SpendRow(categoryId: Option<int>, categoryName: Option<string>, totalPaise: int)

  datatype Item = Item(categoryId: int, name: string, totalPaise: int, isDirect: bool)

  datatype Rollup = Rollup(
    parentId: Option<int>, parentName: Option<string>, totalPaise: int, directPaise: int, subcategories: seq<Item>)

  // Categories by id, as a Map built from the list: a repeated id keeps its last entry.
  type Catalogue = map<int, Category>

  function CatalogueOf(cats: seq<Category>): (m: Catalogue)
    ensures forall id <- m :: m[id].id == id && m[id] in cats
    ensures forall c <- cats :: c.id in m
  {
    if cats == [] then map[]
    else
      InitLast(cats);
      CatalogueOf(Init(cats))[Last(cats).id := Last(cats)]
  }

  // ----- where a row goes -----

  predicate IsSubcategoryRow(m: Catalogue, row: SpendRow) {
    row.categoryId.Some? && row.categoryId.value in m && m[row.categoryId.value].parentId.Some?
  }

  function ParentKey(m: Catalogue, row: SpendRow): Option<int> {
    if IsSubcategoryRow(m, row) then m[row.categoryId.value].parentId else row.categoryId
  }

  function ItemOf(m: Catalogue, row: SpendRow): Item
    requires IsSubcategoryRow(m, row)
  {
    Item(row.categoryId.value, m[row.categoryId.value].name, row.totalPaise, false)
  }

  function GetOr(name: Option<string>, default: string): string {
    if name.Some? then name.value else default
  }

  /** The name a rollup gets from the first row that reaches it. */
  function NameFrom(m: Catalogue, row: SpendRow): Option<string> {
    if row.categoryId.None? then None
    else if IsSubcategoryRow(m, row) then
      var p := m[row.categoryId.value].parentId.value;
      Some(if p in m then m[p].name else GetOr(row.categoryName, "Parent"))
    else if row.categoryId.value in m then Some(m[row.categoryId.value].name)
    else row.categoryName
  }

  // ----- what each rollup holds, stated key by key -----

  function GrandTotal(rows: seq<SpendRow>): int {
    if rows == [] then 0 else GrandTotal(Init(rows)) + Last(rows).totalPaise
  }

  function Total(m: Catalogue, rows: seq<SpendRow>, key: Option<int>): int {
    if rows == [] then 0
    else Total(m, Init(rows), key) + if ParentKey(m, Last(rows)) == key then Last(rows).totalPaise else 0
  }

  function Direct(m: Catalogue, rows: seq<SpendRow>, key: Option<int>): int {
    if rows == [] then 0
    else
      var row := Last(rows);
      Direct(m, Init(rows), key) + if ParentKey(m, row) == key && !IsSubcategoryRow(m, row) then row.totalPaise else 0
  }

  function Items(m: Catalogue, rows: seq<SpendRow>, key: Option<int>): seq<Item> {
    if rows == [] then []
    else
      var row := Last(rows);
      if ParentKey(m, row) == key && IsSubcategoryRow(m, row) then Items(m, Init(rows), key) + [ItemOf(m, row)]
      else Items(m, Init(rows), key)
  }

  /** The keys in the order a Map lists them: first insertion first. */
  function KeyOrder(m: Catalogue, rows: seq<SpendRow>): (keys: seq<Option<int>>)
    ensures Distinct(keys)
    ensures forall row <- rows :: ParentKey(m, row) in keys
  {
    if rows == [] then []
    else
      InitLast(rows);
      var keys := KeyOrder(m, Init(rows));
      if ParentKey(m, Last(rows)) in keys then keys else keys + [ParentKey(m, Last(rows))]
  }

  function FirstName(m: Catalogue, rows: seq<SpendRow>, key: Option<int>): Option<string> {
    if rows == [] then None
    else if key in KeyOrder(m, Init(rows)) || ParentKey(m, Last(rows)) != key then FirstName(m, Init(rows), key)
    else NameFrom(m, Last(rows))
  }

  function Gathered(m: Catalogue, rows: seq<SpendRow>, key: Option<int>): Rollup {
    Rollup(key, FirstName(m, rows, key), Total(m, rows, key), Direct(m, rows, key), Items(m, rows, key))
  }

  // ----- finishing -----

  const MORE_NEGATIVE: (Item, Item) -> bool := (a: Item, b: Item) => a.totalPaise < b.totalPaise

  // Categorised first, most negative first, uncategorised last.
  const ROLLUP_ORDER: (Rollup, Rollup) -> bool :=
    (a: Rollup, b: Rollup) => a.parentId.Some? && (b.parentId.None? || a.totalPaise < b.totalPaise)

  function DirectItem(id: int, name: string, totalPaise: int): seq<Item> {
    if totalPaise != 0 then [Item(id, name + " (Direct)", totalPaise, true)] else []
  }

  /** Adds the parent's own direct row and sorts the breakdown. */
  function Finished(r: Rollup): Rollup {
    var direct := if r.parentId.Some? then DirectItem(r.parentId.value, GetOr(r.parentName, "General"),
        r.directPaise) else [];
    r.(subcategories := StableSort(r.subcategories + direct, MORE_NEGATIVE))
  }

  function FinishedAll(rollups: seq<Rollup>): (r: seq<Rollup>)
    ensures |r| == |rollups| && forall i :: 0 <= i < |r| ==> r[i] == Finished(rollups[i])
  {
    seq(|rollups|, i requires 0 <= i < |rollups| => Finished(rollups[i]))
  }

  function GatheredAll(m: Catalogue, rows: seq<SpendRow>): (r: seq<Rollup>)
    ensures |r| == |KeyOrder(m, rows)| && forall i :: 0 <= i < |r| ==> r[i] == Gathered(m, rows, KeyOrder(m, rows)[i])
  {
    var keys := KeyOrder(m, rows);
    seq(|keys|, i requires 0 <= i < |keys| => Gathered(m, rows, keys[i]))
  }

  function RollUp(m: Catalogue, rows: seq<SpendRow>): seq<Rollup> {
    StableSort(FinishedAll(GatheredAll(m, rows)), ROLLUP_ORDER)
  }

  // ----- conservation -----

  function SumOfTotals(rollups: seq<Rollup>): int {
    if rollups == [] then 0 else SumOfTotals(Init(rollups)) + Last(rollups).totalPaise
  }

  function SumOfItems(items: seq<Item>): int {
    if items == [] then 0 else SumOfItems(Init(items)) + Last(items).totalPaise
  }

  function SumOverKeys(m: Catalogue, rows: seq<SpendRow>, keys: seq<Option<int>>): int {
    if keys == [] then 0 else SumOverKeys(m, rows, Init(keys)) + Total(m, rows, Last(keys))
  }

  lemma {:induction false} OneMoreRow(m: Catalogue, rows: seq<SpendRow>, keys: seq<Option<int>>)
    requires rows != [] && Distinct(keys)
    ensures SumOverKeys(m, rows, keys) ==
            SumOverKeys(m, Init(rows), keys) + if ParentKey(m, Last(rows)) in keys then Last(rows).totalPaise else 0
  {
    if keys != [] {
      InitLast(keys);
      OneMoreRow(m, rows, Init(keys));
    }
  }

  lemma {:induction false} KeysSumToGrandTotal(m: Catalogue, rows: seq<SpendRow>, keys: seq<Option<int>>)
    requires Distinct(keys) && forall row <- rows :: ParentKey(m, row) in keys
    ensures SumOverKeys(m, rows, keys) == GrandTotal(rows)
  {
    if rows == [] {
      NoRowsNoTotal(m, keys);
    } else {
      InitLast(rows);
      assert Last(rows) in rows;
      KeysSumToGrandTotal(m, Init(rows), keys);
      OneMoreRow(m, rows, keys);
    }
  }

  lemma {:induction false} NoRowsNoTotal(m: Catalogue, keys: seq<Option<int>>)
    ensures SumOverKeys(m, [], keys) == 0
  {
    if keys != [] {
      NoRowsNoTotal(m, Init(keys));
    }
  }

  lemma {:induction false} InsertKeepsRollupSum(s: seq<Rollup>, x: Rollup)
    ensures SumOfTotals(Insert(s, x, ROLLUP_ORDER)) == SumOfTotals(s) + x.totalPaise
  {
    var inserted := Insert(s, x, ROLLUP_ORDER);
    if s == [] || !ROLLUP_ORDER(x, Last(s)) {
      assert Init(inserted) == s;
    } else {
      InsertKeepsRollupSum(Init(s), x);
      assert Init(inserted) == Insert(Init(s), x, ROLLUP_ORDER);
    }
  }

  lemma {:induction false} SortKeepsRollupSum(s: seq<Rollup>)
    ensures SumOfTotals(StableSort(s, ROLLUP_ORDER)) == SumOfTotals(s)
  {
    if s != [] {
      SortKeepsRollupSum(Init(s));
      InsertKeepsRollupSum(StableSort(Init(s), ROLLUP_ORDER), Last(s));
    }
  }

  lemma {:induction false} FinishedSum(m: Catalogue, rows: seq<SpendRow>, keys: seq<Option<int>>, rollups: seq<Rollup>)
    requires |rollups| == |keys| && forall i :: 0 <= i < |keys| ==> rollups[i].totalPaise == Total(m, rows, keys[i])
    ensures SumOfTotals(rollups) == SumOverKeys(m, rows, keys)
  {
    if keys != [] {
      FinishedSum(m, rows, Init(keys), Init(rollups));
    }
  }

  /** Whatever the rows and the catalogue, not a paisa is lost or counted twice. */
  lemma GrandTotalConserved(m: Catalogue, rows: seq<SpendRow>)
    ensures SumOfTotals(RollUp(m, rows)) == GrandTotal(rows)
  {
    SortKeepsRollupSum(FinishedAll(GatheredAll(m, rows)));
    FinishedSum(m, rows, KeyOrder(m, rows), FinishedAll(GatheredAll(m, rows)));
    KeysSumToGrandTotal(m, rows, KeyOrder(m, rows));
  }

  /** What was spent in these categories. */
  function SpentIn(rows: seq<SpendRow>, ids: set<int>): int {
    if rows == [] then 0
    else
      var row := Last(rows);
      SpentIn(Init(rows), ids) + if row.categoryId.Some? && row.categoryId.value in ids then row.totalPaise else 0
  }

  function Unassigned(rows: seq<SpendRow>): int {
    if rows == [] then 0
    else Unassigned(Init(rows)) + if Last(rows).categoryId.None? then Last(rows).totalPaise else 0
  }

  /** The categories that name this one as their parent, and itself unless it names a parent too. */
  function Under(m: Catalogue, id: int): set<int> {
    (set c | c in m && m[c].parentId == Some(id)) + if id in m && m[id].parentId.Some? then {} else {id}
  }

  /** A group's total is what was spent in the category and in those directly under it; the last one's, the rest. */
  lemma {:induction false} TotalIsSpentUnder(m: Catalogue, rows: seq<SpendRow>, id: int)
    ensures Total(m, rows, Some(id)) == SpentIn(rows, Under(m, id))
    ensures Total(m, rows, None) == Unassigned(rows)
    ensures Direct(m, rows, Some(id)) == if id in m && m[id].parentId.Some? then 0 else SpentIn(rows, {id})
  {
    if rows != [] {
      TotalIsSpentUnder(m, Init(rows), id);
    }
  }

  /** The group shown for a category, wherever the sort puts it, holds exactly that. */
  lemma GroupTotals(m: Catalogue, rows: seq<SpendRow>, r: Rollup)
    requires r in RollUp(m, rows)
    ensures r.totalPaise == if r.parentId.Some? then SpentIn(rows, Under(m, r.parentId.value)) else Unassigned(rows)
  {
    hide Finished, StableSort, Total, KeyOrder;
    var key := RollupIsFinished(m, rows, r);
    TotalIsSpentUnder(m, rows, if key.Some? then key.value else 0);
    GatheredIs(m, rows, key);
  }

  lemma GatheredIs(m: Catalogue, rows: seq<SpendRow>, key: Option<int>)
    ensures var r := Finished(Gathered(m, rows, key)); r.parentId == key && r.totalPaise == Total(m, rows, key)
  {
  }

  lemma {:induction false} InsertKeepsItemSum(s: seq<Item>, x: Item)
    ensures SumOfItems(Insert(s, x, MORE_NEGATIVE)) == SumOfItems(s) + x.totalPaise
  {
    var inserted := Insert(s, x, MORE_NEGATIVE);
    if s == [] || !MORE_NEGATIVE(x, Last(s)) {
      assert Init(inserted) == s;
    } else {
      InsertKeepsItemSum(Init(s), x);
      assert Init(inserted) == Insert(Init(s), x, MORE_NEGATIVE);
    }
  }

  lemma {:induction false} SortKeepsItemSum(s: seq<Item>)
    ensures SumOfItems(StableSort(s, MORE_NEGATIVE)) == SumOfItems(s)
  {
    if s != [] {
      SortKeepsItemSum(Init(s));
      InsertKeepsItemSum(StableSort(Init(s), MORE_NEGATIVE), Last(s));
    }
  }

  lemma {:induction false} TotalSplits(m: Catalogue, rows: seq<SpendRow>, key: Option<int>)
    ensures Total(m, rows, key) == Direct(m, rows, key) + SumOfItems(Items(m, rows, key))
  {
    if rows != [] {
      TotalSplits(m, Init(rows), key);
      var items := Items(m, rows, key);
      if items != Items(m, Init(rows), key) {
        assert Init(items) == Items(m, Init(rows), key);
      }
    }
  }

  /** A categorised parent's total is the sum of the items listed under it, its direct spend among them. */
  lemma ListedItemsSumToTotal(m: Catalogue, rows: seq<SpendRow>, r: Rollup)
    requires r in RollUp(m, rows) && r.parentId.Some?
    ensures SumOfItems(r.subcategories) == r.totalPaise == Total(m, rows, r.parentId)
  {
    var key := RollupIsFinished(m, rows, r);
    TotalSplits(m, rows, key);
    var items, direct := Items(m, rows, key), DirectItem(key.value, GetOr(FirstName(m, rows, key), "General"),
        Direct(m, rows, key));
    SortKeepsItemSum(items + direct);
    if direct != [] {
      assert Init(items + direct) == items;
    } else {
      assert items + direct == items;
    }
  }

  lemma RollupIsFinished(m: Catalogue, rows: seq<SpendRow>, r: Rollup) returns (key: Option<int>)
    requires r in RollUp(m, rows)
    ensures key == r.parentId && key in KeyOrder(m, rows) && r == Finished(Gathered(m, rows, key))
  {
    var all := FinishedAll(GatheredAll(m, rows));
    SortKeepsElements(all, ROLLUP_ORDER);
    assert r in multiset(RollUp(m, rows));
    assert r in multiset(all);
    var i :| 0 <= i < |all| && all[i] == r;
    key := KeyOrder(m, rows)[i];
  }

  lemma RollupOrderIsWeak()
    ensures IsWeakOrder(ROLLUP_ORDER)
  {
    assert forall a, b ::
        ROLLUP_ORDER(a, b) == (a.parentId.Some? && (b.parentId.None? || a.totalPaise < b.totalPaise));
  }

  /**
   * Categorised groups come first, most negative first, and what is uncategorised comes last; in every
   * group the items come most negative first.
   */
  lemma RollupsAreRanked(m: Catalogue, rows: seq<SpendRow>)
    ensures var list := RollUp(m, rows);
            && (forall i, j :: 0 <= i < j < |list| && list[j].parentId.Some? ==>
                  list[i].parentId.Some? && list[i].totalPaise <= list[j].totalPaise)
            && (forall r <- list :: ItemsRanked(r.subcategories))
  {
    var list := RollUp(m, rows);
    RollupOrderIsWeak();
    SortIsInOrder(FinishedAll(GatheredAll(m, rows)), ROLLUP_ORDER);
    forall i, j | 0 <= i < j < |list| && list[j].parentId.Some?
      ensures list[i].parentId.Some? && list[i].totalPaise <= list[j].totalPaise
    {
      assert !ROLLUP_ORDER(list[j], list[i]);
    }
    hide RollUp, Gathered;
    forall r | r in list
      ensures ItemsRanked(r.subcategories)
    {
      var key := RollupIsFinished(m, rows, r);
      ItemsAreRanked(Gathered(m, rows, key));
    }
  }

  ghost predicate ItemsRanked(items: seq<Item>) {
    forall i, j :: 0 <= i < j < |items| ==> items[i].totalPaise <= items[j].totalPaise
  }

  lemma ItemsAreRanked(r: Rollup)
    ensures ItemsRanked(Finished(r).subcategories)
  {
    var direct := if r.parentId.Some? then DirectItem(r.parentId.value, GetOr(r.parentName, "General"),
        r.directPaise) else [];
    SortIsInOrder(r.subcategories + direct, MORE_NEGATIVE);
    var items := Finished(r).subcategories;
    forall i, j | 0 <= i < j < |items|
      ensures items[i].totalPaise <= items[j].totalPaise
    {
      assert !MORE_NEGATIVE(items[j], items[i]);
    }
  }

  // ----- the drill-down -----

  function DrillItems(m: Catalogue, rows: seq<SpendRow>, parent: int): seq<Item> {
    if rows == [] then []
    else
      var row, before := Last(rows), DrillItems(m, Init(rows), parent);
      if row.categoryId == Some(parent) || !IsSubcategoryRow(m, row)
          || m[row.categoryId.value].parentId != Some(parent) then before
      else before + [ItemOf(m, row)]
  }

  function DrillDirect(rows: seq<SpendRow>, parent: int): int {
    if rows == [] then 0
    else DrillDirect(Init(rows), parent) + if Last(rows).categoryId == Some(parent) then Last(rows).totalPaise else 0
  }

  /** The panel behind one parent, computed from the rows on its own. */
  function DrillDown(m: Catalogue, rows: seq<SpendRow>, parent: int): seq<Item> {
    var name := if parent in m then m[parent].name else "General";
    StableSort(DrillItems(m, rows, parent) + DirectItem(parent, name, DrillDirect(rows, parent)), MORE_NEGATIVE)
  }

  /** What the rollup lists under a key. */
  function Breakdown(m: Catalogue, rows: seq<SpendRow>, parent: int): seq<Item> {
    Finished(Gathered(m, rows, Some(parent))).subcategories
  }

  predicate IsRootOrUnknown(m: Catalogue, id: int) {
    id in m ==> m[id].parentId.None?
  }

  /** A breakdown line of a category names a category under it, as the catalogue does. */
  ghost predicate NamesChild(m: Catalogue, item: Item, parent: int) {
    && !item.isDirect && item.categoryId in m && m[item.categoryId].parentId == Some(parent)
    && item.name == m[item.categoryId].name
  }

  /** The panel lists what was spent in the categories under the one it shows, itself apart. */
  lemma {:induction false} PanelSays(m: Catalogue, rows: seq<SpendRow>, parent: int)
    ensures forall item <- DrillItems(m, rows, parent) :: NamesChild(m, item, parent) && item.categoryId != parent
    ensures SumOfItems(DrillItems(m, rows, parent)) == SpentIn(rows, Under(m, parent) - {parent})
    ensures DrillDirect(rows, parent) == SpentIn(rows, {parent})
    ensures forall item <- Items(m, rows, Some(parent)) :: NamesChild(m, item, parent)
  {
    if rows != [] {
      PanelSays(m, Init(rows), parent);
      var items := DrillItems(m, rows, parent);
      if items != DrillItems(m, Init(rows), parent) {
        assert Init(items) == DrillItems(m, Init(rows), parent);
      }
    }
  }

  lemma {:induction false} SameGathering(m: Catalogue, rows: seq<SpendRow>, parent: int)
    requires IsRootOrUnknown(m, parent) || m[parent].parentId != Some(parent)
    ensures DrillItems(m, rows, parent) == Items(m, rows, Some(parent))
    ensures Direct(m, rows, Some(parent)) == if IsRootOrUnknown(m, parent) then DrillDirect(rows, parent) else 0
  {
    if rows != [] {
      SameGathering(m, Init(rows), parent);
    }
  }

  const UNNAMED: Item -> Item := (item: Item) => item.(name := "")

  lemma UnnamedSorts(items: seq<Item>)
    ensures Mapped(StableSort(items, MORE_NEGATIVE), UNNAMED) == StableSort(Mapped(items, UNNAMED), MORE_NEGATIVE)
  {
    SortMaps(items, UNNAMED, MORE_NEGATIVE, MORE_NEGATIVE);
  }

  lemma {:induction false} FirstNameInCatalogue(m: Catalogue, rows: seq<SpendRow>, parent: int)
    requires parent in m && Some(parent) in KeyOrder(m, rows)
    ensures FirstName(m, rows, Some(parent)) == Some(m[parent].name)
  {
    var before := KeyOrder(m, Init(rows));
    if Some(parent) in before {
      FirstNameInCatalogue(m, Init(rows), parent);
    }
  }

  /** A catalogued root's group bears its name and has a direct line exactly when its own rows add up to something. */
  lemma DirectLine(m: Catalogue, rows: seq<SpendRow>, id: int)
    requires id in m && m[id].parentId.None? && Some(id) in KeyOrder(m, rows)
    ensures var r, own := Finished(Gathered(m, rows, Some(id))), SpentIn(rows, {id});
            && r.parentName == Some(m[id].name)
            && forall item <- r.subcategories ::
                 if item.isDirect then own != 0 && item == Item(id, m[id].name + " (Direct)", own, true)
                 else NamesChild(m, item, id)
    ensures var r, own := Finished(Gathered(m, rows, Some(id))), SpentIn(rows, {id});
            own != 0 ==> Item(id, m[id].name + " (Direct)", own, true) in r.subcategories
  {
    hide StableSort, KeyOrder, FirstName, Items, Total, Direct, Under, NamesChild, SpentIn;
    FirstNameInCatalogue(m, rows, id);
    TotalIsSpentUnder(m, rows, id);
    PanelSays(m, rows, id);
    var all := Items(m, rows, Some(id)) + DirectItem(id, m[id].name, Direct(m, rows, Some(id)));
    SortMembers(all, MORE_NEGATIVE);
    ChildrenAreNotDirect(m, Items(m, rows, Some(id)), id);
  }

  lemma ChildrenAreNotDirect(m: Catalogue, items: seq<Item>, id: int)
    requires forall item <- items :: NamesChild(m, item, id)
    ensures forall item <- items :: !item.isDirect
  {
  }

  /**
   * For a root (or an id the catalogue lacks) the panel shows what the rollup lists, element by element
   * after both sorts, up to the label of the direct row; for a listed root the labels agree too.
   */
  lemma DrillDownAgrees(m: Catalogue, rows: seq<SpendRow>, parent: int)
    requires IsRootOrUnknown(m, parent)
    ensures Mapped(DrillDown(m, rows, parent), UNNAMED) == Mapped(Breakdown(m, rows, parent), UNNAMED)
    ensures parent in m && Some(parent) in KeyOrder(m, rows) ==>
            DrillDown(m, rows, parent) == Breakdown(m, rows, parent)
  {
    SameGathering(m, rows, parent);
    var items, direct := Items(m, rows, Some(parent)), DrillDirect(rows, parent);
    var a := items + DirectItem(parent, if parent in m then m[parent].name else "General", direct);
    var b := items + DirectItem(parent, GetOr(FirstName(m, rows, Some(parent)), "General"), direct);
    assert Mapped(a, UNNAMED) == Mapped(b, UNNAMED);
    UnnamedSorts(a);
    UnnamedSorts(b);
    if parent in m && Some(parent) in KeyOrder(m, rows) {
      FirstNameInCatalogue(m, rows, parent);
    }
  }

  lemma {:induction false} SortKeepsLength(s: seq<Item>)
    ensures |StableSort(s, MORE_NEGATIVE)| == |s|
  {
    SortKeepsElements(s, MORE_NEGATIVE);
    assert |multiset(s)| == |s| && |multiset(StableSort(s, MORE_NEGATIVE))| == |StableSort(s, MORE_NEGATIVE)|;
  }

  /** For a category that is itself nested the two agree exactly when its own rows cancel out. */
  lemma NestedDrillDownAgreesIffNoDirect(m: Catalogue, rows: seq<SpendRow>, parent: int)
    requires !IsRootOrUnknown(m, parent) && m[parent].parentId != Some(parent)
    ensures DrillDown(m, rows, parent) == Breakdown(m, rows, parent) <==> DrillDirect(rows, parent) == 0
  {
    SameGathering(m, rows, parent);
    var items := Items(m, rows, Some(parent));
    SortKeepsLength(items + DirectItem(parent, m[parent].name, DrillDirect(rows, parent)));
    SortKeepsLength(items + DirectItem(parent, GetOr(FirstName(m, rows, Some(parent)), "General"), 0));
  }

  function OwnRows(rows: seq<SpendRow>, id: int): nat {
    if rows == [] then 0 else OwnRows(Init(rows), id) + if Last(rows).categoryId == Some(id) then 1 else 0
  }

  lemma {:induction false} SelfParentGathering(m: Catalogue, rows: seq<SpendRow>, id: int)
    requires id in m && m[id].parentId == Some(id)
    ensures var items, drilled := Items(m, rows, Some(id)), DrillItems(m, rows, id);
            && Direct(m, rows, Some(id)) == 0
            && |items| == |drilled| + OwnRows(rows, id)
            && (OwnRows(rows, id) == 0 ==> items == drilled && DrillDirect(rows, id) == 0)
            && forall item <- items :: !item.isDirect
  {
    if rows != [] {
      SelfParentGathering(m, Init(rows), id);
    }
  }

  /** For a category recorded as its own parent they agree exactly when no row is booked on it. */
  lemma SelfParentDrillDownAgreesIffUnused(m: Catalogue, rows: seq<SpendRow>, id: int)
    requires id in m && m[id].parentId == Some(id)
    ensures DrillDown(m, rows, id) == Breakdown(m, rows, id) <==> OwnRows(rows, id) == 0
  {
    hide StableSort, Items, DrillItems, DrillDirect, Direct, OwnRows, FirstName, Total;
    SelfParentGathering(m, rows, id);
    var items, direct := Items(m, rows, Some(id)), DirectItem(id, m[id].name, DrillDirect(rows, id));
    var drilled := DrillItems(m, rows, id) + direct;
    assert items + [] == items;
    SortKeepsLength(drilled);
    SortKeepsLength(items);
    SortMembers(drilled, MORE_NEGATIVE);
    SortMembers(items, MORE_NEGATIVE);
    if direct != [] {
      assert drilled[|drilled| - 1] == direct[0] && direct[0] in DrillDown(m, rows, id);
      assert direct[0] !in items && Breakdown(m, rows, id) == StableSort(items, MORE_NEGATIVE);
    }
  }

  // ----- the imperative folds -----

  /** One row into the rollup it reaches. */
  function Added(m: Catalogue, r: Rollup, row: SpendRow): Rollup {
    if IsSubcategoryRow(m, row) then
      r.(totalPaise := r.totalPaise + row.totalPaise, subcategories := r.subcategories + [ItemOf(m, row)])
    else
      r.(totalPaise := r.totalPaise + row.totalPaise, directPaise := r.directPaise + row.totalPaise)
  }

  lemma GatherStep(m: Catalogue, rows: seq<SpendRow>, i: nat)
    requires i < |rows|
    ensures var row, key, before := rows[i], ParentKey(m, rows[i]), KeyOrder(m, rows[..i]);
            && KeyOrder(m, rows[..i + 1]) == (if key in before then before else before + [key])
            && Gathered(m, rows[..i + 1], key) ==
               Added(m, if key in before then Gathered(m, rows[..i], key)
                   else Rollup(key, NameFrom(m, row), 0, 0, []), row)
  {
    assert Init(rows[..i + 1]) == rows[..i] && Last(rows[..i + 1]) == rows[i];
    if ParentKey(m, rows[i]) !in KeyOrder(m, rows[..i]) {
      UnseenKeyIsEmpty(m, rows[..i], ParentKey(m, rows[i]));
    }
  }

  lemma GatherLeavesOthers(m: Catalogue, rows: seq<SpendRow>, i: nat, other: Option<int>)
    requires i < |rows| && other != ParentKey(m, rows[i])
    ensures Gathered(m, rows[..i + 1], other) == Gathered(m, rows[..i], other)
  {
    assert Init(rows[..i + 1]) == rows[..i] && Last(rows[..i + 1]) == rows[i];
  }

  lemma NoKeysYet(m: Catalogue)
    ensures KeyOrder(m, []) == []
  {
  }

  /** A Map with insertion order: its keys as listed, and what each holds. */
  method Gather(m: Catalogue, rows: seq<SpendRow>) returns (order: seq<Option<int>>, table: map<Option<int>, Rollup>)
    ensures order == KeyOrder(m, rows)
    ensures forall key <- order :: key in table && table[key] == Gathered(m, rows, key)
  {
    hide Gathered, KeyOrder, Added;
    order, table := [], map[];
    NoKeysYet(m);
    assert rows[..0] == [];
    for i := 0 to |rows|
      invariant order == KeyOrder(m, rows[..i])
      invariant forall key :: key in table <==> key in order
      invariant forall key <- table :: table[key] == Gathered(m, rows[..i], key)
    {
      var row, key := rows[i], ParentKey(m, rows[i]);
      GatherStep(m, rows, i);
      forall other | other in table && other != key {
        GatherLeavesOthers(m, rows, i, other);
      }
      var existing := if key in table then table[key] else Rollup(key, NameFrom(m, row), 0, 0, []);
      if key !in table {
        order := order + [key];
      }
      table := table[key := Added(m, existing, row)];
    }
    assert rows[..|rows|] == rows;
  }

  method RollUpSpendByCategory(rows: seq<SpendRow>, cats: seq<Category>) returns (list: seq<Rollup>)
    ensures list == RollUp(CatalogueOf(cats), rows)
  {
    hide Finished, Gathered, KeyOrder, StableSort, CatalogueOf;
    var m := CatalogueOf(cats);
    var order, table := Gather(m, rows);
    ghost var all := FinishedAll(GatheredAll(m, rows));
    var finished: seq<Rollup> := [];
    for i := 0 to |order|
      invariant finished == all[..i]
    {
      assert order[i] in order && all[i] == Finished(table[order[i]]);
      finished := finished + [Finished(table[order[i]])];
    }
    assert finished == all;
    list := StableSort(finished, ROLLUP_ORDER);
  }

  lemma {:induction false} UnseenKeyIsEmpty(m: Catalogue, rows: seq<SpendRow>, key: Option<int>)
    requires key !in KeyOrder(m, rows)
    ensures Total(m, rows, key) == 0 && Direct(m, rows, key) == 0 && Items(m, rows, key) == []
  {
    if rows != [] {
      InitLast(rows);
      UnseenKeyIsEmpty(m, Init(rows), key);
    }
  }

  method GetParentSubcategorySpend(rows: seq<SpendRow>, parent: int, cats: seq<Category>) returns (items: seq<Item>)
    ensures items == DrillDown(CatalogueOf(cats), rows, parent)
  {
    var m := CatalogueOf(cats);
    items := [];
    var direct := 0;
    for i := 0 to |rows|
      invariant items == DrillItems(m, rows[..i], parent) && direct == DrillDirect(rows[..i], parent)
    {
      assert Init(rows[..i + 1]) == rows[..i];
      var row := rows[i];
      if row.categoryId == Some(parent) {
        direct := direct + row.totalPaise;
      } else if IsSubcategoryRow(m, row) && m[row.categoryId.value].parentId == Some(parent) {
        items := items + [ItemOf(m, row)];
      }
    }
    assert rows[..|rows|] == rows;
    if direct != 0 {
      items := items + [Item(parent, (if parent in m then m[parent].name else "General") + " (Direct)", direct, true)];
    } else {
      assert items + [] == items;
    }
    items := StableSort(items, MORE_NEGATIVE);
  }

  // ----- the two-level tree -----

  datatype Node = Node(category: Category, subcategories: seq<Category>)

  ghost predicate DistinctIds(cats: seq<Category>) {
    forall i, j :: 0 <= i < j < |cats| ==> cats[i].id != cats[j].id
  }

  function ChildrenOf(cats: seq<Category>, parent: int): seq<Category> {
    if cats == [] then []
    else if Last(cats).parentId == Some(parent) then ChildrenOf(Init(cats), parent) + [Last(cats)]
    else ChildrenOf(Init(cats), parent)
  }

  predicate IsOrphan(m: Catalogue, c: Category) {
    c.parentId.Some? && (c.parentId.value !in m || m[c.parentId.value].parentId.Some?)
  }

  /** Roots own their children; `cats` is walked while `all` and `m` stay the whole list. */
  function RootNodes(all: seq<Category>, cats: seq<Category>): seq<Node> {
    if cats == [] then []
    else if Last(cats).parentId.None? then
      RootNodes(all, Init(cats)) + [Node(Last(cats), ChildrenOf(all, Last(cats).id))]
    else RootNodes(all, Init(cats))
  }

  /** Children of a missing or nested parent are promoted, so that no row disappears. */
  function PromotedNodes(m: Catalogue, cats: seq<Category>): seq<Node> {
    if cats == [] then []
    else if IsOrphan(m, Last(cats)) then PromotedNodes(m, Init(cats)) + [Node(Last(cats), [])]
    else PromotedNodes(m, Init(cats))
  }

  function CategoryTree(cats: seq<Category>): seq<Node> {
    RootNodes(cats, cats) + PromotedNodes(CatalogueOf(cats), cats)
  }

  lemma {:induction false} ChildrenAre(cats: seq<Category>, parent: int, c: Category)
    ensures c in ChildrenOf(cats, parent) <==> c in cats && c.parentId == Some(parent)
  {
    if cats != [] {
      InitLast(cats);
      ChildrenAre(Init(cats), parent, c);
    }
  }

  /** A node at the top is a root with the categories that name it, or a promoted category with none. */
  ghost predicate WellPlaced(cats: seq<Category>, node: Node) {
    && node.category in cats
    && if node.category.parentId.None? then
         forall c :: c in node.subcategories <==> c in cats && c.parentId == Some(node.category.id)
       else
         node.subcategories == []
  }

  lemma {:induction false} RootsWellPlaced(all: seq<Category>, cats: seq<Category>)
    requires forall c <- cats :: c in all
    ensures forall node <- RootNodes(all, cats) :: WellPlaced(all, node) && node.category.parentId.None?
  {
    if cats != [] {
      InitLast(cats);
      RootsWellPlaced(all, Init(cats));
      assert Last(cats) in cats;
      forall c {
        ChildrenAre(all, Last(cats).id, c);
      }
    }
  }

  lemma {:induction false} PromotedWellPlaced(m: Catalogue, all: seq<Category>, cats: seq<Category>)
    requires forall c <- cats :: c in all
    ensures forall node <- PromotedNodes(m, cats) :: WellPlaced(all, node) && IsOrphan(m, node.category)
  {
    if cats != [] {
      InitLast(cats);
      PromotedWellPlaced(m, all, Init(cats));
      assert Last(cats) in cats;
    }
  }

  /** Every root has exactly the categories naming it below, and only categories without such a root are promoted. */
  lemma TreeWellPlaced(cats: seq<Category>)
    ensures forall node <- CategoryTree(cats) ::
              WellPlaced(cats, node) && (node.category.parentId.None? || IsOrphan(CatalogueOf(cats), node.category))
  {
    RootsWellPlaced(cats, cats);
    PromotedWellPlaced(CatalogueOf(cats), cats, cats);
  }

  function Copies(cats: seq<Category>, x: Category): nat {
    if cats == [] then 0 else Copies(Init(cats), x) + if Last(cats) == x then 1 else 0
  }

  /** How often a category appears in the tree, as a root or below one. */
  function Times(nodes: seq<Node>, x: Category): nat {
    if nodes == [] then 0
    else
      Times(Init(nodes), x) + (if Last(nodes).category == x then 1 else 0) + Copies(Last(nodes).subcategories, x)
  }

  lemma {:induction false} TimesSplit(a: seq<Node>, b: seq<Node>, x: Category)
    ensures Times(a + b, x) == Times(a, x) + Times(b, x)
  {
    if b == [] {
      assert a + b == a;
    } else {
      assert Init(a + b) == a + Init(b);
      TimesSplit(a, Init(b), x);
    }
  }

  // The three ways into the tree: under a root with one of the given ids, as a root, as an orphan.

  function UnderOneOf(cats: seq<Category>, ids: set<int>, x: Category): nat {
    if cats == [] then 0
    else
      var c := Last(cats);
      UnderOneOf(Init(cats), ids, x) + if c == x && c.parentId.Some? && c.parentId.value in ids then 1 else 0
  }

  function AsRoot(cats: seq<Category>, x: Category): nat {
    if cats == [] then 0 else AsRoot(Init(cats), x) + if Last(cats) == x && x.parentId.None? then 1 else 0
  }

  function AsOrphan(m: Catalogue, cats: seq<Category>, x: Category): nat {
    if cats == [] then 0 else AsOrphan(m, Init(cats), x) + if Last(cats) == x && IsOrphan(m, x) then 1 else 0
  }

  function RootIds(cats: seq<Category>): set<int> {
    if cats == [] then {}
    else if Last(cats).parentId.None? then RootIds(Init(cats)) + {Last(cats).id}
    else RootIds(Init(cats))
  }

  lemma {:induction false} RootIdsAreRoots(cats: seq<Category>, id: int)
    ensures id in RootIds(cats) <==> exists c <- cats :: c.id == id && c.parentId.None?
  {
    if cats != [] {
      InitLast(cats);
      RootIdsAreRoots(Init(cats), id);
    }
  }

  lemma {:induction false} UnderOneMore(cats: seq<Category>, ids: set<int>, id: int, x: Category)
    requires id !in ids
    ensures UnderOneOf(cats, ids + {id}, x) == UnderOneOf(cats, ids, x) + Copies(ChildrenOf(cats, id), x)
  {
    if cats != [] {
      UnderOneMore(Init(cats), ids, id, x);
      if Last(cats).parentId == Some(id) {
        assert Init(ChildrenOf(cats, id)) == ChildrenOf(Init(cats), id);
      }
    }
  }

  lemma {:induction false} UnderNobody(cats: seq<Category>, x: Category)
    ensures UnderOneOf(cats, {}, x) == 0
  {
    if cats != [] {
      UnderNobody(Init(cats), x);
    }
  }

  lemma {:induction false} RootsOwnTheirChildren(all: seq<Category>, cats: seq<Category>, x: Category)
    requires DistinctIds(cats)
    ensures Times(RootNodes(all, cats), x) == AsRoot(cats, x) + UnderOneOf(all, RootIds(cats), x)
  {
    if cats == [] {
      UnderNobody(all, x);
    } else {
      var c, before := Last(cats), Init(cats);
      RootsOwnTheirChildren(all, before, x);
      if c.parentId.None? {
        RootIdsAreRoots(before, c.id);
        UnderOneMore(all, RootIds(before), c.id, x);
        assert Init(RootNodes(all, cats)) == RootNodes(all, before);
      }
    }
  }

  lemma {:induction false} PromotedAreOrphans(m: Catalogue, cats: seq<Category>, x: Category)
    ensures Times(PromotedNodes(m, cats), x) == AsOrphan(m, cats, x)
  {
    if cats != [] {
      PromotedAreOrphans(m, Init(cats), x);
      if IsOrphan(m, Last(cats)) {
        assert Init(PromotedNodes(m, cats)) == PromotedNodes(m, Init(cats));
      }
    }
  }

  lemma {:induction false} EveryCategoryIsOneOfThree(m: Catalogue, ids: set<int>, cats: seq<Category>, x: Category)
    requires forall id :: id in ids <==> id in m && m[id].parentId.None?
    ensures Copies(cats, x) == AsRoot(cats, x) + UnderOneOf(cats, ids, x) + AsOrphan(m, cats, x)
  {
    if cats != [] {
      EveryCategoryIsOneOfThree(m, ids, Init(cats), x);
    }
  }

  lemma CatalogueFindsAll(cats: seq<Category>, c: Category)
    requires DistinctIds(cats) && c in cats
    ensures CatalogueOf(cats)[c.id] == c
  {
    var i :| 0 <= i < |cats| && cats[i] == c;
    var j :| 0 <= j < |cats| && cats[j] == CatalogueOf(cats)[c.id];
  }

  lemma {:induction false} CopiesWithDistinctIds(cats: seq<Category>, x: Category)
    requires DistinctIds(cats)
    ensures Copies(cats, x) == if x in cats then 1 else 0
  {
    if cats != [] {
      InitLast(cats);
      CopiesWithDistinctIds(Init(cats), x);
    }
  }

  /** Every category of the list is in the tree exactly once, orphans and self-parents included. */
  lemma TreePlacesEachOnce(cats: seq<Category>, x: Category)
    requires DistinctIds(cats)
    ensures Times(CategoryTree(cats), x) == if x in cats then 1 else 0
  {
    var m := CatalogueOf(cats);
    TimesSplit(RootNodes(cats, cats), PromotedNodes(m, cats), x);
    RootsOwnTheirChildren(cats, cats, x);
    PromotedAreOrphans(m, cats, x);
    forall id
      ensures id in RootIds(cats) <==> id in m && m[id].parentId.None?
    {
      RootIdsAreRoots(cats, id);
      if id in m {
        assert m[id] in cats;
      }
      forall c | c in cats && c.id == id
        ensures m[id] == c
      {
        CatalogueFindsAll(cats, c);
      }
    }
    EveryCategoryIsOneOfThree(m, RootIds(cats), cats, x);
    CopiesWithDistinctIds(cats, x);
  }

  method IndexCategories(cats: seq<Category>) returns (byId: Catalogue, childrenByParent: map<int, seq<Category>>)
    ensures byId == CatalogueOf(cats)
    ensures forall p :: ChildrenOf(cats, p) == if p in childrenByParent then childrenByParent[p] else []
  {
    byId, childrenByParent := map[], map[];
    for i := 0 to |cats|
      invariant byId == CatalogueOf(cats[..i])
      invariant forall p :: ChildrenOf(cats[..i], p) == if p in childrenByParent then childrenByParent[p] else []
    {
      var c := cats[i];
      assert Init(cats[..i + 1]) == cats[..i];
      byId := byId[c.id := c];
      if c.parentId.Some? {
        var p := c.parentId.value;
        childrenByParent := childrenByParent[p := (if p in childrenByParent then childrenByParent[p] else []) + [c]];
      }
    }
    assert cats[..|cats|] == cats;
  }

  method BuildCategoryTree(cats: seq<Category>) returns (roots: seq<Node>)
    ensures roots == CategoryTree(cats)
  {
    hide CatalogueOf, ChildrenOf;
    var byId, childrenByParent := IndexCategories(cats);
    roots := [];
    for i := 0 to |cats|
      invariant roots == RootNodes(cats, cats[..i])
    {
      var c := cats[i];
      assert Init(cats[..i + 1]) == cats[..i];
      if c.parentId.None? {
        roots := roots + [Node(c, if c.id in childrenByParent then childrenByParent[c.id] else [])];
      }
    }
    assert cats[..|cats|] == cats;
    for i := 0 to |cats|
      invariant roots == RootNodes(cats, cats) + PromotedNodes(byId, cats[..i])
    {
      assert Init(cats[..i + 1]) == cats[..i];
      if IsOrphan(byId, cats[i]) {
        roots := roots + [Node(cats[i], [])];
      }
    }
  }
}
