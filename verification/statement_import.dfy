/** The two-key prefetch and the importers that run on it, over one user's mutable table. */
module StatementImports {
  import opened Sequences
  import opened Fingerprints
  import opened Occurrences
  import opened Dedup

  // ----- the grouped query -----

  // One row of SELECT key, fp, COUNT(*), MAX(occurrence) ... GROUP BY key, fp.
  datatype Group = Group(key: string, fp: string, count: nat, maxOccurrence: int)

  predicate InGroup(r: Row, key: string, fp: string) {
    SourceKey(r) == key && r.fp == fp
  }

  predicate HasGroup(r: Row, groups: seq<Group>) {
    exists g <- groups :: InGroup(r, g.key, g.fp)
  }

  function CountGroup(rows: seq<Row>, key: string, fp: string): nat {
    if rows == [] then 0 else CountGroup(Init(rows), key, fp) + if InGroup(Last(rows), key, fp) then 1 else 0
  }

  /** The result of the grouped query, in whatever order the database returns it. */
  ghost predicate IsGrouping(groups: seq<Group>, rows: seq<Row>) {
    && (forall i, j :: 0 <= i < j < |groups| ==> groups[i].key != groups[j].key || groups[i].fp != groups[j].fp)
    && (forall g <- groups :: g.count == CountGroup(rows, g.key, g.fp))
    && (forall g <- groups :: exists r <- rows :: InGroup(r, g.key, g.fp) && r.occurrence == g.maxOccurrence)
    && (forall g <- groups, r <- rows :: InGroup(r, g.key, g.fp) ==> r.occurrence <= g.maxOccurrence)
    && (forall r <- rows :: HasGroup(r, groups))
  }

  /** The WHERE clause: either column may bring a row into scope. */
  function Scoped(rows: seq<Row>, fps: set<string>): seq<Row> {
    if rows == [] then []
    else
      var r, before := Last(rows), Scoped(Init(rows), fps);
      if (r.origin.Some? && r.origin.value in fps) || r.fp in fps then before + [r] else before
  }

  // ----- folding the groups back into one table per key -----

  function SumCounts(groups: seq<Group>, key: string): nat {
    if groups == [] then 0
    else SumCounts(Init(groups), key) + if Last(groups).key == key then Last(groups).count else 0
  }

  function MaxOfGroups(groups: seq<Group>, fp: string): int {
    if groups == [] then -1
    else
      var m := MaxOfGroups(Init(groups), fp);
      if Last(groups).fp == fp && Last(groups).maxOccurrence > m then Last(groups).maxOccurrence else m
  }

  /** Rows of one source key that fall into one of the first groups. */
  function Covered(rows: seq<Row>, groups: seq<Group>, key: string): nat {
    if rows == [] then 0
    else
      var r := Last(rows);
      Covered(Init(rows), groups, key)
      + if SourceKey(r) == key && HasGroup(r, groups) then 1 else 0
  }

  lemma {:induction false} CoverOneMore(rows: seq<Row>, groups: seq<Group>, key: string)
    requires groups != []
    requires forall g <- Init(groups) :: g.key != Last(groups).key || g.fp != Last(groups).fp
    ensures Covered(rows, groups, key) == Covered(rows, Init(groups), key)
            + if Last(groups).key == key then CountGroup(rows, key, Last(groups).fp) else 0
  {
    if rows != [] {
      CoverOneMore(Init(rows), groups, key);
      assert groups == Init(groups) + [Last(groups)];
    }
  }

  lemma {:induction false} SumIsCovered(rows: seq<Row>, groups: seq<Group>, key: string)
    requires forall i, j :: 0 <= i < j < |groups| ==> groups[i].key != groups[j].key || groups[i].fp != groups[j].fp
    requires forall g <- groups :: g.count == CountGroup(rows, g.key, g.fp)
    ensures SumCounts(groups, key) == Covered(rows, groups, key)
  {
    if groups == [] {
      NothingCovered(rows, key);
    } else {
      assert groups == Init(groups) + [Last(groups)];
      SumIsCovered(rows, Init(groups), key);
      CoverOneMore(rows, groups, key);
    }
  }

  lemma {:induction false} NothingCovered(rows: seq<Row>, key: string)
    ensures Covered(rows, [], key) == 0
  {
    if rows != [] {
      NothingCovered(Init(rows), key);
    }
  }

  lemma {:induction false} AllCovered(rows: seq<Row>, groups: seq<Group>, key: string)
    requires forall r <- rows :: HasGroup(r, groups)
    ensures Covered(rows, groups, key) == CountKey(rows, key)
  {
    if rows != [] {
      assert rows == Init(rows) + [Last(rows)];
      assert HasGroup(Last(rows), groups);
      AllCovered(Init(rows), groups, key);
    }
  }

  /** MaxOccurrence is pinned down by being an upper bound that is attained (or -1). */
  lemma {:induction false} MaxOccurrenceAttained(rows: seq<Row>, fp: string)
    ensures MaxOccurrence(rows, fp) == -1 || exists r <- rows :: r.fp == fp && r.occurrence == MaxOccurrence(rows, fp)
  {
    if rows != [] {
      MaxOccurrenceAttained(Init(rows), fp);
      assert rows == Init(rows) + [Last(rows)];
    }
  }

  lemma {:induction false} MaxOfGroupsBounds(groups: seq<Group>, fp: string)
    ensures forall g <- groups :: g.fp == fp ==> g.maxOccurrence <= MaxOfGroups(groups, fp)
    ensures MaxOfGroups(groups, fp) == -1
            || exists g <- groups :: g.fp == fp && g.maxOccurrence == MaxOfGroups(groups, fp)
    ensures MaxOfGroups(groups, fp) >= -1
  {
    if groups != [] {
      MaxOfGroupsBounds(Init(groups), fp);
      assert groups == Init(groups) + [Last(groups)];
    }
  }

  lemma MaxOfGroupsIsMaxOccurrence(groups: seq<Group>, rows: seq<Row>, fp: string)
    requires IsGrouping(groups, rows)
    ensures MaxOfGroups(groups, fp) == MaxOccurrence(rows, fp)
  {
    var m, n := MaxOfGroups(groups, fp), MaxOccurrence(rows, fp);
    assert m <= n by {
      MaxOfGroupsBounds(groups, fp);
      MaxOccurrenceBounds(rows, fp);
      if m != -1 {
        var g :| g in groups && g.fp == fp && g.maxOccurrence == m;
        var r :| r in rows && InGroup(r, g.key, g.fp) && r.occurrence == m;
      }
    }
    assert n <= m by {
      MaxOfGroupsBounds(groups, fp);
      MaxOccurrenceAttained(rows, fp);
      if n != -1 {
        var r :| r in rows && r.fp == fp && r.occurrence == n;
        assert HasGroup(r, groups);
      }
    }
  }

  /** Count and maximum group on different columns, yet folding the groups gives each its own full scan. */
  lemma GroupsGiveFullScan(groups: seq<Group>, rows: seq<Row>, fp: string)
    requires IsGrouping(groups, rows)
    ensures SumCounts(groups, fp) == CountKey(rows, fp)
    ensures MaxOfGroups(groups, fp) == MaxOccurrence(rows, fp)
  {
    SumIsCovered(rows, groups, fp);
    AllCovered(rows, groups, fp);
    MaxOfGroupsIsMaxOccurrence(groups, rows, fp);
  }

  /** Scoping the query to the file's fingerprints loses no row either figure needs. */
  lemma {:induction false} ScopeIsExact(rows: seq<Row>, fps: set<string>, fp: string)
    requires fp in fps
    ensures KnownFor(Scoped(rows, fps), fp) == KnownFor(rows, fp)
  {
    if rows != [] {
      ScopeIsExact(Init(rows), fps, fp);
      var scoped := Scoped(rows, fps);
      if scoped != Scoped(Init(rows), fps) {
        assert Init(scoped) == Scoped(Init(rows), fps);
      }
    }
  }

  // ----- the query has an answer for every stored table -----

  function MaxOfGroup(rows: seq<Row>, key: string, fp: string): int {
    if rows == [] then -1
    else
      var m := MaxOfGroup(Init(rows), key, fp);
      if InGroup(Last(rows), key, fp) && Last(rows).occurrence > m then Last(rows).occurrence else m
  }

  lemma {:induction false} MaxOfGroupBounds(rows: seq<Row>, key: string, fp: string)
    requires forall r <- rows :: r.occurrence >= 0
    ensures forall r <- rows :: InGroup(r, key, fp) ==> r.occurrence <= MaxOfGroup(rows, key, fp)
    ensures MaxOfGroup(rows, key, fp) == -1
            || exists r <- rows :: InGroup(r, key, fp) && r.occurrence == MaxOfGroup(rows, key, fp)
  {
    if rows != [] {
      assert rows == Init(rows) + [Last(rows)];
      MaxOfGroupBounds(Init(rows), key, fp);
    }
  }

  function Pair(r: Row): (string, string) {
    (SourceKey(r), r.fp)
  }

  function Pairs(rows: seq<Row>): (pairs: seq<(string, string)>)
    ensures Distinct(pairs)
    ensures forall p <- pairs :: exists r <- rows :: Pair(r) == p
    ensures forall r <- rows :: Pair(r) in pairs
  {
    if rows == [] then []
    else
      assert rows == Init(rows) + [Last(rows)];
      var before := Pairs(Init(rows));
      if Pair(Last(rows)) in before then before else before + [Pair(Last(rows))]
  }

  function GroupRows(rows: seq<Row>): seq<Group> {
    var pairs := Pairs(rows);
    seq(|pairs|, i requires 0 <= i < |pairs| =>
      var (key, fp) := pairs[i];
      Group(key, fp, CountGroup(rows, key, fp), MaxOfGroup(rows, key, fp)))
  }

  lemma GroupIsRight(rows: seq<Row>, g: Group)
    requires forall r <- rows :: r.occurrence >= 0
    requires g in GroupRows(rows)
    ensures g.count == CountGroup(rows, g.key, g.fp)
    ensures exists r <- rows :: InGroup(r, g.key, g.fp) && r.occurrence == g.maxOccurrence
    ensures forall r <- rows :: InGroup(r, g.key, g.fp) ==> r.occurrence <= g.maxOccurrence
  {
    MaxOfGroupBounds(rows, g.key, g.fp);
    var i :| 0 <= i < |Pairs(rows)| && GroupRows(rows)[i] == g;
    assert Pairs(rows)[i] == (g.key, g.fp) && Pairs(rows)[i] in Pairs(rows);
    var r :| r in rows && Pair(r) == (g.key, g.fp);
    assert InGroup(r, g.key, g.fp);
  }

  lemma RowHasGroup(rows: seq<Row>, r: Row)
    requires r in rows
    ensures HasGroup(r, GroupRows(rows))
  {
    var pairs := Pairs(rows);
    var i :| 0 <= i < |pairs| && pairs[i] == Pair(r);
    assert InGroup(r, GroupRows(rows)[i].key, GroupRows(rows)[i].fp);
  }

  lemma GroupingExists(rows: seq<Row>)
    requires forall r <- rows :: r.occurrence >= 0
    ensures IsGrouping(GroupRows(rows), rows)
  {
    forall g | g in GroupRows(rows) {
      GroupIsRight(rows, g);
    }
    forall r | r in rows {
      RowHasGroup(rows, r);
    }
    var groups, pairs := GroupRows(rows), Pairs(rows);
    assert forall i :: 0 <= i < |pairs| ==> (groups[i].key, groups[i].fp) == pairs[i];
  }

  // ----- the importers -----

  /** The loop that folds the grouped rows into the two dictionaries and joins them per key. */
  method FoldGroups(groups: seq<Group>, fps: set<string>) returns (existing: map<string, Known>)
    ensures existing.Keys == fps
    ensures forall fp <- fps :: existing[fp] == Known(SumCounts(groups, fp), MaxOfGroups(groups, fp))
  {
    var counts: map<string, nat> := map[];
    var maxOccurrence: map<string, int> := map[];
    for i := 0 to |groups|
      invariant forall key :: SumCounts(groups[..i], key) == if key in counts then counts[key] else 0
      invariant forall fp :: MaxOfGroups(groups[..i], fp) == if fp in maxOccurrence then maxOccurrence[fp] else -1
    {
      var g := groups[i];
      assert Init(groups[..i + 1]) == groups[..i];
      counts := counts[g.key := (if g.key in counts then counts[g.key] else 0) + g.count];
      var m := if g.fp in maxOccurrence then maxOccurrence[g.fp] else -1;
      maxOccurrence := maxOccurrence[g.fp := if g.maxOccurrence > m then g.maxOccurrence else m];
    }
    assert groups[..|groups|] == groups;
    existing := map fp | fp in fps ::
      Known(if fp in counts then counts[fp] else 0, if fp in maxOccurrence then maxOccurrence[fp] else -1);
  }

  /** The backup importer's prefetch is unscoped, and its table holds every key of either column. */
  method FoldUnscoped(groups: seq<Group>, ghost rows: seq<Row>) returns (existing: map<string, Known>)
    requires IsGrouping(groups, rows)
    ensures forall fp :: Lookup(existing, fp) == KnownFor(rows, fp)
  {
    var fps := (set g | g in groups :: g.key) + (set g | g in groups :: g.fp);
    existing := FoldGroups(groups, fps);
    forall fp
      ensures Lookup(existing, fp) == KnownFor(rows, fp)
    {
      GroupsGiveFullScan(groups, rows, fp);
      if fp !in fps {
        NoGroupNoRows(groups, fp);
      }
    }
  }

  function KeySet(lines: seq<Parsed>): set<string> {
    set key | key in Keys(lines)
  }

  lemma StagedStep(rows: seq<Row>, lines: seq<Parsed>, stamp: bool, i: nat)
    requires i < |lines|
    ensures Keys(lines[..i + 1]) == Keys(lines[..i]) + [lines[i].fp]
    ensures Staged(rows, lines[..i + 1], stamp) ==
            match Ordinal(KnownFor(rows, lines[i].fp), multiset(Keys(lines[..i + 1]))[lines[i].fp])
            case None => Staged(rows, lines[..i], stamp)
            case Some(occurrence) => Staged(rows, lines[..i], stamp) + [StagedAs(lines[i], occurrence, stamp)]
  {
    assert Init(lines[..i + 1]) == lines[..i] && Last(lines[..i + 1]) == lines[i];
  }

  class TransactionTable {
    var rows: seq<Row>

    ghost predicate Valid()
      reads this
    {
      Consistent(rows)
    }

    constructor ()
      ensures Valid() && rows == []
    {
      rows := [];
    }

    /** One turn of the persist loop: ask for an ordinal, then skip the line or store it unchecked. */
    method StageLine(ghost was: seq<Row>, lines: seq<Parsed>, i: nat, allocator: OccurrenceAllocator<string>,
        stamp: bool)
      returns (stored: bool)
      requires i < |lines| && allocator.Valid() && allocator.requests == Keys(lines[..i])
      requires Lookup(allocator.existing, lines[i].fp) == KnownFor(was, lines[i].fp)
      requires rows == was + Staged(was, lines[..i], stamp)
      modifies this, allocator
      ensures allocator.Valid() && allocator.requests == Keys(lines[..i + 1])
      ensures rows == was + Staged(was, lines[..i + 1], stamp)
      ensures |rows| == |old(rows)| + if stored then 1 else 0
    {
      StagedStep(was, lines, stamp, i);
      var occurrence := allocator.Allocate(lines[i].fp);
      stored := occurrence.Some?;
      if stored {
        rows := rows + [StagedAs(lines[i], occurrence.value, stamp)];
      }
    }

    /** Allocates and persists in file order. */
    method Stage(lines: seq<Parsed>, existing: map<string, Known>, stamp: bool) returns (imported: nat, skipped: nat)
      requires forall fp <- Keys(lines) :: Lookup(existing, fp) == KnownFor(rows, fp)
      modifies this
      ensures rows == old(rows) + Staged(old(rows), lines, stamp)
      ensures |rows| == |old(rows)| + imported && imported + skipped == |lines|
    {
      imported, skipped := 0, 0;
      ghost var was := rows;
      var allocator := new OccurrenceAllocator<string>(existing);
      assert Keys(lines[..0]) == [];
      for i := 0 to |lines|
        invariant allocator.Valid() && fresh(allocator) && allocator.requests == Keys(lines[..i])
        invariant rows == was + Staged(was, lines[..i], stamp)
        invariant |rows| == |was| + imported && imported + skipped == i
      {
        assert Keys(lines)[i] in Keys(lines);
        var stored := StageLine(was, lines, i, allocator, stamp);
        if stored {
          imported := imported + 1;
        } else {
          skipped := skipped + 1;
        }
      }
      assert lines[..|lines|] == lines;
    }

    /** `groups` is the database's answer to the scoped, grouped prefetch. */
    method ImportStatement(account: int, file: seq<Line>, groups: seq<Group>) returns (imported: nat, skipped: nat)
      requires Valid()
      requires IsGrouping(groups, Scoped(rows, KeySet(StatementLines(account, file))))
      modifies this
      ensures Valid() && rows == Apply(old(rows), Step.ImportStatement(account, file))
      ensures imported + skipped == |file| && |rows| == |old(rows)| + imported
    {
      skipped := 0;
      var parsed: seq<Parsed> := [];
      for i := 0 to |file|
        invariant parsed == StatementLines(account, file[..i]) && |parsed| + skipped == i
      {
        assert Init(file[..i + 1]) == file[..i];
        if file[i].amountPaise == 0 {
          skipped := skipped + 1;
        } else {
          var merchant := NormalizeMerchant(file[i].merchantRaw);
          var identity := Identity(file[i].date, file[i].amountPaise, merchant, account);
          parsed := parsed + [Parsed(identity, TransactionFingerprint(identity))];
        }
      }
      assert file[..|file|] == file;
      var fps := KeySet(parsed);
      var existing := FoldGroups(groups, fps);
      forall fp | fp in fps
        ensures existing[fp] == KnownFor(rows, fp)
      {
        GroupsGiveFullScan(groups, Scoped(rows, fps), fp);
        ScopeIsExact(rows, fps, fp);
      }
      ApplyKeepsConsistent(rows, Step.ImportStatement(account, file));
      var duplicates;
      imported, duplicates := Stage(parsed, existing, true);
      skipped := skipped + duplicates;
    }

    method RestoreBackup(backup: seq<Identity>, groups: seq<Group>) returns (imported: nat, skipped: nat)
      requires Valid()
      requires IsGrouping(groups, rows)
      modifies this
      ensures Valid() && rows == Apply(old(rows), Step.RestoreBackup(backup))
      ensures imported + skipped == |backup| && |rows| == |old(rows)| + imported
    {
      var existing := FoldUnscoped(groups, rows);
      ApplyKeepsConsistent(rows, Step.RestoreBackup(backup));
      imported, skipped := Stage(BackupLines(backup), existing, false);
    }

    /** PATCH of an identity field; false is the 409 the unique key raises. */
    method EditIdentity(index: nat, identity: Identity) returns (ok: bool)
      requires Valid() && index < |rows|
      modifies this
      ensures Valid() && rows == Apply(old(rows), Edit(index, identity))
      ensures ok <==> rows[index].identity == Normalized(identity)
      ensures rows[index].origin == old(rows)[index].origin
    {
      ApplyKeepsConsistent(rows, Edit(index, identity));
      var was := rows[index];
      var edited := Edited(was, ParsedFrom(identity));
      ok := !Refused(rows, edited, index);
      if ok {
        rows := rows[index := edited];
      } else if was.identity == Normalized(identity) {
        UneditedRowIsNeverRefused(rows, index, identity);
      }
    }

    method Post(identity: Identity) returns (ok: bool)
      requires Valid()
      modifies this
      ensures Valid() && rows == Apply(old(rows), Step.Post(identity))
      ensures ok <==> |rows| == |old(rows)| + 1
    {
      ApplyKeepsConsistent(rows, Step.Post(identity));
      var posted := StagedAs(ParsedFrom(identity), 0, false);
      ok := !Refused(rows, posted, -1);
      if ok {
        rows := rows + [posted];
      }
    }

    method Delete(index: nat)
      requires Valid() && index < |rows|
      modifies this
      ensures Valid() && rows == Apply(old(rows), Step.Delete(index))
    {
      ApplyKeepsConsistent(rows, Step.Delete(index));
      rows := rows[..index] + rows[index + 1..];
    }
  }

  /** Re-sending a row's own identity keeps its occurrence, so it can never collide with a twin. */
  lemma UneditedRowIsNeverRefused(rows: seq<Row>, index: nat, identity: Identity)
    requires Consistent(rows) && index < |rows| && rows[index].identity == Normalized(identity)
    ensures Edited(rows[index], ParsedFrom(identity)) == rows[index]
    ensures !Refused(rows, rows[index], index)
  {
    assert Faithful(rows[index]);
  }

  lemma {:induction false} NoGroupNoRows(groups: seq<Group>, fp: string)
    requires forall g <- groups :: g.key != fp && g.fp != fp
    ensures SumCounts(groups, fp) == 0 && MaxOfGroups(groups, fp) == -1
  {
    if groups != [] {
      assert groups == Init(groups) + [Last(groups)];
      NoGroupNoRows(Init(groups), fp);
    }
  }
}
