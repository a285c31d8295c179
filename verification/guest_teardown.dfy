/** Tearing down a guest: ordered statements over tables tied together by foreign keys. */
module GuestTeardown {
  import opened Sequences

  datatype Table =
    | Users | Accounts | Categories | ImportBatches | Transactions | Labels | TransactionLabels
    | MerchantTagMaps | MerchantLabelMaps | MerchantAliases | Instruments | InvestmentTransactions | Sessions

  datatype Column =
    | UserId | AccountId | ParentAccountId | CategoryId | AutoCategoryId | ParentId | ImportBatchId
    | TransferPairId | TransactionId | LabelId | InstrumentId | PairId

  /** The foreign-key columns each table declares. */
  function Columns(t: Table): set<Column> {
    match t
    case Users => {}
    case Accounts => {UserId, ParentAccountId}
    case Categories => {UserId, ParentId}
    case ImportBatches => {UserId, AccountId}
    case Transactions => {UserId, AccountId, CategoryId, AutoCategoryId, ImportBatchId, TransferPairId}
    case Labels => {UserId}
    case TransactionLabels => {TransactionId, LabelId}
    case MerchantTagMaps => {UserId, CategoryId}
    case MerchantLabelMaps => {LabelId}
    case MerchantAliases => {UserId}
    case Instruments => {UserId}
    case InvestmentTransactions => {UserId, InstrumentId, PairId, ImportBatchId}
    case Sessions => {UserId}
  }

  function Target(c: Column): Table {
    match c
    case UserId => Users
    case AccountId | ParentAccountId => Accounts
    case CategoryId | AutoCategoryId | ParentId => Categories
    case ImportBatchId => ImportBatches
    case TransferPairId | TransactionId => Transactions
    case LabelId => Labels
    case InstrumentId => Instruments
    case PairId => InvestmentTransactions
  }

  type Key = (Table, int)

  // `owner` is the user_id column; a user row owns itself. A null reference is absent from `refs`.
  datatype Row = Row(owner: int, refs: map<Column, int>, isGuest: bool, expiresAt: Option<int>)

  type Database = map<Key, Row>

  predicate Resolves(db: Database, c: Column, id: int) {
    (Target(c), id) in db
  }

  ghost predicate ForeignKeysHold(db: Database) {
    forall k <- db, c <- db[k].refs :: c in Columns(k.0) && Resolves(db, c, db[k].refs[c])
  }

  /** No row points at another user's row; for the composite keys the database sees to that itself. */
  ghost predicate StaysWithinUsers(db: Database) {
    && (forall k <- db, c <- db[k].refs :: Resolves(db, c, db[k].refs[c]) ==>
        db[(Target(c), db[k].refs[c])].owner == db[k].owner)
    && (forall k <- db :: k.0 == Users ==> db[k].owner == k.1)
  }

  // ----- statements -----

  datatype Filter = All | Linked(column: Column) | Unlinked(column: Column)

  datatype Statement =
    | SetNull(table: Table, column: Column)
    | DeleteFrom(table: Table, filter: Filter)

  predicate Passes(row: Row, filter: Filter) {
    match filter
    case All => true
    case Linked(c) => c in row.refs
    case Unlinked(c) => c !in row.refs
  }

  /** One statement, scoped to one user's rows. */
  function Execute(db: Database, user: int, s: Statement): Database {
    match s
    case SetNull(t, c) =>
      map k | k in db :: if k.0 == t && db[k].owner == user then db[k].(refs := db[k].refs - {c}) else db[k]
    case DeleteFrom(t, filter) =>
      map k | k in db && !(k.0 == t && db[k].owner == user && Passes(db[k], filter)) :: db[k]
  }

  function ExecuteAll(db: Database, user: int, plan: seq<Statement>): Database {
    if plan == [] then db else Execute(ExecuteAll(db, user, Init(plan)), user, Last(plan))
  }

  // ----- when a plan respects the foreign keys -----

  /** After the statement no row the user still has in `t` points through `c`. */
  predicate Clears(s: Statement, t: Table, c: Column) {
    s == SetNull(t, c) || s == DeleteFrom(t, Linked(c)) || Empties(s, t)
  }

  // A delete of the unlinked rows empties the table because no plan may run it before the linked ones are gone.
  predicate Empties(s: Statement, t: Table) {
    s.DeleteFrom? && s.table == t && !s.filter.Linked?
  }

  ghost predicate Cleared(done: seq<Statement>, t: Table, c: Column) {
    exists j :: 0 <= j < |done| && Clears(done[j], t, c)
  }

  /** A table's own references are excused when the statement takes every row that carries them. */
  predicate Excused(s: Statement, t: Table, c: Column) {
    s == DeleteFrom(t, All) || s == DeleteFrom(t, Linked(c))
  }

  /** A delete must come after everything that could point at its rows has been cleared. */
  ghost predicate Allowed(done: seq<Statement>, s: Statement) {
    s.DeleteFrom? ==>
      && (forall t: Table, c: Column :: c in Columns(t) && Target(c) == s.table && !Excused(s, t, c) ==>
          Cleared(done, t, c))
      && (s.filter.Unlinked? ==> Cleared(done, s.table, s.filter.column))
  }

  ghost predicate Topological(plan: seq<Statement>) {
    forall i :: 0 <= i < |plan| ==> Allowed(plan[..i], plan[i])
  }

  ghost predicate Achieved(db: Database, user: int, done: seq<Statement>) {
    && (forall k <- db, j | 0 <= j < |done| && db[k].owner == user :: !Empties(done[j], k.0))
    && (forall k <- db, c <- db[k].refs | db[k].owner == user :: !Cleared(done, k.0, c))
  }

  ghost predicate OthersUntouched(before: Database, after: Database, user: int) {
    && (forall k <- before :: before[k].owner != user ==> k in after && after[k] == before[k])
    && (forall k <- after :: k in before && after[k].owner == before[k].owner)
  }

  lemma DeleteKeepsForeignKeys(db: Database, user: int, done: seq<Statement>, t: Table, filter: Filter)
    requires ForeignKeysHold(db) && StaysWithinUsers(db) && Achieved(db, user, done)
            && Allowed(done, DeleteFrom(t, filter))
    ensures ForeignKeysHold(Execute(db, user, DeleteFrom(t, filter)))
  {
    hide Cleared;
    var after := Execute(db, user, DeleteFrom(t, filter));
    forall k, c | k in after && c in after[k].refs
      ensures c in Columns(k.0) && Resolves(after, c, after[k].refs[c])
    {
      assert Resolves(db, c, db[k].refs[c]);
      var cleared := Cleared(done, k.0, c);
    }
  }

  lemma StatementAchieves(db: Database, user: int, done: seq<Statement>, s: Statement)
    requires Achieved(db, user, done) && Allowed(done, s)
    ensures Achieved(Execute(db, user, s), user, done + [s])
  {
    var after := Execute(db, user, s);
    forall k, c | k in after && c in after[k].refs && after[k].owner == user
      ensures !Cleared(done + [s], k.0, c)
    {
      assert !Cleared(done, k.0, c);
      assert forall j :: 0 <= j < |done| ==> (done + [s])[j] == done[j];
    }
  }

  lemma StatementKeepsForeignKeys(db: Database, user: int, done: seq<Statement>, s: Statement)
    requires ForeignKeysHold(db) && StaysWithinUsers(db) && Achieved(db, user, done) && Allowed(done, s)
    ensures var after := Execute(db, user, s);
            && ForeignKeysHold(after) && StaysWithinUsers(after)
            && Achieved(after, user, done + [s]) && OthersUntouched(db, after, user)
  {
    StatementAchieves(db, user, done, s);
    hide Cleared, Achieved, Allowed;
    if s.DeleteFrom? {
      DeleteKeepsForeignKeys(db, user, done, s.table, s.filter);
    }
  }

  /**
   * Any topological plan, run against a database with intact keys and no references across users,
   * keeps every foreign key after every statement and leaves all other users alone.
   */
  lemma {:induction false} TopologicalPlanIsSafe(db: Database, user: int, plan: seq<Statement>)
    requires ForeignKeysHold(db) && StaysWithinUsers(db) && Topological(plan)
    ensures forall i :: 0 <= i <= |plan| ==> ForeignKeysHold(ExecuteAll(db, user, plan[..i]))
    ensures var after := ExecuteAll(db, user, plan);
            StaysWithinUsers(after) && Achieved(after, user, plan) && OthersUntouched(db, after, user)
  {
    hide Achieved, ForeignKeysHold, StaysWithinUsers, Allowed, Execute, OthersUntouched;
    assert plan[..|plan|] == plan;
    if plan == [] {
      NothingYet(db, user);
    } else {
      var before := Init(plan);
      assert forall i :: 0 <= i <= |before| ==> before[..i] == plan[..i];
      TopologicalPlanIsSafe(db, user, before);
      assert before[..|before|] == before && before + [Last(plan)] == plan;
      StatementKeepsForeignKeys(ExecuteAll(db, user, before), user, before, Last(plan));
      UntouchedTransitive(db, ExecuteAll(db, user, before), ExecuteAll(db, user, plan), user);
      forall i | 0 <= i <= |plan|
        ensures ForeignKeysHold(ExecuteAll(db, user, plan[..i]))
      {
        if i < |plan| {
          assert plan[..i] == before[..i];
        }
      }
    }
  }

  lemma NothingYet(db: Database, user: int)
    ensures Achieved(db, user, []) && OthersUntouched(db, db, user)
  {
  }

  lemma UntouchedTransitive(a: Database, b: Database, c: Database, user: int)
    requires OthersUntouched(a, b, user) && OthersUntouched(b, c, user)
    ensures OthersUntouched(a, c, user)
  {
  }

  // ----- the plan the service runs -----

  const TEARDOWN: seq<Statement> := [
    SetNull(Transactions, TransferPairId),
    SetNull(InvestmentTransactions, PairId),
    SetNull(Accounts, ParentAccountId),
    DeleteFrom(TransactionLabels, All),
    DeleteFrom(MerchantLabelMaps, All),
    DeleteFrom(MerchantTagMaps, All),
    DeleteFrom(MerchantAliases, All),
    DeleteFrom(Transactions, All),
    DeleteFrom(InvestmentTransactions, All),
    DeleteFrom(ImportBatches, All),
    DeleteFrom(Labels, All),
    DeleteFrom(Instruments, All),
    DeleteFrom(Accounts, All),
    DeleteFrom(Categories, Linked(ParentId)),
    DeleteFrom(Categories, Unlinked(ParentId)),
    DeleteFrom(Sessions, All),
    DeleteFrom(Users, All)
  ]

  /** The statement that empties each table of the user's rows. */
  function EmptiedAt(t: Table): nat {
    match t
    case TransactionLabels => 3
    case MerchantLabelMaps => 4
    case MerchantTagMaps => 5
    case MerchantAliases => 6
    case Transactions => 7
    case InvestmentTransactions => 8
    case ImportBatches => 9
    case Labels => 10
    case Instruments => 11
    case Accounts => 12
    case Categories => 14
    case Sessions => 15
    case Users => 16
  }

  lemma TeardownEmptiesEveryTable(t: Table)
    ensures EmptiedAt(t) < |TEARDOWN| && Empties(TEARDOWN[EmptiedAt(t)], t)
    ensures forall i :: 0 <= i < |TEARDOWN| && TEARDOWN[i].DeleteFrom? && TEARDOWN[i].table == t ==>
              i == EmptiedAt(t) || (t == Categories && i == 13)
  {
  }

  lemma TeardownIsTopological()
    ensures Topological(TEARDOWN)
  {
    forall i | 0 <= i < |TEARDOWN| && TEARDOWN[i].DeleteFrom?
      ensures Allowed(TEARDOWN[..i], TEARDOWN[i])
    {
      var s, done := TEARDOWN[i], TEARDOWN[..i];
      TeardownEmptiesEveryTable(s.table);
      forall t: Table, c: Column | c in Columns(t) && Target(c) == s.table && !Excused(s, t, c)
        ensures Cleared(done, t, c)
      {
        TeardownEmptiesEveryTable(t);
        if t == Categories && c == ParentId {
          assert Clears(done[13], t, c);
        } else {
          assert EmptiedAt(t) < i;
          assert Clears(done[EmptiedAt(t)], t, c);
        }
      }
      if s.filter.Unlinked? {
        assert Clears(done[13], Categories, ParentId);
      }
    }
  }

  ghost predicate Sound(db: Database) {
    ForeignKeysHold(db) && StaysWithinUsers(db)
  }

  predicate IsGuest(db: Database, user: int) {
    (Users, user) in db && db[(Users, user)].isGuest
  }

  function Deleted(db: Database, user: int): Database {
    if IsGuest(db, user) then ExecuteAll(db, user, TEARDOWN) else db
  }

  /**
   * Deleting a guest: the keys hold after every single statement, nothing of the guest is left and
   * every row of every other user is as it was. Anyone else is left alone entirely.
   */
  lemma GuestDeletionIsClean(db: Database, user: int)
    requires Sound(db)
    ensures forall i :: 0 <= i <= |TEARDOWN| ==> ForeignKeysHold(ExecuteAll(db, user, TEARDOWN[..i]))
    ensures Sound(Deleted(db, user)) && OthersUntouched(db, Deleted(db, user), user)
    ensures IsGuest(db, user) ==> forall k <- Deleted(db, user) :: Deleted(db, user)[k].owner != user
  {
    hide ExecuteAll, Topological, Achieved, OthersUntouched;
    TeardownIsTopological();
    TopologicalPlanIsSafe(db, user, TEARDOWN);
    assert TEARDOWN[..|TEARDOWN|] == TEARDOWN;
    NothingYet(db, user);
    if IsGuest(db, user) {
      AchievedEmpties(ExecuteAll(db, user, TEARDOWN), user);
    }
  }

  lemma AchievedEmpties(db: Database, user: int)
    requires Achieved(db, user, TEARDOWN)
    ensures forall k <- db :: db[k].owner != user
  {
    hide Cleared;
    forall k | k in db
      ensures db[k].owner != user
    {
      TeardownEmptiesEveryTable(k.0);
    }
  }

  // ----- the service -----

  // What one attempt of the sweep meets: success, or a failure after which the expiry push works or fails too.
  datatype Fate = Succeeds | FailsAndIsPushed | FailsAndSticks

  /** Guests whose sandbox is over. */
  function Expired(db: Database, now: int): set<int> {
    set k | k in db && k.0 == Users && db[k].isGuest && db[k].expiresAt.Some? && db[k].expiresAt.value <= now :: k.1
  }

  /** The user is a guest whose expiry has come. */
  predicate SandboxOver(db: Database, user: int, now: int) {
    var k: Key := (Users, user);
    k in db && db[k].isGuest && (match db[k].expiresAt case Some(at) => at <= now case None => false)
  }

  lemma ExpiredAreOver(db: Database, user: int, now: int)
    ensures user in Expired(db, now) <==> SandboxOver(db, user, now)
  {
    var k: Key := (Users, user);
    if k in db {
      assert k.1 == user;
    }
  }

  /** A sweep takes no one whose sandbox is not over, and leaves their rows as they were. */
  lemma SweptSpares(before: Database, after: Database, now: int, removed: set<int>)
    requires Swept(before, after, Expired(before, now), removed)
    ensures forall u <- removed :: SandboxOver(before, u, now)
    ensures forall k <- before :: !SandboxOver(before, before[k].owner, now) ==> k in after && after[k] == before[k]
  {
    forall u: int {
      ExpiredAreOver(before, u, now);
    }
    hide Expired, SandboxOver;
  }

  lemma ExpiredAfterDelete(db: Database, user: int, now: int)
    requires Sound(db) && IsGuest(db, user)
    ensures Expired(Deleted(db, user), now) == Expired(db, now) - {user}
  {
    hide ExecuteAll;
    var after := Deleted(db, user);
    GuestDeletionIsClean(db, user);
    forall u
      ensures u in Expired(after, now) <==> u in Expired(db, now) && u != user
    {
      var k: Key := (Users, u);
      assert k in db ==> db[k].owner == u;
      assert k in after ==> after[k].owner == u;
    }
  }

  /** A row as a failed attempt may leave it: only a guest's own expiry can have been pushed. */
  predicate Pushed(before: Row, after: Row, table: Table, expired: set<int>) {
    if table == Users && before.owner in expired then after == before.(expiresAt := after.expiresAt)
    else after == before
  }

  /**
   * What a sweep has done so far: the `removed` guests have no row left; every other row is still there,
   * unchanged but for the expiry of guests that had expired.
   */
  ghost predicate Swept(before: Database, after: Database, expired: set<int>, removed: set<int>) {
    && removed <= expired
    && (forall k <- before :: before[k].owner !in removed ==> k in after && Pushed(before[k], after[k], k.0, expired))
    && (forall k <- after :: k in before && after[k].owner == before[k].owner && after[k].owner !in removed)
  }

  /** The guests removed are those whose user row is gone. */
  lemma GoneIsRemoved(before: Database, after: Database, now: int, removed: set<int>)
    requires Sound(before) && Swept(before, after, Expired(before, now), removed)
    ensures removed == set u | u in Expired(before, now) && (Users, u) !in after
  {
    forall u | u in Expired(before, now)
      ensures u in removed <==> (Users, u) !in after
    {
      var k: Key := (Users, u);
      UserOwnsItself(before, u);
      assert k in before && before[k].owner == u;
    }
  }

  lemma UserOwnsItself(db: Database, user: int)
    requires Sound(db) && (Users, user) in db
    ensures db[(Users, user)].owner == user
  {
  }

  lemma Shrinks(before: set<int>, after: set<int>, removed: set<int>, removed': set<int>)
    requires after <= before && after !! removed'
    requires removed <= removed' <= removed + before && |removed| < |removed'|
    ensures |after| < |before|
  {
    var u := SomeElement(removed' - removed);
    SubsetSize(after, before - {u});
  }

  lemma {:induction false} SubsetSize(a: set<int>, b: set<int>)
    requires a <= b
    ensures |a| <= |b|
  {
    if a != {} {
      var u := SomeElement(a);
      SubsetSize(a - {u}, b - {u});
    }
  }

  /** SELECT ... LIMIT n in no particular order. */
  method PickBatch(from: set<int>, n: nat) returns (batch: set<int>)
    ensures batch <= from && |batch| <= n && (n > 0 && from != {} ==> batch != {})
  {
    batch := {};
    var rest := from;
    while |batch| < n && rest != {}
      invariant rest <= from && batch <= from && batch !! rest && |batch| <= n
      invariant rest == from || batch != {}
      decreases rest
    {
      var u := AnyElement(rest);
      batch := batch + {u};
      rest := rest - {u};
    }
  }

  class Service {
    var db: Database

    ghost predicate Valid()
      reads this
    {
      Sound(db)
    }

    constructor (db: Database)
      requires Sound(db)
      ensures Valid() && this.db == db
    {
      this.db := db;
    }

    method DeleteGuestSandbox(user: int)
      requires Valid()
      modifies this
      ensures Valid() && db == Deleted(old(db), user)
    {
      GuestDeletionIsClean(db, user);
      if (Users, user) in db && db[(Users, user)].isGuest {
        for i := 0 to |TEARDOWN|
          invariant db == ExecuteAll(old(db), user, TEARDOWN[..i])
          invariant ForeignKeysHold(db)
        {
          assert Init(TEARDOWN[..i + 1]) == TEARDOWN[..i];
          db := Execute(db, user, TEARDOWN[i]);
        }
        assert TEARDOWN[..|TEARDOWN|] == TEARDOWN;
      }
    }

    /** The recovery of a failed deletion moves the guest out of the expired set. */
    method PushExpiry(user: int, now: int)
      requires Valid() && IsGuest(db, user)
      modifies this
      ensures Valid() && Expired(db, now) == Expired(old(db), now) - {user}
      ensures db == old(db)[(Users, user) := old(db)[(Users, user)].(expiresAt := Some(now + 3600))]
    {
      db := db[(Users, user) := db[(Users, user)].(expiresAt := Some(now + 3600))];
      forall u
        ensures u in Expired(db, now) <==> u in Expired(old(db), now) && u != user
      {
        var k: Key := (Users, u);
        assert k in db <==> k in old(db);
      }
    }

    /** One attempt: a failure rolls the deletion back before the push, and changes nothing when that fails too. */
    method Attempt(user: int, now: int, fate: Fate, ghost before: Database, ghost expired: set<int>,
        ghost removed: set<int>)
      requires Valid() && user in Expired(db, now) && user in expired && Swept(before, db, expired, removed)
      modifies this
      ensures Valid() && Swept(before, db, expired, if fate.Succeeds? then removed + {user} else removed)
      ensures Expired(db, now) == if fate.FailsAndSticks? then Expired(old(db), now) else Expired(old(db), now) - {user}
      ensures db == match fate
                    case Succeeds => Deleted(old(db), user)
                    case FailsAndIsPushed =>
                      old(db)[(Users, user) := old(db)[(Users, user)].(expiresAt := Some(now + 3600))]
                    case FailsAndSticks => old(db)
    {
      hide Sound, ExecuteAll;
      match fate {
        case Succeeds =>
          ExpiredAfterDelete(db, user, now);
          GuestDeletionIsClean(db, user);
          DeleteGuestSandbox(user);
        case FailsAndIsPushed =>
          assert db[(Users, user)].owner == user by { UserOwnsItself(db, user); }
          PushExpiry(user, now);
        case FailsAndSticks =>
      }
    }

    method SweepBatch(batch: set<int>, now: int, fate: int -> Fate, ghost before: Database, ghost expired: set<int>,
        ghost removed: set<int>)
      returns (cleaned: nat, ghost removed': set<int>)
      requires Valid() && batch <= Expired(db, now) <= expired && Expired(db, now) !! removed
      requires Swept(before, db, expired, removed)
      modifies this
      ensures Valid() && Swept(before, db, expired, removed')
      ensures removed <= removed' <= removed + batch && cleaned == |removed'| - |removed|
      ensures Expired(db, now) <= Expired(old(db), now) && Expired(db, now) !! removed'
      ensures cleaned == 0 ==> forall u <- batch :: !fate(u).Succeeds?
    {
      hide Swept, Sound, Expired;
      cleaned, removed' := 0, removed;
      var todo := batch;
      while todo != {}
        invariant Valid() && Swept(before, db, expired, removed')
        invariant todo <= batch && todo <= Expired(db, now) <= Expired(old(db), now)
        invariant Expired(db, now) !! removed'
        invariant removed <= removed' <= removed + batch && cleaned == |removed'| - |removed|
        invariant cleaned == 0 ==> forall u <- batch :: u in todo || !fate(u).Succeeds?
      {
        var u := AnyElement(todo);
        Attempt(u, now, fate(u), before, expired, removed');
        if fate(u).Succeeds? {
          cleaned := cleaned + 1;
          removed' := removed' + {u};
        }
        todo := todo - {u};
      }
    }

    /**
     * Sweeps expired guests in batches. It ends with none left, or on a batch in which every deletion
     * failed. The guests counted are exactly those that are gone; of everyone else every row is still
     * there, unchanged but for a pushed expiry of guests that had expired.
     */
    method CleanupExpiredGuests(now: int, batchSize: nat, fate: (nat, int) -> Fate)
      returns (cleaned: nat, ghost removed: set<int>, ghost rounds: nat, ghost lastBatch: set<int>)
      requires Valid()
      modifies this
      ensures Valid() && cleaned == |removed| && Swept(old(db), db, Expired(old(db), now), removed)
      ensures removed == set u | u in Expired(old(db), now) && (Users, u) !in db
      ensures Expired(db, now) <= Expired(old(db), now) - removed
      ensures forall u <- removed :: SandboxOver(old(db), u, now)
      ensures forall k <- old(db) :: !SandboxOver(old(db), old(db)[k].owner, now) ==>
                k in db && db[k] == old(db)[k]
      ensures batchSize > 0 ==>
                Expired(db, now) == {} || (lastBatch != {} && forall u <- lastBatch :: !fate(rounds, u).Succeeds?)
    {
      ghost var expired := Expired(db, now);
      cleaned, removed, rounds, lastBatch := 0, {}, 0, {};
      var round: nat := 0;
      while true
        invariant Valid() && cleaned == |removed| && Swept(old(db), db, expired, removed)
        invariant Expired(db, now) <= expired && Expired(db, now) !! removed
        decreases |Expired(db, now)|
      {
        var batch := PickBatch(Expired(db, now), batchSize);
        rounds, lastBatch := round, batch;
        if batch == {} {
          break;
        }
        ghost var open := Expired(db, now);
        ghost var removedBefore := removed;
        var batchCleaned;
        batchCleaned, removed := SweepBatch(batch, now, u => fate(round, u), old(db), expired, removed);
        cleaned := cleaned + batchCleaned;
        if batchCleaned == 0 {
          break;
        }
        Shrinks(open, Expired(db, now), removedBefore, removed);
        round := round + 1;
      }
      GoneIsRemoved(old(db), db, now, removed);
      SweptSpares(old(db), db, now, removed);
    }
  }
}
