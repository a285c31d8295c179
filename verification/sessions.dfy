/**
 * The refresh-token lifecycle as a protocol: requests read and decide in one step and write in a
 * later one, writes are serialised, and any other request may run in between.
 */
module RefreshSessions {
  import opened Sequences

  // A token is named by the position of its row. `parent` and `checkedAt` are not columns: they record
  // which token a row was rotated from and when that rotation passed its checks.
  datatype Session = Session(
    user: int, family: int, createdAt: int, expiresAt: int, revokedAt: Option<int>,
    parent: Option<nat>, checkedAt: int)

  // `guestExpiry` holds the users whose sandbox expires.
  datatype Config = Config(refreshTtl: nat, absoluteCap: nat, guestExpiry: map<int, int>)

  // What a request has decided to write.
  datatype Intent = RevokeFamily(family: int) | RevokeRow(token: nat) | Rotate(token: nat, checkedAt: int)

  datatype System = System(rows: seq<Session>, now: int, pending: map<int, Intent>)

  predicate Live(r: Session) {
    r.revokedAt.None?
  }

  // ----- reads -----

  /** MIN(created_at) over a family, as the cap check reads it. */
  function Origin(rows: seq<Session>, family: int): Option<int> {
    if rows == [] then None
    else
      var rest, r := Origin(Init(rows), family), Last(rows);
      if r.family == family && (rest.None? || r.createdAt < rest.value) then Some(r.createdAt) else rest
  }

  /** The checks of a rotation, in order; every one of them ends in a write. */
  function Decide(cfg: Config, rows: seq<Session>, now: int, token: nat): Intent
    requires token < |rows|
  {
    var r := rows[token];
    var origin := Origin(rows, r.family);
    if !Live(r) then RevokeFamily(r.family)
    else if r.expiresAt <= now then RevokeRow(token)
    else if origin.Some? && now - origin.value >= cfg.absoluteCap then RevokeFamily(r.family)
    else if r.user in cfg.guestExpiry && now >= cfg.guestExpiry[r.user] then RevokeFamily(r.family)
    else Rotate(token, now)
  }

  // ----- writes -----

  function Revoked(r: Session, now: int): Session {
    r.(revokedAt := Some(now))
  }

  /** UPDATE ... SET revoked_at WHERE family_id = f AND revoked_at IS NULL. */
  function FamilyRevoked(rows: seq<Session>, family: int, now: int): (r: seq<Session>)
    ensures |r| == |rows|
  {
    seq(|rows|, i requires 0 <= i < |rows| =>
      if rows[i].family == family && Live(rows[i]) then Revoked(rows[i], now) else rows[i])
  }

  function UserRevoked(rows: seq<Session>, user: int, now: int): (r: seq<Session>)
    ensures |r| == |rows|
  {
    seq(|rows|, i requires 0 <= i < |rows| =>
      if rows[i].user == user && Live(rows[i]) then Revoked(rows[i], now) else rows[i])
  }

  function Issued(cfg: Config, user: int, family: int, now: int, parent: Option<nat>, checkedAt: int): Session {
    Session(user, family, now, now + cfg.refreshTtl, None, parent, checkedAt)
  }

  /** The write transaction of a decided request. A rotation whose token is no longer live rolls back. */
  function Written(cfg: Config, rows: seq<Session>, now: int, intent: Intent): seq<Session> {
    match intent
    case RevokeFamily(family) => FamilyRevoked(rows, family, now)
    case RevokeRow(token) => if token < |rows| then rows[token := Revoked(rows[token], now)] else rows
    case Rotate(token, checkedAt) =>
      if token < |rows| && Live(rows[token]) then
        rows[token := Revoked(rows[token], now)]
        + [Issued(cfg, rows[token].user, rows[token].family, now, Some(token), checkedAt)]
      else rows
  }

  predicate FamilyUsed(rows: seq<Session>, family: int) {
    exists r <- rows :: r.family == family
  }

  // ----- steps -----

  datatype Step =
    | Tick(time: int)
    | Login(user: int, family: int)
    | ReadRotate(request: int, token: nat)
    | ReadLogout(request: int, token: nat)
    | Commit(request: int)
    | Abandon(request: int)
    | ChangePassword(user: int, family: int)

  /** A step that does not apply (an unknown token, a family id already drawn) changes nothing. */
  function Next(cfg: Config, s: System, step: Step): System {
    match step
    case Tick(time) => if time >= s.now then s.(now := time) else s
    case Login(user, family) =>
      if FamilyUsed(s.rows, family) then s
      else s.(rows := s.rows + [Issued(cfg, user, family, s.now, None, s.now)])
    case ReadRotate(request, token) =>
      if token >= |s.rows| then s else s.(pending := s.pending[request := Decide(cfg, s.rows, s.now, token)])
    case ReadLogout(request, token) =>
      if token >= |s.rows| || !Live(s.rows[token]) then s else s.(pending := s.pending[request := RevokeRow(token)])
    case Commit(request) =>
      if request !in s.pending then s
      else s.(rows := Written(cfg, s.rows, s.now, s.pending[request]), pending := s.pending - {request})
    case Abandon(request) => s.(pending := s.pending - {request})
    case ChangePassword(user, family) =>
      if FamilyUsed(s.rows, family) then s
      else s.(rows := UserRevoked(s.rows, user, s.now) + [Issued(cfg, user, family, s.now, None, s.now)])
  }

  predicate Involves(step: Step, request: int) {
    match step
    case ReadRotate(q, _) => q == request
    case ReadLogout(q, _) => q == request
    case Commit(q) => q == request
    case Abandon(q) => q == request
    case _ => false
  }

  function Run(cfg: Config, s: System, steps: seq<Step>): System {
    if steps == [] then s else Next(cfg, Run(cfg, s, Init(steps)), Last(steps))
  }

  function Start(now: int): System {
    System([], now, map[])
  }

  // ----- what every reachable state satisfies -----

  ghost predicate OneLivePerFamily(rows: seq<Session>) {
    forall i, j :: 0 <= i < j < |rows| && rows[i].family == rows[j].family ==> !Live(rows[i]) || !Live(rows[j])
  }

  /** A row with a parent was rotated from an earlier, now dead row of the same family and user. */
  ghost predicate Lineage(rows: seq<Session>) {
    && (forall i :: 0 <= i < |rows| && rows[i].parent.Some? ==>
          var p := rows[i].parent.value;
          p < i && !Live(rows[p]) && rows[p].family == rows[i].family && rows[p].user == rows[i].user)
    && (forall i, j :: 0 <= i < j < |rows| && rows[i].parent.Some? ==> rows[i].parent != rows[j].parent)
    && (forall i, j :: 0 <= i < j < |rows| && rows[i].family == rows[j].family ==> rows[j].parent.Some?)
  }

  ghost predicate CreatedInOrder(rows: seq<Session>, now: int) {
    && (forall i, j :: 0 <= i < j < |rows| ==> rows[i].createdAt <= rows[j].createdAt)
    && (forall i :: 0 <= i < |rows| ==> rows[i].createdAt <= now)
  }

  /** Every rotation, done or decided, passed its checks before the family's origin plus the cap. */
  ghost predicate WithinCap(cfg: Config, s: System) {
    && (forall i :: 0 <= i < |s.rows| && s.rows[i].parent.Some? ==>
          CheckedWithinCap(cfg, s.rows, s.rows[i].family, s.rows[i].checkedAt))
    && (forall q <- s.pending :: s.pending[q].Rotate? ==>
          && s.pending[q].token < |s.rows|
          && CheckedWithinCap(cfg, s.rows, s.rows[s.pending[q].token].family, s.pending[q].checkedAt))
  }

  predicate CheckedWithinCap(cfg: Config, rows: seq<Session>, family: int, checkedAt: int) {
    Origin(rows, family).Some? && checkedAt < Origin(rows, family).value + cfg.absoluteCap
  }

  ghost predicate Invariant(cfg: Config, s: System) {
    OneLivePerFamily(s.rows) && Lineage(s.rows) && CreatedInOrder(s.rows, s.now) && WithinCap(cfg, s)
  }

  // ----- the family's origin -----

  /** What every write leaves alone: the identity and creation time of the rows already there. */
  ghost predicate SamePast(rows: seq<Session>, after: seq<Session>) {
    && |rows| <= |after|
    && forall i :: 0 <= i < |rows| ==>
         && after[i].family == rows[i].family && after[i].user == rows[i].user
         && after[i].createdAt == rows[i].createdAt
         && after[i].parent == rows[i].parent && after[i].checkedAt == rows[i].checkedAt
         && (Live(after[i]) ==> Live(rows[i]))
  }

  lemma {:induction false} OriginOfPast(rows: seq<Session>, after: seq<Session>, family: int)
    requires SamePast(rows, after) && |rows| == |after|
    ensures Origin(after, family) == Origin(rows, family)
  {
    if rows != [] {
      OriginOfPast(Init(rows), Init(after), family);
    }
  }

  lemma {:induction false} OriginIsMinimum(rows: seq<Session>, family: int)
    ensures Origin(rows, family).Some? <==> FamilyUsed(rows, family)
    ensures forall r <- rows :: r.family == family ==>
              Origin(rows, family).Some? && Origin(rows, family).value <= r.createdAt
    ensures Origin(rows, family).Some? ==>
              exists r <- rows :: r.family == family && r.createdAt == Origin(rows, family).value
  {
    if rows != [] {
      InitLast(rows);
      OriginIsMinimum(Init(rows), family);
    }
  }

  lemma OriginIsFirst(rows: seq<Session>, now: int, i: nat)
    requires CreatedInOrder(rows, now) && i < |rows|
    requires forall j :: 0 <= j < i ==> rows[j].family != rows[i].family
    ensures Origin(rows, rows[i].family) == Some(rows[i].createdAt)
  {
    hide Origin;
    var family := rows[i].family;
    OriginIsMinimum(rows, family);
    assert rows[i] in rows;
    var j :| 0 <= j < |rows| && rows[j].family == family && rows[j].createdAt == Origin(rows, family).value;
  }

  /** MIN(created_at) is always the login time: the creation time of the one row issued without a parent. */
  lemma OriginIsLogin(rows: seq<Session>, now: int, i: nat)
    requires Lineage(rows) && CreatedInOrder(rows, now)
    requires i < |rows| && rows[i].parent.None?
    ensures Origin(rows, rows[i].family) == Some(rows[i].createdAt)
  {
    hide Origin, CreatedInOrder;
    OriginIsFirst(rows, now, i);
  }

  lemma OriginAfterAppend(rows: seq<Session>, r: Session, now: int, family: int)
    requires CreatedInOrder(rows, now) && r.createdAt == now
    ensures Origin(rows, family).Some? ==> Origin(rows + [r], family) == Origin(rows, family)
  {
    assert Init(rows + [r]) == rows;
    OriginIsMinimum(rows, family);
  }

  // ----- each write keeps the invariant -----

  lemma RevokingKeeps(rows: seq<Session>, after: seq<Session>, now: int)
    requires OneLivePerFamily(rows) && Lineage(rows) && CreatedInOrder(rows, now)
    requires SamePast(rows, after) && |after| == |rows|
    ensures OneLivePerFamily(after) && Lineage(after) && CreatedInOrder(after, now)
  {
  }

  lemma FreshFamilyKeepsLineage(rows: seq<Session>, r: Session)
    requires OneLivePerFamily(rows) && Lineage(rows)
    requires (forall i :: 0 <= i < |rows| ==> rows[i].family != r.family) && r.parent.None?
    ensures OneLivePerFamily(rows + [r]) && Lineage(rows + [r])
  {
  }

  lemma FreshFamilyKeeps(rows: seq<Session>, r: Session, now: int)
    requires OneLivePerFamily(rows) && Lineage(rows) && CreatedInOrder(rows, now)
    requires !FamilyUsed(rows, r.family) && r.parent.None? && r.createdAt == now
    ensures OneLivePerFamily(rows + [r]) && Lineage(rows + [r]) && CreatedInOrder(rows + [r], now)
  {
    hide Lineage, OneLivePerFamily;
    assert forall i :: 0 <= i < |rows| ==> rows[i] in rows;
    FreshFamilyKeepsLineage(rows, r);
  }

  lemma SuccessorKeeps(rows: seq<Session>, token: nat, r: Session, now: int)
    requires OneLivePerFamily(rows) && Lineage(rows) && CreatedInOrder(rows, now)
    requires token < |rows| && Live(rows[token]) && r.parent == Some(token)
    requires r.family == rows[token].family && r.user == rows[token].user && r.createdAt == now
    ensures var after := rows[token := Revoked(rows[token], now)] + [r];
            OneLivePerFamily(after) && Lineage(after) && CreatedInOrder(after, now)
  {
    RevokingKeeps(rows, rows[token := Revoked(rows[token], now)], now);
  }

  lemma CheckedSurvives(cfg: Config, rows: seq<Session>, after: seq<Session>, now: int, family: int, checkedAt: int)
    requires CreatedInOrder(rows, now) && SamePast(rows, after)
    requires |after| == |rows| || (|after| == |rows| + 1 && Last(after).createdAt == now)
    requires CheckedWithinCap(cfg, rows, family, checkedAt)
    ensures CheckedWithinCap(cfg, after, family, checkedAt)
  {
    if |after| == |rows| {
      OriginOfPast(rows, after, family);
    } else {
      var old' := Init(after);
      InitLast(after);
      assert SamePast(rows, old');
      OriginOfPast(rows, old', family);
      OriginAfterAppend(old', Last(after), now, family);
    }
  }

  lemma WrittenKeepsPast(cfg: Config, rows: seq<Session>, now: int, intent: Intent)
    ensures SamePast(rows, Written(cfg, rows, now, intent))
  {
  }

  lemma CommitKeeps(cfg: Config, s: System, request: int)
    requires Invariant(cfg, s) && request in s.pending
    ensures Invariant(cfg, Next(cfg, s, Commit(request)))
  {
    hide Lineage, OneLivePerFamily, CreatedInOrder, Origin;
    var intent := s.pending[request];
    var after := Written(cfg, s.rows, s.now, intent);
    WrittenKeepsPast(cfg, s.rows, s.now, intent);
    if intent.Rotate? && Live(s.rows[intent.token]) {
      SuccessorKeeps(s.rows, intent.token, Last(after), s.now);
    } else {
      RevokingKeeps(s.rows, after, s.now);
    }
    CapSurvives(cfg, s, Next(cfg, s, Commit(request)));
  }

  /** The cap bound moves to any later state that appends at most one row, checked in time if rotated. */
  lemma CapSurvives(cfg: Config, s: System, t: System)
    requires CreatedInOrder(s.rows, s.now) && WithinCap(cfg, s) && SamePast(s.rows, t.rows)
    requires |t.rows| == |s.rows| || (|t.rows| == |s.rows| + 1 && Last(t.rows).createdAt == s.now)
    requires |t.rows| > |s.rows| && Last(t.rows).parent.Some? ==>
               CheckedWithinCap(cfg, s.rows, Last(t.rows).family, Last(t.rows).checkedAt)
    requires forall q <- t.pending :: q in s.pending && t.pending[q] == s.pending[q]
    ensures WithinCap(cfg, t)
  {
    forall i | 0 <= i < |t.rows| && t.rows[i].parent.Some?
      ensures CheckedWithinCap(cfg, t.rows, t.rows[i].family, t.rows[i].checkedAt)
    {
      CheckedSurvives(cfg, s.rows, t.rows, s.now, t.rows[i].family, t.rows[i].checkedAt);
    }
    forall q | q in t.pending && t.pending[q].Rotate?
      ensures && t.pending[q].token < |t.rows|
              && CheckedWithinCap(cfg, t.rows, t.rows[t.pending[q].token].family, t.pending[q].checkedAt)
    {
      var token := s.pending[q].token;
      CheckedSurvives(cfg, s.rows, t.rows, s.now, s.rows[token].family, s.pending[q].checkedAt);
    }
  }

  lemma ChangePasswordKeeps(cfg: Config, s: System, user: int, family: int)
    requires Invariant(cfg, s) && !FamilyUsed(s.rows, family)
    ensures Invariant(cfg, Next(cfg, s, ChangePassword(user, family)))
  {
    var revoked := UserRevoked(s.rows, user, s.now);
    RevokingKeeps(s.rows, revoked, s.now);
    assert !FamilyUsed(revoked, family) by {
      assert forall i :: 0 <= i < |revoked| ==> revoked[i].family == s.rows[i].family && s.rows[i] in s.rows;
    }
    var t := Next(cfg, s, ChangePassword(user, family));
    FreshFamilyKeeps(revoked, Last(t.rows), s.now);
    CapSurvives(cfg, s, t);
  }

  lemma ReadKeeps(cfg: Config, s: System, request: int, token: nat)
    requires Invariant(cfg, s) && token < |s.rows|
    ensures Invariant(cfg, Next(cfg, s, ReadRotate(request, token)))
  {
    OriginIsMinimum(s.rows, s.rows[token].family);
    assert s.rows[token] in s.rows;
  }

  lemma StepKeepsInvariant(cfg: Config, s: System, step: Step)
    requires Invariant(cfg, s)
    ensures Invariant(cfg, Next(cfg, s, step))
  {
    match step
    case Tick(time) =>
    case Login(user, family) =>
      if !FamilyUsed(s.rows, family) {
        var t := Next(cfg, s, step);
        FreshFamilyKeeps(s.rows, Last(t.rows), s.now);
        CapSurvives(cfg, s, t);
      }
    case ReadRotate(request, token) =>
      if token < |s.rows| {
        ReadKeeps(cfg, s, request, token);
      }
    case ReadLogout(request, token) =>
    case Commit(request) =>
      if request in s.pending {
        CommitKeeps(cfg, s, request);
      }
    case Abandon(request) =>
    case ChangePassword(user, family) =>
      if !FamilyUsed(s.rows, family) {
        ChangePasswordKeeps(cfg, s, user, family);
      }
  }

  lemma {:induction false} RunKeepsInvariant(cfg: Config, s: System, steps: seq<Step>)
    requires Invariant(cfg, s)
    ensures Invariant(cfg, Run(cfg, s, steps))
  {
    if steps != [] {
      RunKeepsInvariant(cfg, s, Init(steps));
      StepKeepsInvariant(cfg, Run(cfg, s, Init(steps)), Last(steps));
    }
  }

  // ----- the promises, for every interleaving -----

  /** Single use: a family has at most one live token and a token at most one successor. */
  lemma TokensAreSingleUse(cfg: Config, now: int, steps: seq<Step>)
    ensures var rows := Run(cfg, Start(now), steps).rows;
            && (forall i, j :: 0 <= i < j < |rows| && rows[i].family == rows[j].family ==>
            !(Live(rows[i]) && Live(rows[j])))
            && (forall i, j :: 0 <= i < j < |rows| && rows[i].parent.Some? ==> rows[i].parent != rows[j].parent)
  {
    RunKeepsInvariant(cfg, Start(now), steps);
  }

  /**
   * No rotation whose checks ran at or after login plus the cap ever issues a token, however often the
   * family was refreshed before.
   */
  lemma NoRotationBeyondCap(cfg: Config, now: int, steps: seq<Step>)
    ensures var rows := Run(cfg, Start(now), steps).rows;
            forall login, i :: 0 <= login < |rows| && rows[login].parent.None? && 0 <= i < |rows|
                               && rows[i].family == rows[login].family && rows[i].parent.Some? ==>
              rows[i].checkedAt < rows[login].createdAt + cfg.absoluteCap
  {
    var s := Run(cfg, Start(now), steps);
    RunKeepsInvariant(cfg, Start(now), steps);
    forall login | 0 <= login < |s.rows| && s.rows[login].parent.None?
      ensures Origin(s.rows, s.rows[login].family) == Some(s.rows[login].createdAt)
    {
      OriginIsLogin(s.rows, s.now, login);
    }
  }

  ghost predicate Dead(rows: seq<Session>, family: int) {
    FamilyUsed(rows, family) && forall r <- rows :: r.family == family ==> !Live(r)
  }

  lemma DeadAfterStep(cfg: Config, s: System, step: Step, family: int)
    requires Dead(s.rows, family)
    ensures Dead(Next(cfg, s, step).rows, family)
  {
    var after := Next(cfg, s, step).rows;
    var k :| 0 <= k < |s.rows| && s.rows[k].family == family;
    assert SamePast(s.rows, after);
    assert after[k] in after;
    forall i | 0 <= i < |after| && after[i].family == family
      ensures !Live(after[i])
    {
      if i < |s.rows| {
        assert s.rows[i] in s.rows;
      }
    }
  }

  /** A family with no live token (reuse, logout, expiry, cap) never has one again. */
  lemma {:induction false} DeadFamiliesStayDead(cfg: Config, s: System, steps: seq<Step>, family: int)
    requires Dead(s.rows, family)
    ensures Dead(Run(cfg, s, steps).rows, family)
  {
    if steps != [] {
      DeadFamiliesStayDead(cfg, s, Init(steps), family);
      DeadAfterStep(cfg, Run(cfg, s, Init(steps)), Last(steps), family);
    }
  }

  /** Presenting a dead token kills its whole family, whatever commits between the read and the write. */
  lemma ReuseKillsFamily(cfg: Config, s: System, request: int, token: nat, between: seq<Step>)
    requires token < |s.rows| && !Live(s.rows[token])
    requires forall step <- between :: !Involves(step, request)
    ensures var read := Next(cfg, s, ReadRotate(request, token));
            Dead(Next(cfg, Run(cfg, read, between), Commit(request)).rows, s.rows[token].family)
  {
    var read := Next(cfg, s, ReadRotate(request, token));
    var later := Run(cfg, read, between);
    PendingSurvives(cfg, read, between, request);
    RunKeepsPast(cfg, read, between);
    var after := Next(cfg, later, Commit(request)).rows;
    assert after == FamilyRevoked(later.rows, s.rows[token].family, later.now);
    assert after[token] in after && after[token].family == s.rows[token].family;
  }

  lemma {:induction false} PendingSurvives(cfg: Config, s: System, steps: seq<Step>, request: int)
    requires request in s.pending
    requires forall step <- steps :: !Involves(step, request)
    ensures var t := Run(cfg, s, steps);
            request in t.pending && t.pending[request] == s.pending[request]
  {
    if steps != [] {
      InitLast(steps);
      assert Last(steps) in steps;
      PendingSurvives(cfg, s, Init(steps), request);
    }
  }

  lemma {:induction false} RunKeepsPast(cfg: Config, s: System, steps: seq<Step>)
    ensures SamePast(s.rows, Run(cfg, s, steps).rows)
  {
    hide Next, SamePast;
    if steps == [] {
      PastOfItself(s.rows);
    } else {
      var before := Run(cfg, s, Init(steps));
      RunKeepsPast(cfg, s, Init(steps));
      StepKeepsPast(cfg, before, Last(steps));
      PastOfPast(s.rows, before.rows, Run(cfg, s, steps).rows);
    }
  }

  lemma PastOfItself(rows: seq<Session>)
    ensures SamePast(rows, rows)
  {
  }

  lemma StepKeepsPast(cfg: Config, s: System, step: Step)
    ensures SamePast(s.rows, Next(cfg, s, step).rows)
  {
  }

  lemma PastOfPast(a: seq<Session>, b: seq<Session>, c: seq<Session>)
    requires SamePast(a, b) && SamePast(b, c)
    ensures SamePast(a, c)
  {
  }

  /**
   * Two requests that both read one token as live: whichever writes second issues nothing, whatever commits
   * between the two writes, so a double submit yields one successor.
   */
  lemma SecondRotationRollsBack(
    cfg: Config, s: System, a: int, b: int, token: nat, checkedA: int, checkedB: int, between: seq<Step>)
    requires a != b && a in s.pending && b in s.pending && token < |s.rows|
    requires s.pending[a] == Rotate(token, checkedA) && s.pending[b] == Rotate(token, checkedB)
    requires forall step <- between :: !Involves(step, b)
    ensures var later := Run(cfg, Next(cfg, s, Commit(a)), between);
            Next(cfg, later, Commit(b)).rows == later.rows
  {
    var first := Next(cfg, s, Commit(a));
    assert !Live(first.rows[token]);
    PendingSurvives(cfg, first, between, b);
    RunKeepsPast(cfg, first, between);
  }

  lemma {:induction false} FamilyHasOneUser(rows: seq<Session>, i: nat, j: nat)
    requires Lineage(rows) && i < |rows| && j < |rows| && rows[i].family == rows[j].family
    ensures rows[i].user == rows[j].user
    decreases i + j
  {
    if i < j {
      FamilyHasOneUser(rows, i, rows[j].parent.value);
    } else if j < i {
      FamilyHasOneUser(rows, rows[i].parent.value, j);
    }
  }

  /**
   * A password change ends every session the user had: whatever is read, written or rotated afterwards, no
   * family the user had a token in ever has a live one again.
   */
  lemma PasswordChangeEndsSessions(cfg: Config, s: System, user: int, family: int, later: seq<Step>, i: nat)
    requires Invariant(cfg, s) && !FamilyUsed(s.rows, family) && i < |s.rows| && s.rows[i].user == user
    ensures Dead(Run(cfg, Next(cfg, s, ChangePassword(user, family)), later).rows, s.rows[i].family)
  {
    var changed := Next(cfg, s, ChangePassword(user, family));
    assert s.rows[i] in s.rows && changed.rows[i] in changed.rows;
    forall j | 0 <= j < |changed.rows| && changed.rows[j].family == s.rows[i].family
      ensures !Live(changed.rows[j])
    {
      assert s.rows[i].family != family;
      FamilyHasOneUser(s.rows, i, j);
    }
    DeadFamiliesStayDead(cfg, changed, later, s.rows[i].family);
  }

  /** A logout kills the family exactly when its token is still the live one as the write lands. */
  lemma LogoutKillsIffStillLive(cfg: Config, s: System, request: int, token: nat)
    requires Invariant(cfg, s) && token < |s.rows|
    requires request in s.pending && s.pending[request] == RevokeRow(token)
    ensures var family := s.rows[token].family;
            Dead(Next(cfg, s, Commit(request)).rows, family) <==> Live(s.rows[token]) || Dead(s.rows, family)
  {
    var family, after := s.rows[token].family, Next(cfg, s, Commit(request)).rows;
    assert s.rows[token] in s.rows && after[token] in after;
    if !Live(s.rows[token]) && !Dead(s.rows, family) {
      var i :| 0 <= i < |s.rows| && s.rows[i].family == family && Live(s.rows[i]);
      assert after[i] in after;
    }
  }

  /**
   * An undisturbed refresh: the family stays alive exactly when the token presented was live, not
   * expired, within the cap counted from the login, and its user's sandbox not over.
   */
  lemma UndisturbedRefresh(cfg: Config, s: System, request: int, login: nat, token: nat)
    requires Invariant(cfg, s) && login < |s.rows| && token < |s.rows|
    requires s.rows[login].parent.None? && s.rows[login].family == s.rows[token].family
    ensures var r := s.rows[token];
            var after := Next(cfg, Next(cfg, s, ReadRotate(request, token)), Commit(request)).rows;
            && !Live(after[token])
            && (!Dead(after, r.family) <==>
                && Live(r) && s.now < r.expiresAt && s.now < s.rows[login].createdAt + cfg.absoluteCap
                && !(r.user in cfg.guestExpiry && s.now >= cfg.guestExpiry[r.user]))
  {
    hide Origin, Lineage, CreatedInOrder, WithinCap;
    var r := s.rows[token];
    OriginIsLogin(s.rows, s.now, login);
    var intent := Decide(cfg, s.rows, s.now, token);
    var after := Next(cfg, Next(cfg, s, ReadRotate(request, token)), Commit(request)).rows;
    assert after == Written(cfg, s.rows, s.now, intent);
    assert after[token] in after && after[token].family == r.family;
    if intent.Rotate? {
      assert Last(after) in after && Live(Last(after));
    }
  }

  // ----- what is left alone -----

  /** The family a decided write is about: for a reuse, the cap or an expiry that of the token presented. */
  function Concerned(rows: seq<Session>, intent: Intent): Option<int> {
    match intent
    case RevokeFamily(family) => Some(family)
    case RevokeRow(token) => if token < |rows| then Some(rows[token].family) else None
    case Rotate(token, _) => if token < |rows| then Some(rows[token].family) else None
  }

  lemma ReadConcernsPresented(cfg: Config, s: System, request: int, token: nat)
    requires token < |s.rows|
    ensures Concerned(s.rows, Decide(cfg, s.rows, s.now, token)) == Some(s.rows[token].family)
  {
  }

  /**
   * A write touches the family it is about and no other: every row of another family is as it was, a row already
   * dead keeps the time it died at unless a request had read it as live, and what revokes one row revokes no other.
   */
  lemma CommitSparesOthers(cfg: Config, s: System, request: int, i: nat)
    requires request in s.pending && i < |s.rows|
    ensures var after, intent := Next(cfg, s, Commit(request)).rows, s.pending[request];
            && i < |after|
            && (Concerned(s.rows, intent) != Some(s.rows[i].family) ==> after[i] == s.rows[i])
            && (!Live(s.rows[i]) && !intent.RevokeRow? ==> after[i] == s.rows[i])
            && (intent.RevokeRow? && intent.token != i ==> after[i] == s.rows[i])
            && (Live(s.rows[i]) && !Live(after[i]) ==> after[i] == s.rows[i].(revokedAt := Some(s.now)))
  {
  }

  /** A password change touches the user's own rows and no one else's, and issues one live token of that user. */
  lemma PasswordChangeSparesOthers(cfg: Config, s: System, user: int, family: int, i: nat)
    requires !FamilyUsed(s.rows, family) && i < |s.rows|
    ensures var after := Next(cfg, s, ChangePassword(user, family)).rows;
            && |after| == |s.rows| + 1 && IsIssued(cfg, after[|s.rows|], user, family, s.now)
            && (s.rows[i].user != user || !Live(s.rows[i]) ==> after[i] == s.rows[i])
            && (s.rows[i].user == user ==> !Live(after[i]))
  {
  }

  /** A token as it is handed out: live, of this user and family, good for one lifetime. */
  predicate IsIssued(cfg: Config, r: Session, user: int, family: int, now: int) {
    Live(r) && r.user == user && r.family == family && r.createdAt == now && r.expiresAt == now + cfg.refreshTtl
  }

  /** An expired token dies alone: whatever commits in between, its request revokes that row and leaves its family. */
  lemma ExpiredTokenDiesAlone(cfg: Config, s: System, request: int, token: nat, between: seq<Step>)
    requires token < |s.rows| && Live(s.rows[token]) && s.rows[token].expiresAt <= s.now
    requires forall step <- between :: !Involves(step, request)
    ensures var later := Run(cfg, Next(cfg, s, ReadRotate(request, token)), between);
            var after := Next(cfg, later, Commit(request)).rows;
            && |after| == |later.rows| && token < |after| && !Live(after[token])
            && forall i :: 0 <= i < |after| && i != token ==> after[i] == later.rows[i]
  {
    var read := Next(cfg, s, ReadRotate(request, token));
    PendingSurvives(cfg, read, between, request);
    RunKeepsPast(cfg, read, between);
  }

  /** Beyond the cap, or once the sandbox is over, the whole family ends, whatever commits in between. */
  lemma FamilyEndsBeyondCap(cfg: Config, s: System, request: int, login: nat, token: nat, between: seq<Step>)
    requires Invariant(cfg, s) && login < |s.rows| && token < |s.rows|
    requires s.rows[login].parent.None? && s.rows[login].family == s.rows[token].family
    requires s.now < s.rows[token].expiresAt
    requires s.now >= s.rows[login].createdAt + cfg.absoluteCap
             || (s.rows[token].user in cfg.guestExpiry && s.now >= cfg.guestExpiry[s.rows[token].user])
    requires forall step <- between :: !Involves(step, request)
    ensures var read := Next(cfg, s, ReadRotate(request, token));
            Dead(Next(cfg, Run(cfg, read, between), Commit(request)).rows, s.rows[token].family)
  {
    hide Origin, Lineage, CreatedInOrder, WithinCap, OneLivePerFamily;
    var family := s.rows[token].family;
    OriginIsLogin(s.rows, s.now, login);
    var read := Next(cfg, s, ReadRotate(request, token));
    assert read.pending[request] == RevokeFamily(family);
    var later := Run(cfg, read, between);
    PendingSurvives(cfg, read, between, request);
    RunKeepsPast(cfg, read, between);
    var after := Next(cfg, later, Commit(request)).rows;
    assert after == FamilyRevoked(later.rows, family, later.now);
    assert after[token] in after && after[token].family == family;
  }

  /** A logout with a token that is unknown or dead by then writes nothing. */
  lemma LogoutIsIdempotent(cfg: Config, s: System, request: int, token: nat)
    requires token >= |s.rows| || !Live(s.rows[token])
    ensures Next(cfg, s, ReadLogout(request, token)) == s
  {
  }

  /** A login leaves every row as it was and opens a new family with one live token of that user. */
  lemma LoginOpensFamily(cfg: Config, s: System, user: int, family: int)
    requires !FamilyUsed(s.rows, family)
    ensures var after := Next(cfg, s, Login(user, family)).rows;
            && |after| == |s.rows| + 1 && after[..|s.rows|] == s.rows && after[|s.rows|].parent.None?
            && IsIssued(cfg, after[|s.rows|], user, family, s.now)
  {
  }

  /** A rotation that goes through hands out a token of the same user and family, and revokes only the one presented. */
  lemma RotationIssuesOne(cfg: Config, s: System, request: int, token: nat, checkedAt: int)
    requires request in s.pending && s.pending[request] == Rotate(token, checkedAt)
    requires token < |s.rows| && Live(s.rows[token])
    ensures var after, r := Next(cfg, s, Commit(request)).rows, s.rows[token];
            && |after| == |s.rows| + 1 && IsIssued(cfg, after[|s.rows|], r.user, r.family, s.now)
            && after[|s.rows|].parent == Some(token) && after[token] == r.(revokedAt := Some(s.now))
            && forall i :: 0 <= i < |s.rows| && i != token ==> after[i] == s.rows[i]
  {
  }

  /** Every token ever issued expires one refresh lifetime after it was created: rotation never stretches it. */
  lemma {:induction false} TokensExpireOnTime(cfg: Config, now: int, steps: seq<Step>)
    ensures forall r <- Run(cfg, Start(now), steps).rows :: r.expiresAt == r.createdAt + cfg.refreshTtl
  {
    if steps != [] {
      TokensExpireOnTime(cfg, now, Init(steps));
      var s, step := Run(cfg, Start(now), Init(steps)), Last(steps);
      var rows, after := s.rows, Next(cfg, s, step).rows;
      forall i | 0 <= i < |after|
        ensures after[i].expiresAt == after[i].createdAt + cfg.refreshTtl
      {
        if i < |rows| {
          assert rows[i] in rows;
        }
      }
    }
  }

  /** No request in flight is about the family. */
  ghost predicate NothingPending(s: System, family: int) {
    forall q <- s.pending :: Concerned(s.rows, s.pending[q]) != Some(family)
  }

  /** The step is neither a read of a token of the family nor a password change of the user. */
  predicate Elsewhere(rows: seq<Session>, step: Step, family: int, user: int) {
    match step
    case ReadRotate(_, token) => token < |rows| ==> rows[token].family != family
    case ReadLogout(_, token) => token < |rows| ==> rows[token].family != family
    case ChangePassword(u, _) => u != user
    case _ => true
  }

  predicate AllElsewhere(cfg: Config, s: System, steps: seq<Step>, family: int, user: int) {
    steps == []
    || (AllElsewhere(cfg, s, Init(steps), family, user)
        && Elsewhere(Run(cfg, s, Init(steps)).rows, Last(steps), family, user))
  }

  lemma ConcernedOfPast(rows: seq<Session>, after: seq<Session>, intent: Intent)
    requires SamePast(rows, after) && (Concerned(rows, intent).None? ==> |rows| == |after|)
    ensures Concerned(after, intent) == Concerned(rows, intent)
  {
  }

  /** Intents name tokens that exist. */
  ghost predicate TokensExist(s: System) {
    forall q <- s.pending :: Concerned(s.rows, s.pending[q]).Some?
  }

  lemma StepElsewhere(cfg: Config, s: System, step: Step, i: nat)
    requires i < |s.rows| && TokensExist(s) && NothingPending(s, s.rows[i].family)
    requires Elsewhere(s.rows, step, s.rows[i].family, s.rows[i].user)
    ensures var t := Next(cfg, s, step);
            i < |t.rows| && t.rows[i] == s.rows[i] && TokensExist(t) && NothingPending(t, s.rows[i].family)
  {
    var t := Next(cfg, s, step);
    StepKeepsPast(cfg, s, step);
    forall q | q in t.pending
      ensures Concerned(t.rows, t.pending[q]).Some?
      ensures Concerned(t.rows, t.pending[q]) != Some(s.rows[i].family)
    {
      if q in s.pending && s.pending[q] == t.pending[q] {
        hide SamePast, Next;
        ConcernedOfPast(s.rows, t.rows, s.pending[q]);
      } else if step.ReadRotate? {
        ReadConcernsPresented(cfg, s, step.request, step.token);
      }
    }
    match step
    case Commit(request) =>
      if request in s.pending {
        CommitSparesOthers(cfg, s, request, i);
      }
    case _ =>
  }

  /**
   * A token survives everything that is not its own business: through any steps of requests about other families
   * and password changes of other users its row stays exactly as it is, so a live one stays live.
   */
  lemma {:induction false} OthersLeaveTokenAlone(cfg: Config, s: System, steps: seq<Step>, i: nat)
    requires i < |s.rows| && TokensExist(s) && NothingPending(s, s.rows[i].family)
    requires AllElsewhere(cfg, s, steps, s.rows[i].family, s.rows[i].user)
    ensures var t := Run(cfg, s, steps);
            i < |t.rows| && t.rows[i] == s.rows[i] && TokensExist(t) && NothingPending(t, s.rows[i].family)
  {
    hide Next, Elsewhere, NothingPending, TokensExist;
    if steps != [] {
      OthersLeaveTokenAlone(cfg, s, Init(steps), i);
      StepElsewhere(cfg, Run(cfg, s, Init(steps)), Last(steps), i);
    }
  }

  /** In every reachable state the requests in flight name tokens that exist. */
  lemma {:induction false} ReachableTokensExist(cfg: Config, now: int, steps: seq<Step>)
    ensures TokensExist(Run(cfg, Start(now), steps))
  {
    if steps != [] {
      ReachableTokensExist(cfg, now, Init(steps));
      var s := Run(cfg, Start(now), Init(steps));
      hide Concerned;
      StepKeepsTokens(cfg, s, Last(steps));
    }
  }

  lemma StepKeepsTokens(cfg: Config, s: System, step: Step)
    requires TokensExist(s)
    ensures TokensExist(Next(cfg, s, step))
  {
    StepKeepsPast(cfg, s, step);
  }
}
