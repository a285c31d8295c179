/** The sessions table and the service calls on it, each tied to a step of RefreshSessions. */
module SessionStores {
  import opened Sequences
  import opened RefreshSessions

  class SessionStore {
    var rows: seq<Session>

    constructor ()
      ensures rows == []
    {
      rows := [];
    }

    method RevokeFamily(family: int, now: int)
      modifies this
      ensures rows == FamilyRevoked(old(rows), family, now)
    {
      var was := rows;
      for i := 0 to |was|
        invariant |rows| == |was|
        invariant rows[..i] == FamilyRevoked(was, family, now)[..i] && rows[i..] == was[i..]
      {
        assert rows[i] == was[i];
        if rows[i].family == family && rows[i].revokedAt.None? {
          rows := rows[i := rows[i].(revokedAt := Some(now))];
        }
      }
    }

    method RevokeAllForUser(user: int, now: int)
      modifies this
      ensures rows == UserRevoked(old(rows), user, now)
    {
      var was := rows;
      for i := 0 to |was|
        invariant |rows| == |was|
        invariant rows[..i] == UserRevoked(was, user, now)[..i] && rows[i..] == was[i..]
      {
        assert rows[i] == was[i];
        if rows[i].user == user && rows[i].revokedAt.None? {
          rows := rows[i := rows[i].(revokedAt := Some(now))];
        }
      }
    }

    method Issue(cfg: Config, user: int, family: int, now: int, parent: Option<nat>,
        checkedAt: int) returns (token: nat)
      modifies this
      ensures rows == old(rows) + [Issued(cfg, user, family, now, parent, checkedAt)] && token == |old(rows)|
    {
      token := |rows|;
      rows := rows + [Session(user, family, now, now + cfg.refreshTtl, None, parent, checkedAt)];
    }

    /** Login: the family id is freshly drawn. */
    method StartSession(cfg: Config, user: int, family: int, now: int,
        ghost pending: map<int, Intent>) returns (token: nat)
      requires !FamilyUsed(rows, family)
      modifies this
      ensures System(rows, now, pending) == Next(cfg, System(old(rows), now, pending), Login(user, family))
      ensures token == |old(rows)|
    {
      token := Issue(cfg, user, family, now, None, now);
    }

    method MinCreated(family: int) returns (origin: Option<int>)
      ensures origin == Origin(rows, family)
    {
      origin := None;
      for i := 0 to |rows|
        invariant origin == Origin(rows[..i], family)
      {
        assert Init(rows[..i + 1]) == rows[..i];
        if rows[i].family == family && (origin.None? || rows[i].createdAt < origin.value) {
          origin := Some(rows[i].createdAt);
        }
      }
      assert rows[..|rows|] == rows;
    }

    /** The read half of a rotation: an unknown token decides nothing. */
    method ReadForRotation(cfg: Config, token: nat, now: int) returns (intent: Option<Intent>)
      ensures intent == if token < |rows| then Some(Decide(cfg, rows, now, token)) else None
    {
      if token >= |rows| {
        return None;
      }
      var r := rows[token];
      if r.revokedAt.Some? {
        return Some(Intent.RevokeFamily(r.family));
      }
      if r.expiresAt <= now {
        return Some(RevokeRow(token));
      }
      var origin := MinCreated(r.family);
      if origin.Some? && now - origin.value >= cfg.absoluteCap {
        return Some(Intent.RevokeFamily(r.family));
      }
      if r.user in cfg.guestExpiry && now >= cfg.guestExpiry[r.user] {
        return Some(Intent.RevokeFamily(r.family));
      }
      return Some(Rotate(token, now));
    }

    /** The write half, some time later; a successor comes back only if the conditional update hit its row. */
    method Commit(cfg: Config, intent: Intent, now: int, ghost request: int, ghost pending: map<int, Intent>)
      returns (successor: Option<nat>)
      requires request in pending && pending[request] == intent
      requires intent.Rotate? ==> intent.token < |rows|
      requires intent.RevokeRow? ==> intent.token < |rows|
      modifies this
      ensures System(rows, now, pending - {request}) == Next(cfg, System(old(rows), now, pending), Step.Commit(request))
      ensures successor.Some? <==> intent.Rotate? && Live(old(rows)[intent.token])
      ensures successor.Some? ==> successor.value < |rows| && Live(rows[successor.value])
                                  && rows[successor.value].parent == Some(intent.token)
    {
      successor := None;
      match intent {
        case RevokeFamily(family) =>
          RevokeFamily(family, now);
        case RevokeRow(token) =>
          rows := rows[token := rows[token].(revokedAt := Some(now))];
        case Rotate(token, checkedAt) =>
          if rows[token].revokedAt.None? {
            var r := rows[token];
            rows := rows[token := r.(revokedAt := Some(now))];
            var issued := Issue(cfg, r.user, r.family, now, Some(token), checkedAt);
            successor := Some(issued);
          }
      }
    }

    /** Logout reads the row; only a live one is written, whether or not it still is live by then. */
    method ReadForLogout(
      token: nat, ghost cfg: Config, ghost now: int, ghost request: int, ghost pending: map<int, Intent>)
      returns (intent: Option<Intent>)
      ensures intent.Some? ==> intent.value == RevokeRow(token)
      ensures System(rows, now, if intent.Some? then pending[request := intent.value] else pending)
              == Next(cfg, System(rows, now, pending), ReadLogout(request, token))
    {
      intent := if token < |rows| && rows[token].revokedAt.None? then Some(RevokeRow(token)) else None;
    }

    /** One write transaction: every family of the user dies and one fresh token is issued. */
    method ChangePassword(cfg: Config, user: int, family: int, now: int,
        ghost pending: map<int, Intent>) returns (token: nat)
      requires !FamilyUsed(rows, family)
      modifies this
      ensures System(rows, now, pending) == Next(cfg, System(old(rows), now, pending),
              Step.ChangePassword(user, family))
      ensures token == |old(rows)|
    {
      RevokeAllForUser(user, now);
      token := Issue(cfg, user, family, now, None, now);
    }
  }
}
