/** The service that keeps the session table, one method for each stretch of code between two
    awaits.  `View` is its state as the step relation sees it. */
module AuthService {
  import opened Options
  import opened Sessions
  import opened SessionRuns

  /** What the client is told; `Pending` when the request goes on. */
  datatype Reply = Pending | Refused | Tokens(access: Token, refresh: Token) | Done

  class Service {
    var users: map<int, User>
    var devices: map<string, Device>
    var requests: map<nat, Request>
    ghost var grants: map<string, Grant>
    ghost var sessions: set<string>
    ghost var stored: set<string>

    ghost function View(): State
      reads this
    {
      State(users, devices, requests, grants, sessions, stored)
    }

    constructor (users: map<int, User>)
      ensures Init(View()) && this.users == users
    {
      this.users := users;
      devices, requests := map[], map[];
      grants, sessions, stored := map[], {}, {};
    }

    method LoginCheck(req: nat, user: int, password: string) returns (reply: Reply)
      requires Enabled(View(), Step.LoginCheck(req, user, password))
      modifies this
      ensures View() == Apply(old(View()), Step.LoginCheck(req, user, password))
      ensures reply == if user in old(users) && old(users)[user].password == password then Pending else Refused
    {
      if user !in users || users[user].password != password {
        return Refused;
      }
      requests := requests[req := LoggingIn(user, users[user].role)];
      reply := Pending;
    }

    method LoginSave(req: nat, sessionId: string, secret: string) returns (reply: Reply)
      requires Enabled(View(), Step.LoginSave(req, sessionId, secret))
      modifies this
      ensures View() == Apply(old(View()), Step.LoginSave(req, sessionId, secret))
      ensures var q := old(requests)[req];
              reply == Tokens(Token(Access(q.user, q.role, sessionId), secret),
                              Token(Payload.Refresh(q.user, sessionId), secret))
      ensures AuthGuardAccepts(View(), reply.access) && AuthGuardAccepts(View(), reply.refresh)
    {
      var g := Grant(requests[req].user, requests[req].role, sessionId);
      var access, refresh := GenerateAccessToken(g, secret), GenerateRefreshToken(g, secret);
      devices := devices[sessionId := Device(g.userId, "", secret, refresh)];
      requests := requests - {req};
      grants, sessions, stored := grants[secret := g], sessions + {sessionId}, stored + {secret};
      reply := Tokens(access, refresh);
    }

    /** The refresh guard, up to the deletion that follows a failed verification. */
    method RefreshGuard(req: nat, token: Token) returns (reply: Reply)
      requires Enabled(View(), Step.RefreshGuard(req, token))
      modifies this
      ensures View() == Apply(old(View()), Step.RefreshGuard(req, token))
      ensures reply == if req in requests then Pending else Refused
      ensures req in requests && requests[req] == Guarded(token) <==> Accepts(old(devices), token)
    {
      var secret := SecretOf(devices, token.payload.sessionId);
      if secret.None? {
        return Refused;
      }
      requests := requests[req := if secret.value == token.secret then Guarded(token)
                                  else Rejecting(token.payload.sessionId)];
      reply := Pending;
    }

    method Reject(req: nat) returns (reply: Reply)
      requires Enabled(View(), Step.Reject(req))
      modifies this
      ensures View() == Apply(old(View()), Step.Reject(req))
      ensures forall id | id in old(devices) ::
                id in devices <==> old(devices)[id].deviceId != old(requests)[req].sessionId
      ensures reply == Refused
    {
      devices := RemoveLoginSession(devices, requests[req].sessionId);
      requests := requests - {req};
      reply := Refused;
    }

    /** The refresh up to its update: the tokens are made, and set as cookies, before the write. */
    method RefreshFind(req: nat, secret: string) returns (reply: Reply, found: Option<string>)
      requires req in requests && requests[req].Guarded? && Fresh(View(), secret)
      modifies this
      ensures Enabled(old(View()), Step.RefreshFind(req, found, secret))
      ensures View() == Apply(old(View()), Step.RefreshFind(req, found, secret))
      ensures reply.Tokens? ==> Issued(View(), reply.access) && Issued(View(), reply.refresh)
      ensures if req in requests
              then && found.Some?
                   && var d, userId := old(devices)[found.value], old(requests)[req].token.payload.userId;
                   && d.user in users
                   && reply == Tokens(Token(Access(userId, users[d.user].role, found.value), secret),
                                      Token(Payload.Refresh(userId, found.value), secret))
              else reply == Refused
    {
      var token := requests[req].token;
      if id :| id in devices && devices[id].refresh == token {
        found := Some(id);
        var session := devices[id];
        if session.user in users {
          var g := Grant(token.payload.userId, users[session.user].role, id);
          reply := Tokens(GenerateAccessToken(g, secret), GenerateRefreshToken(g, secret));
          requests := requests[req := Rotating(id, g.userId, g.role, secret)];
          grants := grants[secret := g];
          return;
        }
      } else {
        found := None;
      }
      requests := requests - {req};
      reply := Refused;
    }

    method RefreshWrite(req: nat) returns (reply: Reply)
      requires Enabled(View(), Step.RefreshWrite(req))
      modifies this
      ensures View() == Apply(old(View()), Step.RefreshWrite(req))
      ensures var r := old(requests)[req];
              reply == Tokens(Token(Access(r.userId, r.role, r.sessionId), r.secret),
                              Token(Payload.Refresh(r.userId, r.sessionId), r.secret))
    {
      var r := requests[req];
      var g := Grant(r.userId, r.role, r.sessionId);
      devices := UpdateSession(devices, r.sessionId, r.secret, GenerateRefreshToken(g, r.secret));
      requests := requests - {req};
      stored := stored + {r.secret};
      reply := Tokens(GenerateAccessToken(g, r.secret), GenerateRefreshToken(g, r.secret));
    }

    /** Logout trusts the session id in the token without verifying it. */
    method Logout(token: Token) returns (reply: Reply)
      modifies this
      ensures View() == Apply(old(View()), Step.Logout(token))
      ensures reply == Done
    {
      devices := devices - {token.payload.sessionId};
      reply := Done;
    }

    method ChangeGuard(req: nat, token: Token) returns (reply: Reply)
      requires Enabled(View(), Step.ChangeGuard(req, token))
      modifies this
      ensures View() == Apply(old(View()), Step.ChangeGuard(req, token))
      ensures reply == if SecretOf(old(devices), token.payload.sessionId).None? then Refused else Pending
    {
      var secret := SecretOf(devices, token.payload.sessionId);
      if secret.None? {
        return Refused;
      }
      requests := requests[req := if secret.value == token.secret
                                  then Changing(token.payload.userId, token.payload.sessionId)
                                  else Rejecting(token.payload.sessionId)];
      reply := Pending;
    }

    method ChangeCheck(req: nat, oldPassword: string, newPassword: string) returns (reply: Reply)
      requires Enabled(View(), Step.ChangeCheck(req, oldPassword, newPassword))
      modifies this
      ensures View() == Apply(old(View()), Step.ChangeCheck(req, oldPassword, newPassword))
      ensures reply == if req in requests then Pending else Refused
    {
      var r := requests[req];
      if r.userId in users && users[r.userId].password == oldPassword {
        requests := requests[req := Checked(r.userId, r.sessionId, newPassword)];
        reply := Pending;
      } else {
        requests := requests - {req};
        reply := Refused;
      }
    }

    method ChangeDelete(req: nat) returns (reply: Reply)
      requires Enabled(View(), Step.ChangeDelete(req))
      modifies this
      ensures View() == Apply(old(View()), Step.ChangeDelete(req))
      ensures reply == Pending
    {
      var r := requests[req];
      devices := devices - {r.sessionId};
      requests := requests[req := Deleted(r.userId, r.password)];
      reply := Pending;
    }

    method ChangeWrite(req: nat) returns (reply: Reply)
      requires Enabled(View(), Step.ChangeWrite(req))
      modifies this
      ensures View() == Apply(old(View()), Step.ChangeWrite(req))
      ensures reply == Done
    {
      var r := requests[req];
      if r.userId in users {
        users := users[r.userId := users[r.userId].(password := r.password)];
      }
      requests := requests - {req};
      reply := Done;
    }

    // ----- requests that nothing interrupts

    /** The rest of a request whose token failed verification: no row has the id it deletes. */
    method RejectQuietly(req: nat) returns (reply: Reply)
      requires Inv(View()) && req in requests && requests[req].Rejecting?
      modifies this
      ensures reply == Refused && users == old(users) && devices == old(devices) && requests == old(requests) - {req}
    {
      assert RequestOk(View(), requests[req]);
      assert forall id | id in devices :: RowOk(View(), id);
      hide Inv;
      reply := Reject(req);
      assert devices == old(devices);
    }

    /** The rest of a refresh behind its guard. */
    method Exchange(req: nat, secret: string) returns (reply: Reply)
      requires Inv(View()) && req in requests && requests[req].Guarded? && Fresh(View(), secret)
      modifies this
      ensures users == old(users) && requests == old(requests) - {req}
      ensures Exchanged(users, old(devices), devices, old(requests)[req].token, secret, reply)
    {
      ghost var before, token := View(), requests[req].token;
      var found;
      reply, found := RefreshFind(req, secret);
      if found.Some? {
        FoundRow(before, token, found.value);
        assert RowOk(before, found.value);
      }
      hide Inv;
      if reply.Tokens? {
        reply := RefreshWrite(req);
      }
      assert requests == old(requests) - {req};
    }

    /** A refresh: it succeeds exactly with the stored refresh token of its session, and otherwise
        changes no row. */
    method Refresh(req: nat, token: Token, secret: string) returns (reply: Reply)
      requires Inv(View()) && req !in requests && Presentable(View(), token) && Fresh(View(), secret)
      modifies this
      ensures users == old(users) && requests == old(requests)
      ensures Exchanged(users, old(devices), devices, token, secret, reply)
    {
      ghost var before := View();
      StepKeeps(before, Step.RefreshGuard(req, token));
      StoredIsAccepted(before, token);
      hide Inv;
      reply := RefreshGuard(req, token);
      if reply == Pending {
        if requests[req].Rejecting? {
          reply := RejectQuietly(req);
        } else {
          reply := Exchange(req, secret);
        }
      }
      assert requests == old(requests);
    }

    /** The rest of a password change behind its guard. */
    method Change(req: nat, oldPassword: string, newPassword: string) returns (reply: Reply)
      requires req in requests && requests[req].Changing?
      modifies this
      ensures requests == old(requests) - {req}
      ensures Changed(old(users), users, old(devices), devices, old(requests)[req].userId, old(requests)[req].sessionId,
                      oldPassword, newPassword, reply)
    {
      reply := ChangeCheck(req, oldPassword, newPassword);
      if reply == Pending {
        reply := ChangeDelete(req);
        reply := ChangeWrite(req);
      }
      assert requests == old(requests) - {req};
    }

    /** A password change: it succeeds exactly with an accepted token and the old password, ends the
        session that asked for it and no other, and otherwise changes nothing. */
    method ChangePassword(req: nat, token: Token, oldPassword: string, newPassword: string) returns (reply: Reply)
      requires Inv(View()) && req !in requests && Presentable(View(), token)
      modifies this
      ensures requests == old(requests)
      ensures if Accepts(old(devices), token)
              then Changed(old(users), users, old(devices), devices, token.payload.userId, token.payload.sessionId,
                           oldPassword, newPassword, reply)
              else reply == Refused && devices == old(devices) && users == old(users)
    {
      ghost var before := View();
      StepKeeps(before, Step.ChangeGuard(req, token));
      hide Inv, Changed;
      reply := ChangeGuard(req, token);
      if reply == Pending {
        if requests[req].Rejecting? {
          reply := RejectQuietly(req);
        } else {
          reply := Change(req, oldPassword, newPassword);
        }
      }
      assert requests == old(requests);
    }
  }

  /** The outcome of a refresh: with the stored token the row holds a new pair under the new secret,
      which passes, and the old token does not; with any other nothing changes. */
  ghost predicate Exchanged(users: map<int, User>, before: map<string, Device>, after: map<string, Device>,
                            token: Token, secret: string, reply: Reply)
  {
    var id := token.payload.sessionId;
    if id in before && before[id].refresh == token
    then && before[id].user in users && secret != token.secret
         && reply == Tokens(Token(Access(before[id].user, users[before[id].user].role, id), secret),
                            Token(Refresh(before[id].user, id), secret))
         && after == before[id := before[id].(secret := secret, refresh := reply.refresh)]
         && Accepts(after, reply.access) && Accepts(after, reply.refresh) && !Accepts(after, token)
    else reply == Refused && after == before
  }

  /** The outcome of a password change that passed its guard: with the old password the session is
      gone and the user has the new one; with any other nothing changes. */
  ghost predicate Changed(usersBefore: map<int, User>, users: map<int, User>,
                          before: map<string, Device>, after: map<string, Device>,
                          user: int, sessionId: string, oldPassword: string, newPassword: string, reply: Reply)
  {
    if user in usersBefore && usersBefore[user].password == oldPassword
    then && reply == Done && after == before - {sessionId}
         && users == usersBefore[user := usersBefore[user].(password := newPassword)]
    else reply == Refused && after == before && users == usersBefore
  }

  /** The guard lets the stored refresh token through. */
  lemma StoredIsAccepted(s: State, t: Token)
    requires Inv(s)
    ensures t.payload.sessionId in s.devices && s.devices[t.payload.sessionId].refresh == t ==> Accepts(s.devices, t)
  {
    ExchangeableIffStored(s, t);
  }
}
