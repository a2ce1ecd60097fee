/** Login sessions and their rotating tokens, as steps over the session table.

    Every `await` ends a step, so requests of different clients interleave between them.  A token
    is a payload together with the secret that signed it; verifying it compares secrets, which
    leaves out the cryptography of section 7.2 of RFC 7519.  Nobody can sign under a secret that
    the server generated, except the server. */
module Sessions {
  import opened Options

  datatype Payload =
    | Access(userId: int, role: int, sessionId: string)
    | Refresh(userId: int, sessionId: string)

  datatype Token = Token(payload: Payload, secret: string)

  datatype User = User(role: int, password: string)

  /** A row of the session table. */
  datatype Device = Device(user: int, deviceId: string, secret: string, refresh: Token)

  /** A request between two of its steps. */
  datatype Request =
    | LoggingIn(user: int, role: int)
    | Guarded(token: Token)
    | Rejecting(sessionId: string)
    | Rotating(sessionId: string, userId: int, role: int, secret: string)
    | Changing(userId: int, sessionId: string)
    | Checked(userId: int, sessionId: string, password: string)
    | Deleted(userId: int, password: string)

  /** What was signed under a secret: one access token and one refresh token. */
  datatype Grant = Grant(userId: int, role: int, sessionId: string)

  /** The tables, the requests under way, and three histories: what was signed under each secret,
      which session ids were ever created and which secrets were ever stored. */
  datatype State = State(
    users: map<int, User>, devices: map<string, Device>, requests: map<nat, Request>,
    grants: map<string, Grant>, sessions: set<string>, stored: set<string>)

  function GenerateAccessToken(g: Grant, secret: string): Token {
    Token(Access(g.userId, g.role, g.sessionId), secret)
  }

  function GenerateRefreshToken(g: Grant, secret: string): Token {
    Token(Refresh(g.userId, g.sessionId), secret)
  }

  ghost predicate Issued(s: State, t: Token) {
    t.secret in s.grants
    && (t == GenerateAccessToken(s.grants[t.secret], t.secret)
        || t == GenerateRefreshToken(s.grants[t.secret], t.secret))
  }

  /** A client may present any token except one forged under a secret of the server. */
  ghost predicate Presentable(s: State, t: Token) {
    t.secret in s.grants ==> Issued(s, t)
  }

  // ----- the guards

  function SecretOf(devices: map<string, Device>, sessionId: string): Option<string> {
    if sessionId in devices && devices[sessionId].secret != "" then Some(devices[sessionId].secret) else None
  }

  /** Whether a guard lets the token through. */
  predicate Accepts(devices: map<string, Device>, t: Token) {
    SecretOf(devices, t.payload.sessionId) == Some(t.secret)
  }

  /** The guard of the other endpoints; it changes nothing. */
  ghost predicate AuthGuardAccepts(s: State, t: Token) {
    Accepts(s.devices, t)
  }

  // ----- the steps

  datatype Step =
    | LoginCheck(req: nat, user: int, password: string)
    | LoginSave(req: nat, sessionId: string, secret: string)
    | RefreshGuard(req: nat, token: Token)
    | Reject(req: nat)
    | RefreshFind(req: nat, found: Option<string>, secret: string)
    | RefreshWrite(req: nat)
    | Logout(token: Token)
    | ChangeGuard(req: nat, token: Token)
    | ChangeCheck(req: nat, oldPassword: string, newPassword: string)
    | ChangeDelete(req: nat)
    | ChangeWrite(req: nat)

  ghost predicate Fresh(s: State, secret: string) {
    secret != "" && secret !in s.grants
  }

  /** The row a query by refresh token returns: any that matches, none only if none does. */
  ghost predicate Finds(devices: map<string, Device>, t: Token, found: Option<string>) {
    match found
    case Some(id) => id in devices && devices[id].refresh == t
    case None => forall id | id in devices :: devices[id].refresh != t
  }

  ghost predicate Enabled(s: State, step: Step) {
    match step
    case LoginCheck(req, _, _) => req !in s.requests
    case LoginSave(req, sessionId, secret) =>
      && req in s.requests && s.requests[req].LoggingIn?
      && sessionId != "" && sessionId !in s.sessions && Fresh(s, secret)
    case RefreshGuard(req, token) => req !in s.requests && Presentable(s, token)
    case Reject(req) => req in s.requests && s.requests[req].Rejecting?
    case RefreshFind(req, found, secret) =>
      && req in s.requests && s.requests[req].Guarded?
      && Finds(s.devices, s.requests[req].token, found) && Fresh(s, secret)
    case RefreshWrite(req) => req in s.requests && s.requests[req].Rotating?
    case Logout(token) => true
    case ChangeGuard(req, token) => req !in s.requests && Presentable(s, token)
    case ChangeCheck(req, _, _) => req in s.requests && s.requests[req].Changing?
    case ChangeDelete(req) => req in s.requests && s.requests[req].Checked?
    case ChangeWrite(req) => req in s.requests && s.requests[req].Deleted?
  }

  /** Starts a guarded request: let through, rejected after a failed verification, or refused
      because the session is unknown. */
  function Guard(requests: map<nat, Request>, devices: map<string, Device>,
                 req: nat, t: Token, passed: Request): map<nat, Request> {
    var secret := SecretOf(devices, t.payload.sessionId);
    if secret.None? then requests
    else if secret.value == t.secret then requests[req := passed]
    else requests[req := Rejecting(t.payload.sessionId)]
  }

  /** The deletion by device id that follows a failed verification. */
  function RemoveLoginSession(devices: map<string, Device>, deviceId: string): map<string, Device> {
    map id | id in devices && devices[id].deviceId != deviceId :: devices[id]
  }

  /** The update by session id: it never inserts. */
  function UpdateSession(devices: map<string, Device>, sessionId: string,
                         secret: string, refresh: Token): map<string, Device> {
    if sessionId in devices then devices[sessionId := devices[sessionId].(secret := secret, refresh := refresh)]
    else devices
  }

  ghost function Apply(s: State, step: Step): State
    requires Enabled(s, step)
  {
    match step
    case LoginCheck(req, user, password) =>
      if user in s.users && s.users[user].password == password
      then s.(requests := s.requests[req := LoggingIn(user, s.users[user].role)])
      else s
    case LoginSave(req, sessionId, secret) =>
      var g := Grant(s.requests[req].user, s.requests[req].role, sessionId);
      s.(devices := s.devices[sessionId := Device(g.userId, "", secret, GenerateRefreshToken(g, secret))],
         requests := s.requests - {req}, grants := s.grants[secret := g],
         sessions := s.sessions + {sessionId}, stored := s.stored + {secret})
    case RefreshGuard(req, token) =>
      s.(requests := Guard(s.requests, s.devices, req, token, Guarded(token)))
    case Reject(req) =>
      s.(devices := RemoveLoginSession(s.devices, s.requests[req].sessionId), requests := s.requests - {req})
    case RefreshFind(req, found, secret) =>
      if found.None? || s.devices[found.value].user !in s.users then s.(requests := s.requests - {req})
      else
        var g := Grant(s.requests[req].token.payload.userId, s.users[s.devices[found.value].user].role, found.value);
        s.(requests := s.requests[req := Rotating(g.sessionId, g.userId, g.role, secret)],
           grants := s.grants[secret := g])
    case RefreshWrite(req) =>
      var r := s.requests[req];
      var refresh := GenerateRefreshToken(Grant(r.userId, r.role, r.sessionId), r.secret);
      s.(devices := UpdateSession(s.devices, r.sessionId, r.secret, refresh),
         requests := s.requests - {req}, stored := s.stored + {r.secret})
    case Logout(token) =>
      s.(devices := s.devices - {token.payload.sessionId})
    case ChangeGuard(req, token) =>
      s.(requests := Guard(s.requests, s.devices, req, token, Changing(token.payload.userId, token.payload.sessionId)))
    case ChangeCheck(req, oldPassword, newPassword) =>
      var r := s.requests[req];
      if r.userId in s.users && s.users[r.userId].password == oldPassword
      then s.(requests := s.requests[req := Checked(r.userId, r.sessionId, newPassword)])
      else s.(requests := s.requests - {req})
    case ChangeDelete(req) =>
      var r := s.requests[req];
      s.(devices := s.devices - {r.sessionId}, requests := s.requests[req := Deleted(r.userId, r.password)])
    case ChangeWrite(req) =>
      var r := s.requests[req];
      s.(users := if r.userId in s.users then s.users[r.userId := s.users[r.userId].(password := r.password)]
                  else s.users,
         requests := s.requests - {req})
  }

  // ----- what every step keeps

  /** The stored refresh token is signed under the stored secret and names the row's session and
      user. */
  ghost predicate Coherent(id: string, d: Device) {
    d.refresh == Token(Refresh(d.user, id), d.secret)
  }

  ghost predicate RowOk(s: State, id: string)
    requires id in s.devices
  {
    var d := s.devices[id];
    && Coherent(id, d) && d.deviceId == "" && d.user in s.users
    && d.secret in s.stored && d.secret in s.grants && d.secret != ""
    && s.grants[d.secret].userId == d.user && s.grants[d.secret].sessionId == id
  }

  ghost predicate RequestOk(s: State, r: Request) {
    match r
    case LoggingIn(user, role) => user in s.users && s.users[user].role == role
    case Rejecting(sessionId) => sessionId in s.sessions
    case Rotating(sessionId, userId, role, secret) =>
      && secret in s.grants && s.grants[secret] == Grant(userId, role, sessionId)
      && secret !in s.stored && secret != ""
    case _ => true
  }

  /** All grants of a session name the user of its row, and the role of that user. */
  ghost predicate GrantOk(s: State, secret: string)
    requires secret in s.grants
  {
    var g := s.grants[secret];
    && g.sessionId in s.sessions && (g.sessionId in s.devices ==> s.devices[g.sessionId].user == g.userId)
    && g.userId in s.users && s.users[g.userId].role == g.role
  }

  ghost predicate SecretsApart(s: State) {
    forall p, q | p in s.requests && q in s.requests && p != q && s.requests[p].Rotating? && s.requests[q].Rotating? ::
      s.requests[p].secret != s.requests[q].secret
  }

  ghost predicate Inv(s: State) {
    && "" !in s.sessions
    && s.devices.Keys <= s.sessions
    && s.stored <= s.grants.Keys
    && (forall id | id in s.devices :: RowOk(s, id))
    && (forall req | req in s.requests :: RequestOk(s, s.requests[req]))
    && (forall secret | secret in s.grants :: GrantOk(s, secret))
    && SecretsApart(s)
  }

  ghost predicate Init(s: State) {
    s.devices == map[] && s.requests == map[] && s.grants == map[] && s.sessions == {} && s.stored == {}
  }

  /** A token found by query names the row that holds it. */
  lemma FoundRow(s: State, t: Token, id: string)
    requires Inv(s) && id in s.devices && s.devices[id].refresh == t
    ensures t.payload == Refresh(s.devices[id].user, id) && t.secret == s.devices[id].secret
  {
    assert RowOk(s, id);
  }

  lemma LoginSaveKeeps(s: State, req: nat, sessionId: string, secret: string)
    requires Inv(s) && Enabled(s, LoginSave(req, sessionId, secret))
    ensures Inv(Apply(s, LoginSave(req, sessionId, secret)))
  {
    var t := Apply(s, LoginSave(req, sessionId, secret));
    assert RequestOk(s, s.requests[req]);
    forall id | id in t.devices
      ensures RowOk(t, id)
    {
      if id != sessionId {
        assert RowOk(s, id);
      }
    }
    forall x | x in t.grants
      ensures GrantOk(t, x)
    {
      if x != secret {
        assert GrantOk(s, x);
      }
    }
    assert forall r | r in t.requests :: RequestOk(s, t.requests[r]);
  }

  lemma RefreshFindKeeps(s: State, req: nat, found: Option<string>, secret: string)
    requires Inv(s) && Enabled(s, RefreshFind(req, found, secret))
    ensures Inv(Apply(s, RefreshFind(req, found, secret)))
  {
    var t := Apply(s, RefreshFind(req, found, secret));
    assert forall id | id in s.devices :: RowOk(s, id) && RowOk(t, id);
    assert forall r | r in s.requests :: RequestOk(s, s.requests[r]);
    if found.Some? {
      FoundRow(s, s.requests[req].token, found.value);
      forall x | x in t.grants
        ensures GrantOk(t, x)
      {
        if x != secret {
          assert GrantOk(s, x);
        }
      }
    }
  }

  lemma RefreshWriteKeeps(s: State, req: nat)
    requires Inv(s) && Enabled(s, RefreshWrite(req))
    ensures Inv(Apply(s, RefreshWrite(req)))
  {
    var t, r := Apply(s, RefreshWrite(req)), s.requests[req];
    assert RequestOk(s, r) && GrantOk(s, r.secret);
    forall id | id in t.devices
      ensures RowOk(t, id)
    {
      assert RowOk(s, id);
    }
    forall q | q in t.requests
      ensures RequestOk(t, t.requests[q])
    {
      assert RequestOk(s, s.requests[q]);
    }
    assert forall x | x in s.grants :: GrantOk(s, x) && GrantOk(t, x);
  }

  /** What the other steps may do: delete rows, change passwords, and move requests along without
      starting a rotation. */
  ghost predicate Shrinks(s: State, t: State) {
    && t.grants == s.grants && t.sessions == s.sessions && t.stored == s.stored
    && (forall u | u in s.users :: u in t.users && t.users[u].role == s.users[u].role)
    && (forall id | id in t.devices :: id in s.devices && t.devices[id] == s.devices[id])
    && (forall q | q in t.requests ::
          (q in s.requests && t.requests[q] == s.requests[q])
          || (!t.requests[q].Rotating? && RequestOk(t, t.requests[q])))
  }

  lemma OtherStepsShrink(s: State, step: Step)
    requires Inv(s) && Enabled(s, step)
    requires !step.LoginSave? && !step.RefreshFind? && !step.RefreshWrite?
    ensures Shrinks(s, Apply(s, step))
  {
    hide RowOk, GrantOk, SecretsApart, Presentable;
  }

  lemma ShrinkingKeeps(s: State, t: State)
    requires Inv(s) && Shrinks(s, t)
    ensures Inv(t)
  {
    forall id | id in t.devices
      ensures RowOk(t, id)
    {
      assert RowOk(s, id);
    }
    forall x | x in t.grants
      ensures GrantOk(t, x)
    {
      assert GrantOk(s, x);
    }
    forall q | q in t.requests
      ensures RequestOk(t, t.requests[q])
    {
      if q in s.requests && t.requests[q] == s.requests[q] {
        assert RequestOk(s, s.requests[q]);
      }
    }
  }

  /** Any step, of any request, in any state that a run can reach. */
  lemma StepKeeps(s: State, step: Step)
    requires Inv(s) && Enabled(s, step)
    ensures Inv(Apply(s, step))
  {
    hide Inv, Apply, Enabled, Shrinks;
    match step
    case LoginSave(req, sessionId, secret) => LoginSaveKeeps(s, req, sessionId, secret);
    case RefreshFind(req, found, secret) => RefreshFindKeeps(s, req, found, secret);
    case RefreshWrite(req) => RefreshWriteKeeps(s, req);
    case _ =>
      OtherStepsShrink(s, step);
      ShrinkingKeeps(s, Apply(s, step));
  }
}
