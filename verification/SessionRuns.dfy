/** What holds along every interleaving of the session steps. */
module SessionRuns {
  import opened Options
  import opened Sessions

  datatype Run = Run(states: seq<State>, steps: seq<Step>)

  ghost predicate IsRun(r: Run): (ok: bool)
    ensures ok ==> |r.states| == |r.steps| + 1
  {
    && |r.states| == |r.steps| + 1
    && Init(r.states[0])
    && forall i | 0 <= i < |r.steps| ::
         Enabled(r.states[i], r.steps[i]) && r.states[i + 1] == Apply(r.states[i], r.steps[i])
  }

  lemma {:induction false} RunKeeps(r: Run, n: nat)
    requires IsRun(r) && n <= |r.steps|
    ensures Inv(r.states[n])
  {
    if n > 0 {
      hide Apply, Enabled;
      RunKeeps(r, n - 1);
      hide Inv;
      StepKeeps(r.states[n - 1], r.steps[n - 1]);
    }
  }

  lemma StepOf(r: Run, k: nat)
    requires IsRun(r) && k < |r.steps|
    ensures Inv(r.states[k]) && Inv(r.states[k + 1])
    ensures Enabled(r.states[k], r.steps[k]) && r.states[k + 1] == Apply(r.states[k], r.steps[k])
  {
    hide Inv, Apply, Enabled;
    RunKeeps(r, k);
    RunKeeps(r, k + 1);
  }

  /** In every reachable state each stored refresh token is signed under the stored secret and
      names the session and the user of its row. */
  lemma StoredTokensAreCoherent(r: Run, n: nat, id: string)
    requires IsRun(r) && n <= |r.steps| && id in r.states[n].devices
    ensures var d := r.states[n].devices[id];
            d.refresh.secret == d.secret && d.refresh.payload == Refresh(d.user, id)
  {
    hide Apply, Enabled;
    RunKeeps(r, n);
    assert RowOk(r.states[n], id);
  }

  // ----- rotation

  /** Secret and content of the token pair that a step writes to the row of a session. */
  ghost function Writes(s: State, step: Step, id: string): Option<(string, Grant)>
    requires Enabled(s, step)
  {
    match step
    case LoginSave(req, sessionId, secret) =>
      if sessionId == id then Some((secret, Grant(s.requests[req].user, s.requests[req].role, id))) else None
    case RefreshWrite(req) =>
      var q := s.requests[req];
      if q.sessionId == id && id in s.devices then Some((q.secret, Grant(q.userId, q.role, id))) else None
    case _ => None
  }

  /** The last pair written to the row of a session in the first `n` steps. */
  ghost function LastWrite(r: Run, n: nat, id: string): Option<(string, Grant)>
    requires IsRun(r) && n <= |r.steps|
  {
    if n == 0 then None
    else
      var w := Writes(r.states[n - 1], r.steps[n - 1], id);
      if w.Some? then w else LastWrite(r, n - 1, id)
  }

  lemma WriteReachesRow(s: State, step: Step, id: string)
    requires Inv(s) && Enabled(s, step) && id in Apply(s, step).devices
    ensures var t, w := Apply(s, step), Writes(s, step, id);
            if w.Some? then t.devices[id].secret == w.value.0
                            && w.value.0 in t.grants && t.grants[w.value.0] == w.value.1
            else id in s.devices && t.devices[id] == s.devices[id]
  {
    hide RowOk, GrantOk, SecretsApart, Presentable;
    if step.RefreshWrite? {
      assert RequestOk(s, s.requests[step.req]);
    }
  }

  /** What was signed under a secret never changes. */
  lemma GrantsStay(s: State, step: Step, secret: string)
    requires Inv(s) && Enabled(s, step) && secret in s.grants
    ensures secret in Apply(s, step).grants && Apply(s, step).grants[secret] == s.grants[secret]
  {
    hide Inv, Presentable;
  }

  lemma {:induction false} RowHoldsLastWrite(r: Run, n: nat, id: string)
    requires IsRun(r) && n <= |r.steps| && id in r.states[n].devices
    ensures var s, w := r.states[n], LastWrite(r, n, id);
            w.Some? && s.devices[id].secret == w.value.0 && w.value.0 in s.grants && s.grants[w.value.0] == w.value.1
  {
    hide Apply, Enabled, Writes, Inv;
    if n > 0 {
      StepOf(r, n - 1);
      hide IsRun;
      var s, step := r.states[n - 1], r.steps[n - 1];
      WriteReachesRow(s, step, id);
      if Writes(s, step, id).None? {
        RowHoldsLastWrite(r, n - 1, id);
        GrantsStay(s, step, s.devices[id].secret);
      }
    }
  }

  /** The tokens that pass a guard for a live session are exactly the access and the refresh token
      of the last rotation, or login, written to its row. */
  lemma AcceptedIffLastPair(r: Run, n: nat, id: string, t: Token)
    requires IsRun(r) && n <= |r.steps| && id in r.states[n].devices
    requires Presentable(r.states[n], t) && t.payload.sessionId == id
    ensures var w := LastWrite(r, n, id);
            w.Some? &&
            (AuthGuardAccepts(r.states[n], t)
             <==> || t == Token(Access(w.value.1.userId, w.value.1.role, id), w.value.0)
                  || t == Token(Refresh(w.value.1.userId, id), w.value.0))
  {
    RowHoldsLastWrite(r, n, id);
    RunKeeps(r, n);
    hide IsRun, LastWrite;
    assert RowOk(r.states[n], id);
  }

  /** What an accepted token says is true: it names the user of its session, and an access token the
      role that this user has. */
  lemma AcceptedTokenIsTrue(r: Run, n: nat, t: Token)
    requires IsRun(r) && n <= |r.steps| && Presentable(r.states[n], t) && AuthGuardAccepts(r.states[n], t)
    ensures var s, id := r.states[n], t.payload.sessionId;
            && id in s.devices && t.payload.userId == s.devices[id].user && t.payload.userId in s.users
            && (t.payload.Access? ==> t.payload.role == s.users[t.payload.userId].role)
  {
    RunKeeps(r, n);
    var s, id := r.states[n], t.payload.sessionId;
    hide IsRun;
    assert RowOk(s, id);
    assert GrantOk(s, t.secret);
  }

  /** Both halves of a refresh would succeed if they ran now. */
  ghost predicate Exchangeable(s: State, t: Token) {
    Accepts(s.devices, t) && exists id :: id in s.devices && s.devices[id].refresh == t
  }

  /** Only the stored token of its own session can be exchanged, so one per session at most. */
  lemma ExchangeableIffStored(s: State, t: Token)
    requires Inv(s)
    ensures Exchangeable(s, t) <==> t.payload.sessionId in s.devices && s.devices[t.payload.sessionId].refresh == t
  {
    if id :| id in s.devices && s.devices[id].refresh == t {
      FoundRow(s, t, id);
      assert RowOk(s, id);
    }
  }

  /** The row a refresh finds is the one its token names, so that the user id taken from the token
      and the role taken from the row belong to one user. */
  lemma RefreshFindsItsOwnRow(r: Run, n: nat)
    requires IsRun(r) && n < |r.steps| && r.steps[n].RefreshFind? && r.steps[n].found.Some?
    ensures var s, id := r.states[n], r.steps[n].found.value;
            var t := s.requests[r.steps[n].req].token;
            && id in s.devices && t.payload.sessionId == id && t.payload.userId == s.devices[id].user
            && s.devices[id].user in s.users
  {
    hide Apply;
    RunKeeps(r, n);
    var s, id := r.states[n], r.steps[n].found.value;
    FoundRow(s, s.requests[r.steps[n].req].token, id);
    assert RowOk(s, id);
  }

  // ----- what is over stays over

  lemma GoneStaysGone(s: State, step: Step, id: string)
    requires Inv(s) && Enabled(s, step) && id in s.sessions && id !in s.devices
    ensures id in Apply(s, step).sessions && id !in Apply(s, step).devices
  {
    hide RowOk, RequestOk, GrantOk, SecretsApart, Presentable;
  }

  /** A session whose row was deleted never comes back, whatever refreshes were under way. */
  lemma {:induction false} NoResurrection(r: Run, m: nat, n: nat, id: string)
    requires IsRun(r) && m <= n <= |r.steps|
    requires id in r.states[m].sessions && id !in r.states[m].devices
    ensures id in r.states[n].sessions && id !in r.states[n].devices
    decreases n
  {
    hide Apply, Enabled, Inv, IsRun;
    if m < n {
      StepOf(r, n - 1);
      NoResurrection(r, m, n - 1, id);
      GoneStaysGone(r.states[n - 1], r.steps[n - 1], id);
    }
  }

  /** A secret that was stored once and is in no row now. */
  ghost predicate Retired(s: State, secret: string) {
    secret in s.stored && forall id | id in s.devices :: s.devices[id].secret != secret
  }

  lemma RetiredStaysRetired(s: State, step: Step, secret: string)
    requires Inv(s) && Enabled(s, step) && Retired(s, secret)
    ensures Retired(Apply(s, step), secret)
  {
    hide RowOk, GrantOk, SecretsApart, Presentable;
    if step.RefreshWrite? {
      assert RequestOk(s, s.requests[step.req]);
    }
  }

  lemma RetiredIsRefused(s: State, t: Token)
    requires Retired(s, t.secret)
    ensures !AuthGuardAccepts(s, t)
  {
  }

  /** Tokens of a rotation that was replaced, or of a session that ended, are refused for ever. */
  lemma {:induction false} RetiredTokensAreRefused(r: Run, m: nat, n: nat, t: Token)
    requires IsRun(r) && m <= n <= |r.steps| && Retired(r.states[m], t.secret)
    ensures Retired(r.states[n], t.secret) && !AuthGuardAccepts(r.states[n], t)
    decreases n
  {
    hide Apply, Enabled, Inv, Retired, Accepts, IsRun;
    if m < n {
      StepOf(r, n - 1);
      RetiredTokensAreRefused(r, m, n - 1, t);
      RetiredStaysRetired(r.states[n - 1], r.steps[n - 1], t.secret);
    }
    RetiredIsRefused(r.states[n], t);
  }

  /** A step that changes or deletes a row retires the secret the row had. */
  lemma ReplacedSecretsRetire(s: State, step: Step, id: string)
    requires Inv(s) && Enabled(s, step) && id in s.devices
    requires id !in Apply(s, step).devices || Apply(s, step).devices[id].secret != s.devices[id].secret
    ensures Retired(Apply(s, step), s.devices[id].secret)
  {
    var t, secret := Apply(s, step), s.devices[id].secret;
    StepKeeps(s, step);
    assert RowOk(s, id);
    GrantsStay(s, step, secret);
    assert secret in t.stored by { hide Inv, RowOk; StoredStays(s, step, secret); }
    hide Apply, Enabled;
    forall other | other in t.devices
      ensures t.devices[other].secret != secret
    {
      assert RowOk(t, other);
    }
  }

  lemma StoredStays(s: State, step: Step, secret: string)
    requires Enabled(s, step) && secret in s.stored
    ensures secret in Apply(s, step).stored
  {
    hide Presentable;
  }

  /** After a logout or a password change no token of the session is ever accepted again. */
  lemma EndedSessionIsRefused(r: Run, n: nat, m: nat, t: Token)
    requires IsRun(r) && n < m <= |r.steps|
    requires r.steps[n].Logout? || r.steps[n].ChangeDelete?
    requires t.payload.sessionId in r.states[n].sessions
    requires t.payload.sessionId ==
             if r.steps[n].Logout? then r.steps[n].token.payload.sessionId
             else r.states[n].requests[r.steps[n].req].sessionId
    ensures t.payload.sessionId !in r.states[m].devices && !AuthGuardAccepts(r.states[m], t)
  {
    var id := t.payload.sessionId;
    assert id in r.states[n + 1].sessions && id !in r.states[n + 1].devices;
    hide Apply, Enabled;
    NoResurrection(r, n + 1, m, id);
  }

  // ----- what a step leaves alone

  /** The session whose row a step may change. */
  ghost function Target(s: State, step: Step): Option<string>
    requires Enabled(s, step)
  {
    match step
    case LoginSave(_, sessionId, _) => Some(sessionId)
    case RefreshWrite(req) => Some(s.requests[req].sessionId)
    case Logout(token) => Some(token.payload.sessionId)
    case ChangeDelete(req) => Some(s.requests[req].sessionId)
    case _ => None
  }

  /** A step changes the row of its own session at most.  In particular, the deletion that
      follows a failed verification deletes nothing: it looks for a device id, and the rows of
      these sessions have an empty one. */
  lemma OtherRowsStay(s: State, step: Step, id: string)
    requires Inv(s) && Enabled(s, step) && Target(s, step) != Some(id)
    ensures id in s.devices <==> id in Apply(s, step).devices
    ensures id in s.devices ==> Apply(s, step).devices[id] == s.devices[id]
  {
    hide GrantOk, SecretsApart, Presentable;
    assert id in s.devices ==> RowOk(s, id);
    if step.Reject? {
      assert RequestOk(s, s.requests[step.req]);
    }
  }

  /** A refresh that nothing interrupts: with the stored token it replaces the pair, the new pair
      is accepted, and the old secret retires, so that its tokens are never accepted again. */
  lemma UninterruptedRefresh(s: State, req: nat, token: Token, id: string, secret: string)
    requires Inv(s) && req !in s.requests && Fresh(s, secret)
    requires id in s.devices && s.devices[id].refresh == token
    ensures Enabled(s, RefreshGuard(req, token))
    ensures s.devices[id].user in s.users
    ensures var s1 := Apply(s, RefreshGuard(req, token));
            Enabled(s1, RefreshFind(req, Some(id), secret)) &&
            var s2 := Apply(s1, RefreshFind(req, Some(id), secret));
            Enabled(s2, RefreshWrite(req)) &&
            var s3, g := Apply(s2, RefreshWrite(req)), Grant(s.devices[id].user, s.users[s.devices[id].user].role, id);
            && AuthGuardAccepts(s3, Token(Access(g.userId, g.role, id), secret))
            && AuthGuardAccepts(s3, Token(Refresh(g.userId, id), secret))
            && Retired(s3, token.secret) && !AuthGuardAccepts(s3, token) && s3.requests == s.requests
  {
    assert RowOk(s, id);
    forall other | other in s.devices && other != id
      ensures s.devices[other].secret != token.secret
    {
      assert RowOk(s, other);
    }
    hide Inv;
  }

  // ----- how long a row lasts

  /** The step writes a rotation to the session, logs it out, or deletes it for a password change. */
  ghost predicate Replaces(s: State, step: Step, id: string)
    requires Enabled(s, step)
  {
    match step
    case RefreshWrite(req) => s.requests[req].sessionId == id
    case Logout(token) => token.payload.sessionId == id
    case ChangeDelete(req) => s.requests[req].sessionId == id
    case _ => false
  }

  lemma ReplacedOrKept(s: State, step: Step, id: string)
    requires Inv(s) && Enabled(s, step) && id in s.devices
    ensures if Replaces(s, step, id) then Retired(Apply(s, step), s.devices[id].secret)
            else id in Apply(s, step).devices && Apply(s, step).devices[id] == s.devices[id]
  {
    if Replaces(s, step, id) {
      assert RowOk(s, id);
      if step.RefreshWrite? {
        assert RequestOk(s, s.requests[step.req]);
      }
      ReplacedSecretsRetire(s, step, id);
    } else {
      hide RowOk;
      OtherRowsStay(s, step, id);
    }
  }

  /** No step from point `n` to point `m` replaced the session. */
  ghost predicate NeverReplaced(r: Run, n: nat, m: nat, id: string)
    requires IsRun(r) && m <= |r.steps|
  {
    forall k | n <= k < m :: !Replaces(r.states[k], r.steps[k], id)
  }

  lemma NeverReplacedStep(r: Run, n: nat, m: nat, id: string)
    requires IsRun(r) && n <= m <= |r.steps|
    ensures n == m ==> NeverReplaced(r, n, m, id)
    ensures n < m ==>
              Enabled(r.states[m - 1], r.steps[m - 1]) &&
              (NeverReplaced(r, n, m, id)
               <==> NeverReplaced(r, n, m - 1, id) && !Replaces(r.states[m - 1], r.steps[m - 1], id))
  {
    hide Enabled, Apply, Replaces;
  }

  /** Between any two points of a run, a row is the same unless some step replaced it, and then its
      secret has retired.  In particular, the rows of a user outlast a password change that another
      session of the user asked for. */
  lemma {:induction false} RowLastsUntilReplaced(r: Run, n: nat, m: nat, id: string)
    requires IsRun(r) && n <= m <= |r.steps| && id in r.states[n].devices
    ensures if NeverReplaced(r, n, m, id)
            then id in r.states[m].devices && r.states[m].devices[id] == r.states[n].devices[id]
            else Retired(r.states[m], r.states[n].devices[id].secret)
    decreases m
  {
    hide Apply, Enabled, Inv, NeverReplaced, Retired, IsRun;
    NeverReplacedStep(r, n, m, id);
    if n < m {
      StepOf(r, m - 1);
      var s, step := r.states[m - 1], r.steps[m - 1];
      RowLastsUntilReplaced(r, n, m - 1, id);
      if NeverReplaced(r, n, m - 1, id) {
        ReplacedOrKept(s, step, id);
      } else {
        RetiredStaysRetired(s, step, r.states[n].devices[id].secret);
      }
    }
  }

  /** A stored refresh token can still be exchanged later exactly when no step replaced its row
      in between. */
  lemma ExchangeableUntilReplaced(r: Run, n: nat, m: nat, id: string, t: Token)
    requires IsRun(r) && n <= m <= |r.steps| && id in r.states[n].devices && r.states[n].devices[id].refresh == t
    ensures Exchangeable(r.states[m], t) <==> NeverReplaced(r, n, m, id)
    ensures Exchangeable(r.states[m], t) <==>
              exists other :: other in r.states[m].devices && r.states[m].devices[other].refresh == t
  {
    hide NeverReplaced;
    RowLastsUntilReplaced(r, n, m, id);
    RunKeeps(r, n);
    RunKeeps(r, m);
    FoundRow(r.states[n], t, id);
    hide IsRun;
    ExchangeableIffStored(r.states[m], t);
    if other :| other in r.states[m].devices && r.states[m].devices[other].refresh == t {
      FoundRow(r.states[m], t, other);
    }
    hide Inv;
  }

  /** Of two refreshes with one token, after the first has found its row the second finds it too,
      and goes on to answer its client, exactly when no rotation, logout or password change of the
      session was written between the two queries. */
  lemma ExchangedAgainIff(r: Run, n: nat, m: nat)
    requires IsRun(r) && n < m < |r.steps|
    requires r.steps[n].RefreshFind? && r.steps[m].RefreshFind? && r.steps[n].found.Some?
    requires r.states[n].requests[r.steps[n].req].token == r.states[m].requests[r.steps[m].req].token
    ensures r.steps[m].found.Some? <==> NeverReplaced(r, n + 1, m, r.steps[n].found.value)
    ensures r.steps[m].found.Some? ==> r.steps[m].found == r.steps[n].found
    ensures r.steps[m].found.Some? <==> r.steps[m].req in r.states[m + 1].requests
  {
    var id, t := r.steps[n].found.value, r.states[n].requests[r.steps[n].req].token;
    assert NeverReplaced(r, n, m, id) <==> NeverReplaced(r, n + 1, m, id);
    RefreshFindsItsOwnRow(r, n);
    if r.steps[m].found.Some? {
      RefreshFindsItsOwnRow(r, m);
    }
    hide NeverReplaced;
    ExchangeableUntilReplaced(r, n, m, id, t);
  }

  // ----- one refresh token, exchanged twice

  const RACED := Token(Refresh(7, "a"), "0")

  /** A user logs in, and two refreshes with the same token interleave. */
  ghost function RaceStep(i: nat): Step
    requires i < 8
  {
    if i == 0 then LoginCheck(0, 7, "p")
    else if i == 1 then LoginSave(0, "a", "0")
    else if i == 2 then RefreshGuard(1, RACED)
    else if i == 3 then RefreshGuard(2, RACED)
    else if i == 4 then RefreshFind(1, Some("a"), "1")
    else if i == 5 then RefreshFind(2, Some("a"), "2")
    else if i == 6 then RefreshWrite(1)
    else RefreshWrite(2)
  }

  ghost function RaceRequests(i: nat): map<nat, Request> {
    if i == 1 then map[0 := LoggingIn(7, 1)]
    else if i == 3 then map[1 := Guarded(RACED)]
    else if i == 4 then map[1 := Guarded(RACED), 2 := Guarded(RACED)]
    else if i == 5 then map[1 := Rotating("a", 7, 1, "1"), 2 := Guarded(RACED)]
    else if i == 6 then map[1 := Rotating("a", 7, 1, "1"), 2 := Rotating("a", 7, 1, "2")]
    else if i == 7 then map[2 := Rotating("a", 7, 1, "2")]
    else map[]
  }

  ghost function RaceState(i: nat): State {
    var g := Grant(7, 1, "a");
    var secret := if i < 7 then "0" else if i == 7 then "1" else "2";
    State(
      map[7 := User(1, "p")],
      if i < 2 then map[] else map["a" := Device(7, "", secret, GenerateRefreshToken(g, secret))],
      RaceRequests(i),
      if i < 2 then map[] else if i < 5 then map["0" := g]
      else if i == 5 then map["0" := g, "1" := g] else map["0" := g, "1" := g, "2" := g],
      if i < 2 then {} else {"a"},
      if i < 2 then {} else if i < 7 then {"0"} else if i == 7 then {"0", "1"} else {"0", "1", "2"})
  }

  lemma RaceStarts(i: nat)
    requires i < 4
    ensures Enabled(RaceState(i), RaceStep(i)) && Apply(RaceState(i), RaceStep(i)) == RaceState(i + 1)
  {
  }

  lemma RaceFinds(i: nat)
    requires 4 <= i < 6
    ensures Enabled(RaceState(i), RaceStep(i)) && Apply(RaceState(i), RaceStep(i)) == RaceState(i + 1)
  {
  }

  lemma RaceEnds(i: nat)
    requires 6 <= i < 8
    ensures Enabled(RaceState(i), RaceStep(i)) && Apply(RaceState(i), RaceStep(i)) == RaceState(i + 1)
  {
  }

  /** Two refreshes with one token can both find the row before either writes.  Both answer their
      client, and the pair of the second write is the one that is accepted. */
  lemma TokenExchangedTwice() returns (r: Run)
    ensures IsRun(r) && |r.steps| == 8
    ensures r.steps[2] == RefreshGuard(1, RACED) && r.steps[3] == RefreshGuard(2, RACED)
    ensures r.steps[4].RefreshFind? && r.steps[4].found.Some? && r.steps[5].RefreshFind? && r.steps[5].found.Some?
    ensures r.steps[6] == RefreshWrite(1) && r.steps[7] == RefreshWrite(2) && r.states[8].requests == map[]
    ensures AuthGuardAccepts(r.states[8], Token(Access(7, 1, "a"), "2"))
    ensures !AuthGuardAccepts(r.states[8], Token(Access(7, 1, "a"), "1"))
  {
    r := Run(seq(9, i requires 0 <= i < 9 => RaceState(i)), seq(8, i requires 0 <= i < 8 => RaceStep(i)));
    hide Apply, Enabled;
    forall i | 0 <= i < 8
      ensures Enabled(r.states[i], r.steps[i]) && r.states[i + 1] == Apply(r.states[i], r.steps[i])
    {
      if i < 4 {
        RaceStarts(i);
      } else if i < 6 {
        RaceFinds(i);
      } else {
        RaceEnds(i);
      }
    }
  }
}
