/** Which password opened a session, along every interleaving of logins and password changes. */
module LoginRuns {
  import opened Options
  import opened Sessions
  import opened SessionRuns

  ghost predicate ChangesPassword(s: State, step: Step, user: int)
    requires Enabled(s, step)
  {
    step.ChangeWrite? && s.requests[step.req].userId == user
  }

  lemma PasswordStays(s: State, step: Step, user: int)
    requires Enabled(s, step) && user in s.users && !ChangesPassword(s, step, user)
    ensures user in Apply(s, step).users && Apply(s, step).users[user] == s.users[user]
  {
    hide Presentable, Finds, Fresh;
  }

  lemma {:induction false} PasswordLasts(r: Run, n: nat, m: nat, user: int)
    requires IsRun(r) && n <= m <= |r.steps| && user in r.states[n].users
    requires forall k | n <= k < m :: !ChangesPassword(r.states[k], r.steps[k], user)
    ensures user in r.states[m].users && r.states[m].users[user] == r.states[n].users[user]
    decreases m
  {
    hide Apply, Enabled, Inv, IsRun, ChangesPassword;
    if n < m {
      StepOf(r, m - 1);
      PasswordLasts(r, n, m - 1, user);
      PasswordStays(r.states[m - 1], r.steps[m - 1], user);
    }
  }

  /** Once a password change is complete, and until the user changes it again, the new password,
      and only it, passes the login check. */
  lemma ChangedPasswordDecidesLogin(r: Run, n: nat, m: nat, user: int, q: nat, password: string)
    requires IsRun(r) && n < m <= |r.steps| && user in r.states[n].users
    requires ChangesPassword(r.states[n], r.steps[n], user)
    requires forall k | n < k < m :: !ChangesPassword(r.states[k], r.steps[k], user)
    requires q !in r.states[m].requests
    ensures var s, after := r.states[m], Apply(r.states[m], LoginCheck(q, user, password));
            if password == r.states[n].requests[r.steps[n].req].password
            then user in s.users && after.requests == s.requests[q := LoggingIn(user, s.users[user].role)]
            else after == s
  {
    PasswordLasts(r, n + 1, m, user);
  }

  /** Only its own save moves a checked login along. */
  lemma RequestWaits(s: State, step: Step, req: nat)
    requires Enabled(s, step) && req in s.requests && s.requests[req].LoggingIn?
    requires !(step.LoginSave? && step.req == req)
    ensures req in Apply(s, step).requests && Apply(s, step).requests[req] == s.requests[req]
  {
    hide Presentable, Finds, Fresh;
  }

  lemma {:induction false} LoginWaits(r: Run, n: nat, m: nat, req: nat)
    requires IsRun(r) && n <= m <= |r.steps|
    requires req in r.states[n].requests && r.states[n].requests[req].LoggingIn?
    requires forall k | n <= k < m :: !(r.steps[k].LoginSave? && r.steps[k].req == req)
    ensures req in r.states[m].requests && r.states[m].requests[req] == r.states[n].requests[req]
    decreases m
  {
    hide Apply, Enabled, Inv, IsRun;
    if n < m {
      LoginWaits(r, n, m - 1, req);
      StepOf(r, m - 1);
      RequestWaits(r.states[m - 1], r.steps[m - 1], req);
    }
  }

  lemma SavedLoginIsAccepted(s: State, req: nat, id: string, secret: string)
    requires req in s.requests && s.requests[req].LoggingIn?
    requires id != "" && id !in s.sessions && Fresh(s, secret)
    ensures Enabled(s, LoginSave(req, id, secret))
    ensures var t, g := Apply(s, LoginSave(req, id, secret)), Grant(s.requests[req].user, s.requests[req].role, id);
            && AuthGuardAccepts(t, Token(Access(g.userId, g.role, id), secret))
            && AuthGuardAccepts(t, Token(Refresh(g.userId, id), secret))
  {
  }

  /** A login that has passed its check saves its session, with a pair that is accepted, even if
      the password was changed in the meantime. */
  lemma CheckedLoginStillSaves(r: Run, n: nat, m: nat, req: nat, id: string, secret: string)
    requires IsRun(r) && n <= m <= |r.steps|
    requires req in r.states[n].requests && r.states[n].requests[req].LoggingIn?
    requires forall k | n <= k < m :: !(r.steps[k].LoginSave? && r.steps[k].req == req)
    requires id != "" && id !in r.states[m].sessions && Fresh(r.states[m], secret)
    ensures Enabled(r.states[m], LoginSave(req, id, secret))
    ensures var t, q := Apply(r.states[m], LoginSave(req, id, secret)), r.states[n].requests[req];
            var g := Grant(q.user, q.role, id);
            && AuthGuardAccepts(t, Token(Access(g.userId, g.role, id), secret))
            && AuthGuardAccepts(t, Token(Refresh(g.userId, id), secret))
  {
    hide IsRun, Fresh, Enabled, Apply, Accepts;
    LoginWaits(r, n, m, req);
    SavedLoginIsAccepted(r.states[m], req, id, secret);
  }

  /** What a step does to a checked login: only its own check starts it. */
  lemma LoginBegins(s: State, step: Step, req: nat)
    requires Enabled(s, step) && req in Apply(s, step).requests && Apply(s, step).requests[req].LoggingIn?
    ensures var q := Apply(s, step).requests[req];
            if req in s.requests && s.requests[req].LoggingIn?
            then s.requests[req] == q && !(step.LoginSave? && step.req == req)
            else step.LoginCheck? && step.req == req && step.user == q.user
                 && q.user in s.users && s.users[q.user].password == step.password
  {
    hide Presentable, Finds, Fresh;
  }

  /** Step `k` checked the password of a user for a login, and the password matched. */
  ghost predicate ChecksLogin(r: Run, k: nat, req: nat, user: int)
    requires k < |r.steps| < |r.states|
  {
    && r.steps[k].LoginCheck? && r.steps[k].req == req && r.steps[k].user == user
    && user in r.states[k].users && r.states[k].users[user].password == r.steps[k].password
  }

  /** Every login under way has passed its check. */
  lemma {:induction false} LoginWasChecked(r: Run, n: nat, req: nat) returns (k: nat)
    requires IsRun(r) && n <= |r.steps| && req in r.states[n].requests && r.states[n].requests[req].LoggingIn?
    ensures k < n && ChecksLogin(r, k, req, r.states[n].requests[req].user)
    decreases n
  {
    assert n > 0;
    StepOf(r, n - 1);
    hide Apply, Enabled, Inv, IsRun;
    LoginBegins(r.states[n - 1], r.steps[n - 1], req);
    if req in r.states[n - 1].requests && r.states[n - 1].requests[req].LoggingIn? {
      k := LoginWasChecked(r, n - 1, req);
    } else {
      k := n - 1;
    }
  }

  lemma RowBegins(s: State, step: Step, id: string)
    requires Enabled(s, step) && id in Apply(s, step).devices
    ensures if step.LoginSave? && step.sessionId == id then Apply(s, step).devices[id].user == s.requests[step.req].user
            else id in s.devices && s.devices[id].user == Apply(s, step).devices[id].user
  {
    hide Presentable, Finds, Fresh;
  }

  /** Every session was saved by a login, and that login had passed the check of the password the
      user of the session had then. */
  lemma {:induction false} SessionWasChecked(r: Run, n: nat, id: string) returns (k: nat, m: nat)
    requires IsRun(r) && n <= |r.steps| && id in r.states[n].devices
    ensures k < m < n && r.steps[m].LoginSave? && r.steps[m].sessionId == id
    ensures ChecksLogin(r, k, r.steps[m].req, r.states[n].devices[id].user)
    decreases n
  {
    assert n > 0;
    StepOf(r, n - 1);
    RowBegins(r.states[n - 1], r.steps[n - 1], id);
    hide Apply, Inv, IsRun;
    if r.steps[n - 1].LoginSave? && r.steps[n - 1].sessionId == id {
      m := n - 1;
      k := LoginWasChecked(r, m, r.steps[m].req);
    } else {
      k, m := SessionWasChecked(r, n - 1, id);
    }
  }

  /** Step `j` is the last one before point `m` that changed the password of the user. */
  ghost predicate LastChange(r: Run, j: nat, m: nat, user: int)
    requires IsRun(r) && j < m <= |r.steps|
  {
    && ChangesPassword(r.states[j], r.steps[j], user)
    && forall l | j < l < m :: !ChangesPassword(r.states[l], r.steps[l], user)
  }

  /** The password that step `j` writes. */
  ghost function Written(r: Run, j: nat): string
    requires IsRun(r) && j < |r.steps| && r.steps[j].ChangeWrite?
  {
    r.states[j].requests[r.steps[j].req].password
  }

  lemma ChangeIsWritten(s: State, step: Step, user: int)
    requires Enabled(s, step) && ChangesPassword(s, step, user) && user in s.users
    ensures user in Apply(s, step).users && Apply(s, step).users[user].password == s.requests[step.req].password
  {
  }

  lemma LastChangeStep(r: Run, j: nat, n: nat, user: int)
    requires IsRun(r) && j < n <= |r.steps|
    ensures LastChange(r, j, n, user) <==>
              if ChangesPassword(r.states[n - 1], r.steps[n - 1], user) then j == n - 1
              else j < n - 1 && LastChange(r, j, n - 1, user)
  {
    hide ChangesPassword, Enabled, Apply;
  }

  /** The last change of the password from point `k` to point `n`, if there is one, wrote another
      password than the given one. */
  ghost predicate ChangedAway(r: Run, k: nat, n: nat, user: int, password: string)
    requires IsRun(r) && n <= |r.steps|
  {
    exists j | k <= j < n :: LastChange(r, j, n, user) && Written(r, j) != password
  }

  lemma ChangedAwayStep(r: Run, k: nat, n: nat, user: int, password: string)
    requires IsRun(r) && k <= n <= |r.steps|
    ensures k == n ==> !ChangedAway(r, k, n, user, password)
    ensures k < n ==>
              Enabled(r.states[n - 1], r.steps[n - 1]) &&
              (ChangedAway(r, k, n, user, password)
               <==> if ChangesPassword(r.states[n - 1], r.steps[n - 1], user)
                    then r.states[n - 1].requests[r.steps[n - 1].req].password != password
                    else ChangedAway(r, k, n - 1, user, password))
  {
    if k < n {
      StepOf(r, n - 1);
      forall j: nat | k <= j < n
        ensures LastChange(r, j, n, user) <==>
                  if ChangesPassword(r.states[n - 1], r.steps[n - 1], user) then j == n - 1
                  else j < n - 1 && LastChange(r, j, n - 1, user)
      {
        LastChangeStep(r, j, n, user);
      }
      hide Apply, Enabled, Inv, LastChange, IsRun;
      assert ChangesPassword(r.states[n - 1], r.steps[n - 1], user) ==>
          LastChange(r, n - 1, n, user)
          && Written(r, n - 1) == r.states[n - 1].requests[r.steps[n - 1].req].password;
    }
  }

  lemma {:induction false} PasswordIsLastWritten(r: Run, k: nat, n: nat, user: int)
    requires IsRun(r) && k <= n <= |r.steps| && user in r.states[k].users
    ensures user in r.states[n].users
    ensures r.states[n].users[user].password == r.states[k].users[user].password
       <==> !ChangedAway(r, k, n, user, r.states[k].users[user].password)
    decreases n
  {
    hide IsRun, Apply, Enabled, Inv, ChangesPassword, ChangedAway;
    ChangedAwayStep(r, k, n, user, r.states[k].users[user].password);
    if k < n {
      var s, step := r.states[n - 1], r.steps[n - 1];
      PasswordIsLastWritten(r, k, n - 1, user);
      StepOf(r, n - 1);
      if ChangesPassword(s, step, user) {
        ChangeIsWritten(s, step, user);
      } else {
        PasswordStays(s, step, user);
      }
    }
  }

  /** The password that was checked when a session was opened is still the password of its user
      exactly unless the last change written since the check set another. */
  lemma SessionPasswordIsCurrentIff(r: Run, n: nat, id: string) returns (k: nat, m: nat)
    requires IsRun(r) && n <= |r.steps| && id in r.states[n].devices
    ensures k < m < n && r.steps[m].LoginSave? && r.steps[m].sessionId == id
    ensures ChecksLogin(r, k, r.steps[m].req, r.states[n].devices[id].user)
    ensures var user := r.states[n].devices[id].user;
            && user in r.states[n].users
            && (r.states[n].users[user].password == r.steps[k].password
                <==> !ChangedAway(r, k, n, user, r.steps[k].password))
  {
    k, m := SessionWasChecked(r, n, id);
    hide IsRun, ChangedAway;
    PasswordIsLastWritten(r, k, n, r.states[n].devices[id].user);
  }

  ghost predicate Checking(q: Request) {
    q.Checked? || q.Deleted?
  }

  /** The step let a password change of the user pass, with the password the user has. */
  ghost predicate ChecksChange(s: State, step: Step, req: nat, user: int, password: string) {
    && step.ChangeCheck? && step.req == req && step.newPassword == password
    && user in s.users && s.users[user].password == step.oldPassword
  }

  /** What a password change past its check knows of it. */
  lemma ChangeBegins(s: State, step: Step, req: nat)
    requires Enabled(s, step) && req in Apply(s, step).requests && Checking(Apply(s, step).requests[req])
    ensures var q := Apply(s, step).requests[req];
            if req in s.requests && Checking(s.requests[req])
            then s.requests[req].userId == q.userId && s.requests[req].password == q.password
            else ChecksChange(s, step, req, q.userId, q.password)
  {
    hide Presentable, Finds, Fresh;
  }

  lemma {:induction false} ChangeBegan(r: Run, n: nat, req: nat) returns (k: nat)
    requires IsRun(r) && n <= |r.steps| && req in r.states[n].requests && Checking(r.states[n].requests[req])
    ensures var q := r.states[n].requests[req];
            k < n && ChecksChange(r.states[k], r.steps[k], req, q.userId, q.password)
    decreases n
  {
    assert n > 0;
    StepOf(r, n - 1);
    hide IsRun, Apply, Enabled, Inv, ChecksChange;
    ChangeBegins(r.states[n - 1], r.steps[n - 1], req);
    if req in r.states[n - 1].requests && Checking(r.states[n - 1].requests[req]) {
      k := ChangeBegan(r, n - 1, req);
    } else {
      k := n - 1;
    }
  }

  /** Every password that is written was asked for by a request that had given the password the user
      had at that moment. */
  lemma ChangeWasChecked(r: Run, n: nat, user: int) returns (k: nat)
    requires IsRun(r) && n < |r.steps| && ChangesPassword(r.states[n], r.steps[n], user)
    ensures k < n && r.steps[k].ChangeCheck? && r.steps[k].req == r.steps[n].req
    ensures user in r.states[k].users && r.states[k].users[user].password == r.steps[k].oldPassword
    ensures user in r.states[n + 1].users ==> r.states[n + 1].users[user].password == r.steps[k].newPassword
  {
    StepOf(r, n);
    k := ChangeBegan(r, n, r.steps[n].req);
    hide IsRun, Inv;
  }

  // ----- a session opened under the old password

  const OLD := Grant(7, 1, "a")
  const NEW := Grant(7, 1, "b")

  /** A login passes its check, another session of the user changes the password, and the login
      saves its session. */
  ghost function OvertakenStep(i: nat): Step
    requires i < 8
  {
    if i == 0 then LoginCheck(0, 7, "p")
    else if i == 1 then LoginSave(0, "a", "0")
    else if i == 2 then LoginCheck(1, 7, "p")
    else if i == 3 then ChangeGuard(2, GenerateAccessToken(OLD, "0"))
    else if i == 4 then ChangeCheck(2, "p", "q")
    else if i == 5 then ChangeDelete(2)
    else if i == 6 then ChangeWrite(2)
    else LoginSave(1, "b", "1")
  }

  ghost function OvertakenRequests(i: nat): map<nat, Request> {
    var waiting := LoggingIn(7, 1);
    if i == 1 then map[0 := waiting]
    else if i == 3 || i == 7 then map[1 := waiting]
    else if i == 4 then map[1 := waiting, 2 := Changing(7, "a")]
    else if i == 5 then map[1 := waiting, 2 := Checked(7, "a", "q")]
    else if i == 6 then map[1 := waiting, 2 := Deleted(7, "q")]
    else map[]
  }

  ghost function OvertakenDevices(i: nat): map<string, Device> {
    if 2 <= i < 6 then map["a" := Device(7, "", "0", GenerateRefreshToken(OLD, "0"))]
    else if i == 8 then map["b" := Device(7, "", "1", GenerateRefreshToken(NEW, "1"))]
    else map[]
  }

  ghost function OvertakenState(i: nat): State {
    State(
      map[7 := User(1, if i < 7 then "p" else "q")], OvertakenDevices(i), OvertakenRequests(i),
      if i < 2 then map[] else if i < 8 then map["0" := OLD] else map["0" := OLD, "1" := NEW],
      if i < 2 then {} else if i < 8 then {"a"} else {"a", "b"},
      if i < 2 then {} else if i < 8 then {"0"} else {"0", "1"})
  }

  lemma OvertakenLogsIn(i: nat)
    requires i < 3
    ensures Enabled(OvertakenState(i), OvertakenStep(i))
    ensures Apply(OvertakenState(i), OvertakenStep(i)) == OvertakenState(i + 1)
  {
  }

  lemma OvertakenChanges(i: nat)
    requires 3 <= i < 6
    ensures Enabled(OvertakenState(i), OvertakenStep(i))
    ensures Apply(OvertakenState(i), OvertakenStep(i)) == OvertakenState(i + 1)
  {
  }

  lemma OvertakenSaves(i: nat)
    requires 6 <= i < 8
    ensures Enabled(OvertakenState(i), OvertakenStep(i))
    ensures Apply(OvertakenState(i), OvertakenStep(i)) == OvertakenState(i + 1)
  {
  }

  /** The session is saved, and its tokens pass, although the password that opened it is no longer
      the password of its user. */
  lemma SessionUnderOldPassword() returns (r: Run)
    ensures IsRun(r) && |r.steps| == 8
    ensures r.steps[2] == LoginCheck(1, 7, "p") && r.steps[6] == ChangeWrite(2) && r.steps[7] == LoginSave(1, "b", "1")
    ensures 7 in r.states[8].users && r.states[8].users[7].password == "q"
    ensures AuthGuardAccepts(r.states[8], Token(Access(7, 1, "b"), "1"))
  {
    r := Run(seq(9, i requires 0 <= i < 9 => OvertakenState(i)), seq(8, i requires 0 <= i < 8 => OvertakenStep(i)));
    hide Apply, Enabled;
    forall i | 0 <= i < 8
      ensures Enabled(r.states[i], r.steps[i]) && r.states[i + 1] == Apply(r.states[i], r.steps[i])
    {
      if i < 3 {
        OvertakenLogsIn(i);
      } else if i < 6 {
        OvertakenChanges(i);
      } else {
        OvertakenSaves(i);
      }
    }
  }
}
