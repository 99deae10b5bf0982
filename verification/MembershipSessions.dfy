/** How long a session lasts, over every run of the membership endpoints. */
module MembershipSessions {
  import opened Common
  import opened MembershipModel
  import opened MembershipRuns

  /** The endpoint draws this token for a session it may open. */
  predicate Draws(e: Step, token: nat) {
    match e
    case SigningUp(_, _, t, _) => t == token
    case LoggingIn(_, _, t, _) => t == token
    case Creating(_, _, _, _, t, _) => t == token
    case Entering(_, _, t, _) => t == token
    case Joining(_, _, _, _, _, t, _) => t == token
    case _ => false
  }

  /** Tokens are random: no later session gets the same one. */
  predicate NeverDraws(run: seq<Step>, token: nat) { forall e | e in run :: !Draws(e, token) }

  /** The token is presented for logging out while it is good. */
  predicate LogsOut(e: Step, token: nat, expiry: int) { e.LoggingOut? && e.token == token && e.now < expiry }

  predicate NeverLogsOut(run: seq<Step>, token: nat, expiry: int) { forall e | e in run :: !LogsOut(e, token, expiry) }

  predicate IsActive(s: State, u: nat) { u in s.users && s.users[u].deactivatedAt.None? }

  /** Identity, user, workspace and expiry of a session are never changed, only its role. */
  predicate SameSession(x: Session, x': Session) { x'.(role := x.role) == x }

  // ---------- One step ----------

  /** Endpoints that add sessions keep those there are. */
  lemma AddingKeeps(s: State, e: Step, token: nat)
    requires Inv(s) && Possible(s, e) && !Draws(e, token)
    requires !e.ChangingRole? && !e.Deactivating? && !e.LoggingOut?
    ensures token in Next(s, e).sessions <==> token in s.sessions
    ensures token in s.sessions ==> Next(s, e).sessions[token] == s.sessions[token]
    ensures forall u | u in s.users :: u in Next(s, e).users && Next(s, e).users[u] == s.users[u]
  {
    match e
    case SigningUp(email, i, t, now) => SignUpOutcome(s, email, i, t, now);
    case LoggingIn(email, i, t, now) => LoginOutcome(s, email, i, t, now);
    case Creating(x, w, u, i, t, now) => CreateWorkspaceOutcome(s, x, w, u, i, t, now);
    case Entering(x, w, t, now) => EnteringKeeps(s, x, w, t, now, token);
    case Joining(x, w, admitted, u, i, t, now) => JoinOutcome(s, x, w, admitted, u, i, t, now);
  }

  lemma EnteringKeeps(s: State, x: nat, w: nat, newToken: nat, now: int, token: nat)
    requires Inv(s) && token != newToken
    ensures var s1 := LoginWorkspace(s, x, w, newToken, now).state;
      && (token in s1.sessions <==> token in s.sessions)
      && (token in s.sessions ==> s1.sessions[token] == s.sessions[token]) && s1.users == s.users
  {
    EnterOutcome(s, x, w, newToken, now);
    EnterKeeps(s, x, w, newToken, now);
    var caller := AuthIdentity(s, x, now);
    if caller.Some? && IsMember(s, caller.value.identity, w) {
      var u :| u in s.users && s.users[u].identity == caller.value.identity && s.users[u].workspace == w
               && s.users[u].deactivatedAt.None?;
    }
  }

  /** A session of an active user survives a step exactly if it is neither logged out nor its user deactivated. */
  lemma StepKeepsSession(s: State, e: Step, token: nat)
    requires Inv(s) && Possible(s, e) && !Draws(e, token) && token in s.sessions
    ensures var (x, s1) := (s.sessions[token], Next(s, e));
      && (token in s1.sessions <==>
        x.user.None? || (IsActive(s1, x.user.value) && !LogsOut(e, token, x.expiry)))
      && (token in s1.sessions ==> SameSession(x, s1.sessions[token]))
  {
    assert SessionOk(s, s.sessions[token]);
    match e
    case ChangingRole(t, target, role, now) => UpdateRoleOutcome(s, t, target, role, now);
    case Deactivating(t, target, now) => DeactivateOutcome(s, t, target, now);
    case LoggingOut(t, now) => LogoutOutcome(s, t, now);
    case _ => AddingKeeps(s, e, token);
  }

  /** A session that is gone stays away. */
  lemma StepKeepsAway(s: State, e: Step, token: nat)
    requires Inv(s) && Possible(s, e) && !Draws(e, token) && token !in s.sessions
    ensures token !in Next(s, e).sessions
  {
    match e
    case ChangingRole(t, target, role, now) => UpdateRoleOutcome(s, t, target, role, now);
    case Deactivating(t, target, now) => DeactivateOutcome(s, t, target, now);
    case LoggingOut(t, now) => LogoutOutcome(s, t, now);
    case _ => AddingKeeps(s, e, token);
  }

  // ---------- Runs ----------

  lemma {:induction false} StaysAway(s: State, run: seq<Step>, token: nat)
    requires Inv(s) && PossibleRun(s, run) && NeverDraws(run, token) && token !in s.sessions
    ensures token !in Run(s, run).sessions
    decreases |run|
  {
    if run != [] {
      assert run == [run[0]] + run[1..];
      StepKeepsAway(s, run[0], token);
      StepKeepsInv(s, run[0]);
      StaysAway(Next(s, run[0]), run[1..], token);
    }
  }

  lemma DeactivatedStays(s: State, run: seq<Step>, u: nat)
    requires Inv(s) && PossibleRun(s, run) && u in s.users && !IsActive(s, u)
    ensures !IsActive(Run(s, run), u)
  {
    DeactivatedForever(s, u, run);
  }

  lemma UsersRemain(s: State, e: Step, u: nat)
    requires Inv(s) && Possible(s, e) && u in s.users
    ensures u in Next(s, e).users
  {
    RowsChange(s, e, u);
  }

  /** Over every run a stored session is there at the end if and only if it names no user, or its user is still active
      and the token was never presented for logging out before its expiry. */
  lemma {:induction false} SessionLasts(s: State, run: seq<Step>, token: nat)
    requires Inv(s) && PossibleRun(s, run) && NeverDraws(run, token) && token in s.sessions
    ensures var (x, t) := (s.sessions[token], Run(s, run));
      && (token in t.sessions <==>
        x.user.None? || (IsActive(t, x.user.value) && NeverLogsOut(run, token, x.expiry)))
      && (token in t.sessions ==> SameSession(x, t.sessions[token]))
    decreases |run|
  {
    var x := s.sessions[token];
    assert SessionOk(s, x);
    if run != [] {
      var s1 := Next(s, run[0]);
      assert run == [run[0]] + run[1..];
      StepKeepsSession(s, run[0], token);
      StepKeepsInv(s, run[0]);
      if token in s1.sessions {
        SessionLasts(s1, run[1..], token);
      } else {
        StaysAway(s1, run[1..], token);
        UsersRemain(s, run[0], x.user.value);
        if !IsActive(s1, x.user.value) { DeactivatedStays(s1, run[1..], x.user.value); }
      }
    }
  }

  /** The session a login opens authenticates its member for exactly thirty days from then, as long as the token was not
      presented for logging out in that time and the user is not deactivated; one that names no user authenticates the
      identity for that long, and nothing ends it earlier. */
  lemma LoginLasts(s: State, e: Step, run: seq<Step>, at: int)
    requires Inv(s) && Possible(s, e) && e.LoggingIn?
    requires PossibleRun(Next(s, e), run) && NeverDraws(run, e.newToken)
    ensures e.newToken in Next(s, e).sessions
    ensures var (user, t) := (Next(s, e).sessions[e.newToken].user, Run(Next(s, e), run));
      var lasts := at < e.now + 2592000
        && (user.Some? ==> IsActive(t, user.value) && NeverLogsOut(run, e.newToken, e.now + 2592000));
      && (AuthWorkspace(t, e.newToken, at).Some? <==> user.Some? && lasts)
      && (AuthIdentity(t, e.newToken, at).Some? <==> lasts)
  {
    var s1 := Next(s, e);
    LoginOutcome(s, e.email, e.newIdentity, e.newToken, e.now);
    StepKeepsInv(s, e);
    assert SessionOk(s1, s1.sessions[e.newToken]);
    SessionLasts(s1, run, e.newToken);
    RunKeepsInv(s1, run);
    TokenOutcome(Run(s1, run), e.newToken, at);
  }
}
